/**
 * A whole generated file read back: its comment blocks, its lines, where
 * the parser finds the declaration and the closing, and the entries it
 * reads; then generating from those entries with the generated file as
 * reference gives the same text again.
 */
module Regenerate {
  import opened Wrappers
  import opened Text
  import opened JsObjects
  import opened Entries
  import opened Grammar
  import opened Parse
  import opened Generate
  import opened RoundTrip

  // ---------------------------------------------------------------
  // Comment blocks
  // ---------------------------------------------------------------

  /** A text the block expression matches whole, from its opener to its first closer after one character. */
  predicate IsBlock(b: string) {
    && 5 <= |b| && OccursAt(b, "/*", 0) && OccursAt(b, "*/", |b| - 2)
    && forall k :: 3 <= k < |b| - 2 ==> !OccursAt(b, "*/", k)
  }

  lemma OccursShift(s: string, off: nat, b: string, p: string, k: nat)
    requires off + |b| <= |s| && s[off..off + |b|] == b && k + |p| <= |b|
    ensures OccursAt(s, p, off + k) <==> OccursAt(b, p, k)
  {
    assert forall i :: k <= i < k + |p| ==> b[i] == s[off + i];
    assert s[off + k..off + k + |p|] == b[k..k + |p|];
  }

  lemma {:induction false} FirstAtIs(s: string, p: string, i: nat, j: nat)
    requires i <= j < |s| && OccursAt(s, p, j)
    requires forall k :: i <= k < j ==> !OccursAt(s, p, k)
    ensures FirstAt(s, p, i) == j
    decreases j - i
  {
    if i < j {
      FirstAtIs(s, p, i + 1, j);
    }
  }

  /** A block placed at `off`, with no opener between `from` and it, is the next match found from `from`. */
  lemma BlockAt(s: string, from: nat, off: nat, b: string)
    requires from <= off && off + |b| <= |s| && s[off..off + |b|] == b && IsBlock(b)
    requires forall k :: from <= k < off ==> !OccursAt(s, "/*", k)
    ensures FindBlock(s, from) == Some((off, off + |b|))
  {
    OccursShift(s, off, b, "/*", 0);
    FirstAtIs(s, "/*", from, off);
    CloserAt(s, off, b);
    assert FirstAt(s, "/*", from) == off && FirstAt(s, "*/", off + 3) == off + |b| - 2;
  }

  /** The first closer after a block's opener, in the text that holds it, is the block's own. */
  lemma CloserAt(s: string, off: nat, b: string)
    requires off + |b| <= |s| && s[off..off + |b|] == b && IsBlock(b)
    ensures FirstAt(s, "*/", off + 3) == off + |b| - 2
  {
    OccursShift(s, off, b, "*/", |b| - 2);
    forall k | off + 3 <= k < off + |b| - 2 ensures !OccursAt(s, "*/", k) {
      OccursShift(s, off, b, "*/", k - off);
    }
    FirstAtIs(s, "*/", off + 3, off + |b| - 2);
  }

  /** One step of the matching loop. */
  lemma CommentBlocksStep(s: string, from: nat)
    requires from <= |s|
    ensures FindBlock(s, from).None? ==> CommentBlocks(s, from) == []
    ensures FindBlock(s, from).Some? ==> var (i, e) := FindBlock(s, from).value;
      CommentBlocks(s, from) == [s[i..e]] + CommentBlocks(s, e)
  {
  }

  /** The two blocks generation keeps are the first two matches, one after the other. */
  lemma BlocksFound(file: string)
    requires Blocks(file).Some?
    ensures FindBlock(file, 0).Some?
    ensures var (i, e) := FindBlock(file, 0).value;
      && FindBlock(file, e).Some?
      && Blocks(file).value.0 == file[i..e]
      && var (i2, e2) := FindBlock(file, e).value; Blocks(file).value.1 == file[i2..e2]
  {
    CommentBlocksStep(file, 0);
    var e := FindBlock(file, 0).value.1;
    CommentBlocksStep(file, e);
  }

  /** The first two blocks of any text satisfy the block predicate. */
  lemma BlocksAreBlocks(file: string)
    requires Blocks(file).Some?
    ensures IsBlock(Blocks(file).value.0) && IsBlock(Blocks(file).value.1)
  {
    BlocksFound(file);
    FoundIsBlock(file, 0);
    FoundIsBlock(file, FindBlock(file, 0).value.1);
  }

  lemma FoundIsBlock(s: string, from: nat)
    requires from <= |s| && FindBlock(s, from).Some?
    ensures var (i, e) := FindBlock(s, from).value; IsBlock(s[i..e])
  {
    var (i, e) := FindBlock(s, from).value;
    var b := s[i..e];
    OccursShift(s, i, b, "/*", 0);
    OccursShift(s, i, b, "*/", |b| - 2);
    forall k | 3 <= k < |b| - 2 ensures !OccursAt(b, "*/", k) {
      OccursShift(s, i, b, "*/", k);
    }
  }

  // ---------------------------------------------------------------
  // No comment opener between the two blocks
  // ---------------------------------------------------------------

  lemma NoSlashNoOpener(s: string)
    requires '/' !in s
    ensures NoOpener(s)
  {
    forall i | 0 <= i < |s| - 1 ensures s[i] != '/' {
      assert s[i] in s;
    }
  }

  lemma NoOpenerAppend(a: string, b: string)
    requires NoOpener(a) && NoOpener(b)
    requires |a| == 0 || |b| == 0 || a[|a| - 1] != '/' || b[0] != '*'
    ensures NoOpener(a + b)
  {
    var s := a + b;
    forall i | 0 <= i < |s| - 1 ensures !(s[i] == '/' && s[i + 1] == '*') {
      if i + 1 < |a| {
        assert s[i] == a[i] && s[i + 1] == a[i + 1];
      } else if i >= |a| {
        assert s[i] == b[i - |a|] && s[i + 1] == b[i + 1 - |a|];
      }
    }
  }

  lemma KeyPrefixNoOpener(key: string)
    requires forall i :: 0 <= i < |key| ==> IsKeyChar(key[i])
    ensures NoOpener(KeyPrefix(key))
  {
    var kp := KeyPrefix(key);
    forall i | 0 <= i < |kp| ensures kp[i] != '/' {
      if 3 <= i < 3 + |key| {
        assert kp[i] == key[i - 3];
      }
    }
    NoSlashNoOpener(kp);
  }

  /** An entry line of a canonical entry holds no comment opener. */
  lemma EntryLineNoOpener(key: string, e: Entry, last: bool)
    requires Canonical(key, e)
    ensures NoOpener(EntryLine(key, e, last))
  {
    var rest := Comma(last) + MarkerText(e.noCF);
    EntryLineParts(key, e, last);
    var kp := KeyPrefix(key);
    KeyPrefixNoOpener(key);
    NoOpenerAppend(kp, e.target);
    NoSlashNoOpener("\"");
    NoOpenerAppend(kp + e.target, "\"");
    NoSlashNoOpener(Comma(last));
    if Present(e.noCF) {
      NoSlashNoOpener(" ");
      NoOpenerAppend(" ", e.noCF.value);
    }
    NoOpenerAppend(Comma(last), MarkerText(e.noCF));
    NoOpenerAppend(kp + e.target + "\"", rest);
    assert EntryLine(key, e, last) == kp + e.target + "\"" + rest;
  }

  lemma {:induction false} JoinNoOpener(xs: seq<string>)
    requires forall i :: 0 <= i < |xs| ==> NoOpener(xs[i])
    ensures NoOpener(Join(xs, "\n"))
    decreases |xs|
  {
    if |xs| > 1 {
      JoinNoOpener(xs[1..]);
      NoSlashNoOpener("\n");
      NoOpenerAppend(xs[0], "\n");
      NoOpenerAppend(xs[0] + "\n", Join(xs[1..], "\n"));
    }
  }

  /** What the generator writes between the two blocks. */
  function Middle(lines: seq<string>): string {
    var n := "\n";
    n + "" + n + VarDeclaration + n + Join(lines, n) + n + "  "
  }

  lemma Regroup(h: string, n: string, e: string, v: string, j: string, sp: string, f: string, c: string)
    ensures h + n + e + n + v + n + j + n + (sp + f) + n + c + n + e ==
      h + (n + e + n + v + n + j + n + sp) + f + (n + c + n + e)
  {
  }

  lemma LayoutParts(header: string, lines: seq<string>, footer: string)
    ensures Layout(header, lines, footer) == header + Middle(lines) + footer + "\n}\n"
  {
    Regroup(header, "\n", "", VarDeclaration, Join(lines, "\n"), "  ", footer, "}");
    assert "\n" + "}" + "\n" + "" == "\n}\n";
  }

  lemma MiddleNoOpener(lines: seq<string>)
    requires forall i :: 0 <= i < |lines| ==> NoOpener(lines[i])
    ensures NoOpener(Middle(lines))
  {
    var n := "\n";
    var head := n + "" + n + VarDeclaration + n;
    NoSlashNoOpener(head);
    NoSlashNoOpener(n + "  ");
    JoinNoOpener(lines);
    NoOpenerAppend(head, Join(lines, n));
    NoOpenerAppend(head + Join(lines, n), n + "  ");
  }

  lemma Parts4(h: string, m: string, f: string, t: string)
    ensures var g := h + m + f + t;
      && |g| == |h| + |m| + |f| + |t|
      && g[..|h|] == h && g[|h|..|h| + |m|] == m && g[|h| + |m|..|h| + |m| + |f|] == f
  {
    var g := h + m + f + t;
    assert g == h + (m + (f + t));
  }

  lemma OpenerAt(s: string, k: nat)
    ensures OccursAt(s, "/*", k) <==> k + 1 < |s| && s[k] == '/' && s[k + 1] == '*'
  {
    if k + 1 < |s| && s[k] == '/' && s[k + 1] == '*' {
      assert s[k..k + 2] == "/*";
    }
  }

  /** A piece without an opener, followed by a slash, starts no opener in `g`. */
  lemma NoOpenerBefore(g: string, lo: nat, m: string)
    requires lo + |m| < |g| && g[lo..lo + |m|] == m && NoOpener(m) && g[lo + |m|] == '/'
    ensures forall k :: lo <= k < lo + |m| ==> !OccursAt(g, "/*", k)
  {
    forall k | lo <= k < lo + |m| ensures !OccursAt(g, "/*", k) {
      OpenerAt(g, k);
      assert g[k] == m[k - lo];
      if k + 1 < lo + |m| {
        assert g[k + 1] == m[k + 1 - lo];
      }
    }
  }

  /** Where the block matcher finds the header and the footer of a generated text. */
  lemma GeneratedBlockSpots(g: string, h: string, m: string, f: string, t: string)
    requires g == h + m + f + t && IsBlock(h) && IsBlock(f) && NoOpener(m)
    ensures |h| + |m| + |f| <= |g| && g[..|h|] == h && g[|h| + |m|..|h| + |m| + |f|] == f
    ensures FindBlock(g, 0) == Some((0, |h|))
    ensures FindBlock(g, |h|) == Some((|h| + |m|, |h| + |m| + |f|))
  {
    Parts4(h, m, f, t);
    assert g[0..|h|] == h;
    BlockAt(g, 0, 0, h);
    OpenerAt(f, 0);
    assert g[|h| + |m|..|h| + |m| + |f|][0] == g[|h| + |m|];
    NoOpenerBefore(g, |h|, m);
    BlockAt(g, |h|, |h| + |m|, f);
  }

  /** The first two blocks found are the ones `Blocks` keeps. */
  lemma FirstTwoBlocks(g: string, e1: nat, i2: nat, e2: nat)
    requires e1 <= i2 <= e2 <= |g|
    requires FindBlock(g, 0) == Some((0, e1)) && FindBlock(g, e1) == Some((i2, e2))
    ensures Blocks(g) == Some((g[..e1], g[i2..e2]))
  {
    CommentBlocksStep(g, 0);
    CommentBlocksStep(g, e1);
    assert g[0..e1] == g[..e1];
  }

  /** The blocks of a generated text are the header and footer it was built from. */
  lemma GeneratedBlocks(g: string, h: string, m: string, f: string, t: string)
    requires g == h + m + f + t && IsBlock(h) && IsBlock(f) && NoOpener(m)
    ensures Blocks(g) == Some((h, f))
  {
    GeneratedBlockSpots(g, h, m, f, t);
    FirstTwoBlocks(g, |h|, |h| + |m|, |h| + |m| + |f|);
  }

  // ---------------------------------------------------------------
  // The lines of a generated text
  // ---------------------------------------------------------------

  /** Splitting at several separators splits every piece independently. */
  lemma SplitSeven(p1: string, p2: string, p3: string, p4: string, p5: string, p6: string, p7: string)
    ensures var n := "\n";
      Split(p1 + n + p2 + n + p3 + n + p4 + n + p5 + n + p6 + n + p7, '\n') ==
      Split(p1, '\n') + Split(p2, '\n') + Split(p3, '\n') + Split(p4, '\n') + Split(p5, '\n') + Split(p6, '\n') + Split(p7, '\n')
  {
    var n := "\n";
    SplitAppend(p1, p2, '\n');
    SplitAppend(p1 + n + p2, p3, '\n');
    SplitAppend(p1 + n + p2 + n + p3, p4, '\n');
    SplitAppend(p1 + n + p2 + n + p3 + n + p4, p5, '\n');
    SplitAppend(p1 + n + p2 + n + p3 + n + p4 + n + p5, p6, '\n');
    SplitAppend(p1 + n + p2 + n + p3 + n + p4 + n + p5 + n + p6, p7, '\n');
  }

  lemma SmallSplits()
    ensures Split("", '\n') == [""] && Split("}", '\n') == ["}"] && Split(VarDeclaration, '\n') == [VarDeclaration]
  {
    SplitNone("}", '\n');
    SplitNone(VarDeclaration, '\n');
  }

  /** The lines of a generated text: the header's, a blank, the declaration, the entries, the footer's, `}` and an empty last line. */
  lemma LayoutLines(header: string, lines: seq<string>, footer: string)
    requires |lines| > 0 && forall i :: 0 <= i < |lines| ==> '\n' !in lines[i]
    ensures Split(Layout(header, lines, footer), '\n') ==
      Split(header, '\n') + [""] + [VarDeclaration] + lines + Split("  " + footer, '\n') + ["}"] + [""]
  {
    SplitSeven(header, "", VarDeclaration, Join(lines, "\n"), "  " + footer, "}", "");
    SmallSplits();
    SplitJoin(lines, '\n');
  }

  lemma LinesAt(hs: seq<string>, entries: seq<string>, fs: seq<string>)
    ensures var ls := hs + [""] + [VarDeclaration] + entries + fs + ["}"] + [""];
      && |ls| == |hs| + 2 + |entries| + |fs| + 2
      && (forall i :: 0 <= i < |hs| ==> ls[i] == hs[i])
      && ls[|hs|] == "" && ls[|hs| + 1] == VarDeclaration
      && (forall j :: 0 <= j < |entries| ==> ls[|hs| + 2 + j] == entries[j])
      && ls[|hs| + 2 + |entries|..] == fs + ["}"] + [""]
  {
    var ls := hs + [""] + [VarDeclaration] + entries + fs + ["}"] + [""];
    assert ls == (hs + [""] + [VarDeclaration]) + entries + (fs + ["}"] + [""]);
  }

  lemma {:induction false} JoinStarts(xs: seq<string>, sep: string)
    requires |xs| > 0
    ensures StartsWith(Join(xs, sep), xs[0])
  {
    if |xs| > 1 {
      assert Join(xs, sep) == xs[0] + (sep + Join(xs[1..], sep));
    }
  }

  /** A text that starts like an entry line is not where the closing begins. */
  lemma NotClosing(t: string)
    requires 3 <= |t| && t[..3] == "  \""
    ensures !IsClosing(t)
  {
    assert t[0] == ' ' && t[1] == ' ' && t[2] == '"';
    assert SkipBlanks(t, 0) == 2;
  }

  lemma EntryLineStart(key: string, e: Entry, last: bool)
    ensures 3 <= |EntryLine(key, e, last)| && EntryLine(key, e, last)[..3] == "  \""
  {
  }

  /** The indented footer followed by `}` is where the closing begins. */
  lemma FooterCloses(footer: string)
    requires IsBlock(footer)
    ensures IsClosing("  " + footer + "\n}\n")
  {
    var t := "  " + footer + "\n}\n";
    var f := |footer|;
    assert t[2..2 + f] == footer;
    assert t[2 + f..] == "\n}\n";
    assert SkipBlanks(t, 0) == 2 by {
      assert t[0] == ' ' && t[1] == ' ' && t[2] == footer[0] == '/';
    }
    OccursShift(t, 2, footer, "/*", 0);
    OccursShift(t, 2, footer, "*/", f - 2);
    assert t[f + 2] == '\n' && t[f + 3] == '}' && t[f + 4] == '\n';
    assert SkipBlanks(t, f + 2) == f + 2;
    assert SkipBlanks(t, f + 4) == f + 4;
    assert ClosesAt(t, f);
  }

  /** The lines from the footer on, joined again, are the footer, `}` and the final newline. */
  lemma FooterText(footer: string)
    ensures Join(Split("  " + footer, '\n') + ["}"] + [""], "\n") == "  " + footer + "\n}\n"
  {
    var fs := Split("  " + footer, '\n');
    JoinSplit("  " + footer, '\n');
    assert fs + ["}"] + [""] == fs + ["}", ""];
    JoinAppend(fs, ["}", ""], "\n");
    assert Join(["}", ""], "\n") == "}" + "\n" + "";
  }

  lemma NoTerminatorNoNewline(s: string)
    requires NoLineTerminator(s)
    ensures '\n' !in s
  {
    forall i | 0 <= i < |s| ensures s[i] != '\n' {
      assert !IsLineTerminator(s[i]);
    }
  }

  lemma KeyNoNewline(key: string)
    requires forall i :: 0 <= i < |key| ==> IsKeyChar(key[i])
    ensures '\n' !in key
  {
    forall i | 0 <= i < |key| ensures key[i] != '\n' {
      assert IsKeyChar(key[i]);
    }
  }

  lemma MarkerNoNewline(m: string)
    requires CanonicalMarker(m)
    ensures '\n' !in m
  {
    NoTerminatorNoNewline(m[7..]);
    assert m == ForcedMarker + m[7..];
  }

  lemma TailNoNewline(last: bool, noCF: Option<string>)
    requires noCF.Some? ==> CanonicalMarker(noCF.value)
    ensures '\n' !in Comma(last) + MarkerText(noCF)
  {
    if Present(noCF) {
      MarkerNoNewline(noCF.value);
    }
  }

  lemma LineNoNewline(key: string, target: string, rest: string)
    requires '\n' !in key && '\n' !in target && '\n' !in rest
    ensures '\n' !in Line(key, target, rest)
  {
    assert '\n' !in KeyPrefix(key);
  }

  lemma EntryLineNoNewline(key: string, e: Entry, last: bool)
    requires Canonical(key, e)
    ensures '\n' !in EntryLine(key, e, last)
  {
    EntryLineParts(key, e, last);
    KeyNoNewline(key);
    NoTerminatorNoNewline(e.target);
    TailNoNewline(last, e.noCF);
    LineNoNewline(key, e.target, Comma(last) + MarkerText(e.noCF));
  }

  // ---------------------------------------------------------------
  // Where the parser starts and stops in a generated text
  // ---------------------------------------------------------------

  /** No line of the header is the declaration, so the parser starts after the generated one. */
  predicate NoDeclarationIn(header: string) {
    forall line :: line in Split(header, '\n') ==> !IsVarLine(line)
  }

  /** The entry lines of a generated text; each starts like an entry. */
  predicate EntryShaped(entries: seq<string>) {
    forall j :: 0 <= j < |entries| ==> 3 <= |entries[j]| && entries[j][..3] == "  \""
  }

  lemma GeneratedVarLine(lines: seq<string>, hs: seq<string>, entries: seq<string>, fs: seq<string>)
    requires lines == hs + [""] + [VarDeclaration] + entries + fs + ["}"] + [""]
    requires forall line :: line in hs ==> !IsVarLine(line)
    ensures FindVarLine(lines, 0) == |hs| + 1
  {
    LinesAt(hs, entries, fs);
    assert IsVarLine(lines[|hs| + 1]);
    forall i | 0 <= i < |hs| + 1 ensures !IsVarLine(lines[i]) {
      if i < |hs| {
        assert lines[i] in hs;
      }
    }
  }

  lemma GeneratedClosingLine(lines: seq<string>, hs: seq<string>, entries: seq<string>, footer: string)
    requires lines == hs + [""] + [VarDeclaration] + entries + Split("  " + footer, '\n') + ["}"] + [""]
    requires EntryShaped(entries) && IsBlock(footer)
    ensures FindClosingLine(lines, |hs| + 2) == |hs| + 2 + |entries|
  {
    var fs := Split("  " + footer, '\n');
    var lo := |hs| + 2;
    var c := lo + |entries|;
    LinesAt(hs, entries, fs);
    FooterText(footer);
    FooterCloses(footer);
    assert IsClosing(From(lines, c));
    forall i | lo <= i < c ensures !IsClosing(From(lines, i)) {
      JoinStarts(lines[i..], "\n");
      var line := entries[i - lo];
      assert lines[i..][0] == line;
      assert From(lines, i)[..3] == line[..3];
      NotClosing(From(lines, i));
    }
  }

  // ---------------------------------------------------------------
  // Reading the generated entries back
  // ---------------------------------------------------------------

  /** Every entry is in the normal form that parsing produces. */
  predicate CanonicalRegistry(cnames: Registry) {
    forall k :: k in cnames.values ==> Canonical(k, cnames.values[k])
  }

  /** The `{ target, noCF }` records parsing gives back for the sorted keys. */
  function Records(cnames: Registry, keys: seq<string>): (es: seq<Entry>)
    requires forall k :: k in keys ==> k in cnames.values
    ensures |es| == |keys|
    ensures forall j :: 0 <= j < |keys| ==> es[j] == Record(cnames.values[keys[j]].target, cnames.values[keys[j]].noCF)
  {
    seq(|keys|, j requires 0 <= j < |keys| => Record(cnames.values[keys[j]].target, cnames.values[keys[j]].noCF))
  }

  lemma GeneratedLineReadsBack(cnames: Registry, keys: seq<string>, j: nat)
    requires cnames.Valid() && CanonicalRegistry(cnames) && keys == SortedKeys(cnames) && j < |keys|
    ensures ParseLine(EntryLines(cnames.values, keys)[j]) == Some((keys[j], Records(cnames, keys)[j]))
  {
    var k := keys[j];
    assert k in cnames.values;
    EntryLineReadsBack(k, cnames.values[k], j == |keys| - 1);
  }

  /** Every generated line of a canonical registry reads back as its key and record. */
  lemma GeneratedLinesRead(cnames: Registry, keys: seq<string>, entries: seq<string>)
    requires cnames.Valid() && CanonicalRegistry(cnames) && keys == SortedKeys(cnames)
    requires entries == EntryLines(cnames.values, keys)
    ensures forall j :: 0 <= j < |entries| ==> ParseLine(entries[j]) == Some((keys[j], Records(cnames, keys)[j]))
  {
    forall j | 0 <= j < |entries|
      ensures ParseLine(entries[j]) == Some((keys[j], Records(cnames, keys)[j]))
    {
      GeneratedLineReadsBack(cnames, keys, j);
    }
  }

  /** Every generated line of a canonical registry is one line, holds no opener and starts like an entry. */
  lemma GeneratedLinesShape(cnames: Registry, keys: seq<string>, entries: seq<string>)
    requires cnames.Valid() && CanonicalRegistry(cnames) && keys == SortedKeys(cnames)
    requires entries == EntryLines(cnames.values, keys)
    ensures forall j :: 0 <= j < |entries| ==> '\n' !in entries[j] && NoOpener(entries[j])
    ensures EntryShaped(entries)
  {
    forall j | 0 <= j < |entries|
      ensures '\n' !in entries[j] && NoOpener(entries[j])
      ensures 3 <= |entries[j]| && entries[j][..3] == "  \""
    {
      var k := keys[j];
      assert k in cnames.values;
      EntryLineNoNewline(k, cnames.values[k], j == |keys| - 1);
      EntryLineNoOpener(k, cnames.values[k], j == |keys| - 1);
      EntryLineStart(k, cnames.values[k], j == |keys| - 1);
    }
  }

  lemma ShiftedLines(read: LineReader, lines: seq<string>, lo: nat, keys: seq<string>, es: seq<Entry>, entries: seq<string>)
    requires |entries| == |keys| == |es|
    requires forall j :: 0 <= j < |entries| ==> read(entries[j]) == Some((keys[j], es[j]))
    requires lo + |entries| <= |lines| && forall j :: 0 <= j < |entries| ==> lines[lo + j] == entries[j]
    ensures forall i :: lo <= i < lo + |keys| ==> read(lines[i]) == Some((keys[i - lo], es[i - lo]))
  {
    forall i | lo <= i < lo + |keys| ensures read(lines[i]) == Some((keys[i - lo], es[i - lo])) {
      assert lines[lo + (i - lo)] == entries[i - lo];
    }
  }

  lemma ValuesByKey(values: map<string, Entry>, cnames: Registry, keys: seq<string>)
    requires forall k :: k in keys <==> k in cnames.values
    requires forall j :: 0 <= j < |keys| ==> keys[j] in values && values[keys[j]] == Records(cnames, keys)[j]
    ensures forall k :: k in cnames.values ==> k in values && values[k] == Record(cnames.values[k].target, cnames.values[k].noCF)
  {
    forall k | k in cnames.values ensures k in values && values[k] == Record(cnames.values[k].target, cnames.values[k].noCF) {
      var j :| 0 <= j < |keys| && keys[j] == k;
      assert values[keys[j]] == Records(cnames, keys)[j];
    }
  }

  // ---------------------------------------------------------------
  // The whole file
  // ---------------------------------------------------------------

  lemma GeneratedIs(cnames: Registry, file: string, g: string)
    requires cnames.Valid() && GenerateText(cnames, file) == Some(g)
    ensures Blocks(file).Some?
    ensures g == Layout(Blocks(file).value.0, EntryLines(cnames.values, SortedKeys(cnames)), Blocks(file).value.1)
  {
  }

  /** Where parsing a laid-out text starts and stops: exactly around the entry lines. */
  lemma ParsedLayout(header: string, entries: seq<string>, footer: string, lines: seq<string>) returns (lo: nat, hi: nat)
    requires lines == Split(Layout(header, entries, footer), '\n')
    requires IsBlock(footer) && NoDeclarationIn(header)
    requires |entries| > 0 && (forall j :: 0 <= j < |entries| ==> '\n' !in entries[j]) && EntryShaped(entries)
    ensures Located(lines, lo, hi) && hi - lo == |entries|
    ensures forall j :: 0 <= j < |entries| ==> lines[lo + j] == entries[j]
  {
    var hs := Split(header, '\n');
    var fs := Split("  " + footer, '\n');
    LayoutLines(header, entries, footer);
    LinesAt(hs, entries, fs);
    GeneratedVarLine(lines, hs, entries, fs);
    GeneratedClosingLine(lines, hs, entries, footer);
    lo := |hs| + 2;
    hi := |hs| + 2 + |entries|;
  }

  /** Where the entry lines of a generated text sit among its lines. */
  lemma LocateEntries(cnames: Registry, file: string, g: string, entries: seq<string>) returns (lines: seq<string>, lo: nat, hi: nat)
    requires cnames.Valid() && Blocks(file).Some? && NoDeclarationIn(Blocks(file).value.0)
    requires GenerateText(cnames, file) == Some(g) && entries == EntryLines(cnames.values, SortedKeys(cnames))
    requires |entries| > 0 && (forall j :: 0 <= j < |entries| ==> '\n' !in entries[j]) && EntryShaped(entries)
    ensures lines == Split(g, '\n') && Located(lines, lo, hi) && hi - lo == |entries|
    ensures forall j :: 0 <= j < |entries| ==> lines[lo + j] == entries[j]
  {
    var (header, footer) := Blocks(file).value;
    BlocksAreBlocks(file);
    GeneratedIs(cnames, file, g);
    lines := Split(g, '\n');
    lo, hi := ParsedLayout(header, entries, footer, lines);
  }

  lemma ReadEntryLines(read: LineReader, lines: seq<string>, lo: nat, hi: nat, entries: seq<string>, keys: seq<string>, es: seq<Entry>)
    requires |entries| == |keys| == |es| == hi - lo && Distinct(keys)
    requires forall j :: 0 <= j < |entries| ==> read(entries[j]) == Some((keys[j], es[j]))
    requires hi <= |lines| && forall j :: 0 <= j < |entries| ==> lines[lo + j] == entries[j]
    ensures ReadLines(read, lines, lo, hi).warnings == []
    ensures forall k :: k in ReadLines(read, lines, lo, hi).cnames.values <==> k in keys
    ensures forall j :: 0 <= j < |keys| ==>
      keys[j] in ReadLines(read, lines, lo, hi).cnames.values && ReadLines(read, lines, lo, hi).cnames.values[keys[j]] == es[j]
  {
    ShiftedLines(read, lines, lo, keys, es, entries);
    ReadAll(read, lines, lo, hi, keys, es, ReadLines(read, lines, lo, hi));
  }

  /** The sorted keys of a registry name each of its keys once. */
  lemma SortedDistinct(cnames: Registry) returns (keys: seq<string>)
    requires cnames.Valid()
    ensures keys == SortedKeys(cnames) && Distinct(keys) && |keys| == |cnames.values|
    ensures forall k :: k in keys <==> k in cnames.values
  {
    keys := SortedKeys(cnames);
    GeneratedOrder(cnames);
  }

  /**
   * What parsing needs to know of a generated text: its sorted keys, its
   * entry lines and what each reads back as, and where those lines sit.
   */
  lemma GeneratedPieces(cnames: Registry, file: string, g: string)
    returns (keys: seq<string>, entries: seq<string>, lines: seq<string>, lo: nat, hi: nat)
    requires cnames.Valid() && |cnames.values| > 0 && CanonicalRegistry(cnames)
    requires Blocks(file).Some? && NoDeclarationIn(Blocks(file).value.0)
    requires GenerateText(cnames, file) == Some(g)
    ensures Distinct(keys) && |keys| == |entries| == hi - lo && forall k :: k in keys <==> k in cnames.values
    ensures forall j :: 0 <= j < |entries| ==> ParseLine(entries[j]) == Some((keys[j], Records(cnames, keys)[j]))
    ensures lines == Split(g, '\n') && Located(lines, lo, hi)
    ensures forall j :: 0 <= j < |entries| ==> lines[lo + j] == entries[j]
  {
    keys := SortedDistinct(cnames);
    entries := EntryLines(cnames.values, keys);
    GeneratedLinesShape(cnames, keys, entries);
    GeneratedLinesRead(cnames, keys, entries);
    lines, lo, hi := LocateEntries(cnames, file, g, entries);
  }

  /** Reading the located entry lines of a generated text gives back the registry's records, with no warning. */
  lemma GeneratedReads(cnames: Registry, file: string, g: string) returns (lines: seq<string>, lo: nat, hi: nat)
    requires cnames.Valid() && |cnames.values| > 0 && CanonicalRegistry(cnames)
    requires Blocks(file).Some? && NoDeclarationIn(Blocks(file).value.0)
    requires GenerateText(cnames, file) == Some(g)
    ensures lines == Split(g, '\n') && Located(lines, lo, hi)
    ensures ReadLines(ParseLine, lines, lo, hi).warnings == []
    ensures forall k :: k in ReadLines(ParseLine, lines, lo, hi).cnames.values <==> k in cnames.values
    ensures forall k :: k in cnames.values ==>
      ReadLines(ParseLine, lines, lo, hi).cnames.values[k] == Record(cnames.values[k].target, cnames.values[k].noCF)
  {
    var keys, entries;
    keys, entries, lines, lo, hi := GeneratedPieces(cnames, file, g);
    ReadEntryLines(ParseLine, lines, lo, hi, entries, keys, Records(cnames, keys));
    ValuesByKey(ReadLines(ParseLine, lines, lo, hi).cnames.values, cnames, keys);
  }

  /** What the reading of the located lines holds, said of the parse of the whole text. */
  lemma ParsedAs(g: string, lines: seq<string>, lo: nat, c: nat, cnames: Registry)
    requires lines == Split(g, '\n') && Located(lines, lo, c)
    requires ReadLines(ParseLine, lines, lo, c).warnings == []
    requires forall k :: k in ReadLines(ParseLine, lines, lo, c).cnames.values <==> k in cnames.values
    requires forall k :: k in cnames.values ==>
      ReadLines(ParseLine, lines, lo, c).cnames.values[k] == Record(cnames.values[k].target, cnames.values[k].noCF)
    ensures Parse.Parse(g).Some? && Parse.Parse(g).value.warnings == [] && Parse.Parse(g).value.cnames.Valid()
    ensures forall k :: k in Parse.Parse(g).value.cnames.values <==> k in cnames.values
    ensures forall k :: k in cnames.values ==>
      Parse.Parse(g).value.cnames.values[k] == Record(cnames.values[k].target, cnames.values[k].noCF)
  {
    ParsedAt(g, lines, lo, c);
  }

  /**
   * Parsing a text generated from canonical entries reads every entry back,
   * as its `{ target, noCF }` record, and warns about no line.
   */
  lemma ParseOfGenerated(cnames: Registry, file: string, g: string)
    requires cnames.Valid() && |cnames.values| > 0 && CanonicalRegistry(cnames)
    requires Blocks(file).Some? && NoDeclarationIn(Blocks(file).value.0)
    requires GenerateText(cnames, file) == Some(g)
    ensures Parse.Parse(g).Some? && Parse.Parse(g).value.warnings == [] && Parse.Parse(g).value.cnames.Valid()
    ensures forall k :: k in Parse.Parse(g).value.cnames.values <==> k in cnames.values
    ensures forall k :: k in cnames.values ==>
      Parse.Parse(g).value.cnames.values[k] == Record(cnames.values[k].target, cnames.values[k].noCF)
  {
    var lines, lo, hi := GeneratedReads(cnames, file, g);
    ParsedAs(g, lines, lo, hi, cnames);
  }

  /** A generated text has the same two blocks as the file it was generated with. */
  lemma GeneratedKeepsBlocks(cnames: Registry, file: string, g: string)
    requires cnames.Valid() && CanonicalRegistry(cnames) && GenerateText(cnames, file) == Some(g)
    ensures Blocks(g) == Blocks(file)
  {
    GeneratedIs(cnames, file, g);
    var (header, footer) := Blocks(file).value;
    BlocksAreBlocks(file);
    var keys := SortedKeys(cnames);
    var entries := EntryLines(cnames.values, keys);
    GeneratedLinesShape(cnames, keys, entries);
    MiddleNoOpener(entries);
    LayoutParts(header, entries, footer);
    GeneratedBlocks(g, header, Middle(entries), footer, "\n}\n");
  }

  /**
   * The check the cleanup makes before rewriting the file: generating from
   * the parse of a generated file, with that file as reference, reproduces
   * it exactly.
   */
  lemma RegenerateIsIdentity(cnames: Registry, file: string, g: string)
    requires cnames.Valid() && |cnames.values| > 0 && CanonicalRegistry(cnames)
    requires Blocks(file).Some? && NoDeclarationIn(Blocks(file).value.0)
    requires GenerateText(cnames, file) == Some(g)
    ensures Parse.Parse(g).Some? && Parse.Parse(g).value.cnames.Valid()
    ensures GenerateText(Parse.Parse(g).value.cnames, g) == Some(g)
  {
    ParseOfGenerated(cnames, file, g);
    GeneratedKeepsBlocks(cnames, file, g);
    GenerateFromRecords(Parse.Parse(g).value.cnames, cnames, file, g);
  }

  /** Generating, with `g` as reference, from the records `g` was generated from gives `g`. */
  lemma GenerateFromRecords(read: Registry, cnames: Registry, file: string, g: string)
    requires read.Valid() && cnames.Valid() && GenerateText(cnames, file) == Some(g) && Blocks(g) == Blocks(file)
    requires forall k :: k in read.values <==> k in cnames.values
    requires forall k :: k in cnames.values ==> read.values[k] == Record(cnames.values[k].target, cnames.values[k].noCF)
    ensures GenerateText(read, g) == Some(g)
  {
    assert read.values.Keys == cnames.values.Keys;
    GenerateReadsRecords(read, cnames, file);
  }
}
