/**
 * Generation followed by parsing, for data that is already in normal form:
 * every generated line reads back as the entry it came from, and
 * generating again from what was read reproduces the text exactly. This is
 * the equality the cleanup relies on to decide that nothing needs fixing.
 */
module RoundTrip {
  import opened Wrappers
  import opened Text
  import opened JsObjects
  import opened Entries
  import opened Grammar
  import opened Parse
  import opened Generate

  /** No comment opener `/` `*` anywhere in `s`. */
  predicate NoOpener(s: string) {
    forall i :: 0 <= i < |s| - 1 ==> !(s[i] == '/' && s[i + 1] == '*')
  }

  /** A marker as the generator writes one: `// noCF`, then a comment with no line break and no trailing whitespace. */
  predicate CanonicalMarker(m: string) {
    && StartsWith(m, ForcedMarker)
    && NoLineTerminator(m[|ForcedMarker|..])
    && TrimEnd(m[|ForcedMarker|..]) == m[|ForcedMarker|..]
    && NoOpener(m)
  }

  /** An entry that parsing leaves as it is. */
  predicate Canonical(key: string, e: Entry) {
    && (forall i :: 0 <= i < |key| ==> IsKeyChar(key[i]))
    && NormaliseKey(key) == key
    && '"' !in e.target && NoLineTerminator(e.target) && NoOpener(e.target)
    && NormaliseTarget(e.target) == e.target
    && match e.noCF
       case None => '.' !in key && e.target != VercelTarget
       case Some(m) => CanonicalMarker(m)
  }

  // ---------------------------------------------------------------
  // One entry line reads back
  // ---------------------------------------------------------------

  function Comma(last: bool): string { if last then "" else "," }

  function MarkerText(noCF: Option<string>): string {
    if Present(noCF) then " " + noCF.value else ""
  }

  lemma EntryLineParts(key: string, e: Entry, last: bool)
    ensures EntryLine(key, e, last) == "  \"" + key + "\": \"" + e.target + "\"" + (Comma(last) + MarkerText(e.noCF))
  {
  }

  /** The tail after the value's closing quote gives back the marker that was written. */
  lemma TailReadsBack(last: bool, noCF: Option<string>)
    requires noCF.Some? ==> CanonicalMarker(noCF.value)
    ensures MatchTail(Comma(last) + MarkerText(noCF)) == Some(if Present(noCF) then noCF else None)
  {
    if Present(noCF) {
      if last {
        assert Comma(last) + MarkerText(noCF) == " " + noCF.value;
        SpacedMarker(noCF.value);
      } else {
        assert Comma(last) + MarkerText(noCF) == ", " + noCF.value;
        CommaMarker(noCF.value);
      }
    }
  }

  lemma SpacedMarker(m: string)
    requires CanonicalMarker(m)
    ensures MatchTail(" " + m) == Some(Some(m))
  {
    var r := " " + m;
    assert r[1] == '/';
    assert SkipBlanks(r, 0) == 1;
    MarkerAtCanonical(r, 1);
    assert r[1..] == m;
  }

  lemma CommaMarker(m: string)
    requires CanonicalMarker(m)
    ensures MatchTail(", " + m) == Some(Some(m))
  {
    var r := ", " + m;
    assert r[2] == '/';
    assert SkipBlanks(r, 1) == 2;
    MarkerAtCanonical(r, 2);
    assert r[2..] == m;
  }

  lemma MarkerAtCanonical(r: string, c: nat)
    requires c <= |r| && CanonicalMarker(r[c..])
    ensures MarkerAt(r, c)
  {
    var m := r[c..];
    assert m[..7] == ForcedMarker;
    assert forall i :: 0 <= i < 7 ==> r[c + i] == m[i] == ForcedMarker[i];
    assert r[c..c + 2] == "//";
    assert r[c + 2] == ' ' && r[c + 3] == 'n';
    assert SkipSpaces(r, c + 2) == c + 3;
    assert r[c + 3..c + 7] == "noCF";
    assert EqualsIgnoreCase("noCF", "nocf");
    assert r[c + 7..] == m[|ForcedMarker|..];
  }

  /** The part of an entry line before its target. */
  function KeyPrefix(key: string): string {
    "  \"" + key + "\": \""
  }

  function Line(key: string, target: string, rest: string): string {
    KeyPrefix(key) + target + "\"" + rest
  }

  /** The pieces of an entry line: the key prefix, the target, its closing quote and the rest. */
  predicate Shaped(s: string, key: string, target: string, rest: string) {
    var e := 7 + |key| + |target|;
    && |s| == e + 1 + |rest|
    && s[..7 + |key|] == KeyPrefix(key) && s[7 + |key|..e] == target && s[e] == '"' && s[e + 1..] == rest
  }

  lemma LineShaped(key: string, target: string, rest: string)
    ensures Shaped(Line(key, target, rest), key, target, rest)
  {
    var p := KeyPrefix(key);
    var s := p + target + "\"" + rest;
    assert s == p + (target + ("\"" + rest));
  }

  lemma LineHead(s: string, key: string, target: string, rest: string)
    requires Shaped(s, key, target, rest)
    requires forall i :: 0 <= i < |key| ==> IsKeyChar(key[i])
    ensures EntryHead(s) == Some((3, 3 + |key|, 7 + |key|))
    ensures s[3..3 + |key|] == key
  {
    var n := |key|;
    var kp := KeyPrefix(key);
    assert s[..7 + n] == kp;
    assert forall i :: 0 <= i < 7 + n ==> s[i] == kp[i];
    assert kp[..3] == "  \"" && kp[3..3 + n] == key && kp[3 + n..] == "\": \"";
    assert s[2] == '"' && s[3 + n] == '"' && s[4 + n] == ':' && s[5 + n] == ' ' && s[6 + n] == '"';
    assert SkipBlanks(s, 0) == 2;
    assert forall i :: 3 <= i < 3 + n ==> s[i] == key[i - 3];
    assert SkipKeyChars(s, 3) == 3 + n;
    assert SkipBlanks(s, 4 + n) == 4 + n;
    assert SkipBlanks(s, 5 + n) == 6 + n;
  }

  lemma {:induction false} IndexFromAt(s: string, c: char, i: nat, j: nat)
    requires i <= j < |s| && s[j] == c
    requires forall k :: i <= k < j ==> s[k] != c
    ensures IndexFrom(s, c, i) == j
    decreases j - i
  {
    if i < j {
      IndexFromAt(s, c, i + 1, j);
    }
  }

  /** A value that runs up to the first quote, where the tail matches, ends at that quote. */
  lemma ValueAtQuote(s: string, v0: nat, e: nat, rest: string)
    requires v0 <= e < |s| && s[e] == '"' && s[e + 1..] == rest && MatchTail(rest).Some?
    requires forall k :: v0 <= k < e ==> s[k] != '"'
    ensures ValueEnd(s, v0, ValueLimit(s, v0)) == Some(e)
  {
    IndexFromAt(s, '"', v0, e);
    assert ValueLimit(s, v0) == e;
    assert ValueEndsAt(s, e);
  }

  lemma LineTargetNoQuote(s: string, key: string, target: string, rest: string)
    requires Shaped(s, key, target, rest) && '"' !in target
    ensures forall k :: 7 + |key| <= k < 7 + |key| + |target| ==> s[k] != '"'
  {
    var v0 := 7 + |key|;
    var e := v0 + |target|;
    forall k | v0 <= k < e ensures s[k] != '"' {
      assert s[k] == s[v0..e][k - v0];
    }
  }

  lemma LineValue(s: string, key: string, target: string, rest: string)
    requires Shaped(s, key, target, rest)
    requires '"' !in target && MatchTail(rest).Some?
    ensures ValueEnd(s, 7 + |key|, ValueLimit(s, 7 + |key|)) == Some(7 + |key| + |target|)
  {
    LineTargetNoQuote(s, key, target, rest);
    ValueAtQuote(s, 7 + |key|, 7 + |key| + |target|, rest);
  }

  /** A generated entry line matches the entry pattern with the key, target and tail that were written. */
  lemma LineMatches(key: string, target: string, rest: string)
    requires forall i :: 0 <= i < |key| ==> IsKeyChar(key[i])
    requires '"' !in target && MatchTail(rest).Some?
    ensures MatchEntry(Line(key, target, rest)) == Some(Fields(key, target, MatchTail(rest).value))
  {
    LineShaped(key, target, rest);
    ShapedMatches(Line(key, target, rest), key, target, rest);
  }

  lemma ShapedMatches(s: string, key: string, target: string, rest: string)
    requires Shaped(s, key, target, rest)
    requires forall i :: 0 <= i < |key| ==> IsKeyChar(key[i])
    requires '"' !in target && MatchTail(rest).Some?
    ensures MatchEntry(s) == Some(Fields(key, target, MatchTail(rest).value))
  {
    LineHead(s, key, target, rest);
    LineValue(s, key, target, rest);
    MatchEntryOf(s, key, target, rest, 7 + |key| + |target|);
  }

  lemma MatchEntryOf(s: string, key: string, target: string, rest: string, e: nat)
    requires EntryHead(s) == Some((3, 3 + |key|, 7 + |key|)) && s[3..3 + |key|] == key
    requires ValueEnd(s, 7 + |key|, ValueLimit(s, 7 + |key|)) == Some(e)
    requires e < |s| && s[e] == '"' && s[7 + |key|..e] == target && s[e + 1..] == rest && MatchTail(rest).Some?
    ensures MatchEntry(s) == Some(Fields(key, target, MatchTail(rest).value))
  {
    TailMarkerOf(s, e, rest);
    MatchEntryAt(s, 3, 3 + |key|, 7 + |key|, e, Fields(key, target, MatchTail(rest).value));
  }

  lemma TailMarkerOf(s: string, e: nat, rest: string)
    requires e < |s| && IsQuote(s[e]) && s[e + 1..] == rest && MatchTail(rest).Some?
    ensures TailMarker(s, e) == MatchTail(rest).value
  {
  }

  lemma MatchEntryAt(s: string, a: nat, b: nat, v0: nat, e: nat, f: Fields)
    requires EntryHead(s) == Some((a, b, v0)) && v0 <= |s|
    requires ValueEnd(s, v0, ValueLimit(s, v0)) == Some(e)
    requires e < |s| && ValueEndsAt(s, e) && f == Fields(s[a..b], s[v0..e], TailMarker(s, e))
    ensures MatchEntry(s) == Some(f)
  {
  }

  lemma ParseLineOf(line: string, f: Fields)
    requires MatchEntry(line) == Some(f)
    ensures var key := NormaliseKey(f.key); var target := NormaliseTarget(f.value);
      ParseLine(line) == Some((key, Record(target, NoCF(key, target, RenderedMarker(f.marker)))))
  {
  }

  /** The marker group read back renders to the marker that was written. */
  lemma MarkerReadsBack(noCF: Option<string>)
    requires noCF.Some? ==> CanonicalMarker(noCF.value)
    ensures RenderedMarker(if Present(noCF) then noCF else None) == (if Present(noCF) then noCF else None)
  {
    if Present(noCF) {
      var m := noCF.value;
      assert m == ForcedMarker + m[7..];
      RenderMarkerCanonical(m[7..]);
    }
  }

  /** Re-deriving the marker of a canonical entry gives back its own. */
  lemma NoCFReadsBack(key: string, e: Entry)
    requires Canonical(key, e)
    ensures NoCF(key, e.target, if Present(e.noCF) then e.noCF else None) == e.noCF
  {
    NoCFForced(key, e.target, if Present(e.noCF) then e.noCF else None);
    if e.noCF.Some? {
      assert StartsWith(e.noCF.value, ForcedMarker);
    }
  }

  /** Every generated line of a canonical entry parses back to that entry's key, target and marker. */
  lemma EntryLineReadsBack(key: string, e: Entry, last: bool)
    requires Canonical(key, e)
    ensures ParseLine(EntryLine(key, e, last)) == Some((key, Record(e.target, e.noCF)))
  {
    var rest := Comma(last) + MarkerText(e.noCF);
    var marker := if Present(e.noCF) then e.noCF else None;
    EntryLineParts(key, e, last);
    TailReadsBack(last, e.noCF);
    LineMatches(key, e.target, rest);
    ParseLineOf(EntryLine(key, e, last), Fields(key, e.target, marker));
    MarkerReadsBack(e.noCF);
    NoCFReadsBack(key, e);
  }
}
