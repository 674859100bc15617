/**
 * The markdown cleanup list and its scan (src/robot/issues.js and
 * issues.js). `entriesToList` renders every entry as a checklist item whose
 * first line is `- [ ] **<k>.js.org** > <target>`; `parseIssueEntries`
 * reads an issue body back with
 * `/^- \[ ] \*\*(\S+?)\.js\.org\*\* > (\S+)$/gm` and keeps `match[1]` of
 * every match.
 *
 * Neither `\S` nor the literal characters of the pattern match a line
 * terminator, and `^`/`$` anchor at line boundaries, so every match is one
 * whole line of the body: the scan is the keys of the lines that match, in
 * order. The space of ` > ` is the first whitespace after the opening
 * `**`, which fixes where the lazy `(\S+?)` ends.
 */
module IssueList {
  import opened Wrappers
  import opened Text
  import opened JsObjects
  import opened Entries
  import opened Github

  /** A value inside a template literal: `undefined` when it is absent. */
  function Shown(s: Option<string>): string {
    if s.Some? then s.value else "undefined"
  }

  /** `- [ ] **<cname>.js.org** > <target>` */
  function Heading(cname: string, target: string): string {
    "- [ ] **" + cname + ".js.org** > " + target
  }

  function IssueLine(url: string): string {
    "  Issue: " + url
  }

  function HttpLine(cname: string, e: Entry): string {
    "  [HTTP](http://" + cname + ".js.org): `" + Shown(e.http) + "`"
  }

  function HttpsLine(cname: string, e: Entry): string {
    "  [HTTPS](https://" + cname + ".js.org): `" + Shown(e.https) + "`"
  }

  /** The Issue line and the newline before it, present only when the entry has an issue. */
  function IssuePart(e: Entry): string {
    if e.issue.Some? then "\n" + IssueLine(e.issue.value.htmlUrl) else ""
  }

  /** The list item of one entry. */
  function Item(cname: string, e: Entry): string {
    Heading(cname, e.target) + IssuePart(e) + "\n" + HttpLine(cname, e) + "\n" + HttpsLine(cname, e)
  }

  /** `entriesToList`: one item per key, in the enumeration order of `for…in`. */
  method EntriesToList(cnames: Registry) returns (list: seq<string>)
    requires cnames.Valid()
    ensures |list| == |cnames.Keys()|
    ensures forall j :: 0 <= j < |list| ==> cnames.Keys()[j] in cnames.values && list[j] == Item(cnames.Keys()[j], cnames.values[cnames.Keys()[j]])
  {
    var ks := cnames.Keys();
    KeysIndexed(cnames);
    list := [];
    var i := 0;
    while i < |ks|
      invariant i <= |ks| && |list| == i
      invariant forall j :: 0 <= j < i ==> list[j] == Item(ks[j], cnames.values[ks[j]])
    {
      var data := cnames.values[ks[i]];
      list := list + [Item(ks[i], data)];
      i := i + 1;
    }
  }

  // ---------------------------------------------------------------
  // Lines of a text
  // ---------------------------------------------------------------

  /** The lines of `s`, cut at every line terminator. */
  function Lines(s: string): (r: seq<string>)
    ensures |r| >= 1
  {
    if |s| == 0 then [""]
    else
      var rest := Lines(s[1..]);
      if IsLineTerminator(s[0]) then [""] + rest else [[s[0]] + rest[0]] + rest[1..]
  }

  /** Cutting at one line terminator cuts both sides independently. */
  lemma {:induction false} LinesAppend(a: string, d: char, b: string)
    requires IsLineTerminator(d)
    ensures Lines(a + [d] + b) == Lines(a) + Lines(b)
  {
    if |a| == 0 {
      assert a + [d] + b == [d] + b;
      assert ([d] + b)[1..] == b;
    } else {
      assert (a + [d] + b)[1..] == a[1..] + [d] + b;
      LinesAppend(a[1..], d, b);
    }
  }

  /** A text without line terminators is one line. */
  lemma {:induction false} LinesNone(s: string)
    requires NoLineTerminator(s)
    ensures Lines(s) == [s]
  {
    if |s| > 0 {
      LinesNone(s[1..]);
      assert [s[0]] + s[1..] == s;
    }
  }

  /** Joining texts at a newline joins their lines. */
  lemma LinesNewline(a: string, b: string)
    ensures Lines(a + "\n" + b) == Lines(a) + Lines(b)
  {
    LinesAppend(a, '\n', b);
  }

  // ---------------------------------------------------------------
  // The unchecked-entry pattern
  // ---------------------------------------------------------------

  /**
   * The two groups of the pattern on one line, when it matches: the
   * subdomain and the target.
   */
  function LineMatch(line: string): Option<(string, string)> {
    if |line| < 8 || line[..8] != "- [ ] **" then None
    else
      var e := RunEnd(line, 8);
      if e < 18 || line[e - 9..e] != ".js.org**" || |line| <= e + 3 || line[e..e + 3] != " > " || !NoWhitespace(line[e + 3..]) then None
      else Some((line[8..e - 9], line[e + 3..]))
  }

  /** `RunEnd` is the first whitespace from `i` on. */
  lemma {:induction false} RunEndAt(s: string, i: nat, j: nat)
    requires i <= j <= |s|
    requires forall k :: i <= k < j ==> !IsWhitespace(s[k])
    requires j < |s| ==> IsWhitespace(s[j])
    ensures RunEnd(s, i) == j
    decreases j - i
  {
    if i < j {
      RunEndAt(s, i + 1, j);
    }
  }

  /** The pieces of a heading, by position. */
  lemma HeadingParts(x: string, y: string)
    ensures var h := Heading(x, y);
      && |h| == |x| + |y| + 20
      && h[..8] == "- [ ] **"
      && h[8..8 + |x|] == x
      && h[8 + |x|..8 + |x| + 9] == ".js.org**"
      && h[8 + |x| + 9..8 + |x| + 12] == " > "
      && h[8 + |x| + 12..] == y
  {
    var h := Heading(x, y);
    assert h == "- [ ] **" + x + ".js.org**" + " > " + y;
  }

  /** A heading with a non-empty subdomain and target without whitespace matches, with those groups. */
  lemma HeadingMatches(x: string, y: string)
    requires x != [] && NoWhitespace(x) && y != [] && NoWhitespace(y)
    ensures LineMatch(Heading(x, y)) == Some((x, y))
  {
    var h := Heading(x, y);
    var e := 8 + |x| + 9;
    HeadingParts(x, y);
    forall k | 8 <= k < e ensures !IsWhitespace(h[k]) {
      if k < 8 + |x| {
        assert h[k] == h[8..8 + |x|][k - 8];
      } else {
        assert h[k] == h[8 + |x|..e][k - 8 - |x|];
      }
    }
    assert h[e] == h[e..e + 3][0];
    RunEndAt(h, 8, e);
  }

  /** A line matches only as a heading with a non-empty subdomain and target without whitespace. */
  lemma MatchIsHeading(line: string)
    requires LineMatch(line).Some?
    ensures var (x, y) := LineMatch(line).value;
      && line == Heading(x, y)
      && x != [] && NoWhitespace(x) && y != [] && NoWhitespace(y)
  {
    var e := RunEnd(line, 8);
    var (x, y) := LineMatch(line).value;
    assert line == line[..8] + line[8..e - 9] + line[e - 9..e] + line[e..e + 3] + line[e + 3..];
    forall k | 0 <= k < |x| ensures !IsWhitespace(x[k]) {
      assert x[k] == line[8 + k];
    }
  }

  /** The subdomains of the matching lines, in order. */
  function ScanKeys(lines: seq<string>): seq<string> {
    if |lines| == 0 then []
    else (if LineMatch(lines[0]).Some? then [LineMatch(lines[0]).value.0] else []) + ScanKeys(lines[1..])
  }

  /** `[...body.matchAll(reg)].map(match => match[1])` */
  function BadNames(body: string): seq<string> {
    ScanKeys(Lines(body))
  }

  /** The scan of joined line lists is the joined scans. */
  lemma {:induction false} ScanAppend(a: seq<string>, b: seq<string>)
    ensures ScanKeys(a + b) == ScanKeys(a) + ScanKeys(b)
  {
    if |a| == 0 {
      assert a + b == b;
    } else {
      assert (a + b)[0] == a[0];
      assert (a + b)[1..] == a[1..] + b;
      ScanAppend(a[1..], b);
    }
  }

  /** A name is found exactly when some line matches with it as its subdomain, and at most one name per line. */
  lemma {:induction false} ScanMembers(lines: seq<string>)
    ensures |ScanKeys(lines)| <= |lines|
    ensures forall k :: k in ScanKeys(lines) <==> exists j :: 0 <= j < |lines| && LineMatch(lines[j]) != None && LineMatch(lines[j]).value.0 == k
  {
    if |lines| > 0 {
      ScanMembers(lines[1..]);
      forall k ensures k in ScanKeys(lines) <==> exists j :: 0 <= j < |lines| && LineMatch(lines[j]) != None && LineMatch(lines[j]).value.0 == k {
        if k in ScanKeys(lines[1..]) {
          var j :| 0 <= j < |lines[1..]| && LineMatch(lines[1..][j]) != None && LineMatch(lines[1..][j]).value.0 == k;
          assert lines[1..][j] == lines[j + 1];
        }
        if exists j :: 0 <= j < |lines| && LineMatch(lines[j]) != None && LineMatch(lines[j]).value.0 == k {
          var j :| 0 <= j < |lines| && LineMatch(lines[j]) != None && LineMatch(lines[j]).value.0 == k;
          if j > 0 {
            assert lines[1..][j - 1] == lines[j];
          }
        }
      }
    }
  }

  // ---------------------------------------------------------------
  // Round trip
  // ---------------------------------------------------------------

  /** What an item can hold so that it reads back: a subdomain and target the pattern accepts, and one-line texts. */
  predicate Listable(cname: string, e: Entry) {
    && cname != [] && NoWhitespace(cname) && e.target != [] && NoWhitespace(e.target)
    && NoLineTerminator(Shown(e.http)) && NoLineTerminator(Shown(e.https))
    && (e.issue.Some? ==> NoLineTerminator(e.issue.value.htmlUrl))
  }

  /** The lines of an item. */
  function ItemLines(cname: string, e: Entry): seq<string> {
    [Heading(cname, e.target)]
    + (if e.issue.Some? then [IssueLine(e.issue.value.htmlUrl)] else [])
    + [HttpLine(cname, e), HttpsLine(cname, e)]
  }

  lemma NoLineTerminatorAppend(a: string, b: string)
    requires NoLineTerminator(a) && NoLineTerminator(b)
    ensures NoLineTerminator(a + b)
  {
    forall k | 0 <= k < |a + b| ensures !IsLineTerminator((a + b)[k]) {
      if k >= |a| {
        assert (a + b)[k] == b[k - |a|];
      }
    }
  }

  lemma NoWhitespaceLine(s: string)
    requires NoWhitespace(s)
    ensures NoLineTerminator(s)
  {
    forall k | 0 <= k < |s| ensures !IsLineTerminator(s[k]) {
      assert !IsWhitespace(s[k]);
    }
  }

  /** Each line of a listable item is free of line terminators. */
  lemma ItemLinesOneLine(cname: string, e: Entry)
    requires Listable(cname, e)
    ensures NoLineTerminator(Heading(cname, e.target))
    ensures e.issue.Some? ==> NoLineTerminator(IssueLine(e.issue.value.htmlUrl))
    ensures NoLineTerminator(HttpLine(cname, e)) && NoLineTerminator(HttpsLine(cname, e))
  {
    NoWhitespaceLine(cname);
    NoWhitespaceLine(e.target);
    NoLineTerminatorAppend("- [ ] **", cname);
    NoLineTerminatorAppend("- [ ] **" + cname, ".js.org** > ");
    NoLineTerminatorAppend("- [ ] **" + cname + ".js.org** > ", e.target);
    if e.issue.Some? {
      NoLineTerminatorAppend("  Issue: ", e.issue.value.htmlUrl);
    }
    NoLineTerminatorAppend("  [HTTP](http://", cname);
    NoLineTerminatorAppend("  [HTTP](http://" + cname, ".js.org): `");
    NoLineTerminatorAppend("  [HTTP](http://" + cname + ".js.org): `", Shown(e.http));
    NoLineTerminatorAppend("  [HTTP](http://" + cname + ".js.org): `" + Shown(e.http), "`");
    NoLineTerminatorAppend("  [HTTPS](https://", cname);
    NoLineTerminatorAppend("  [HTTPS](https://" + cname, ".js.org): `");
    NoLineTerminatorAppend("  [HTTPS](https://" + cname + ".js.org): `", Shown(e.https));
    NoLineTerminatorAppend("  [HTTPS](https://" + cname + ".js.org): `" + Shown(e.https), "`");
  }

  /** Three one-line texts joined at newlines are three lines. */
  lemma ThreeLines(h: string, p: string, q: string)
    requires NoLineTerminator(h) && NoLineTerminator(p) && NoLineTerminator(q)
    ensures Lines(h + "\n" + p + "\n" + q) == [h, p, q]
  {
    LinesNone(h);
    LinesNone(p);
    LinesNone(q);
    LinesNewline(h, p);
    LinesNewline(h + "\n" + p, q);
  }

  /** Four one-line texts joined at newlines are four lines. */
  lemma FourLines(h: string, u: string, p: string, q: string)
    requires NoLineTerminator(h) && NoLineTerminator(u) && NoLineTerminator(p) && NoLineTerminator(q)
    ensures Lines(h + ("\n" + u) + "\n" + p + "\n" + q) == [h, u, p, q]
  {
    LinesNone(h);
    LinesNone(u);
    LinesNone(p);
    LinesNone(q);
    assert h + ("\n" + u) == h + "\n" + u;
    LinesNewline(h, u);
    LinesNewline(h + "\n" + u, p);
    LinesNewline(h + "\n" + u + "\n" + p, q);
  }

  /** A listable item is its heading, the Issue line when there is an issue, then the HTTP and HTTPS lines. */
  lemma ItemLinesOf(cname: string, e: Entry)
    requires Listable(cname, e)
    ensures Lines(Item(cname, e)) == ItemLines(cname, e)
  {
    ItemLinesOneLine(cname, e);
    var h, p, q := Heading(cname, e.target), HttpLine(cname, e), HttpsLine(cname, e);
    if e.issue.Some? {
      var u := IssueLine(e.issue.value.htmlUrl);
      assert Item(cname, e) == h + ("\n" + u) + "\n" + p + "\n" + q;
      FourLines(h, u, p, q);
    } else {
      assert Item(cname, e) == h + "" + "\n" + p + "\n" + q;
      assert h + "" == h;
      ThreeLines(h, p, q);
    }
  }

  /** A line that starts with two spaces does not match. */
  predicate Indented(line: string) {
    |line| >= 2 && line[0] == ' ' && line[1] == ' '
  }

  lemma IndentedNone(line: string)
    requires Indented(line)
    ensures LineMatch(line) == None
  {
    if |line| >= 8 {
      assert line[..8][0] == ' ';
    }
  }

  /** Lines that all start with two spaces yield no names. */
  lemma {:induction false} IndentedScan(lines: seq<string>)
    requires forall j :: 0 <= j < |lines| ==> Indented(lines[j])
    ensures ScanKeys(lines) == []
  {
    if |lines| > 0 {
      IndentedNone(lines[0]);
      IndentedScan(lines[1..]);
    }
  }

  /** The lines after the heading of an item. */
  function ItemTail(cname: string, e: Entry): seq<string> {
    (if e.issue.Some? then [IssueLine(e.issue.value.htmlUrl)] else []) + [HttpLine(cname, e), HttpsLine(cname, e)]
  }

  lemma ItemTailIndented(cname: string, e: Entry)
    ensures forall j :: 0 <= j < |ItemTail(cname, e)| ==> Indented(ItemTail(cname, e)[j])
  {
    assert Indented(HttpLine(cname, e)) by {
      var l := HttpLine(cname, e);
      assert l[0] == ' ' && l[1] == ' ';
    }
    assert Indented(HttpsLine(cname, e)) by {
      var l := HttpsLine(cname, e);
      assert l[0] == ' ' && l[1] == ' ';
    }
    if e.issue.Some? {
      var l := IssueLine(e.issue.value.htmlUrl);
      assert l[0] == ' ' && l[1] == ' ';
    }
  }

  /** The scan of a listable item finds exactly its subdomain. */
  lemma ItemScan(cname: string, e: Entry)
    requires Listable(cname, e)
    ensures BadNames(Item(cname, e)) == [cname]
  {
    ItemLinesOf(cname, e);
    HeadingMatches(cname, e.target);
    assert ItemLines(cname, e) == [Heading(cname, e.target)] + ItemTail(cname, e);
    ScanAppend([Heading(cname, e.target)], ItemTail(cname, e));
    ItemTailIndented(cname, e);
    IndentedScan(ItemTail(cname, e));
    assert ScanKeys([Heading(cname, e.target)]) == [cname] + ScanKeys([]);
  }

  /** Joining items at newlines and scanning the text gives the subdomains of the items, in order. */
  lemma {:induction false} JoinedScan(list: seq<string>, names: seq<string>, f: map<string, Entry>)
    requires |list| == |names| > 0
    requires forall j :: 0 <= j < |list| ==> names[j] in f && Listable(names[j], f[names[j]]) && list[j] == Item(names[j], f[names[j]])
    ensures BadNames(Join(list, "\n")) == names
    decreases |list|
  {
    ItemScan(names[0], f[names[0]]);
    if |list| == 1 {
      assert names == [names[0]];
    } else {
      var rest := Join(list[1..], "\n");
      assert Join(list, "\n") == list[0] + "\n" + rest;
      JoinedScan(list[1..], names[1..], f);
      LinesNewline(list[0], rest);
      ScanAppend(Lines(list[0]), Lines(rest));
      assert names == [names[0]] + names[1..];
    }
  }

  /**
   * Scanning the list of `cnames`, joined at newlines, recovers its keys in
   * order, when every key and target is one the pattern accepts and the
   * probe results and issue links are one line each.
   */
  lemma ListRoundTrip(cnames: Registry, list: seq<string>)
    requires cnames.Valid()
    requires forall k :: k in cnames.values ==> Listable(k, cnames.values[k])
    requires |list| == |cnames.Keys()|
    requires forall j :: 0 <= j < |list| ==> cnames.Keys()[j] in cnames.values && list[j] == Item(cnames.Keys()[j], cnames.values[cnames.Keys()[j]])
    ensures BadNames(Join(list, "\n")) == cnames.Keys()
  {
    if cnames.Keys() == [] {
      assert LineMatch("") == None;
    } else {
      JoinedScan(list, cnames.Keys(), cnames.values);
    }
  }

  // ---------------------------------------------------------------
  // parseIssueEntries
  // ---------------------------------------------------------------

  /** The `parseIssueCNAMEs` cache: issue number → names found. */
  type ScanCache = map<int, seq<string>>

  /**
   * `parseIssueEntries`: a cached issue number returns its names and writes
   * nothing; otherwise the body `fetch` returns is scanned and the cache,
   * or `{}` when there is none, is written back with that issue's names.
   */
  method ParseIssueEntries(issueNumber: int, cache: Option<ScanCache>, fetch: int -> string)
    returns (names: seq<string>, written: Option<ScanCache>)
    ensures cache.Some? && issueNumber in cache.value ==> names == cache.value[issueNumber] && written == None
    ensures !(cache.Some? && issueNumber in cache.value) ==>
      && names == BadNames(fetch(issueNumber))
      && written == Some((if cache.Some? then cache.value else map[])[issueNumber := names])
  {
    var c := if cache.Some? then cache.value else map[];
    if issueNumber in c {
      return c[issueNumber], None;
    }
    var body := fetch(issueNumber);
    names := BadNames(body);
    c := c[issueNumber := names];
    written := Some(c);
  }
}
