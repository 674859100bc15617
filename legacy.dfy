/**
 * The two older readers of cnames_active.js: `getCNAMEs` of src/cnames.js
 * and of the root cnames.js. Both run one global regular expression over
 * the whole file with `exec` and store every match as it was written
 * (no normalisation), a later match of the same key replacing an earlier
 * one. They differ only in the third group: src/cnames.js accepts a
 * `// noCF` comment and renders it, the root reader takes whatever text
 * follows the value and keeps it raw. The src generator also folds keys to
 * lower case before laying the file out like the current generator.
 */
module Legacy {
  import opened Wrappers
  import opened Text
  import opened JsObjects
  import opened Entries
  import opened Grammar
  import Generate

  /** src/cnames.js (a rendered `// noCF` group) or the root cnames.js (any trailing text, kept raw). */
  datatype Dialect = Marked | Raw

  /** The first line terminator at or after `i`, or `|s|`: no part of a match but its last `\n` crosses one. */
  function LineBreak(s: string, i: nat): (n: nat)
    requires i <= |s|
    ensures i <= n <= |s|
    ensures forall k :: i <= k < n ==> !IsLineTerminator(s[k])
    ensures n < |s| ==> IsLineTerminator(s[n])
    decreases |s| - i
  {
    if i < |s| && !IsLineTerminator(s[i]) then LineBreak(s, i + 1) else i
  }

  /**
   * `[ \t]*,?[ \t]*(.+)?[ \t]*` over a line's remainder: it always matches,
   * and the group is everything after the comma and blanks, when anything is left.
   */
  function RawTail(r: string): (m: Option<Option<string>>)
    ensures m.Some?
    ensures m.value.Some? ==> m.value.value != "" && !IsBlank(m.value.value[0])
    ensures m.value.Some? ==> EndsWith(r, m.value.value)
    ensures m.value.None? ==> forall i :: 0 <= i < |r| ==> IsBlank(r[i]) || r[i] == ','
  {
    var c := GroupStart(r);
    if c == |r| then Some(None) else Some(Some(r[c..]))
  }

  /** Where the third group can start: past `[ \t]*,?[ \t]*`. */
  function GroupStart(r: string): (c: nat)
    ensures c <= |r|
    ensures forall i :: 0 <= i < c ==> IsBlank(r[i]) || r[i] == ','
    ensures c < |r| ==> !IsBlank(r[c])
  {
    var a := SkipBlanks(r, 0);
    var b := if a < |r| && r[a] == ',' then a + 1 else a;
    SkipBlanks(r, b)
  }

  /** The part of the pattern after the value's closing quote, up to the `\n`. */
  function TailOf(d: Dialect, r: string): Option<Option<string>> {
    match d
    case Marked => MatchTail(r)
    case Raw => RawTail(r)
  }

  /** A quote at `j` can close the value of a line that breaks at `t`. */
  predicate ValueClosesAt(s: string, d: Dialect, j: int, t: nat) {
    0 <= j < t <= |s| && IsQuote(s[j]) && TailOf(d, s[j + 1..t]).Some?
  }

  /** The greedy `(.*)["']` of the value: the largest closing quote in `[v0, j]`. */
  function ValueClose(s: string, d: Dialect, v0: nat, j: int, t: nat): (r: Option<nat>)
    ensures r.Some? ==> v0 <= r.value <= j && ValueClosesAt(s, d, r.value, t)
  {
    LastWhere(ValueCloser(s, d, t), v0, j)
  }

  function ValueCloser(s: string, d: Dialect, t: nat): int -> bool {
    j => ValueClosesAt(s, d, j, t)
  }

  /** Where the value opens after a key that closes at `c`: past `[ \t]*:[ \t]*["']`, on the line that breaks at `t`. */
  function ValueOpen(s: string, c: nat, t: nat): (v: Option<nat>)
    requires c < t <= |s|
    ensures v.Some? ==> c + 1 < v.value <= t && IsQuote(s[v.value - 1])
  {
    var e := SkipBlanks(s, c + 1);
    if e < t && s[e] == ':' then
      var f := SkipBlanks(s, e + 1);
      if f < t && IsQuote(s[f]) then Some(f + 1) else None
    else None
  }

  /** A quote at `c` can close the key: the colon, the value's quotes and the tail follow on the same line. */
  predicate KeyClosesAt(s: string, d: Dialect, c: int, t: nat) {
    && 0 <= c < t <= |s|
    && IsQuote(s[c])
    && ValueOpen(s, c, t).Some?
    && ValueClose(s, d, ValueOpen(s, c, t).value, t - 1, t).Some?
  }

  /** The greedy `(.*)["']` of the key: the largest closing quote in `[k0, c]` after which the rest matches. */
  function KeyClose(s: string, d: Dialect, k0: nat, c: int, t: nat): (r: Option<nat>)
    ensures r.Some? ==> k0 <= r.value <= c && KeyClosesAt(s, d, r.value, t)
  {
    LastWhere(KeyCloser(s, d, t), k0, c)
  }

  function KeyCloser(s: string, d: Dialect, t: nat): int -> bool {
    c => KeyClosesAt(s, d, c, t)
  }

  /** What one `exec` gives: the three groups, the text after the value, and the next `lastIndex`. */
  datatype Hit = Hit(key: string, value: string, tail: string, group: Option<string>, next: nat)

  /** What every match satisfies: no group crosses a line, and the group comes from the tail. */
  predicate WellFormed(d: Dialect, h: Hit) {
    && NoLineTerminator(h.key) && NoLineTerminator(h.value) && NoLineTerminator(h.tail)
    && TailOf(d, h.tail) == Some(h.group)
  }

  /** The match that starts at `p`, if the pattern matches there. */
  function MatchAt(s: string, d: Dialect, p: nat): (r: Option<Hit>)
    requires p <= |s|
    ensures r.Some? ==> p < r.value.next <= |s| && s[r.value.next - 1] == '\n'
    ensures r.Some? ==> WellFormed(d, r.value)
  {
    var a := SkipBlanks(s, p);
    var t := LineBreak(s, a);
    if a == t || !IsQuote(s[a]) || t == |s| || s[t] != '\n' then None
    else MatchLine(s, d, a, t)
  }

  /** The rest of a match whose opening quote is at `a`, on a line that breaks at `t`. */
  function MatchLine(s: string, d: Dialect, a: nat, t: nat): (r: Option<Hit>)
    requires a < t < |s|
    requires forall k :: a <= k < t ==> !IsLineTerminator(s[k])
    ensures r.Some? ==> r.value.next == t + 1 && WellFormed(d, r.value)
  {
    match KeyClose(s, d, a + 1, t - 1, t)
    case None => None
    case Some(c) =>
      var v0 := ValueOpen(s, c, t).value;
      var j := ValueClose(s, d, v0, t - 1, t).value;
      Some(HitAt(s, d, a + 1, c, v0, j, t))
  }

  /** The groups of a match whose key spans `[k0, c)`, whose value spans `[v0, j)` and whose line breaks at `t`. */
  function HitAt(s: string, d: Dialect, k0: nat, c: nat, v0: nat, j: nat, t: nat): (h: Hit)
    requires k0 <= c < v0 <= j && ValueClosesAt(s, d, j, t) && t < |s|
    requires forall k :: k0 <= k < t ==> !IsLineTerminator(s[k])
    ensures WellFormed(d, h) && h.next == t + 1
  {
    var tail := s[j + 1..t];
    Hit(s[k0..c], s[v0..j], tail, TailOf(d, tail).value, t + 1)
  }

  /** The smallest `i` in `[lo, hi]` with `p(i)`, or `hi + 1`: where the leftmost match starts. */
  function FirstWhere(p: int -> bool, lo: nat, hi: int): (r: nat)
    ensures lo <= r && (r <= hi ==> p(r)) && (lo <= hi + 1 ==> r <= hi + 1)
    decreases hi - lo + 1
  {
    if hi < lo then lo
    else if p(lo) then lo
    else FirstWhere(p, lo + 1, hi)
  }

  lemma {:induction false} FirstWhereIsFirst(p: int -> bool, lo: nat, hi: int)
    ensures forall i :: lo <= i < FirstWhere(p, lo, hi) ==> !p(i)
    decreases hi - lo + 1
  {
    if lo <= hi && !p(lo) {
      FirstWhereIsFirst(p, lo + 1, hi);
    }
  }

  function Starts(s: string, d: Dialect): int -> bool {
    q => 0 <= q <= |s| && MatchAt(s, d, q).Some?
  }

  /** The leftmost start at or after `from` where the pattern matches, or `|s| + 1`. */
  function FirstMatch(s: string, d: Dialect, from: nat): (p: nat)
    requires from <= |s|
    ensures from <= p <= |s| + 1
    ensures p <= |s| ==> MatchAt(s, d, p).Some?
  {
    FirstWhere(Starts(s, d), from, |s|)
  }

  /** `reg.exec(file)` with `reg.lastIndex == from`: the leftmost match, or `null`. */
  function Exec(s: string, d: Dialect, from: nat): (r: Option<Hit>)
    ensures r.Some? ==> from < r.value.next <= |s| && WellFormed(d, r.value)
  {
    if from > |s| then None
    else
      var p := FirstMatch(s, d, from);
      if p <= |s| then MatchAt(s, d, p) else None
  }

  /** Every match of the global pattern, in the order `exec` finds them. */
  function Hits(s: string, d: Dialect, from: nat): seq<Hit>
    decreases |s| + 1 - from
  {
    match Exec(s, d, from)
    case None => []
    case Some(h) => [h] + Hits(s, d, h.next)
  }

  /** The record one match stores: the value verbatim and the dialect's noCF. */
  function Stored(d: Dialect, h: Hit): Entry {
    match d
    case Marked => Record(h.value, RenderedMarker(h.group))
    case Raw => Record(h.value, h.group)
  }

  function Pairs(d: Dialect, hs: seq<Hit>): (ps: seq<(string, Entry)>)
    ensures |ps| == |hs|
    ensures forall i :: 0 <= i < |hs| ==> ps[i] == (hs[i].key, Stored(d, hs[i]))
  {
    seq(|hs|, i requires 0 <= i < |hs| => (hs[i].key, Stored(d, hs[i])))
  }

  /** The registry the `exec` loop leaves, continuing from `lastIndex == from` with `acc` built so far. */
  function Scan(s: string, d: Dialect, from: nat, acc: Registry): (r: Registry)
    requires acc.Valid()
    ensures r.Valid()
    decreases |s| + 1 - from
  {
    match Exec(s, d, from)
    case None => acc
    case Some(h) => Scan(s, d, h.next, acc.Set(h.key, Stored(d, h)))
  }

  /**
   * `getCNAMEs(file)`: a cached registry is returned as it is; otherwise
   * the `exec` loop stores each match in turn. Fetching the file and
   * saving the result to the cache are left to the caller.
   */
  method GetCNAMEs(d: Dialect, cache: Option<Registry>, file: string) returns (cnames: Registry)
    ensures cache.Some? ==> cnames == cache.value
    ensures cache.None? ==> cnames == Scan(file, d, 0, Empty())
  {
    if cache.Some? {
      return cache.value;
    }
    cnames := Empty();
    var last: nat := 0;
    var m := Exec(file, d, last);
    while m.Some?
      invariant cnames.Valid()
      invariant m == Exec(file, d, last)
      invariant Scan(file, d, last, cnames) == Scan(file, d, 0, Empty())
      decreases |file| + 1 - last
    {
      var h := m.value;
      cnames := cnames.Set(h.key, Stored(d, h));
      last := h.next;
      m := Exec(file, d, last);
    }
  }

  lemma {:induction false} HitsNext(s: string, d: Dialect, from: nat)
    requires Exec(s, d, from).Some?
    ensures Hits(s, d, from) == [Exec(s, d, from).value] + Hits(s, d, Exec(s, d, from).value.next)
  {
  }

  lemma {:induction false} HitsEnd(s: string, d: Dialect, from: nat)
    requires Exec(s, d, from).None?
    ensures Hits(s, d, from) == []
  {
  }

  lemma {:induction false} AppendAssoc<T>(a: seq<T>, b: seq<T>, c: seq<T>)
    ensures a + b + c == a + (b + c)
  {
  }

  lemma {:induction false} PairsAppend(d: Dialect, a: seq<Hit>, b: seq<Hit>)
    ensures Pairs(d, a + b) == Pairs(d, a) + Pairs(d, b)
  {
  }

  /** The loop stores the matches in the order `exec` finds them: the rest of the scan assigns the rest of the hits. */
  lemma {:induction false} ScanAssigns(s: string, d: Dialect, from: nat, ps: seq<(string, Entry)>)
    ensures Scan(s, d, from, Assign(ps)) == Assign(ps + Pairs(d, Hits(s, d, from)))
    decreases |s| + 1 - from
  {
    match Exec(s, d, from)
    case None =>
      HitsEnd(s, d, from);
      assert ps + Pairs(d, []) == ps;
    case Some(h) =>
      HitsNext(s, d, from);
      var p := (h.key, Stored(d, h));
      AssignSnoc(ps, p);
      ScanAssigns(s, d, h.next, ps + [p]);
      var rest := Pairs(d, Hits(s, d, h.next));
      PairsAppend(d, [h], Hits(s, d, h.next));
      assert Pairs(d, [h]) == [p];
      AppendAssoc(ps, [p], rest);
  }

  // ---------------------------------------------------------------
  // Last assignment wins
  // ---------------------------------------------------------------

  /** `r` holds exactly the keys of the matches `hs`, each with the value and comment of its last match. */
  ghost predicate LastWins(d: Dialect, hs: seq<Hit>, r: Registry) {
    && (forall k :: k in r.values <==> exists i :: 0 <= i < |hs| && hs[i].key == k)
    && (forall i :: 0 <= i < |hs| && (forall j :: i < j < |hs| ==> hs[j].key != hs[i].key) ==>
          hs[i].key in r.values && r.values[hs[i].key] == Stored(d, hs[i]))
  }

  /** The keys the assignments of `hs` build are the matched keys. */
  lemma {:induction false} CollectKeys(d: Dialect, hs: seq<Hit>)
    ensures forall k :: k in Assign(Pairs(d, hs)).values <==> exists i :: 0 <= i < |hs| && hs[i].key == k
  {
    var ps := Pairs(d, hs);
    AssignKeys(ps);
    forall k ensures k in Names(ps) <==> exists i :: 0 <= i < |hs| && hs[i].key == k {
      if k in Names(ps) {
        var i :| 0 <= i < |ps| && ps[i].0 == k;
        assert hs[i].key == k;
      }
      if exists i :: 0 <= i < |hs| && hs[i].key == k {
        var i :| 0 <= i < |hs| && hs[i].key == k;
        assert ps[i].0 == k;
      }
    }
  }

  /** Every key of the registry the assignments of `hs` build was matched, and holds the value and comment of its last match. */
  lemma {:induction false} CollectLastWins(d: Dialect, hs: seq<Hit>)
    ensures LastWins(d, hs, Assign(Pairs(d, hs)))
  {
    var ps := Pairs(d, hs);
    CollectKeys(d, hs);
    forall i | 0 <= i < |hs| && (forall j :: i < j < |hs| ==> hs[j].key != hs[i].key)
      ensures hs[i].key in Assign(ps).values && Assign(ps).values[hs[i].key] == Stored(d, hs[i])
    {
      AssignLastWins(ps, i);
    }
  }

  /** What `getCNAMEs` leaves: exactly the matched keys, each with the verbatim value and comment of its last match. */
  lemma {:induction false} ScanLastWins(file: string, d: Dialect)
    ensures LastWins(d, Hits(file, d, 0), Scan(file, d, 0, Empty()))
  {
    var e: seq<(string, Entry)> := [];
    ScanAssigns(file, d, 0, e);
    assert e + Pairs(d, Hits(file, d, 0)) == Pairs(d, Hits(file, d, 0));
    CollectLastWins(d, Hits(file, d, 0));
  }

  // ---------------------------------------------------------------
  // The greedy groups and the leftmost start
  // ---------------------------------------------------------------

  /** The value's closing quote is the last one on the line after which the tail matches. */
  lemma {:induction false} ValueCloseIsLast(s: string, d: Dialect, v0: nat, j: int, t: nat)
    ensures var r := ValueClose(s, d, v0, j, t);
      && (r.Some? ==> forall i :: r.value < i <= j ==> !ValueClosesAt(s, d, i, t))
      && (r.None? ==> forall i :: v0 <= i <= j ==> !ValueClosesAt(s, d, i, t))
  {
    var p := ValueCloser(s, d, t);
    var r := ValueClose(s, d, v0, j, t);
    LastWhereIsLast(p, v0, j);
    if r.Some? {
      forall i | r.value < i <= j ensures !ValueClosesAt(s, d, i, t) {
        assert !p(i);
      }
    } else {
      forall i | v0 <= i <= j ensures !ValueClosesAt(s, d, i, t) {
        assert !p(i);
      }
    }
  }

  /** The key's closing quote is the last one on the line after which the rest of the pattern matches. */
  lemma {:induction false} KeyCloseIsLast(s: string, d: Dialect, k0: nat, c: int, t: nat)
    ensures var r := KeyClose(s, d, k0, c, t);
      && (r.Some? ==> forall i :: r.value < i <= c ==> !KeyClosesAt(s, d, i, t))
      && (r.None? ==> forall i :: k0 <= i <= c ==> !KeyClosesAt(s, d, i, t))
  {
    var p := KeyCloser(s, d, t);
    var r := KeyClose(s, d, k0, c, t);
    LastWhereIsLast(p, k0, c);
    if r.Some? {
      forall i | r.value < i <= c ensures !KeyClosesAt(s, d, i, t) {
        assert !p(i);
      }
    } else {
      forall i | k0 <= i <= c ensures !KeyClosesAt(s, d, i, t) {
        assert !p(i);
      }
    }
  }

  /** No match starts between `lastIndex` and the match `exec` returns, and `null` means none starts at all. */
  lemma ExecIsLeftmost(s: string, d: Dialect, from: nat)
    requires from <= |s|
    ensures forall q :: from <= q < FirstMatch(s, d, from) && q <= |s| ==> MatchAt(s, d, q).None?
    ensures Exec(s, d, from).Some? ==> FirstMatch(s, d, from) <= |s| && Exec(s, d, from) == MatchAt(s, d, FirstMatch(s, d, from))
    ensures Exec(s, d, from).None? ==> forall q :: from <= q <= |s| ==> MatchAt(s, d, q).None?
  {
    var p := Starts(s, d);
    FirstWhereIsFirst(p, from, |s|);
    forall q | from <= q < FirstMatch(s, d, from) && q <= |s| ensures MatchAt(s, d, q).None? {
      assert !p(q);
    }
  }

  // ---------------------------------------------------------------
  // What is stored
  // ---------------------------------------------------------------

  lemma {:induction false} MatchTailGroup(r: string)
    requires MatchTail(r).Some? && MatchTail(r).value.Some?
    ensures MarkerAt(r, GroupStart(r)) && MatchTail(r).value.value == r[GroupStart(r)..]
  {
  }

  /**
   * src/cnames.js keeps the value verbatim; a matched `// noCF` group is
   * rendered (`RenderMarker`), and no group leaves no tag.
   */
  lemma {:induction false} MarkedStored(h: Hit)
    requires WellFormed(Marked, h)
    ensures Stored(Marked, h).target == h.value
    ensures Stored(Marked, h).noCF.Some? <==> h.group.Some?
    ensures h.group.Some? ==>
      && MarkerAt(h.tail, GroupStart(h.tail))
      && h.group.value == h.tail[GroupStart(h.tail)..]
      && Stored(Marked, h).noCF == Some(RenderMarker(h.group.value))
  {
    if h.group.Some? {
      MatchTailGroup(h.tail);
    }
  }

  predicate AllSpaces(s: string) {
    forall i :: 0 <= i < |s| ==> s[i] == ' '
  }

  /**
   * A marker group is `//`, spaces, the tag in any case and a free comment:
   * the shape `RenderMarkerKeepsComment` turns into `// noCF` and the
   * comment trimmed at its end.
   */
  lemma {:induction false} MarkerSplit(r: string) returns (spaces: string, tag: string, comment: string)
    requires MarkerAt(r, GroupStart(r))
    ensures r[GroupStart(r)..] == "//" + spaces + tag + comment
    ensures AllSpaces(spaces) && |tag| == 4 && EqualsIgnoreCase(tag, "nocf")
    ensures comment == MarkerComment(r)
  {
    var c := GroupStart(r);
    var e := SkipSpaces(r, c + 2);
    spaces, tag, comment := r[c + 2..e], r[e..e + 4], r[e + 4..];
    assert r[c..c + 2] == "//";
    assert r[c..] == r[c..c + 2] + spaces + tag + comment;
  }

  /** The free comment of a marker group: what follows the tag. */
  function MarkerComment(r: string): string
    requires MarkerAt(r, GroupStart(r))
  {
    r[SkipSpaces(r, GroupStart(r) + 2) + 4..]
  }

  /** The stored tag of a marked line is `// noCF` and the comment after the tag, trimmed at its end. */
  lemma {:induction false} MarkedComment(h: Hit)
    requires WellFormed(Marked, h) && h.group.Some?
    ensures MarkerAt(h.tail, GroupStart(h.tail))
    ensures Stored(Marked, h).noCF == Some(ForcedMarker + TrimEnd(MarkerComment(h.tail)))
  {
    MarkedStored(h);
    var spaces, tag, comment := MarkerSplit(h.tail);
    RenderMarkerKeepsComment(spaces, tag, comment);
  }

  /** The root cnames.js keeps the value verbatim and whatever text follows it, blanks included, as the noCF tag. */
  lemma {:induction false} RawStored(h: Hit)
    requires WellFormed(Raw, h)
    ensures Stored(Raw, h).target == h.value
    ensures Stored(Raw, h).noCF.None? ==> forall i :: 0 <= i < |h.tail| ==> IsBlank(h.tail[i]) || h.tail[i] == ','
    ensures Stored(Raw, h).noCF.Some? ==> EndsWith(h.tail, Stored(Raw, h).noCF.value) && !IsBlank(Stored(Raw, h).noCF.value[0])
  {
  }

  // ---------------------------------------------------------------
  // src/cnames.js generateCNAMEsFile: keys folded to lower case
  // ---------------------------------------------------------------

  /** `Object.entries(cnames).map(([k, v]) => [k.toLowerCase(), v])` */
  function LoweredEntries(cnames: Registry): (ps: seq<(string, Entry)>)
    requires cnames.Valid()
    ensures |ps| == |cnames.Keys()|
    ensures forall i :: 0 <= i < |ps| ==> cnames.Keys()[i] in cnames.values && ps[i] == (Lower(cnames.Keys()[i]), cnames.values[cnames.Keys()[i]])
  {
    var ks := cnames.Keys();
    seq(|ks|, i requires 0 <= i < |ks| => (Lower(ks[i]), cnames.values[ks[i]]))
  }

  /** `Object.fromEntries(…)` of the lowered entries: keys that are equal up to case collapse, the later one winning. */
  function LowerKeys(cnames: Registry): (r: Registry)
    requires cnames.Valid()
    ensures r.Valid()
  {
    Assign(LoweredEntries(cnames))
  }

  /**
   * `generateCNAMEsFile` of src/cnames.js: the current layout, over the
   * registry with lowered keys. Fetching a missing file is left to the caller.
   */
  method GenerateCNAMEsFile(cnames: Registry, file: string) returns (r: Option<string>)
    requires cnames.Valid()
    ensures r == Generate.GenerateText(LowerKeys(cnames), file)
  {
    r := Generate.GenerateCNAMEsFile(LowerKeys(cnames), file);
  }

  lemma LoweredNameFrom(cnames: Registry, k: string)
    requires cnames.Valid() && k in Names(LoweredEntries(cnames))
    ensures exists x :: x in cnames.values && Lower(x) == k
  {
    var ps := LoweredEntries(cnames);
    var i :| 0 <= i < |ps| && ps[i].0 == k;
    assert cnames.Keys()[i] in cnames.values;
  }

  lemma LoweredNameTo(cnames: Registry, x: string)
    requires cnames.Valid() && x in cnames.values
    ensures Lower(x) in Names(LoweredEntries(cnames))
  {
    var ks := cnames.Keys();
    var ps := LoweredEntries(cnames);
    KeysAreTheDomain(cnames);
    var i := IndexOf(ks, x);
    assert ps[i].0 == Lower(x);
  }

  /** The lowered registry has exactly the lowered names as keys. */
  lemma LowerKeysNames(cnames: Registry)
    requires cnames.Valid()
    ensures forall k :: k in LowerKeys(cnames).values <==> exists x :: x in cnames.values && Lower(x) == k
  {
    var ps := LoweredEntries(cnames);
    AssignKeys(ps);
    forall k ensures k in Names(ps) <==> exists x :: x in cnames.values && Lower(x) == k {
      if k in Names(ps) {
        LoweredNameFrom(cnames, k);
      }
      if exists x :: x in cnames.values && Lower(x) == k {
        var x :| x in cnames.values && Lower(x) == k;
        LoweredNameTo(cnames, x);
      }
    }
  }

  /** Keys equal up to case collapse into one, which holds the entry of the last of them in enumeration order. */
  lemma {:induction false} LowerKeysLastWins(cnames: Registry)
    requires cnames.Valid()
    ensures var ks := cnames.Keys();
      forall i :: 0 <= i < |ks| && (forall j :: i < j < |ks| ==> Lower(ks[j]) != Lower(ks[i])) ==>
        Lower(ks[i]) in LowerKeys(cnames).values && LowerKeys(cnames).values[Lower(ks[i])] == cnames.values[ks[i]]
  {
    var ks := cnames.Keys();
    var ps := LoweredEntries(cnames);
    forall i | 0 <= i < |ks| && (forall j :: i < j < |ks| ==> Lower(ks[j]) != Lower(ks[i]))
      ensures Lower(ks[i]) in LowerKeys(cnames).values && LowerKeys(cnames).values[Lower(ks[i])] == cnames.values[ks[i]]
    {
      AssignLastWins(ps, i);
    }
  }

  /** Lowering keys that are already lower case keeps every entry, stated by position in `Object.keys`. */
  lemma {:induction false} LowerKeysAgreeAt(cnames: Registry)
    requires cnames.Valid()
    requires forall k :: k in cnames.values ==> Lower(k) == k
    ensures var ks := cnames.Keys();
      forall i :: 0 <= i < |ks| ==> ks[i] in LowerKeys(cnames).values && LowerKeys(cnames).values[ks[i]] == cnames.values[ks[i]]
  {
    var ks := cnames.Keys();
    KeysIndexed(cnames);
    LowerKeysLastWins(cnames);
    forall i | 0 <= i < |ks| ensures ks[i] in LowerKeys(cnames).values && LowerKeys(cnames).values[ks[i]] == cnames.values[ks[i]] {
      assert Lower(ks[i]) == ks[i];
      forall j | i < j < |ks| ensures Lower(ks[j]) != Lower(ks[i]) {
        assert Lower(ks[j]) == ks[j];
      }
    }
  }

  /** Lowering keys that are already lower case keeps every entry. */
  lemma {:induction false} LowerKeysAgree(cnames: Registry)
    requires cnames.Valid()
    requires forall k :: k in cnames.values ==> Lower(k) == k
    ensures forall k :: k in cnames.values ==> k in LowerKeys(cnames).values && LowerKeys(cnames).values[k] == cnames.values[k]
  {
    var ks := cnames.Keys();
    LowerKeysAgreeAt(cnames);
    KeysAreTheDomain(cnames);
    forall k | k in cnames.values ensures k in LowerKeys(cnames).values && LowerKeys(cnames).values[k] == cnames.values[k] {
      var i := IndexOf(ks, k);
    }
  }

  /** A registry whose keys are already lower case is laid out exactly as the current generator does. */
  lemma {:induction false} LowercaseGeneratesAsCurrent(cnames: Registry, file: string)
    requires cnames.Valid()
    requires forall k :: k in cnames.values ==> Lower(k) == k
    ensures Generate.GenerateText(LowerKeys(cnames), file) == Generate.GenerateText(cnames, file)
  {
    var low := LowerKeys(cnames);
    LowerKeysNames(cnames);
    LowerKeysAgree(cnames);
    assert low.values.Keys == cnames.values.Keys;
    Generate.GenerateReadsRecords(low, cnames, file);
  }
}
