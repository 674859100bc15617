/**
 * `generateCNAMEsFile` of src/util/cnames.js: take the first two comment
 * blocks of a reference text, sort the keys, and lay the entries out
 * between the two blocks, one per line.
 */
module Generate {
  import opened Wrappers
  import opened Text
  import opened JsObjects
  import opened Entries
  import opened Grammar

  // ---------------------------------------------------------------
  // Comment blocks: `/(\/\*[\S\s]+?\*\/)/g`
  // ---------------------------------------------------------------

  /** The first index at or after `i` where `p` occurs, or `|s|`. */
  function FirstAt(s: string, p: string, i: nat): (j: nat)
    requires i <= |s|
    ensures i <= j <= |s|
    ensures j < |s| ==> OccursAt(s, p, j)
    ensures forall k :: i <= k < j ==> !OccursAt(s, p, k)
    decreases |s| - i
  {
    if i == |s| || OccursAt(s, p, i) then i else FirstAt(s, p, i + 1)
  }

  /**
   * One `exec` from `from`: the start of the match and the index just past
   * it. The match starts at the first comment opener; it ends at the first closer
   * that leaves at least one character inside.
   */
  function FindBlock(s: string, from: nat): (r: Option<(nat, nat)>)
    requires from <= |s|
    ensures r.Some? ==> var (i, e) := r.value;
      && from <= i && i + 5 <= e <= |s|
      && OccursAt(s, "/*", i) && OccursAt(s, "*/", e - 2)
      && (forall k :: from <= k < i ==> !OccursAt(s, "/*", k))
      && (forall k :: i + 3 <= k < e - 2 ==> !OccursAt(s, "*/", k))
    ensures r.None? ==> forall i, m :: from <= i && i + 3 <= m && OccursAt(s, "/*", i) ==> !OccursAt(s, "*/", m)
  {
    var i := FirstAt(s, "/*", from);
    if i + 3 > |s| then None
    else
      var m := FirstAt(s, "*/", i + 3);
      if m == |s| then None
      else Some((i, m + 2))
  }

  /** Every block `exec` finds, in order, starting at `from`. */
  function CommentBlocks(s: string, from: nat): (r: seq<string>)
    requires from <= |s|
    ensures forall b :: b in r ==> 5 <= |b| && StartsWith(b, "/*") && EndsWith(b, "*/")
    decreases |s| - from
  {
    match FindBlock(s, from)
    case None => []
    case Some((i, e)) =>
      BlockShape(s, i, e);
      [s[i..e]] + CommentBlocks(s, e)
  }

  lemma BlockShape(s: string, i: nat, e: nat)
    requires i + 5 <= e <= |s| && OccursAt(s, "/*", i) && OccursAt(s, "*/", e - 2)
    ensures 5 <= |s[i..e]| && StartsWith(s[i..e], "/*") && EndsWith(s[i..e], "*/")
  {
    assert s[i..e][..2] == s[i..i + 2];
    assert s[i..e][|s[i..e]| - 2..] == s[e - 2..e];
  }

  /** The `while ((match = reg.exec(file)) !== null)` loop. */
  method ExtractBlocks(file: string) returns (blocks: seq<string>)
    ensures blocks == CommentBlocks(file, 0)
  {
    blocks := [];
    var lastIndex := 0;
    var match_ := FindBlock(file, lastIndex);
    while match_.Some?
      invariant lastIndex <= |file|
      invariant match_ == FindBlock(file, lastIndex)
      invariant blocks + CommentBlocks(file, lastIndex) == CommentBlocks(file, 0)
      decreases |file| - lastIndex
    {
      var (i, e) := match_.value;
      blocks := blocks + [file[i..e]];
      lastIndex := e;
      match_ := FindBlock(file, lastIndex);
    }
  }

  // ---------------------------------------------------------------
  // Sorting: `cnamesKeys.sort()`
  // ---------------------------------------------------------------

  predicate Sorted(s: seq<string>) {
    forall i, j :: 0 <= i < j < |s| ==> LexLe(s[i], s[j])
  }

  function Insert(x: string, s: seq<string>): (r: seq<string>)
    requires Sorted(s)
    ensures Sorted(r) && multiset(r) == multiset(s) + multiset{x}
  {
    if |s| == 0 then [x]
    else if LexLe(x, s[0]) then
      BelowHead(x, s);
      [x] + s
    else
      LexLeTotal(x, s[0]);
      var t := Insert(x, s[1..]);
      AboveHead(x, s, t);
      [s[0]] + t
  }

  lemma AboveHead(x: string, s: seq<string>, t: seq<string>)
    requires Sorted(s) && |s| > 0 && LexLe(s[0], x)
    requires Sorted(t) && multiset(t) == multiset(s[1..]) + multiset{x}
    ensures Sorted([s[0]] + t) && multiset([s[0]] + t) == multiset(s) + multiset{x}
  {
    assert s == [s[0]] + s[1..];
    forall j | 0 <= j < |t| ensures LexLe(s[0], t[j]) {
      assert t[j] in multiset(t);
      if t[j] != x {
        assert t[j] in multiset(s[1..]);
        var k :| 0 <= k < |s[1..]| && s[1..][k] == t[j];
        assert s[k + 1] == t[j];
      }
    }
  }

  lemma BelowHead(x: string, s: seq<string>)
    requires Sorted(s) && |s| > 0 && LexLe(x, s[0])
    ensures forall j :: 0 <= j < |s| ==> LexLe(x, s[j])
  {
    forall j | 0 <= j < |s| ensures LexLe(x, s[j]) {
      if j > 0 {
        LexLeTransitive(x, s[0], s[j]);
      }
    }
  }

  /** The keys in the order `Array.prototype.sort` puts them. */
  function SortSeq(s: seq<string>): (r: seq<string>)
    ensures Sorted(r) && multiset(r) == multiset(s)
  {
    if |s| == 0 then []
    else
      assert s == s[..|s| - 1] + [s[|s| - 1]];
      Insert(s[|s| - 1], SortSeq(s[..|s| - 1]))
  }

  /** A sorted arrangement of given strings is the only one: `sort` has one possible result. */
  lemma {:induction false} SortedUnique(s: seq<string>, t: seq<string>)
    requires Sorted(s) && Sorted(t) && multiset(s) == multiset(t)
    ensures s == t
  {
    if |s| > 0 {
      SameHead(s, t);
      DropHead(s);
      DropHead(t);
      SortedUnique(s[1..], t[1..]);
      assert s == [s[0]] + s[1..] && t == [t[0]] + t[1..];
    } else {
      assert |t| == |multiset(t)| == 0;
    }
  }

  lemma SameHead(s: seq<string>, t: seq<string>)
    requires Sorted(s) && Sorted(t) && multiset(s) == multiset(t) && |s| > 0
    ensures |t| > 0 && s[0] == t[0]
  {
    assert s[0] in multiset(t);
    var i :| 0 <= i < |t| && t[i] == s[0];
    assert t[0] in multiset(s);
    var j :| 0 <= j < |s| && s[j] == t[0];
    if i > 0 && j > 0 {
      assert LexLe(t[0], t[i]) && LexLe(s[0], s[j]);
      LexLeAntisymmetric(s[0], t[0]);
    }
  }

  lemma DropHead(s: seq<string>)
    requires |s| > 0
    ensures multiset(s[1..]) == multiset(s) - multiset{s[0]}
  {
    assert s == [s[0]] + s[1..];
  }

  /** Insertion sort of the key array in place. */
  method SortKeys(a: array<string>)
    modifies a
    ensures Sorted(a[..])
    ensures multiset(a[..]) == multiset(old(a[..]))
  {
    for i := 0 to a.Length
      invariant forall p, q :: 0 <= p < q < i ==> LexLe(a[p], a[q])
      invariant multiset(a[..]) == multiset(old(a[..]))
    {
      InsertAt(a, i);
    }
  }

  /** One step of the sort: `a[i]` sinks into the sorted prefix before it. */
  method InsertAt(a: array<string>, i: nat)
    requires i < a.Length
    requires forall p, q :: 0 <= p < q < i ==> LexLe(a[p], a[q])
    modifies a
    ensures forall p, q :: 0 <= p < q <= i ==> LexLe(a[p], a[q])
    ensures multiset(a[..]) == multiset(old(a[..]))
  {
    var j := i;
    while j > 0 && !LexLe(a[j - 1], a[j])
      invariant 0 <= j <= i
      invariant forall p, q :: 0 <= p < q <= i && p != j && q != j ==> LexLe(a[p], a[q])
      invariant forall q :: j < q <= i ==> LexLe(a[j], a[q])
      invariant multiset(a[..]) == multiset(old(a[..]))
    {
      SinkStep(a, i, j);
      j := j - 1;
    }
    forall p, q | 0 <= p < q <= i ensures LexLe(a[p], a[q]) {
      if q == j && p < j - 1 {
        LexLeTransitive(a[p], a[j - 1], a[j]);
      }
    }
  }

  /** Swaps `a[j]` with the larger `a[j - 1]` before it: the sinking element moves one place down. */
  method SinkStep(a: array<string>, i: nat, j: nat)
    requires 0 < j <= i < a.Length && !LexLe(a[j - 1], a[j])
    requires forall p, q :: 0 <= p < q <= i && p != j && q != j ==> LexLe(a[p], a[q])
    requires forall q :: j < q <= i ==> LexLe(a[j], a[q])
    modifies a
    ensures forall p, q :: 0 <= p < q <= i && p != j - 1 && q != j - 1 ==> LexLe(a[p], a[q])
    ensures forall q :: j - 1 < q <= i ==> LexLe(a[j - 1], a[q])
    ensures multiset(a[..]) == multiset(old(a[..]))
  {
    LexLeTotal(a[j - 1], a[j]);
    a[j - 1], a[j] := a[j], a[j - 1];
  }

  // ---------------------------------------------------------------
  // Layout
  // ---------------------------------------------------------------

  /** `  "k": "t"`, a comma unless it is the last entry, then ` <noCF>` when there is one. */
  function EntryLine(key: string, e: Entry, last: bool): string {
    "  \"" + key + "\": \"" + e.target + "\"" + (if last then "" else ",") + (if Present(e.noCF) then " " + e.noCF.value else "")
  }

  /** One line per key, in the order of `keys`. */
  function EntryLines(values: map<string, Entry>, keys: seq<string>): (r: seq<string>)
    requires forall k :: k in keys ==> k in values
    ensures |r| == |keys|
    ensures forall i :: 0 <= i < |keys| ==> r[i] == EntryLine(keys[i], values[keys[i]], i == |keys| - 1)
  {
    seq(|keys|, i requires 0 <= i < |keys| => EntryLine(keys[i], values[keys[i]], i == |keys| - 1))
  }

  /**
   * The generated text, line by line: the header block, a blank line, the
   * declaration, the entries, the footer block indented by two spaces, `}`,
   * and the empty rest after the final newline.
   */
  function Layout(header: string, lines: seq<string>, footer: string): string {
    var n := "\n";
    header + n + "" + n + VarDeclaration + n + Join(lines, n) + n + ("  " + footer) + n + "}" + n + ""
  }

  /** The two blocks, when `file` has at least two. */
  function Blocks(file: string): Option<(string, string)> {
    var blocks := CommentBlocks(file, 0);
    if |blocks| < 2 then None else Some((blocks[0], blocks[1]))
  }

  function SortedKeys(cnames: Registry): (keys: seq<string>)
    requires cnames.Valid()
    ensures Sorted(keys) && Distinct(keys)
    ensures forall k :: k in keys <==> k in cnames.values
  {
    KeysAreTheDomain(cnames);
    var keys := SortSeq(cnames.Keys());
    assert forall k :: k in keys <==> k in multiset(keys);
    DistinctPermutation(cnames.Keys(), keys);
    keys
  }

  /** A rearrangement of distinct strings has distinct strings. */
  lemma DistinctPermutation(s: seq<string>, t: seq<string>)
    requires Distinct(s) && multiset(s) == multiset(t)
    ensures Distinct(t)
  {
    DistinctCardinality(s);
    assert (set x | x in s) == (set x | x in t) by {
      assert forall x :: x in s <==> x in multiset(s);
      assert forall x :: x in t <==> x in multiset(t);
    }
    assert |t| == |multiset(t)| == |multiset(s)| == |s|;
    CardinalityDistinct(t);
  }

  lemma {:induction false} SetOfSeqBound(s: seq<string>)
    ensures |set x | x in s| <= |s|
  {
    if |s| > 0 {
      SetOfSeqBound(s[1..]);
      assert (set x | x in s) == (set x | x in s[1..]) + {s[0]};
    }
  }

  lemma {:induction false} CardinalityDistinct(s: seq<string>)
    requires |set x | x in s| == |s|
    ensures Distinct(s)
  {
    if |s| > 0 {
      var rest := set x | x in s[1..];
      assert (set x | x in s) == rest + {s[0]};
      SetOfSeqBound(s[1..]);
      if s[0] in s[1..] {
        assert false;
      }
      CardinalityDistinct(s[1..]);
      forall i, j | 0 <= i < j < |s| ensures s[i] != s[j] {
        if i > 0 {
          assert s[i] == s[1..][i - 1] && s[j] == s[1..][j - 1];
        } else {
          assert s[j] in s[1..];
        }
      }
    }
  }

  /** `generateCNAMEsFile(cnames, file)` */
  function GenerateText(cnames: Registry, file: string): Option<string>
    requires cnames.Valid()
  {
    match Blocks(file)
    case None => None
    case Some((header, footer)) => Some(Layout(header, EntryLines(cnames.values, SortedKeys(cnames)), footer))
  }

  /** `Object.keys(cnames)` copied into an array and sorted in place. */
  method SortedKeyArray(cnames: Registry) returns (keys: seq<string>)
    requires cnames.Valid()
    ensures keys == SortedKeys(cnames)
  {
    var names := cnames.Keys();
    var cnamesKeys := new string[|names|](i requires 0 <= i < |names| => names[i]);
    assert cnamesKeys[..] == names;
    SortKeys(cnamesKeys);
    SortedUnique(cnamesKeys[..], SortSeq(names));
    keys := cnamesKeys[..];
  }

  /** The `cnamesList.push(…)` loop. */
  method EntryList(values: map<string, Entry>, keys: seq<string>) returns (cnamesList: seq<string>)
    requires forall k :: k in keys ==> k in values
    ensures cnamesList == EntryLines(values, keys)
  {
    cnamesList := [];
    for i := 0 to |keys|
      invariant cnamesList == EntryLines(values, keys)[..i]
    {
      var cname := keys[i];
      var data := values[cname];
      cnamesList := cnamesList + [EntryLine(cname, data, i == |keys| - 1)];
    }
    assert cnamesList == EntryLines(values, keys)[..|keys|];
  }

  method GenerateCNAMEsFile(cnames: Registry, file: string) returns (r: Option<string>)
    requires cnames.Valid()
    ensures r == GenerateText(cnames, file)
  {
    var commentBlocks := ExtractBlocks(file);
    if |commentBlocks| < 2 {
      return None;
    }
    var keys := SortedKeyArray(cnames);
    var cnamesList := EntryList(cnames.values, keys);
    return Some(Layout(commentBlocks[0], cnamesList, commentBlocks[1]));
  }

  // ---------------------------------------------------------------
  // What generation guarantees
  // ---------------------------------------------------------------

  /** Generation gives up exactly when the reference text has fewer than two comment blocks. */
  lemma GenerateAborts(cnames: Registry, file: string)
    requires cnames.Valid()
    ensures GenerateText(cnames, file).None? <==> |CommentBlocks(file, 0)| < 2
  {
  }

  /** The entry lines name every key exactly once, in strictly ascending order. */
  lemma GeneratedOrder(cnames: Registry)
    requires cnames.Valid()
    ensures var keys := SortedKeys(cnames);
      && |keys| == |cnames.values|
      && (forall i, j :: 0 <= i < j < |keys| ==> LexLt(keys[i], keys[j]))
      && (forall k :: k in cnames.values <==> k in keys)
  {
    var keys := SortedKeys(cnames);
    DistinctCardinality(keys);
    assert (set x | x in keys) == cnames.values.Keys;
  }

  /**
   * Only each entry's target and noCF tag reach the text: two registries
   * with the same keys and the same targets and tags generate the same
   * file, whatever else their entries record and in whatever order the
   * objects hold their keys.
   */
  lemma GenerateReadsRecords(a: Registry, b: Registry, file: string)
    requires a.Valid() && b.Valid() && a.values.Keys == b.values.Keys
    requires forall k :: k in a.values ==> a.values[k].target == b.values[k].target && a.values[k].noCF == b.values[k].noCF
    ensures GenerateText(a, file) == GenerateText(b, file)
  {
    SortedKeysOfValues(a, b);
    var keys := SortedKeys(a);
    SameEntryLines(a.values, b.values, keys);
    assert EntryLines(a.values, SortedKeys(a)) == EntryLines(b.values, SortedKeys(b));
  }

  lemma SameEntryLines(a: map<string, Entry>, b: map<string, Entry>, keys: seq<string>)
    requires forall k :: k in keys ==> k in a && k in b && a[k].target == b[k].target && a[k].noCF == b[k].noCF
    ensures EntryLines(a, keys) == EntryLines(b, keys)
  {
    var r, t := EntryLines(a, keys), EntryLines(b, keys);
    forall i | 0 <= i < |keys| ensures r[i] == t[i] {
      assert keys[i] in keys;
    }
  }

  lemma SortedKeysOfValues(a: Registry, b: Registry)
    requires a.Valid() && b.Valid() && a.values.Keys == b.values.Keys
    ensures SortedKeys(a) == SortedKeys(b)
  {
    var s, t := SortedKeys(a), SortedKeys(b);
    DistinctMultiset(s, t);
    SortedUnique(s, t);
  }

  /** Two duplicate-free sequences with the same elements are rearrangements of each other. */
  lemma {:induction false} DistinctMultiset(s: seq<string>, t: seq<string>)
    requires Distinct(s) && Distinct(t) && forall x :: x in s <==> x in t
    ensures multiset(s) == multiset(t)
  {
    assert |t| > 0 ==> t[0] in s;
    if |s| > 0 {
      var x := s[0];
      assert x in t;
      var i :| 0 <= i < |t| && t[i] == x;
      var t' := RemoveAt(t, i);
      assert s == [x] + s[1..];
      assert Distinct(s[1..]);
      assert x !in s[1..];
      DistinctMultiset(s[1..], t');
    }
  }

  function RemoveAt(t: seq<string>, i: nat): (r: seq<string>)
    requires Distinct(t) && i < |t|
    ensures Distinct(r)
    ensures forall y :: y in r <==> y in t && y != t[i]
    ensures multiset(t) == multiset(r) + multiset{t[i]}
  {
    var r := t[..i] + t[i + 1..];
    assert t == t[..i] + [t[i]] + t[i + 1..];
    forall p, q | 0 <= p < q < |r| ensures r[p] != r[q] {
      var p' := if p < i then p else p + 1;
      var q' := if q < i then q else q + 1;
      assert r[p] == t[p'] && r[q] == t[q'];
    }
    forall y | y in r ensures y != t[i] {
      var q :| 0 <= q < |r| && r[q] == y;
      var q' := if q < i then q else q + 1;
      assert t[q'] == y && q' != i;
    }
    r
  }
}
