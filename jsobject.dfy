/**
 * A JavaScript object used as a dictionary. Its own string keys are
 * enumerated by `for…in` and `Object.keys` with the array-index keys first,
 * in ascending numeric order, then every other key in insertion order. The
 * two runs are kept apart; `Keys()` is the enumeration order.
 */
module JsObjects {
  import opened Text

  function DigitValue(c: char): nat {
    if IsDigit(c) then c as int - '0' as int else 0
  }

  /** The number the first `n` digits of `k` spell. */
  function DecimalPrefix(k: string, n: nat): nat
    requires n <= |k|
  {
    if n == 0 then 0 else DecimalPrefix(k, n - 1) * 10 + DigitValue(k[n - 1])
  }

  /** The number a string of decimal digits spells. */
  function DecimalValue(k: string): nat {
    DecimalPrefix(k, |k|)
  }

  /** A canonical numeric string below 2^32 - 1: such a key is enumerated before all others. */
  predicate IsArrayIndex(k: string) {
    && |k| > 0
    && (forall i :: 0 <= i < |k| ==> IsDigit(k[i]))
    && (k[0] != '0' || |k| == 1)
    && DecimalValue(k) < 0xFFFF_FFFF
  }

  /** Inserts an array-index key at its numeric position. */
  function InsertIndex(s: seq<string>, k: string): (r: seq<string>)
    ensures multiset(r) == multiset(s) + multiset{k}
    ensures forall x :: x in r <==> x in s || x == k
  {
    if |s| == 0 then [k]
    else if DecimalValue(k) < DecimalValue(s[0]) then [k] + s
    else
      assert s == [s[0]] + s[1..];
      [s[0]] + InsertIndex(s[1..], k)
  }

  function RemoveKey(s: seq<string>, k: string): (r: seq<string>)
    ensures forall x :: x in r <==> x in s && x != k
    ensures |r| <= |s|
  {
    if |s| == 0 then []
    else if s[0] == k then RemoveKey(s[1..], k)
    else [s[0]] + RemoveKey(s[1..], k)
  }

  predicate Distinct(s: seq<string>) {
    forall i, j :: 0 <= i < j < |s| ==> s[i] != s[j]
  }

  /** From position `i` on, strictly ascending numeric values, stated one position at a time. */
  predicate AscendingFrom(s: seq<string>, i: nat)
    decreases |s| - i
  {
    i >= |s| || ((forall j :: i < j < |s| ==> DecimalValue(s[i]) < DecimalValue(s[j])) && AscendingFrom(s, i + 1))
  }

  predicate Ascending(s: seq<string>) {
    AscendingFrom(s, 0)
  }

  /** From position `i` on, no key occurs twice, stated one position at a time. */
  predicate UnrepeatedFrom(s: seq<string>, i: nat)
    decreases |s| - i
  {
    i >= |s| || ((forall j :: i < j < |s| ==> s[i] != s[j]) && UnrepeatedFrom(s, i + 1))
  }

  predicate Unrepeated(s: seq<string>) {
    UnrepeatedFrom(s, 0)
  }

  lemma {:induction false} AscendingFromPairwise(s: seq<string>, i: nat)
    requires AscendingFrom(s, i)
    ensures forall a, b :: i <= a < b < |s| ==> DecimalValue(s[a]) < DecimalValue(s[b])
    decreases |s| - i
  {
    if i < |s| {
      AscendingFromPairwise(s, i + 1);
    }
  }

  lemma AscendingPairwise(s: seq<string>)
    requires Ascending(s)
    ensures forall a, b :: 0 <= a < b < |s| ==> DecimalValue(s[a]) < DecimalValue(s[b])
  {
    AscendingFromPairwise(s, 0);
  }

  lemma {:induction false} PairwiseAscendingFrom(s: seq<string>, i: nat)
    requires forall a, b :: i <= a < b < |s| ==> DecimalValue(s[a]) < DecimalValue(s[b])
    ensures AscendingFrom(s, i)
    decreases |s| - i
  {
    if i < |s| {
      PairwiseAscendingFrom(s, i + 1);
    }
  }

  lemma {:induction false} UnrepeatedFromDistinct(s: seq<string>, i: nat)
    requires UnrepeatedFrom(s, i)
    ensures forall a, b :: i <= a < b < |s| ==> s[a] != s[b]
    decreases |s| - i
  {
    if i < |s| {
      UnrepeatedFromDistinct(s, i + 1);
    }
  }

  lemma UnrepeatedDistinct(s: seq<string>)
    requires Unrepeated(s)
    ensures Distinct(s)
  {
    UnrepeatedFromDistinct(s, 0);
  }

  lemma {:induction false} DistinctUnrepeatedFrom(s: seq<string>, i: nat)
    requires forall a, b :: i <= a < b < |s| ==> s[a] != s[b]
    ensures UnrepeatedFrom(s, i)
    decreases |s| - i
  {
    if i < |s| {
      DistinctUnrepeatedFrom(s, i + 1);
    }
  }

  lemma UnrepeatedSnoc(s: seq<string>, k: string)
    requires Unrepeated(s) && k !in s
    ensures Unrepeated(s + [k])
  {
    UnrepeatedDistinct(s);
    var t := s + [k];
    forall a, b | 0 <= a < b < |t| ensures t[a] != t[b] {
      if b == |s| {
        assert t[a] == s[a];
      } else {
        assert t[a] == s[a] && t[b] == s[b];
      }
    }
    DistinctUnrepeatedFrom(t, 0);
  }

  predicate IncreasingIndices(s: seq<string>) {
    forall i, j :: 0 <= i < j < |s| ==> DecimalValue(s[i]) < DecimalValue(s[j])
  }

  lemma {:induction false} InsertIndexIncreasing(s: seq<string>, k: string)
    requires IncreasingIndices(s)
    requires forall i :: 0 <= i < |s| ==> DecimalValue(s[i]) != DecimalValue(k)
    ensures IncreasingIndices(InsertIndex(s, k))
  {
    if |s| > 0 && DecimalValue(k) >= DecimalValue(s[0]) {
      InsertIndexIncreasing(s[1..], k);
      var t := InsertIndex(s[1..], k);
      forall x | x in t ensures DecimalValue(s[0]) < DecimalValue(x) {
        if x != k {
          var i :| 0 <= i < |s[1..]| && s[1..][i] == x;
          assert s[i + 1] == x;
        }
      }
    }
  }

  lemma {:induction false} RemoveKeyIncreasing(s: seq<string>, k: string)
    requires IncreasingIndices(s)
    ensures IncreasingIndices(RemoveKey(s, k))
  {
    if |s| > 0 {
      RemoveKeyIncreasing(s[1..], k);
      var t := RemoveKey(s[1..], k);
      forall x | x in t ensures DecimalValue(s[0]) < DecimalValue(x) {
        var i :| 0 <= i < |s[1..]| && s[1..][i] == x;
        assert s[i + 1] == x;
      }
    }
  }

  lemma {:induction false} RemoveKeyDistinct(s: seq<string>, k: string)
    requires Distinct(s)
    ensures Distinct(RemoveKey(s, k))
  {
    if |s| > 0 {
      RemoveKeyDistinct(s[1..], k);
      assert s[0] !in s[1..];
    }
  }

  lemma InsertIndexAscending(s: seq<string>, k: string)
    requires Ascending(s)
    requires forall x :: x in s ==> DecimalValue(x) != DecimalValue(k)
    ensures Ascending(InsertIndex(s, k))
  {
    AscendingPairwise(s);
    InsertIndexIncreasing(s, k);
    PairwiseAscendingFrom(InsertIndex(s, k), 0);
  }

  lemma RemoveKeyAscending(s: seq<string>, k: string)
    requires Ascending(s)
    ensures Ascending(RemoveKey(s, k))
  {
    AscendingPairwise(s);
    RemoveKeyIncreasing(s, k);
    PairwiseAscendingFrom(RemoveKey(s, k), 0);
  }

  lemma RemoveKeyUnrepeated(s: seq<string>, k: string)
    requires Unrepeated(s)
    ensures Unrepeated(RemoveKey(s, k))
  {
    UnrepeatedDistinct(s);
    RemoveKeyDistinct(s, k);
    DistinctUnrepeatedFrom(RemoveKey(s, k), 0);
  }

  /** Two array-index keys with the same numeric value are the same key. */
  lemma {:induction false} DecimalValueInjective(a: string, b: string)
    requires IsArrayIndex(a) && IsArrayIndex(b) && DecimalValue(a) == DecimalValue(b)
    ensures a == b
  {
    if |a| < |b| {
      PowerBound(a, |a|);
      LeadingAtLeast(b, |b|);
      Pow10Monotonic(|a|, |b| - 1);
    } else if |b| < |a| {
      PowerBound(b, |b|);
      LeadingAtLeast(a, |a|);
      Pow10Monotonic(|b|, |a| - 1);
    } else {
      SamePrefixInjective(a, b, |a|);
    }
  }

  function Pow10(n: nat): nat { if n == 0 then 1 else 10 * Pow10(n - 1) }

  lemma {:induction false} Pow10Monotonic(m: nat, n: nat)
    requires m <= n
    ensures Pow10(m) <= Pow10(n)
  {
    if m < n { Pow10Monotonic(m, n - 1); }
  }

  lemma {:induction false} PowerBound(a: string, n: nat)
    requires n <= |a| && forall i :: 0 <= i < |a| ==> IsDigit(a[i])
    ensures DecimalPrefix(a, n) < Pow10(n)
  {
    if n > 0 { PowerBound(a, n - 1); }
  }

  /** No leading zero: `n` digits spell at least 10^(n-1). */
  lemma {:induction false} LeadingAtLeast(b: string, n: nat)
    requires 1 <= n <= |b| && IsDigit(b[0]) && b[0] != '0'
    ensures DecimalPrefix(b, n) >= Pow10(n - 1)
  {
    if n > 1 { LeadingAtLeast(b, n - 1); }
  }

  lemma {:induction false} SamePrefixInjective(a: string, b: string, n: nat)
    requires n <= |a| && n <= |b|
    requires forall i :: 0 <= i < |a| ==> IsDigit(a[i])
    requires forall i :: 0 <= i < |b| ==> IsDigit(b[i])
    requires DecimalPrefix(a, n) == DecimalPrefix(b, n)
    ensures forall i :: 0 <= i < n ==> a[i] == b[i]
  {
    if n > 0 {
      var da, db := DigitValue(a[n - 1]), DigitValue(b[n - 1]);
      assert da < 10 && db < 10;
      assert DecimalPrefix(a, n - 1) == DecimalPrefix(b, n - 1) && da == db;
      SamePrefixInjective(a, b, n - 1);
    }
  }

  /** Strings that agree on their first `n` characters spell the same prefix value. */
  lemma {:induction false} PrefixAgree(a: string, b: string, n: nat)
    requires n <= |a| && n <= |b| && forall i :: 0 <= i < n ==> a[i] == b[i]
    ensures DecimalPrefix(a, n) == DecimalPrefix(b, n)
  {
    if n > 0 { PrefixAgree(a, b, n - 1); }
  }

  function MapRemove<V>(m: map<string, V>, k: string): (r: map<string, V>)
    ensures r.Keys == m.Keys - {k}
    ensures forall x :: x in r ==> r[x] == m[x]
  {
    map x | x in m && x != k :: m[x]
  }

  datatype JsObject<V> = JsObject(index: seq<string>, names: seq<string>, values: map<string, V>) {

    /** `Object.keys(this)`: the enumeration order of `for…in`. */
    function Keys(): seq<string> {
      index + names
    }

    ghost predicate Valid() {
      && Ascending(index)
      && (forall i :: 0 <= i < |index| ==> IsArrayIndex(index[i]))
      && (forall i :: 0 <= i < |names| ==> !IsArrayIndex(names[i]))
      && Unrepeated(names)
      && (forall k :: k in values <==> k in index || k in names)
    }

    function Size(): nat {
      |values|
    }

    /** `this[k] = v` */
    function Set(k: string, v: V): (r: JsObject<V>)
      requires Valid()
      ensures r.Valid()
      ensures r.values == values[k := v]
      ensures k in values ==> r.Keys() == Keys()
      ensures k !in values && !IsArrayIndex(k) ==> r.Keys() == Keys() + [k]
      ensures k !in values && IsArrayIndex(k) ==> r.names == names
    {
      if k in values then JsObject(index, names, values[k := v])
      else if IsArrayIndex(k) then
        forall x | x in index ensures DecimalValue(x) != DecimalValue(k) {
          if DecimalValue(x) == DecimalValue(k) {
            var i := IndexOf(index, x);
            DecimalValueInjective(x, k);
          }
        }
        InsertIndexAscending(index, k);
        var ix := InsertIndex(index, k);
        assert forall x :: x in ix ==> IsArrayIndex(x);
        JsObject(ix, names, values[k := v])
      else
        UnrepeatedSnoc(names, k);
        JsObject(index, names + [k], values[k := v])
    }

    /** `delete this[k]` */
    function Delete(k: string): (r: JsObject<V>)
      requires Valid()
      ensures r.Valid()
      ensures r.values.Keys == values.Keys - {k}
      ensures forall x :: x in r.values ==> r.values[x] == values[x]
    {
      RemoveKeyAscending(index, k);
      RemoveKeyUnrepeated(names, k);
      var ix, nm := RemoveKey(index, k), RemoveKey(names, k);
      assert forall x :: x in ix ==> IsArrayIndex(x);
      assert forall x :: x in nm ==> !IsArrayIndex(x);
      JsObject(ix, nm, MapRemove(values, k))
    }
  }

  function Empty<V>(): (r: JsObject<V>)
    ensures r.Valid() && r.Keys() == [] && r.values == map[]
  {
    JsObject([], [], map[])
  }

  /** Every key is enumerated exactly once, and exactly the keys are enumerated. */
  lemma KeysAreTheDomain<V>(o: JsObject<V>)
    requires o.Valid()
    ensures Distinct(o.Keys())
    ensures forall k :: k in o.Keys() <==> k in o.values
    ensures |o.Keys()| == |o.values|
  {
    var ks := o.Keys();
    AscendingPairwise(o.index);
    UnrepeatedDistinct(o.names);
    forall i, j | 0 <= i < j < |ks| ensures ks[i] != ks[j] {
      if j < |o.index| {
        assert DecimalValue(ks[i]) < DecimalValue(ks[j]);
      } else if i >= |o.index| {
        assert ks[i] == o.names[i - |o.index|] && ks[j] == o.names[j - |o.index|];
      } else {
        assert IsArrayIndex(ks[i]) && !IsArrayIndex(ks[j]);
      }
    }
    DistinctCardinality(ks);
    assert (set x | x in ks) == o.values.Keys;
  }

  /** Position by position, every enumerated key is a key, and no two positions hold the same key. */
  lemma KeysIndexed<V>(o: JsObject<V>)
    requires o.Valid()
    ensures forall i :: 0 <= i < |o.Keys()| ==> o.Keys()[i] in o.values
    ensures Distinct(o.Keys())
  {
    KeysAreTheDomain(o);
  }

  lemma {:induction false} DistinctCardinality(s: seq<string>)
    requires Distinct(s)
    ensures |set x | x in s| == |s|
  {
    if |s| > 0 {
      var t := s[1..];
      assert Distinct(t);
      DistinctCardinality(t);
      assert s[0] !in t;
      assert (set x | x in s) == (set x | x in t) + {s[0]};
    }
  }

  /** `{...a, ...b}`: the keys of `a`, then `b`'s keys set one by one. */
  function Spread<V>(a: JsObject<V>, b: JsObject<V>): (r: JsObject<V>)
    requires a.Valid() && b.Valid()
    ensures r.Valid()
    ensures r.values == a.values + b.values
  {
    KeysAreTheDomain(b);
    var r := SetEach(a, b.values, b.Keys());
    assert r.values.Keys == (a.values + b.values).Keys;
    r
  }

  /** Sets `m[k]` for each `k` of `ks` in turn. */
  function SetEach<V>(a: JsObject<V>, m: map<string, V>, ks: seq<string>): (r: JsObject<V>)
    requires a.Valid() && forall k :: k in ks ==> k in m
    ensures r.Valid()
    ensures forall k :: k in r.values <==> k in a.values || k in ks
    ensures forall k :: k in r.values ==> r.values[k] == if k in ks then m[k] else a.values[k]
  {
    if |ks| == 0 then a
    else
      var k := ks[|ks| - 1];
      assert ks == ks[..|ks| - 1] + [k];
      SetEach(a, m, ks[..|ks| - 1]).Set(k, m[k])
  }

  // ---------------------------------------------------------------
  // Filling an object by assignments
  // ---------------------------------------------------------------

  /** `o[k] = v` for each pair in turn, starting from `{}`. */
  function Assign<V>(ps: seq<(string, V)>): (o: JsObject<V>)
    ensures o.Valid()
  {
    if |ps| == 0 then Empty() else Assign(ps[..|ps| - 1]).Set(ps[|ps| - 1].0, ps[|ps| - 1].1)
  }

  lemma {:induction false} AssignSnoc<V>(ps: seq<(string, V)>, p: (string, V))
    ensures Assign(ps + [p]) == Assign(ps).Set(p.0, p.1)
  {
    assert (ps + [p])[..|ps|] == ps;
  }

  /** The names assigned, in any order. */
  function Names<V>(ps: seq<(string, V)>): set<string> {
    set i | 0 <= i < |ps| :: ps[i].0
  }

  lemma {:induction false} NamesOfInit<V>(ps: seq<(string, V)>)
    requires |ps| > 0
    ensures Names(ps) == Names(ps[..|ps| - 1]) + {ps[|ps| - 1].0}
  {
    var init := ps[..|ps| - 1];
    forall k | k in Names(ps) ensures k in Names(init) + {ps[|ps| - 1].0} {
      var i :| 0 <= i < |ps| && ps[i].0 == k;
      if i < |init| {
        assert init[i] == ps[i];
      }
    }
    forall k | k in Names(init) ensures k in Names(ps) {
      var i :| 0 <= i < |init| && init[i].0 == k;
      assert ps[i] == init[i];
    }
    assert ps[|ps| - 1].0 in Names(ps);
  }

  /** Exactly the assigned names are keys. */
  lemma {:induction false} AssignKeys<V>(ps: seq<(string, V)>)
    ensures Assign(ps).values.Keys == Names(ps)
  {
    if |ps| > 0 {
      AssignKeys(ps[..|ps| - 1]);
      NamesOfInit(ps);
    }
  }

  /** A key holds the value of its last assignment. */
  lemma {:induction false} AssignLastWins<V>(ps: seq<(string, V)>, i: nat)
    requires i < |ps|
    requires forall j :: i < j < |ps| ==> ps[j].0 != ps[i].0
    ensures ps[i].0 in Assign(ps).values && Assign(ps).values[ps[i].0] == ps[i].1
  {
    if i < |ps| - 1 {
      var init := ps[..|ps| - 1];
      assert init[i] == ps[i];
      AssignLastWins(init, i);
    }
  }

  /** A position of `x` in `s`. */
  lemma IndexOf(s: seq<string>, x: string) returns (i: nat)
    requires x in s
    ensures i < |s| && s[i] == x
  {
    i :| 0 <= i < |s| && s[i] == x;
  }
}
