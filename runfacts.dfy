/**
 * What `validateCNAMEs` computes, stated about the loop specification
 * `Validate.Run` and the split `Validate.Split`: every validated key holds its
 * cached or freshly judged entry, `failed` and `passed` divide the validated
 * keys exactly by the truthiness of `failed`, the counter counts the failed
 * keys, every cache write agrees with the results, and a run resumed from
 * any cache write of an uninterrupted run records the same results.
 */
module RunFacts {
  import opened Wrappers
  import opened JsObjects
  import opened Entries
  import opened Probe
  import opened Validate

  /** The number of keys of `ks` from position `i` on whose result is a failure. */
  function FailCount(v: Version, cnames: Registry, cache: Option<Registry>, net: Network, ks: seq<string>, i: nat): nat
    requires AllIn(ks, cnames)
    decreases |ks| - i
  {
    if |ks| <= i then 0
    else (if Truthy(Result(v, cnames, cache, net, ks[i]).failed) then 1 else 0) + FailCount(v, cnames, cache, net, ks, i + 1)
  }

  /** The number of keys of `ks` from position `i` on that the cache does not hold. */
  function FreshCount(cache: Option<Registry>, ks: seq<string>, i: nat): nat
    decreases |ks| - i
  {
    if |ks| <= i then 0 else (if Cached(cache, ks[i]) then 0 else 1) + FreshCount(cache, ks, i + 1)
  }

  /** Every entry of `w` is the result the loop records for its key. */
  ghost predicate Agrees(v: Version, cnames: Registry, cache: Option<Registry>, net: Network, w: Registry) {
    forall k :: k in w.values ==> k in cnames.values && w.values[k] == Result(v, cnames, cache, net, k)
  }

  /** One turn records the result for its key and changes no other entry. */
  lemma StepRecords(v: Version, cnames: Registry, cache: Option<Registry>, net: Network, s: Progress, k: string)
    requires k in cnames.values
    ensures Step(v, cnames, cache, net, s, k).tests.values == s.tests.values[k := Result(v, cnames, cache, net, k)]
  {
  }

  /** The run from position `i` adds exactly the keys from there on. */
  lemma {:induction false} RunKeys(v: Version, cnames: Registry, cache: Option<Registry>, net: Network, ks: seq<string>, i: nat, s: Progress)
    requires AllIn(ks, cnames)
    ensures var r := Run(v, cnames, cache, net, ks, i, s);
      forall k :: k in r.tests.values <==> k in s.tests.values || OccursFrom(ks, i, k)
    decreases |ks| - i
  {
    if i < |ks| {
      StepRecords(v, cnames, cache, net, s, ks[i]);
      RunKeys(v, cnames, cache, net, ks, i + 1, Step(v, cnames, cache, net, s, ks[i]));
    }
  }

  /** The run from position `i` keeps the entry of every key it does not reach. */
  lemma {:induction false} RunKeeps(v: Version, cnames: Registry, cache: Option<Registry>, net: Network, ks: seq<string>, i: nat, s: Progress)
    requires AllIn(ks, cnames)
    ensures var r := Run(v, cnames, cache, net, ks, i, s);
      forall k :: k in r.tests.values && k in s.tests.values && !OccursFrom(ks, i, k) ==> r.tests.values[k] == s.tests.values[k]
    decreases |ks| - i
  {
    if i < |ks| {
      StepRecords(v, cnames, cache, net, s, ks[i]);
      RunKeeps(v, cnames, cache, net, ks, i + 1, Step(v, cnames, cache, net, s, ks[i]));
    }
  }

  /** The map `m` after `m[ks[j]] := f[ks[j]]` for each position `j` from `i` on, in order. */
  ghost function Stores(m: map<string, Entry>, ks: seq<string>, i: nat, f: map<string, Entry>): map<string, Entry>
    requires forall j :: 0 <= j < |ks| ==> ks[j] in f
    decreases |ks| - i
  {
    if |ks| <= i then m else Stores(m[ks[i] := f[ks[i]]], ks, i + 1, f)
  }

  /** The result the loop records for every key of the registry. */
  ghost function Results(v: Version, cnames: Registry, cache: Option<Registry>, net: Network): map<string, Entry> {
    map k | k in cnames.values :: Result(v, cnames, cache, net, k)
  }

  /** `Stores` changes no entry whose key it does not reach. */
  lemma {:induction false} StoresKeeps(m: map<string, Entry>, ks: seq<string>, i: nat, f: map<string, Entry>, k: string)
    requires forall j :: 0 <= j < |ks| ==> ks[j] in f
    requires k in m && !OccursFrom(ks, i, k)
    ensures k in Stores(m, ks, i, f) && Stores(m, ks, i, f)[k] == m[k]
    decreases |ks| - i
  {
    if i < |ks| {
      StoresKeeps(m[ks[i] := f[ks[i]]], ks, i + 1, f, k);
    }
  }

  /** `Stores` leaves every key it reaches with its value in `f`. */
  lemma {:induction false} StoresValues(m: map<string, Entry>, ks: seq<string>, i: nat, f: map<string, Entry>)
    requires forall j :: 0 <= j < |ks| ==> ks[j] in f
    ensures forall j :: i <= j < |ks| ==> ks[j] in Stores(m, ks, i, f) && Stores(m, ks, i, f)[ks[j]] == f[ks[j]]
    decreases |ks| - i
  {
    if i < |ks| {
      var m' := m[ks[i] := f[ks[i]]];
      StoresValues(m', ks, i + 1, f);
      OccursFromIn(ks, i + 1, ks[i]);
      if !OccursFrom(ks, i + 1, ks[i]) {
        StoresKeeps(m', ks, i + 1, f, ks[i]);
      }
    }
  }

  /** The registry a run builds is `Stores` over the results. */
  lemma {:induction false} RunStores(v: Version, cnames: Registry, cache: Option<Registry>, net: Network, ks: seq<string>, i: nat, s: Progress)
    requires AllIn(ks, cnames)
    ensures Run(v, cnames, cache, net, ks, i, s).tests.values == Stores(s.tests.values, ks, i, Results(v, cnames, cache, net))
    decreases |ks| - i
  {
    if i < |ks| {
      StepRecords(v, cnames, cache, net, s, ks[i]);
      RunStores(v, cnames, cache, net, ks, i + 1, Step(v, cnames, cache, net, s, ks[i]));
    }
  }

  /** The run from position `i` gives every key from there on its result. */
  lemma RunValues(v: Version, cnames: Registry, cache: Option<Registry>, net: Network, ks: seq<string>, i: nat, s: Progress)
    requires AllIn(ks, cnames)
    ensures var r := Run(v, cnames, cache, net, ks, i, s);
      forall j :: i <= j < |ks| ==> ks[j] in r.tests.values && r.tests.values[ks[j]] == Result(v, cnames, cache, net, ks[j])
  {
    RunStores(v, cnames, cache, net, ks, i, s);
    StoresValues(s.tests.values, ks, i, Results(v, cnames, cache, net));
  }

  /** The counter grows by the failed keys, and the cache is written once per key the cache did not hold. */
  lemma {:induction false} RunCounts(v: Version, cnames: Registry, cache: Option<Registry>, net: Network, ks: seq<string>, i: nat, s: Progress)
    requires AllIn(ks, cnames)
    ensures var r := Run(v, cnames, cache, net, ks, i, s);
      && r.failures == s.failures + FailCount(v, cnames, cache, net, ks, i)
      && |r.writes| == |s.writes| + FreshCount(cache, ks, i)
    decreases |ks| - i
  {
    if i < |ks| {
      RunCounts(v, cnames, cache, net, ks, i + 1, Step(v, cnames, cache, net, s, ks[i]));
    }
  }

  /** What the cache is rewritten with always agrees with the results: each write is the results recorded so far. */
  lemma {:induction false} RunWritesAgree(v: Version, cnames: Registry, cache: Option<Registry>, net: Network, ks: seq<string>, i: nat, s: Progress)
    requires AllIn(ks, cnames)
    requires Agrees(v, cnames, cache, net, s.tests)
    requires forall n :: 0 <= n < |s.writes| ==> Agrees(v, cnames, cache, net, s.writes[n])
    ensures var r := Run(v, cnames, cache, net, ks, i, s);
      && Agrees(v, cnames, cache, net, r.tests)
      && forall n :: 0 <= n < |r.writes| ==> Agrees(v, cnames, cache, net, r.writes[n])
    decreases |ks| - i
  {
    if i < |ks| {
      var t := Step(v, cnames, cache, net, s, ks[i]);
      StepRecords(v, cnames, cache, net, s, ks[i]);
      assert Agrees(v, cnames, cache, net, t.tests);
      assert forall n :: 0 <= n < |t.writes| ==> Agrees(v, cnames, cache, net, t.writes[n]) by {
        forall n | 0 <= n < |t.writes| ensures Agrees(v, cnames, cache, net, t.writes[n]) {
          if n >= |s.writes| {
            assert t.writes[n] == t.tests;
          }
        }
      }
      RunWritesAgree(v, cnames, cache, net, ks, i + 1, t);
    }
  }

  /** Two runs whose every step records the same result keep the same tests and the same counter, whatever they wrote. */
  lemma {:induction false} RunSameResults(v: Version, cnames: Registry, c1: Option<Registry>, c2: Option<Registry>, net: Network, ks: seq<string>, i: nat, s1: Progress, s2: Progress)
    requires AllIn(ks, cnames)
    requires s1.tests == s2.tests && s1.failures == s2.failures
    requires forall j :: i <= j < |ks| ==> Result(v, cnames, c1, net, ks[j]) == Result(v, cnames, c2, net, ks[j])
    ensures Run(v, cnames, c1, net, ks, i, s1).tests == Run(v, cnames, c2, net, ks, i, s2).tests
    ensures Run(v, cnames, c1, net, ks, i, s1).failures == Run(v, cnames, c2, net, ks, i, s2).failures
    decreases |ks| - i
  {
    if i < |ks| {
      RunSameResults(v, cnames, c1, c2, net, ks, i + 1, Step(v, cnames, c1, net, s1, ks[i]), Step(v, cnames, c2, net, s2, ks[i]));
    }
  }

  /** A cache whose entries agree with a fresh run gives every key the result of the fresh run. */
  lemma AgreeingCacheSameResults(v: Version, cnames: Registry, net: Network, w: Registry, k: string)
    requires Agrees(v, cnames, None, net, w) && k in cnames.values
    ensures Result(v, cnames, Some(w), net, k) == Result(v, cnames, None, net, k)
  {
  }

  /**
   * Resuming: a run started from any cache write of an uninterrupted run
   * without a cache records the same tests and counts the same failures, so
   * it splits them the same way.
   */
  lemma ResumeFromWrite(v: Version, cnames: Registry, net: Network, n: nat)
    requires cnames.Valid()
    ensures AllIn(cnames.Keys(), cnames)
    ensures var ks := cnames.Keys(); var run := Run(v, cnames, None, net, ks, 0, Start());
      n < |run.writes| ==>
        && Run(v, cnames, Some(run.writes[n]), net, ks, 0, Start()).tests == run.tests
        && Run(v, cnames, Some(run.writes[n]), net, ks, 0, Start()).failures == run.failures
  {
    var ks := cnames.Keys();
    KeysAllIn(cnames);
    var run := Run(v, cnames, None, net, ks, 0, Start());
    if n < |run.writes| {
      RunWritesAgree(v, cnames, None, net, ks, 0, Start());
      var w := run.writes[n];
      forall j | 0 <= j < |ks| ensures Result(v, cnames, Some(w), net, ks[j]) == Result(v, cnames, None, net, ks[j]) {
        AgreeingCacheSameResults(v, cnames, net, w, ks[j]);
      }
      RunSameResults(v, cnames, Some(w), None, net, ks, 0, Start(), Start());
    }
  }

  // ---------------------------------------------------------------
  // The split
  // ---------------------------------------------------------------

  /** `failed` holds exactly the validated keys with a truthy flag and `passed` the others, each with its validated entry. */
  lemma PartitionExact(tests: Registry)
    requires tests.Valid()
    ensures AllIn(tests.Keys(), tests)
    ensures var sp := Split(tests, tests.Keys(), 0, Empty(), Empty());
      && (forall k :: k in sp.0.values <==> FailedIn(tests, k))
      && (forall k :: k in sp.1.values <==> PassedIn(tests, k))
      && (forall k :: k in sp.0.values ==> k in tests.values && sp.0.values[k] == tests.values[k])
      && (forall k :: k in sp.1.values ==> k in tests.values && sp.1.values[k] == tests.values[k])
  {
    var ks := tests.Keys();
    KeysAllIn(tests);
    KeysOccur(tests);
    SplitFailed(tests, ks, 0, Empty(), Empty());
    SplitPassed(tests, ks, 0, Empty(), Empty());
  }

  /** The two parts are disjoint and together hold every validated key. */
  lemma PartitionCovers(tests: Registry)
    requires tests.Valid()
    ensures AllIn(tests.Keys(), tests)
    ensures var sp := Split(tests, tests.Keys(), 0, Empty(), Empty());
      && (forall k :: k in tests.values <==> k in sp.0.values || k in sp.1.values)
      && (forall k :: !(k in sp.0.values && k in sp.1.values))
  {
    PartitionExact(tests);
  }

  // ---------------------------------------------------------------
  // The whole validation
  // ---------------------------------------------------------------

  /** A key occurs in the key list exactly when it is in the object. */
  lemma KeysOccur(o: Registry)
    requires o.Valid()
    ensures forall k :: OccursFrom(o.Keys(), 0, k) <==> k in o.values
  {
    KeysAreTheDomain(o);
    forall k ensures OccursFrom(o.Keys(), 0, k) <==> k in o.values {
      OccursFromIn(o.Keys(), 0, k);
    }
  }

  /** The keys of the input whose result is a failure. */
  ghost function Failing(v: Version, cnames: Registry, cache: Option<Registry>, net: Network): set<string> {
    set k | k in cnames.values && Truthy(Result(v, cnames, cache, net, k).failed)
  }

  /** How many positions from `i` on hold a key of `bad`. */
  function Count(ks: seq<string>, i: nat, bad: set<string>): nat
    decreases |ks| - i
  {
    if |ks| <= i then 0 else (if ks[i] in bad then 1 else 0) + Count(ks, i + 1, bad)
  }

  /** The keys of `bad` at positions from `i` on. */
  ghost function Picked(ks: seq<string>, i: nat, bad: set<string>): set<string> {
    set j | i <= j < |ks| && ks[j] in bad :: ks[j]
  }

  /** The failure counter counts the positions whose key fails. */
  lemma {:induction false} FailCountIsCount(v: Version, cnames: Registry, cache: Option<Registry>, net: Network, ks: seq<string>, i: nat)
    requires AllIn(ks, cnames)
    ensures FailCount(v, cnames, cache, net, ks, i) == Count(ks, i, Failing(v, cnames, cache, net))
    decreases |ks| - i
  {
    if i < |ks| {
      FailCountIsCount(v, cnames, cache, net, ks, i + 1);
    }
  }

  /** Over keys that do not repeat, the count is the number of keys picked. */
  lemma {:induction false} CountIsPicked(ks: seq<string>, i: nat, bad: set<string>)
    requires Distinct(ks)
    ensures Count(ks, i, bad) == |Picked(ks, i, bad)|
    decreases |ks| - i
  {
    if i < |ks| {
      CountIsPicked(ks, i + 1, bad);
      var rest := Picked(ks, i + 1, bad);
      assert ks[i] !in rest;
      if ks[i] in bad {
        assert Picked(ks, i, bad) == rest + {ks[i]};
      } else {
        assert Picked(ks, i, bad) == rest;
      }
    } else {
      assert Picked(ks, i, bad) == {};
    }
  }

  /** Every key of the object is picked from its key list. */
  lemma PickedAll(o: Registry, bad: set<string>)
    requires o.Valid() && bad <= o.values.Keys
    ensures Picked(o.Keys(), 0, bad) == bad
  {
    var ks := o.Keys();
    KeysOccur(o);
    forall k | k in bad ensures k in Picked(ks, 0, bad) {
      OccursFromIn(ks, 0, k);
      var j :| 0 <= j < |ks| && ks[j] == k;
    }
  }

  /** The results the run records for the keys of the input, in the tests it ends with. */
  lemma RunFromStart(v: Version, cnames: Registry, cache: Option<Registry>, net: Network)
    requires cnames.Valid()
    ensures AllIn(cnames.Keys(), cnames)
    ensures var run := Run(v, cnames, cache, net, cnames.Keys(), 0, Start());
      && (forall k :: k in run.tests.values <==> k in cnames.values)
      && (forall k :: k in cnames.values ==> k in run.tests.values && run.tests.values[k] == Result(v, cnames, cache, net, k))
      && run.failures == FailCount(v, cnames, cache, net, cnames.Keys(), 0)
      && |run.writes| == FreshCount(cache, cnames.Keys(), 0)
  {
    var ks := cnames.Keys();
    KeysAllIn(cnames);
    KeysOccur(cnames);
    RunKeys(v, cnames, cache, net, ks, 0, Start());
    RunValues(v, cnames, cache, net, ks, 0, Start());
    RunCounts(v, cnames, cache, net, ks, 0, Start());
    forall k | k in cnames.values ensures Result(v, cnames, cache, net, k) == Run(v, cnames, cache, net, ks, 0, Start()).tests.values[k] {
      OccursFromIn(ks, 0, k);
      var j :| 0 <= j < |ks| && ks[j] == k;
    }
  }

  /**
   * `validateCNAMEs` on a registry: every key ends in `failed` exactly when
   * its recorded result is a failure and in `passed` otherwise, with that
   * result as its entry, and nothing else is in either.
   */
  lemma ValidationVerdicts(v: Version, cnames: Registry, cache: Option<Registry>, net: Network)
    requires cnames.Valid()
    ensures AllIn(cnames.Keys(), cnames)
    ensures var run := Run(v, cnames, cache, net, cnames.Keys(), 0, Start());
      && AllIn(run.tests.Keys(), run.tests)
      && var sp := Split(run.tests, run.tests.Keys(), 0, Empty(), Empty());
      && (forall k :: k in sp.0.values || k in sp.1.values ==> k in cnames.values)
      && (forall k :: k in cnames.values ==>
            var e := Result(v, cnames, cache, net, k);
            if Truthy(e.failed) then k in sp.0.values && sp.0.values[k] == e && k !in sp.1.values
            else k in sp.1.values && sp.1.values[k] == e && k !in sp.0.values)
  {
    RunFromStart(v, cnames, cache, net);
    PartitionExact(Run(v, cnames, cache, net, cnames.Keys(), 0, Start()).tests);
  }

  /** The failed part holds exactly the keys whose result is a failure. */
  lemma FailedPartIsFailing(v: Version, cnames: Registry, cache: Option<Registry>, net: Network)
    requires cnames.Valid()
    ensures AllIn(cnames.Keys(), cnames)
    ensures var run := Run(v, cnames, cache, net, cnames.Keys(), 0, Start());
      && AllIn(run.tests.Keys(), run.tests)
      && Split(run.tests, run.tests.Keys(), 0, Empty(), Empty()).0.values.Keys == Failing(v, cnames, cache, net)
  {
    ValidationVerdicts(v, cnames, cache, net);
  }

  /** The failure counter of `validateCNAMEs` is the size of `failed`. */
  lemma ValidationCount(v: Version, cnames: Registry, cache: Option<Registry>, net: Network)
    requires cnames.Valid()
    ensures AllIn(cnames.Keys(), cnames)
    ensures var run := Run(v, cnames, cache, net, cnames.Keys(), 0, Start());
      && AllIn(run.tests.Keys(), run.tests)
      && run.failures == |Split(run.tests, run.tests.Keys(), 0, Empty(), Empty()).0.values|
  {
    var ks := cnames.Keys();
    var bad := Failing(v, cnames, cache, net);
    RunFromStart(v, cnames, cache, net);
    FailedPartIsFailing(v, cnames, cache, net);
    KeysIndexed(cnames);
    FailCountIsCount(v, cnames, cache, net, ks, 0);
    CountIsPicked(ks, 0, bad);
    PickedAll(cnames, bad);
  }
}
