/**
 * `validateCNAMEs`: each entry of the registry is probed over HTTP and
 * HTTPS unless the cache already holds its result, the cache is rewritten
 * after each probed entry, and the results are split into failed and
 * passed. src/cnames.js and the root cnames.js fail an entry only when both
 * probes fail; src/robot/cnames.js fails it when either does. The network
 * is a parameter: how the request to each URL ends.
 */
module Validate {
  import opened Wrappers
  import opened JsObjects
  import opened Entries
  import opened Probe

  /** How the request to each URL ends. */
  type Network = string -> Outcome

  /** The failure policy: `failedHttp || failedHttps` in src/robot/cnames.js, `failedHttp && failedHttps` in the others. */
  predicate Fails(v: Version, http: Option<string>, https: Option<string>) {
    if v == Robot then http.Some? || https.Some? else http.Some? && https.Some?
  }

  /** The entry object after its probes: a failure records both reasons, a success only the flag. */
  function Judged(v: Version, e: Entry, http: Option<string>, https: Option<string>): (r: Entry)
    ensures r.failed == Some(Fails(v, http, https))
    ensures r.target == e.target && r.noCF == e.noCF && r.issue == e.issue && r.contact == e.contact
    ensures Fails(v, http, https) ==> r.http == http && r.https == https
    ensures !Fails(v, http, https) ==> r.http == e.http && r.https == e.https
  {
    if Fails(v, http, https) then e.(http := http, https := https, failed := Some(true))
    else e.(failed := Some(false))
  }

  /** `testUrl` on both URLs of `cname`, and the entry updated accordingly. */
  function Verdict(v: Version, e: Entry, net: Network, cname: string): Entry {
    Judged(v, e, TestUrl(v, net(ProbeUrl(false, cname))), TestUrl(v, net(ProbeUrl(true, cname))))
  }

  /** `cache && cname in cache` */
  predicate Cached(cache: Option<Registry>, cname: string) {
    cache.Some? && cname in cache.value.values
  }

  /** What the loop records for `cname`: the cached result, or a fresh verdict. */
  function Result(v: Version, cnames: Registry, cache: Option<Registry>, net: Network, cname: string): (r: Entry)
    requires cname in cnames.values
    ensures Cached(cache, cname) ==> r == cache.value.values[cname]
    ensures !Cached(cache, cname) ==> r == Verdict(v, cnames.values[cname], net, cname)
  {
    if Cached(cache, cname) then cache.value.values[cname] else Verdict(v, cnames.values[cname], net, cname)
  }

  predicate AllIn(ks: seq<string>, o: Registry) {
    forall i :: 0 <= i < |ks| ==> ks[i] in o.values
  }

  lemma KeysAllIn(o: Registry)
    requires o.Valid()
    ensures AllIn(o.Keys(), o)
  {
    KeysAreTheDomain(o);
  }

  /** What the probing loop has built so far: `tests`, the `setCache` calls made, and `failedCounter`. */
  /** A registry that keeps the object invariants. */
  type Tests = o: Registry | o.Valid() witness Empty()

  datatype Progress = Progress(tests: Tests, writes: seq<Registry>, failures: nat)

  function Start(): (s: Progress)
  {
    Progress(Empty(), [], 0)
  }

  /** One turn of the loop: record the result, count a failure, and write the cache unless the result came from it. */
  function Step(v: Version, cnames: Registry, cache: Option<Registry>, net: Network, s: Progress, cname: string): (r: Progress)
    requires cname in cnames.values
  {
    var result := Result(v, cnames, cache, net, cname);
    var tests: Tests := s.tests.Set(cname, result);
    Progress(
      tests,
      if Cached(cache, cname) then s.writes else s.writes + [tests],
      s.failures + if Truthy(result.failed) then 1 else 0)
  }

  /** The loop over the keys `ks` from position `i` on, from progress `s`. */
  function Run(v: Version, cnames: Registry, cache: Option<Registry>, net: Network, ks: seq<string>, i: nat, s: Progress): (r: Progress)
    requires AllIn(ks, cnames)
    decreases |ks| - i
  {
    if |ks| <= i then s
    else Run(v, cnames, cache, net, ks, i + 1, Step(v, cnames, cache, net, s, ks[i]))
  }

  /** The probing loop over `Object.keys(cnames)`. */
  method ProbeAll(v: Version, cnames: Registry, cache: Option<Registry>, net: Network)
    returns (tests: Registry, writes: seq<Registry>, failures: nat)
    requires cnames.Valid()
    ensures AllIn(cnames.Keys(), cnames) && tests.Valid()
    ensures Progress(tests, writes, failures) == Run(v, cnames, cache, net, cnames.Keys(), 0, Start())
  {
    var ks := cnames.Keys();
    KeysAllIn(cnames);
    var p := ProbeFrom(v, cnames, cache, net, ks, Start());
    tests, writes, failures := p.tests, p.writes, p.failures;
  }

  /** The loop over the keys `ks`, from progress `s`. */
  method ProbeFrom(v: Version, cnames: Registry, cache: Option<Registry>, net: Network, ks: seq<string>, s: Progress)
    returns (r: Progress)
    requires AllIn(ks, cnames)
    ensures r == Run(v, cnames, cache, net, ks, 0, s)
  {
    r := s;
    var i := 0;
    while i < |ks|
      invariant i <= |ks|
      invariant Run(v, cnames, cache, net, ks, i, r) == Run(v, cnames, cache, net, ks, 0, s)
    {
      r := ProbeAt(v, cnames, cache, net, ks, i, r);
      i := i + 1;
    }
  }

  /** The turn for the key at position `i`: the run from there on is the run from the next position on the new progress. */
  method ProbeAt(v: Version, cnames: Registry, cache: Option<Registry>, net: Network, ks: seq<string>, i: nat, s: Progress) returns (r: Progress)
    requires AllIn(ks, cnames) && i < |ks|
    ensures Run(v, cnames, cache, net, ks, i, s) == Run(v, cnames, cache, net, ks, i + 1, r)
  {
    RunNext(v, cnames, cache, net, ks, i, s);
    r := ProbeOne(v, cnames, cache, net, s, ks[i]);
  }

  lemma RunNext(v: Version, cnames: Registry, cache: Option<Registry>, net: Network, ks: seq<string>, i: nat, s: Progress)
    requires AllIn(ks, cnames) && i < |ks|
    ensures Run(v, cnames, cache, net, ks, i, s) == Run(v, cnames, cache, net, ks, i + 1, Step(v, cnames, cache, net, s, ks[i]))
  {
  }

  /** One turn of the loop for `cname`. */
  method ProbeOne(v: Version, cnames: Registry, cache: Option<Registry>, net: Network, s: Progress, cname: string)
    returns (r: Progress)
    requires cname in cnames.values
    ensures r == Step(v, cnames, cache, net, s, cname)
  {
    var tests, writes, failures := s.tests, s.writes, s.failures;
    if cache.Some? && cname in cache.value.values {
      assert cache.value.values[cname] == Result(v, cnames, cache, net, cname);
      tests := tests.Set(cname, cache.value.values[cname]);
      if Truthy(tests.values[cname].failed) {
        failures := failures + 1;
      }
    } else {
      var data, failed := ProbeEntry(v, cnames.values[cname], net, cname);
      assert data == Result(v, cnames, cache, net, cname);
      if failed {
        failures := failures + 1;
      }
      tests := tests.Set(cname, data);
      writes := writes + [tests];
    }
    r := Progress(tests, writes, failures);
  }

  /** Both probes of `cname` and the entry updated with their verdict. */
  method ProbeEntry(v: Version, e: Entry, net: Network, cname: string) returns (data: Entry, failed: bool)
    ensures data == Verdict(v, e, net, cname)
    ensures failed == Truthy(data.failed)
  {
    var failedHttp := TestUrl(v, net(ProbeUrl(false, cname)));
    var failedHttps := TestUrl(v, net(ProbeUrl(true, cname)));
    data := e;
    failed := Fails(v, failedHttp, failedHttps);
    if failed {
      data := data.(http := failedHttp, https := failedHttps, failed := Some(true));
    } else {
      data := data.(failed := Some(false));
    }
  }

  // ---------------------------------------------------------------
  // The failed / passed split
  // ---------------------------------------------------------------

  /** The split loop over the keys `ks` of `tests` from position `i` on, adding to `failed` and `passed`. */
  function Split(tests: Registry, ks: seq<string>, i: nat, failed: Tests, passed: Tests): (r: (Tests, Tests))
    requires AllIn(ks, tests)
    decreases |ks| - i
  {
    if |ks| <= i then (failed, passed)
    else
      var data := tests.values[ks[i]];
      if Truthy(data.failed) then Split(tests, ks, i + 1, failed.Set(ks[i], data), passed)
      else Split(tests, ks, i + 1, failed, passed.Set(ks[i], data))
  }

  method Partition(tests: Registry) returns (failed: Tests, passed: Tests)
    requires tests.Valid()
    ensures AllIn(tests.Keys(), tests)
    ensures (failed, passed) == Split(tests, tests.Keys(), 0, Empty(), Empty())
  {
    var ks := tests.Keys();
    KeysAllIn(tests);
    failed, passed := Empty(), Empty();
    var i := 0;
    ghost var goal := Split(tests, ks, 0, failed, passed);
    while i < |ks|
      invariant i <= |ks|
      invariant Split(tests, ks, i, failed, passed) == goal
    {
      failed, passed := PartitionAt(tests, ks, i, failed, passed);
      i := i + 1;
    }
  }

  /** One turn of the split loop: the key at position `i` goes to `failed` or to `passed`. */
  method PartitionAt(tests: Registry, ks: seq<string>, i: nat, failed: Tests, passed: Tests) returns (failed': Tests, passed': Tests)
    requires AllIn(ks, tests) && i < |ks|
    ensures Split(tests, ks, i, failed, passed) == Split(tests, ks, i + 1, failed', passed')
  {
    failed', passed' := failed, passed;
    var data := tests.values[ks[i]];
    if Truthy(data.failed) {
      failed' := failed.Set(ks[i], data);
    } else {
      passed' := passed.Set(ks[i], data);
    }
  }

  /** `k` is one of `ks[i..]`, stated one position at a time. */
  predicate OccursFrom(ks: seq<string>, i: nat, k: string)
    decreases |ks| - i
  {
    i < |ks| && (ks[i] == k || OccursFrom(ks, i + 1, k))
  }

  lemma {:induction false} OccursFromIn(ks: seq<string>, i: nat, k: string)
    ensures OccursFrom(ks, i, k) <==> exists j :: i <= j < |ks| && ks[j] == k
    decreases |ks| - i
  {
    if i < |ks| {
      OccursFromIn(ks, i + 1, k);
    }
  }

  /** `tests[k].failed` is truthy. */
  predicate FailedIn(tests: Registry, k: string) {
    k in tests.values && Truthy(tests.values[k].failed)
  }

  predicate PassedIn(tests: Registry, k: string) {
    k in tests.values && !Truthy(tests.values[k].failed)
  }

  /** What the split puts in `failed`: the truthy keys of `ks[i..]`, each with its entry unchanged. */
  lemma {:induction false} SplitFailed(tests: Registry, ks: seq<string>, i: nat, failed: Tests, passed: Tests)
    requires AllIn(ks, tests)
    ensures var r := Split(tests, ks, i, failed, passed).0;
      && (forall k :: k in r.values <==> k in failed.values || (OccursFrom(ks, i, k) && FailedIn(tests, k)))
      && (forall k :: k in r.values ==> r.values[k] == if OccursFrom(ks, i, k) && FailedIn(tests, k) then tests.values[k] else failed.values[k])
    decreases |ks| - i
  {
    if i < |ks| {
      var data := tests.values[ks[i]];
      if Truthy(data.failed) {
        SplitFailed(tests, ks, i + 1, failed.Set(ks[i], data), passed);
      } else {
        SplitFailed(tests, ks, i + 1, failed, passed.Set(ks[i], data));
      }
    }
  }

  /** What the split puts in `passed`: the other keys of `ks[i..]`, each with its entry unchanged. */
  lemma {:induction false} SplitPassed(tests: Registry, ks: seq<string>, i: nat, failed: Tests, passed: Tests)
    requires AllIn(ks, tests)
    ensures var r := Split(tests, ks, i, failed, passed).1;
      && (forall k :: k in r.values <==> k in passed.values || (OccursFrom(ks, i, k) && PassedIn(tests, k)))
      && (forall k :: k in r.values ==> r.values[k] == if OccursFrom(ks, i, k) && PassedIn(tests, k) then tests.values[k] else passed.values[k])
    decreases |ks| - i
  {
    if i < |ks| {
      var data := tests.values[ks[i]];
      if Truthy(data.failed) {
        SplitPassed(tests, ks, i + 1, failed.Set(ks[i], data), passed);
      } else {
        SplitPassed(tests, ks, i + 1, failed, passed.Set(ks[i], data));
      }
    }
  }

  // ---------------------------------------------------------------
  // `dev_restrict_cname_count`
  // ---------------------------------------------------------------

  /** `Object.keys(cnames).slice(10)` */
  function AfterTen(ks: seq<string>): seq<string> {
    if |ks| <= 10 then [] else ks[10..]
  }

  /** `delete cnames[k]` for each `k` of `ks` in turn. */
  function DeleteAll(o: Registry, ks: seq<string>): (r: Registry)
    requires o.Valid()
    ensures r.Valid()
    ensures forall k :: k in r.values <==> k in o.values && k !in ks
    ensures forall k :: k in r.values ==> r.values[k] == o.values[k]
  {
    if |ks| == 0 then o else DeleteAll(o, ks[..|ks| - 1]).Delete(ks[|ks| - 1])
  }

  /** The registry the loop tests: with the development flag set, every key after the first ten is deleted. */
  function Restricted(cnames: Registry, restrict: bool): (r: Registry)
    requires cnames.Valid()
    ensures r.Valid()
  {
    if restrict then DeleteAll(cnames, AfterTen(cnames.Keys())) else cnames
  }

  method DevRestrict(cnames: Registry) returns (r: Registry)
    requires cnames.Valid()
    ensures r == Restricted(cnames, true)
  {
    var slice := AfterTen(cnames.Keys());
    r := cnames;
    var i := 0;
    assert slice[..0] == [];
    while i < |slice|
      invariant 0 <= i <= |slice|
      invariant r == DeleteAll(cnames, slice[..i])
    {
      DeleteAllNext(cnames, slice, i);
      r := r.Delete(slice[i]);
      i := i + 1;
    }
    assert slice[..i] == slice;
  }

  lemma DeleteAllNext(o: Registry, ks: seq<string>, i: nat)
    requires o.Valid() && i < |ks|
    ensures DeleteAll(o, ks[..i + 1]) == DeleteAll(o, ks[..i]).Delete(ks[i])
  {
    assert ks[..i + 1][..i] == ks[..i];
  }

  /** With the flag set, exactly the first ten keys in enumeration order remain, with their entries. */
  lemma FirstTenRemain(cnames: Registry)
    requires cnames.Valid()
    ensures var r, ks := Restricted(cnames, true), cnames.Keys();
      && (forall k :: k in r.values <==> k in ks[..if |ks| < 10 then |ks| else 10])
      && (forall k :: k in r.values ==> r.values[k] == cnames.values[k])
  {
    var ks := cnames.Keys();
    var n := if |ks| < 10 then |ks| else 10;
    KeysAreTheDomain(cnames);
    assert ks == ks[..n] + AfterTen(ks);
  }

  // ---------------------------------------------------------------
  // The whole of `validateCNAMEs`
  // ---------------------------------------------------------------

  /**
   * `validateCNAMEs(cnames)` of src/cnames.js (`Current`) and of
   * src/robot/cnames.js (`Robot`): the split results, what each `setCache`
   * call wrote, and the failure counter.
   */
  method ValidateCNAMEs(v: Version, cnames: Registry, cache: Option<Registry>, restrict: bool, net: Network)
    returns (failed: Registry, passed: Registry, writes: seq<Registry>, failures: nat)
    requires cnames.Valid()
    ensures var input := Restricted(cnames, restrict);
      && AllIn(input.Keys(), input)
      && var run := Run(v, input, cache, net, input.Keys(), 0, Start());
         && AllIn(run.tests.Keys(), run.tests)
         && (failed, passed) == Split(run.tests, run.tests.Keys(), 0, Empty(), Empty())
         && writes == run.writes && failures == run.failures
  {
    var input := cnames;
    if restrict {
      input := DevRestrict(cnames);
    }
    var tests;
    tests, writes, failures := ProbeAll(v, input, cache, net);
    KeysAllIn(tests);
    failed, passed := Partition(tests);
  }

  /** `validateCNAMEs()` of the root cnames.js: the registry `getCNAMEs` read is probed under the both-fail policy and only `failed` is returned. */
  method ValidateCNAMEsRoot(cnames: Registry, cache: Option<Registry>, restrict: bool, net: Network) returns (failed: Registry)
    requires cnames.Valid()
    ensures var input := Restricted(cnames, restrict);
      && AllIn(input.Keys(), input)
      && var run := Run(Root, input, cache, net, input.Keys(), 0, Start());
         && AllIn(run.tests.Keys(), run.tests)
         && failed == Split(run.tests, run.tests.Keys(), 0, Empty(), Empty()).0
  {
    var passed, writes, failures;
    failed, passed, writes, failures := ValidateCNAMEs(Root, cnames, cache, restrict, net);
  }
}
