/**
 * What `attemptTargetIssues` computes, stated about the loop specification
 * `Issues.ContactFrom`: `pending` and `contact` divide the failed keys
 * exactly by the `contact` flag of the recorded entry; a cached entry is
 * taken as it is; an entry whose target is not on GitHub Pages, or whose
 * issue could not be opened, is pending with `contact` false; an opened
 * issue is recorded; `octokit.issues.create` is called exactly for the
 * fresh GitHub Pages entries; every cache write agrees with the results;
 * and a run resumed from any cache write of an uninterrupted run ends with
 * the same `pending` and `contact`.
 */
module ContactFacts {
  import opened Wrappers
  import opened JsObjects
  import opened Entries
  import opened Validate
  import opened RunFacts
  import opened Github
  import opened Issues

  /** The entry the loop records for every failed key. */
  ghost function Outcomes(failed: Registry, cache: Option<Registry>, create: Creator): map<string, Entry> {
    map k | k in failed.values :: Outcome(failed, cache, create, k)
  }

  /** The map `m` after `m[ks[j]] = f[ks[j]]` for each position `j` from `i` on whose entry's `contact` truthiness is `b`. */
  ghost function Routed(m: map<string, Entry>, ks: seq<string>, i: nat, f: map<string, Entry>, b: bool): map<string, Entry>
    requires forall j :: 0 <= j < |ks| ==> ks[j] in f
    decreases |ks| - i
  {
    if |ks| <= i then m
    else Routed(if Truthy(f[ks[i]].contact) == b then m[ks[i] := f[ks[i]]] else m, ks, i + 1, f, b)
  }

  /** `k` is reached from position `i` on and its entry in `f` goes to the side `b`. */
  predicate Chosen(ks: seq<string>, i: nat, f: map<string, Entry>, b: bool, k: string) {
    OccursFrom(ks, i, k) && k in f && Truthy(f[k].contact) == b
  }

  /** `Routed` adds exactly the chosen keys, each with its entry in `f`, and keeps the rest of `m`. */
  lemma {:induction false} RoutedContents(m: map<string, Entry>, ks: seq<string>, i: nat, f: map<string, Entry>, b: bool)
    requires forall j :: 0 <= j < |ks| ==> ks[j] in f
    ensures var r := Routed(m, ks, i, f, b);
      && (forall k :: k in r <==> k in m || Chosen(ks, i, f, b, k))
      && (forall k :: k in r ==> r[k] == if Chosen(ks, i, f, b, k) then f[k] else m[k])
    decreases |ks| - i
  {
    if i < |ks| {
      var m' := if Truthy(f[ks[i]].contact) == b then m[ks[i] := f[ks[i]]] else m;
      RoutedContents(m', ks, i + 1, f, b);
    }
  }

  /** The side `b` of `s`: `contact` when `b` holds, `pending` otherwise. */
  function Side(s: Contacts, b: bool): map<string, Entry> {
    if b then s.contact.values else s.pending.values
  }

  /** The side `b` of a run is `Routed` over the recorded entries. */
  lemma {:induction false} ContactRouted(failed: Registry, cache: Option<Registry>, create: Creator, ks: seq<string>, i: nat, s: Contacts, b: bool)
    requires AllIn(ks, failed)
    ensures var f := Outcomes(failed, cache, create);
      && (forall j :: 0 <= j < |ks| ==> ks[j] in f)
      && Side(ContactFrom(failed, cache, create, ks, i, s), b) == Routed(Side(s, b), ks, i, f, b)
    decreases |ks| - i
  {
    if i < |ks| {
      var t := Turn(failed, cache, create, s, ks[i]);
      ContactNext(failed, cache, create, ks, i, s);
      TurnSide(failed, cache, create, s, ks[i], b);
      ContactRouted(failed, cache, create, ks, i + 1, t, b);
    }
  }

  /** One turn for `k` puts its recorded entry on the side its `contact` flag names and leaves the other side as it was. */
  lemma TurnSide(failed: Registry, cache: Option<Registry>, create: Creator, s: Contacts, k: string, b: bool)
    requires k in failed.values
    ensures var f := Outcomes(failed, cache, create);
      && k in f
      && Side(Turn(failed, cache, create, s, k), b) == if Truthy(f[k].contact) == b then Side(s, b)[k := f[k]] else Side(s, b)
  {
  }

  /** The side `b` of the whole loop over `failed` holds exactly the failed keys whose recorded entry goes there, with that entry. */
  lemma SideFromStart(failed: Registry, cache: Option<Registry>, create: Creator, b: bool)
    requires failed.Valid()
    ensures AllIn(failed.Keys(), failed)
    ensures var r := ContactFrom(failed, cache, create, failed.Keys(), 0, NoContacts());
      var side := if b then r.contact.values else r.pending.values;
      && (forall k :: k in side <==> k in failed.values && Truthy(Outcome(failed, cache, create, k).contact) == b)
      && (forall k :: k in side ==> k in failed.values && side[k] == Outcome(failed, cache, create, k))
  {
    var ks, f := failed.Keys(), Outcomes(failed, cache, create);
    KeysAllIn(failed);
    ContactRouted(failed, cache, create, ks, 0, NoContacts(), b);
    RoutedContents(map[], ks, 0, f, b);
    forall k ensures Chosen(ks, 0, f, b, k) <==> k in failed.values && Truthy(Outcome(failed, cache, create, k).contact) == b {
      ChosenOutcome(failed, cache, create, b, k);
    }
  }

  /** A key is chosen for the side `b` over the keys of `failed` exactly when it is failed and its recorded entry goes there. */
  lemma ChosenOutcome(failed: Registry, cache: Option<Registry>, create: Creator, b: bool, k: string)
    requires failed.Valid()
    ensures Chosen(failed.Keys(), 0, Outcomes(failed, cache, create), b, k) <==> k in failed.values && Truthy(Outcome(failed, cache, create, k).contact) == b
  {
    KeysOccur(failed);
  }

  /**
   * The whole loop over `failed`: `pending` holds exactly the failed keys
   * whose recorded entry has a falsy `contact` flag, `contact` those with a
   * truthy one, each with that entry.
   */
  lemma ContactSides(failed: Registry, cache: Option<Registry>, create: Creator)
    requires failed.Valid()
    ensures AllIn(failed.Keys(), failed)
    ensures var r := ContactFrom(failed, cache, create, failed.Keys(), 0, NoContacts());
      && (forall k :: k in r.pending.values <==> k in failed.values && !Truthy(Outcome(failed, cache, create, k).contact))
      && (forall k :: k in r.contact.values <==> k in failed.values && Truthy(Outcome(failed, cache, create, k).contact))
      && (forall k :: k in r.pending.values ==> k in failed.values && r.pending.values[k] == Outcome(failed, cache, create, k))
      && (forall k :: k in r.contact.values ==> k in failed.values && r.contact.values[k] == Outcome(failed, cache, create, k))
  {
    SideFromStart(failed, cache, create, false);
    SideFromStart(failed, cache, create, true);
  }

  /** Every failed key ends in exactly one of `pending` and `contact`, and nothing else does. */
  lemma ContactPartition(failed: Registry, cache: Option<Registry>, create: Creator)
    requires failed.Valid()
    ensures AllIn(failed.Keys(), failed)
    ensures var r := ContactFrom(failed, cache, create, failed.Keys(), 0, NoContacts());
      && (forall k :: k in failed.values <==> k in r.pending.values || k in r.contact.values)
      && (forall k :: !(k in r.pending.values && k in r.contact.values))
  {
    ContactSides(failed, cache, create);
  }

  /** A cached entry is taken from the cache into `contact` when its flag is truthy and into `pending` otherwise. */
  lemma CachedRouted(failed: Registry, cache: Option<Registry>, create: Creator, k: string)
    requires failed.Valid() && k in failed.values && Cached(cache, k)
    ensures AllIn(failed.Keys(), failed)
    ensures var r := ContactFrom(failed, cache, create, failed.Keys(), 0, NoContacts());
      var e := cache.value.values[k];
      if Truthy(e.contact) then k in r.contact.values && r.contact.values[k] == e && k !in r.pending.values
      else k in r.pending.values && r.pending.values[k] == e && k !in r.contact.values
  {
    ContactSides(failed, cache, create);
  }

  /** A fresh entry whose target is not on GitHub Pages is pending, with `contact` false and nothing else changed. */
  lemma ExternalPending(failed: Registry, cache: Option<Registry>, create: Creator, k: string)
    requires failed.Valid() && k in failed.values && !Cached(cache, k)
    requires GithubRepository(failed.values[k].target).None?
    ensures AllIn(failed.Keys(), failed)
    ensures var r := ContactFrom(failed, cache, create, failed.Keys(), 0, NoContacts());
      && k in r.pending.values && k !in r.contact.values
      && r.pending.values[k] == failed.values[k].(contact := Some(false))
  {
    ContactSides(failed, cache, create);
  }

  /** A fresh GitHub Pages entry whose issue could not be opened is pending, with `contact` false. */
  lemma UnopenedPending(failed: Registry, cache: Option<Registry>, create: Creator, k: string)
    requires failed.Valid() && k in failed.values && !Cached(cache, k)
    requires var g := GithubRepository(failed.values[k].target); g.Some? && create(g.value.owner, g.value.repo, k).None?
    ensures AllIn(failed.Keys(), failed)
    ensures var r := ContactFrom(failed, cache, create, failed.Keys(), 0, NoContacts());
      && k in r.pending.values && k !in r.contact.values
      && r.pending.values[k] == failed.values[k].(contact := Some(false))
  {
    ContactSides(failed, cache, create);
  }

  /** A fresh GitHub Pages entry whose issue was opened is in `contact`, with the issue and `contact` true. */
  lemma OpenedContact(failed: Registry, cache: Option<Registry>, create: Creator, k: string)
    requires failed.Valid() && k in failed.values && !Cached(cache, k)
    requires var g := GithubRepository(failed.values[k].target); g.Some? && create(g.value.owner, g.value.repo, k).Some?
    ensures AllIn(failed.Keys(), failed)
    ensures var r := ContactFrom(failed, cache, create, failed.Keys(), 0, NoContacts());
      var g := GithubRepository(failed.values[k].target).value;
      && k in r.contact.values && k !in r.pending.values
      && r.contact.values[k] == failed.values[k].(issue := create(g.owner, g.repo, k), contact := Some(true))
  {
    ContactSides(failed, cache, create);
  }

  // ---------------------------------------------------------------
  // Calls to octokit.issues.create
  // ---------------------------------------------------------------

  /** `octokit.issues.create` is called for a failed key exactly when the cache lacks it and its target is on GitHub Pages. */
  predicate Called(failed: Registry, cache: Option<Registry>, k: string) {
    k in failed.values && !Cached(cache, k) && GithubRepository(failed.values[k].target).Some?
  }

  lemma {:induction false} AttemptsFrom(failed: Registry, cache: Option<Registry>, create: Creator, ks: seq<string>, i: nat, s: Contacts)
    requires AllIn(ks, failed)
    ensures var r := ContactFrom(failed, cache, create, ks, i, s);
      forall k :: k in r.attempts <==> k in s.attempts || (OccursFrom(ks, i, k) && Called(failed, cache, k))
    decreases |ks| - i
  {
    if i < |ks| {
      TurnAttempts(failed, cache, create, s, ks[i]);
      AttemptsFrom(failed, cache, create, ks, i + 1, Turn(failed, cache, create, s, ks[i]));
    }
  }

  /** One turn adds its key to the attempts exactly when it calls `octokit.issues.create`. */
  lemma TurnAttempts(failed: Registry, cache: Option<Registry>, create: Creator, s: Contacts, k: string)
    requires k in failed.values
    ensures Turn(failed, cache, create, s, k).attempts == s.attempts + if Called(failed, cache, k) then [k] else []
  {
  }

  /** Over the whole loop, the issues attempted are exactly those of the fresh GitHub Pages entries. */
  lemma AttemptedExactly(failed: Registry, cache: Option<Registry>, create: Creator)
    requires failed.Valid()
    ensures AllIn(failed.Keys(), failed)
    ensures var r := ContactFrom(failed, cache, create, failed.Keys(), 0, NoContacts());
      forall k :: k in r.attempts <==> Called(failed, cache, k)
  {
    KeysAllIn(failed);
    KeysOccur(failed);
    AttemptsFrom(failed, cache, create, failed.Keys(), 0, NoContacts());
  }

  // ---------------------------------------------------------------
  // Cache writes and resuming
  // ---------------------------------------------------------------

  /** Every entry of `w` is the entry `f` holds for its key. */
  ghost predicate Consistent(f: map<string, Entry>, w: map<string, Entry>) {
    forall k :: k in w ==> k in f && w[k] == f[k]
  }

  /** The state of a run whose `pending`, `contact` and cache writes all hold entries of `f`. */
  ghost predicate AllConsistent(f: map<string, Entry>, s: Contacts) {
    && Consistent(f, s.pending.values)
    && Consistent(f, s.contact.values)
    && forall n :: 0 <= n < |s.writes| ==> Consistent(f, s.writes[n].values)
  }

  /** One turn keeps the state consistent with the recorded entries, and writes the cache exactly when its key is not cached. */
  lemma TurnConsistent(failed: Registry, cache: Option<Registry>, create: Creator, s: Contacts, k: string)
    requires k in failed.values && AllConsistent(Outcomes(failed, cache, create), s)
    ensures AllConsistent(Outcomes(failed, cache, create), Turn(failed, cache, create, s, k))
    ensures |Turn(failed, cache, create, s, k).writes| == |s.writes| + if Cached(cache, k) then 0 else 1
  {
    TurnShape(failed, cache, create, s, k);
    var f := Outcomes(failed, cache, create);
    assert f[k] == Outcome(failed, cache, create, k);
    ShapeConsistent(f, s, Turn(failed, cache, create, s, k), k);
  }

  /** A state that records the entry `f[k]` on one side and possibly writes both sides stays consistent with `f`. */
  lemma ShapeConsistent(f: map<string, Entry>, s: Contacts, t: Contacts, k: string)
    requires k in f && AllConsistent(f, s)
    requires
      || (t.pending.values == s.pending.values && t.contact.values == s.contact.values[k := f[k]])
      || (t.pending.values == s.pending.values[k := f[k]] && t.contact.values == s.contact.values)
    requires t.writes == s.writes || t.writes == s.writes + [Spread(t.pending, t.contact)]
    ensures AllConsistent(f, t)
  {
    assert Consistent(f, t.pending.values + t.contact.values);
    forall n | 0 <= n < |t.writes| ensures Consistent(f, t.writes[n].values) {
      if n >= |s.writes| {
        assert t.writes[n].values == t.pending.values + t.contact.values;
      } else {
        assert t.writes[n] == s.writes[n];
      }
    }
  }

  /** What one turn does to `pending`, `contact` and the writes. */
  lemma TurnShape(failed: Registry, cache: Option<Registry>, create: Creator, s: Contacts, k: string)
    requires k in failed.values
    ensures var t := Turn(failed, cache, create, s, k); var e := Outcome(failed, cache, create, k);
      && t.pending == (if Truthy(e.contact) then s.pending else s.pending.Set(k, e))
      && t.contact == (if Truthy(e.contact) then s.contact.Set(k, e) else s.contact)
      && t.writes == s.writes + (if Cached(cache, k) then [] else [Spread(t.pending, t.contact)])
  {
  }

  /** Each turn keeps `pending`, `contact` and every cache write consistent with the recorded entries. */
  lemma {:induction false} WritesConsistent(failed: Registry, cache: Option<Registry>, create: Creator, ks: seq<string>, i: nat, s: Contacts)
    requires AllIn(ks, failed) && AllConsistent(Outcomes(failed, cache, create), s)
    ensures var r := ContactFrom(failed, cache, create, ks, i, s);
      AllConsistent(Outcomes(failed, cache, create), r) && |r.writes| == |s.writes| + FreshCount(cache, ks, i)
    decreases |ks| - i
  {
    if i < |ks| {
      TurnConsistent(failed, cache, create, s, ks[i]);
      WritesConsistent(failed, cache, create, ks, i + 1, Turn(failed, cache, create, s, ks[i]));
    }
  }

  /** Two runs whose every turn records the same entry end with the same `pending` and `contact`. */
  lemma {:induction false} SameOutcomesSameSides(failed: Registry, c1: Option<Registry>, c2: Option<Registry>, create: Creator, ks: seq<string>, i: nat, s1: Contacts, s2: Contacts)
    requires AllIn(ks, failed)
    requires s1.pending == s2.pending && s1.contact == s2.contact
    requires forall j :: i <= j < |ks| ==> Outcome(failed, c1, create, ks[j]) == Outcome(failed, c2, create, ks[j])
    ensures ContactFrom(failed, c1, create, ks, i, s1).pending == ContactFrom(failed, c2, create, ks, i, s2).pending
    ensures ContactFrom(failed, c1, create, ks, i, s1).contact == ContactFrom(failed, c2, create, ks, i, s2).contact
    decreases |ks| - i
  {
    if i < |ks| {
      var t1, t2 := Turn(failed, c1, create, s1, ks[i]), Turn(failed, c2, create, s2, ks[i]);
      TurnShape(failed, c1, create, s1, ks[i]);
      TurnShape(failed, c2, create, s2, ks[i]);
      assert t1.pending == t2.pending && t1.contact == t2.contact;
      SameOutcomesSameSides(failed, c1, c2, create, ks, i + 1, t1, t2);
    }
  }

  /**
   * Every cache write of a run without a cache holds the entries of that
   * run, there is one write per key, and a run started from any of those
   * writes ends with the same `pending` and `contact`.
   */
  lemma ResumeFromSnapshot(failed: Registry, create: Creator, n: nat)
    requires failed.Valid()
    ensures AllIn(failed.Keys(), failed)
    ensures var ks := failed.Keys(); var run := ContactFrom(failed, None, create, ks, 0, NoContacts());
      && |run.writes| == |ks|
      && (n < |run.writes| ==>
        && ContactFrom(failed, Some(run.writes[n]), create, ks, 0, NoContacts()).pending == run.pending
        && ContactFrom(failed, Some(run.writes[n]), create, ks, 0, NoContacts()).contact == run.contact)
  {
    var ks := failed.Keys();
    KeysAllIn(failed);
    WritesConsistent(failed, None, create, ks, 0, NoContacts());
    NoCacheFresh(ks, 0);
    var run := ContactFrom(failed, None, create, ks, 0, NoContacts());
    if n < |run.writes| {
      var w := run.writes[n];
      assert Consistent(Outcomes(failed, None, create), w.values);
      assert forall j :: 0 <= j < |ks| ==> Outcome(failed, Some(w), create, ks[j]) == Outcome(failed, None, create, ks[j]);
      SameOutcomesSameSides(failed, Some(w), None, create, ks, 0, NoContacts(), NoContacts());
    }
  }

  /** Without a cache, every key is fresh. */
  lemma {:induction false} NoCacheFresh(ks: seq<string>, i: nat)
    ensures FreshCount(None, ks, i) == if i <= |ks| then |ks| - i else 0
    decreases |ks| - i
  {
    if i < |ks| {
      NoCacheFresh(ks, i + 1);
    }
  }
}
