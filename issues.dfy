/**
 * `attemptTargetIssues` (src/robot/issues.js and issues.js, the same code):
 * every failed entry is routed to `pending` or `contact`. A cached entry
 * goes by its `contact` flag; otherwise an issue is opened on the GitHub
 * Pages repository of its target, the entry records whether that worked,
 * and the cache is rewritten with `{...pending, ...contact}`.
 * `octokit.issues.create` is a parameter.
 */
module Issues {
  import opened Wrappers
  import opened JsObjects
  import opened Entries
  import opened Validate
  import opened Github

  /**
   * `octokit.issues.create` on an owner and a repository, for the contact
   * issue of a subdomain: the issue, or `None` when the call throws or
   * returns no data.
   */
  type Creator = (string, string, string) -> Option<IssueData>

  /** The issue opened for a fresh entry: none for a target that is not on GitHub Pages. */
  function Opened(e: Entry, create: Creator, cname: string): Option<IssueData> {
    match GithubRepository(e.target)
    case None => None
    case Some(g) => create(g.owner, g.repo, cname)
  }

  /** The entry after a fresh attempt: `contact` says whether an issue was opened, and `issue` holds it. */
  function Attempt(e: Entry, create: Creator, cname: string): Entry {
    var issue := Opened(e, create, cname);
    if issue.Some? then e.(issue := issue, contact := Some(true)) else e.(contact := Some(false))
  }

  /** What the loop records for `cname`: the cached entry, or a fresh attempt. */
  function Outcome(failed: Registry, cache: Option<Registry>, create: Creator, cname: string): Entry
    requires cname in failed.values
  {
    if Cached(cache, cname) then cache.value.values[cname] else Attempt(failed.values[cname], create, cname)
  }

  /** `pending`, `contact`, the `setCache` calls made, and the subdomains `octokit.issues.create` was called for. */
  datatype Contacts = Contacts(pending: Tests, contact: Tests, writes: seq<Registry>, attempts: seq<string>)

  function NoContacts(): Contacts {
    Contacts(Empty(), Empty(), [], [])
  }

  /** One turn of the loop for `cname`. */
  function Turn(failed: Registry, cache: Option<Registry>, create: Creator, s: Contacts, cname: string): Contacts
    requires cname in failed.values
  {
    var data := Outcome(failed, cache, create, cname);
    var pending: Tests := if Truthy(data.contact) then s.pending else s.pending.Set(cname, data);
    var contact: Tests := if Truthy(data.contact) then s.contact.Set(cname, data) else s.contact;
    if Cached(cache, cname) then Contacts(pending, contact, s.writes, s.attempts)
    else
      var called := if GithubRepository(failed.values[cname].target).Some? then [cname] else [];
      Contacts(pending, contact, s.writes + [Spread(pending, contact)], s.attempts + called)
  }

  /** The loop over the keys `ks` from position `i` on, from `s`. */
  function ContactFrom(failed: Registry, cache: Option<Registry>, create: Creator, ks: seq<string>, i: nat, s: Contacts): Contacts
    requires AllIn(ks, failed)
    decreases |ks| - i
  {
    if |ks| <= i then s
    else ContactFrom(failed, cache, create, ks, i + 1, Turn(failed, cache, create, s, ks[i]))
  }

  /** The loop over `for (const cname in failed)`. */
  method AttemptTargetIssues(failed: Registry, cache: Option<Registry>, create: Creator)
    returns (pending: Tests, contact: Tests, writes: seq<Registry>, attempts: seq<string>)
    requires failed.Valid()
    ensures AllIn(failed.Keys(), failed)
    ensures Contacts(pending, contact, writes, attempts) == ContactFrom(failed, cache, create, failed.Keys(), 0, NoContacts())
  {
    var ks := failed.Keys();
    KeysAllIn(failed);
    var s := NoContacts();
    var i := 0;
    while i < |ks|
      invariant i <= |ks|
      invariant ContactFrom(failed, cache, create, ks, i, s) == ContactFrom(failed, cache, create, ks, 0, NoContacts())
    {
      s := AttemptAt(failed, cache, create, ks, i, s);
      i := i + 1;
    }
    pending, contact, writes, attempts := s.pending, s.contact, s.writes, s.attempts;
  }

  /** The turn for the key at position `i`: the loop from there on is the loop from the next position on the new state. */
  method AttemptAt(failed: Registry, cache: Option<Registry>, create: Creator, ks: seq<string>, i: nat, s: Contacts) returns (r: Contacts)
    requires AllIn(ks, failed) && i < |ks|
    ensures ContactFrom(failed, cache, create, ks, i, s) == ContactFrom(failed, cache, create, ks, i + 1, r)
  {
    ContactNext(failed, cache, create, ks, i, s);
    r := AttemptOne(failed, cache, create, s, ks[i]);
  }

  lemma ContactNext(failed: Registry, cache: Option<Registry>, create: Creator, ks: seq<string>, i: nat, s: Contacts)
    requires AllIn(ks, failed) && i < |ks|
    ensures ContactFrom(failed, cache, create, ks, i, s) == ContactFrom(failed, cache, create, ks, i + 1, Turn(failed, cache, create, s, ks[i]))
  {
  }

  /** One turn of the loop for `cname`. */
  method AttemptOne(failed: Registry, cache: Option<Registry>, create: Creator, s: Contacts, cname: string) returns (r: Contacts)
    requires cname in failed.values
    ensures r == Turn(failed, cache, create, s, cname)
  {
    if cache.Some? && cname in cache.value.values {
      r := AttemptCached(failed, cache, create, s, cname);
    } else {
      r := AttemptUncached(failed, cache, create, s, cname);
    }
  }

  /** The turn for an uncached `cname`: a fresh attempt, routed by its outcome, then the cache is rewritten. */
  method AttemptUncached(failed: Registry, cache: Option<Registry>, create: Creator, s: Contacts, cname: string) returns (r: Contacts)
    requires cname in failed.values && !Cached(cache, cname)
    ensures r == Turn(failed, cache, create, s, cname)
  {
    var pending, contact, writes, attempts := s.pending, s.contact, s.writes, s.attempts;
    var data, called := AttemptFresh(failed.values[cname], create, cname);
    attempts := attempts + if called then [cname] else [];
    if Truthy(data.contact) {
      contact := contact.Set(cname, data);
    } else {
      pending := pending.Set(cname, data);
    }
    writes := writes + [Spread(pending, contact)];
    r := Contacts(pending, contact, writes, attempts);
  }

  /** The turn for a cached `cname`: its entry is routed by its `contact` flag, and nothing is written or attempted. */
  method AttemptCached(failed: Registry, cache: Option<Registry>, create: Creator, s: Contacts, cname: string) returns (r: Contacts)
    requires cname in failed.values && cache.Some? && cname in cache.value.values
    ensures r == Turn(failed, cache, create, s, cname)
  {
    var pending, contact := s.pending, s.contact;
    var data := cache.value.values[cname];
    if Truthy(data.contact) {
      contact := contact.Set(cname, data);
    } else {
      pending := pending.Set(cname, data);
    }
    r := Contacts(pending, contact, s.writes, s.attempts);
  }

  /** A fresh attempt on `e`: the updated entry, and whether `octokit.issues.create` was called. */
  method AttemptFresh(e: Entry, create: Creator, cname: string) returns (data: Entry, called: bool)
    ensures data == Attempt(e, create, cname)
    ensures called == GithubRepository(e.target).Some?
  {
    data := e;
    var target := GithubRepository(data.target);
    called := target.Some?;
    if target.None? {
      data := data.(contact := Some(false));
    } else {
      var owner, repo := target.value.owner, target.value.repo;
      var issue := create(owner, repo, cname);
      if issue.None? {
        data := data.(contact := Some(false));
      } else {
        data := data.(issue := issue, contact := Some(true));
      }
    }
  }
}
