/**
 * The two pull requests of the cleanup (src/robot/prs.js, src/prs.js and
 * prs.js). `perfectCNAMEsFile` regenerates cnames_active.js from its own
 * parse and proposes the result only when it differs from the file.
 * `mainCleanupPull` removes from the registry the subdomains the cleanup
 * issue still lists as failing and proposes the regenerated file.
 *
 * Fetching the file, locking the issue, opening the pull request and the
 * cache files are outside the model: the file, the lock outcome, the issue's
 * names and the cached entries are inputs, and each operation returns what
 * it would propose.
 */
module Pulls {
  import opened Wrappers
  import opened JsObjects
  import opened Entries
  import opened Probe
  import opened Validate
  import opened RunFacts
  import Parse
  import Generate
  import Regenerate
  import Legacy

  /** How `perfectCNAMEsFile` ends: it returns early, finds nothing to change, or opens a pull request with `newFile`. */
  datatype Perfection = Stopped | AlreadyPerfect | Pull(newFile: Option<string>)

  /** `newFile == file`: no pull request for the same text, otherwise one carrying `newFile`, `undefined` included. */
  function Compare(file: string, newFile: Option<string>): Perfection {
    if newFile == Some(file) then AlreadyPerfect else Pull(newFile)
  }

  // ---------------------------------------------------------------
  // perfectCNAMEsFile
  // ---------------------------------------------------------------

  /** `perfectCNAMEsFile` of src/robot/prs.js on the downloaded `file`. */
  function RobotPerfection(file: string): Perfection {
    match Parse.Parse(file)
    case None => Stopped
    case Some(p) =>
      match Generate.GenerateText(p.cnames, file)
      case None => Stopped
      case Some(g) => Compare(file, Some(g))
  }

  method PerfectCNAMEsFile(file: string) returns (r: Perfection)
    ensures r == RobotPerfection(file)
  {
    var cnames := Parse.ParseCNAMEsFile(file);
    if cnames.None? {
      return Stopped;
    }
    var newFile := Generate.GenerateCNAMEsFile(cnames.value.cnames, file);
    if newFile.None? {
      return Stopped;
    }
    if newFile.value == file {
      return AlreadyPerfect;
    }
    r := Pull(newFile);
  }

  /**
   * The robot stops exactly when parsing or generation gives null, opens
   * no pull request exactly when the generated text is the file, and
   * otherwise proposes the generated text, which differs from the file.
   */
  lemma RobotPerfectionCases(file: string)
    ensures RobotPerfection(file) == Stopped <==>
      Parse.Parse(file).None? || Generate.GenerateText(Parse.Parse(file).value.cnames, file).None?
    ensures RobotPerfection(file) == AlreadyPerfect <==>
      Parse.Parse(file).Some? && Generate.GenerateText(Parse.Parse(file).value.cnames, file) == Some(file)
    ensures RobotPerfection(file).Pull? ==>
      && Parse.Parse(file).Some?
      && var g := Generate.GenerateText(Parse.Parse(file).value.cnames, file);
      && g.Some? && g.value != file && RobotPerfection(file).newFile == g
  {
  }

  /**
   * A file the generator wrote from normalised entries is already perfect:
   * `perfectCNAMEsFile` opens no pull request for it.
   */
  lemma GeneratedIsPerfect(cnames: Registry, reference: string, g: string)
    requires cnames.Valid() && |cnames.values| > 0 && Regenerate.CanonicalRegistry(cnames)
    requires Generate.Blocks(reference).Some? && Regenerate.NoDeclarationIn(Generate.Blocks(reference).value.0)
    requires Generate.GenerateText(cnames, reference) == Some(g)
    ensures RobotPerfection(g) == AlreadyPerfect
  {
    Regenerate.RegenerateIsIdentity(cnames, reference, g);
  }

  /**
   * When the entries of a file are already normalised, the file its pull
   * request proposes is perfect: running `perfectCNAMEsFile` on it again
   * changes nothing.
   */
  lemma PerfectIsIdempotent(file: string)
    requires RobotPerfection(file).Pull?
    requires var p := Parse.Parse(file);
      p.Some? && |p.value.cnames.values| > 0 && Regenerate.CanonicalRegistry(p.value.cnames)
    requires Generate.Blocks(file).Some? && Regenerate.NoDeclarationIn(Generate.Blocks(file).value.0)
    ensures RobotPerfection(file).newFile.Some?
    ensures RobotPerfection(RobotPerfection(file).newFile.value) == AlreadyPerfect
  {
    RobotPerfectionCases(file);
    GeneratedIsPerfect(Parse.Parse(file).value.cnames, file, RobotPerfection(file).newFile.value);
  }

  /**
   * `perfectCNAMEsFile` of src/prs.js: `getCNAMEs(file)` (or its cache),
   * then `generateCNAMEsFile(cnames, file)`, then the comparison. There is
   * no check for an `undefined` generation.
   */
  method PerfectCNAMEsFileSrc(cache: Option<Registry>, file: string) returns (r: Perfection)
    requires cache.Some? ==> cache.value.Valid()
    ensures var cnames := if cache.Some? then cache.value else Legacy.Scan(file, Legacy.Marked, 0, Empty());
      && cnames.Valid()
      && r == Compare(file, Generate.GenerateText(Legacy.LowerKeys(cnames), file))
  {
    var cnames := Legacy.GetCNAMEs(Legacy.Marked, cache, file);
    var newFile := Legacy.GenerateCNAMEsFile(cnames, file);
    r := Compare(file, newFile);
  }

  /**
   * A file without two comment blocks makes src/prs.js ask for a pull
   * request whose file is `undefined`: `undefined == file` is false.
   */
  lemma SrcPullsUndefined(cache: Option<Registry>, file: string)
    requires cache.Some? ==> cache.value.Valid()
    requires Generate.Blocks(file).None?
    ensures var cnames := if cache.Some? then cache.value else Legacy.Scan(file, Legacy.Marked, 0, Empty());
      && cnames.Valid()
      && Compare(file, Generate.GenerateText(Legacy.LowerKeys(cnames), file)) == Pull(None)
  {
    var cnames := if cache.Some? then cache.value else Legacy.Scan(file, Legacy.Marked, 0, Empty());
    assert cnames.Valid();
  }

  /**
   * The comparison with the guard of src/robot/prs.js:49: an `undefined`
   * generation stops. This is the corrected half of the src/prs.js finding;
   * the corrected pipeline is `PerfectCNAMEsFileSrc` with `GuardedCompare`
   * in place of `Compare`, and `SrcGuardedStops` shows that it stops on the
   * input `SrcPullsUndefined` exhibits.
   */
  function GuardedCompare(file: string, newFile: Option<string>): (r: Perfection)
    ensures r.Pull? ==> r.newFile.Some? && r.newFile.value != file
    ensures r == AlreadyPerfect <==> newFile == Some(file)
    ensures r == Stopped <==> newFile.None?
  {
    if newFile.None? then Stopped else Compare(file, newFile)
  }

  /** With the guard, the src/prs.js pipeline stops on a file without two comment blocks instead of asking for a pull request. */
  lemma SrcGuardedStops(cache: Option<Registry>, file: string)
    requires cache.Some? ==> cache.value.Valid()
    requires Generate.Blocks(file).None?
    ensures var cnames := if cache.Some? then cache.value else Legacy.Scan(file, Legacy.Marked, 0, Empty());
      && cnames.Valid()
      && GuardedCompare(file, Generate.GenerateText(Legacy.LowerKeys(cnames), file)) == Stopped
  {
    var cnames := if cache.Some? then cache.value else Legacy.Scan(file, Legacy.Marked, 0, Empty());
    assert cnames.Valid();
  }

  /**
   * `perfectCNAMEsFile` of the root prs.js: the same comparison as
   * src/prs.js over the downloaded file and the text generated from it.
   */
  method PerfectCNAMEsFileRoot(file: string, newFile: Option<string>) returns (r: Perfection)
    ensures r == AlreadyPerfect <==> newFile == Some(file)
    ensures r != AlreadyPerfect ==> r == Pull(newFile)
  {
    if newFile == Some(file) {
      return AlreadyPerfect;
    }
    r := Pull(newFile);
  }

  // ---------------------------------------------------------------
  // mainCleanupPull: the names of the issue
  // ---------------------------------------------------------------

  /** `result[item] = {}` for each item of `names` in turn, from `acc`. */
  function PlaceholdersFrom(names: seq<string>, i: nat, acc: Tests): Tests
    decreases |names| - i
  {
    if |names| <= i then acc else PlaceholdersFrom(names, i + 1, acc.Set(names[i], Placeholder()))
  }

  /** The `reduce` of src/robot/prs.js over the names of the issue. */
  method Placeholders(names: seq<string>) returns (result: Tests)
    ensures result == PlaceholdersFrom(names, 0, Empty())
  {
    result := Empty();
    var i := 0;
    while i < |names|
      invariant i <= |names|
      invariant PlaceholdersFrom(names, i, result) == PlaceholdersFrom(names, 0, Empty())
    {
      result := result.Set(names[i], Placeholder());
      i := i + 1;
    }
  }

  /** From position `i` on, every name becomes a key with the empty entry, and `acc` keeps the rest. */
  lemma {:induction false} PlaceholdersContents(names: seq<string>, i: nat, acc: Tests)
    ensures var r := PlaceholdersFrom(names, i, acc);
      && (forall k :: k in r.values <==> k in acc.values || OccursFrom(names, i, k))
      && (forall k :: k in r.values ==> r.values[k] == if OccursFrom(names, i, k) then Placeholder() else acc.values[k])
    decreases |names| - i
  {
    if i < |names| {
      PlaceholdersContents(names, i + 1, acc.Set(names[i], Placeholder()));
    }
  }

  /** The distinct names of a list. */
  function NameSet(names: seq<string>): set<string> {
    set k | k in names
  }

  /** The issue's names become one empty entry per distinct name. */
  lemma PlaceholderKeys(names: seq<string>)
    ensures var r := PlaceholdersFrom(names, 0, Empty());
      && r.values.Keys == NameSet(names)
      && (forall k :: k in r.values ==> r.values[k] == Placeholder())
  {
    PlaceholdersContents(names, 0, Empty());
    forall k ensures OccursFrom(names, 0, k) <==> k in names {
      OccursFromIn(names, 0, k);
    }
  }

  /** `Object.keys(badCNAMEs).length`, the count the robot logs, is the number of distinct names. */
  lemma PlaceholderCount(names: seq<string>)
    ensures |PlaceholdersFrom(names, 0, Empty()).Keys()| == |NameSet(names)|
  {
    var r := PlaceholdersFrom(names, 0, Empty());
    PlaceholderKeys(names);
    KeysAreTheDomain(r);
    assert |r.values| == |r.values.Keys|;
  }

  // ---------------------------------------------------------------
  // mainCleanupPull: the filter
  // ---------------------------------------------------------------

  /** The `for…in` loop that copies every key of `ks` from position `i` on that is not in `drop` from `all` into `acc`. */
  function KeptFrom(all: Registry, ks: seq<string>, i: nat, acc: Tests, drop: set<string>): Tests
    requires AllIn(ks, all)
    decreases |ks| - i
  {
    if |ks| <= i then acc
    else KeptFrom(all, ks, i + 1, if ks[i] in drop then acc else acc.Set(ks[i], all.values[ks[i]]), drop)
  }

  /**
   * The loop that fills `newCNAMEs`; `drop` is the keys of
   * `stillBadCNAMEs` in src/robot/prs.js and the names of the issue in
   * src/prs.js and prs.js.
   */
  method Without(all: Registry, drop: set<string>) returns (kept: Tests)
    requires all.Valid()
    ensures AllIn(all.Keys(), all)
    ensures kept == KeptFrom(all, all.Keys(), 0, Empty(), drop)
  {
    var ks := all.Keys();
    KeysAllIn(all);
    kept := Empty();
    var i := 0;
    while i < |ks|
      invariant i <= |ks|
      invariant KeptFrom(all, ks, i, kept, drop) == KeptFrom(all, ks, 0, Empty(), drop)
    {
      kept := KeepAt(all, ks, i, kept, drop);
      i := i + 1;
    }
  }

  /** One turn of the loop. */
  method KeepAt(all: Registry, ks: seq<string>, i: nat, kept: Tests, drop: set<string>) returns (r: Tests)
    requires AllIn(ks, all) && i < |ks|
    ensures KeptFrom(all, ks, i, kept, drop) == KeptFrom(all, ks, i + 1, r, drop)
  {
    var cname := ks[i];
    r := kept;
    if cname !in drop {
      r := r.Set(cname, all.values[cname]);
    }
  }

  /** From position `i` on, the loop adds exactly the keys not in `drop`, each with its entry in `all`. */
  lemma {:induction false} KeptContents(all: Registry, ks: seq<string>, i: nat, acc: Tests, drop: set<string>)
    requires AllIn(ks, all)
    ensures var r := KeptFrom(all, ks, i, acc, drop);
      && (forall k :: k in r.values <==> k in acc.values || (OccursFrom(ks, i, k) && k !in drop))
      && (forall k :: k in r.values ==>
            if OccursFrom(ks, i, k) && k !in drop then k in all.values && r.values[k] == all.values[k]
            else k in acc.values && r.values[k] == acc.values[k])
    decreases |ks| - i
  {
    if i < |ks| {
      KeptContents(all, ks, i + 1, if ks[i] in drop then acc else acc.Set(ks[i], all.values[ks[i]]), drop);
    }
  }

  /** `newCNAMEs` holds exactly the keys of `all` not in `drop`, each with its entry unchanged. */
  lemma WithoutContents(all: Registry, drop: set<string>)
    requires all.Valid()
    ensures AllIn(all.Keys(), all)
    ensures var kept := KeptFrom(all, all.Keys(), 0, Empty(), drop);
      && (forall k :: k in kept.values <==> k in all.values && k !in drop)
      && (forall k :: k in kept.values ==> k in all.values && kept.values[k] == all.values[k])
  {
    KeysAllIn(all);
    KeysOccur(all);
    KeptContents(all, all.Keys(), 0, Empty(), drop);
  }

  /** `Object.keys(all).length - Object.keys(newCNAMEs).length` counts the keys of `all` that were dropped. */
  lemma RemovedCount(all: Registry, kept: Registry, drop: set<string>)
    requires all.Valid() && kept.Valid()
    requires forall k :: k in kept.values <==> k in all.values && k !in drop
    ensures |all.Keys()| - |kept.Keys()| == |all.values.Keys * drop|
  {
    KeysAreTheDomain(all);
    KeysAreTheDomain(kept);
    assert kept.values.Keys == all.values.Keys - drop;
    SplitCount(all.values.Keys, drop);
  }

  /** A set is as large as its part outside `d` and its part inside `d` together. */
  lemma SplitCount(a: set<string>, d: set<string>)
    ensures |a| == |a - d| + |a * d|
  {
    assert (a - d) * (a * d) == {};
    assert a == (a - d) + (a * d);
  }

  // ---------------------------------------------------------------
  // mainCleanupPull
  // ---------------------------------------------------------------

  /**
   * How `mainCleanupPull` ends: with the cached pull request's link, by
   * returning early or throwing, or with a pull request carrying `newFile`.
   */
  datatype Cleanup = FromCache(url: string) | Abandoned | Proposed(newFile: Option<string>)

  /**
   * `mainCleanupPull` of src/robot/prs.js. `names` is what
   * `parseIssueEntries` returned, `validation` the cache of
   * `validateCNAMEs`, `restrict` the development flag and `net` the
   * network. A failed lock is only logged. The names still failing are
   * those whose probe result fails; every other key of the file is kept
   * unchanged, and `removed` is the reported count.
   */
  method MainCleanupPull(cached: Option<string>, file: string, names: seq<string>,
                         validation: Option<Registry>, restrict: bool, net: Network)
    returns (r: Cleanup, stillBad: Tests, kept: Tests, removed: int)
    ensures cached.Some? ==> r == FromCache(cached.value)
    ensures cached.None? && Parse.Parse(file).None? ==> r == Abandoned
    ensures cached.None? && Parse.Parse(file).Some? ==>
      var all := Parse.Parse(file).value.cnames;
      var bad := Restricted(PlaceholdersFrom(names, 0, Empty()), restrict);
      && stillBad.values.Keys == Failing(Robot, bad, validation, net)
      && (forall k :: k in kept.values <==> k in all.values && k !in stillBad.values)
      && (forall k :: k in kept.values ==> kept.values[k] == all.values[k])
      && removed == |all.values.Keys * stillBad.values.Keys|
      && r == (if Generate.GenerateText(kept, file).None? then Abandoned else Proposed(Generate.GenerateText(kept, file)))
  {
    stillBad, kept, removed := Empty(), Empty(), 0;
    if cached.Some? {
      return FromCache(cached.value), stillBad, kept, removed;
    }
    var allCNAMEs := Parse.ParseCNAMEsFile(file);
    if allCNAMEs.None? {
      return Abandoned, stillBad, kept, removed;
    }
    var all := allCNAMEs.value.cnames;
    var badCNAMEs := Placeholders(names);
    var passed, writes, failures;
    stillBad, passed, writes, failures := ValidateCNAMEs(Robot, badCNAMEs, validation, restrict, net);
    StillFailing(badCNAMEs, validation, restrict, net);
    kept := Without(all, stillBad.values.Keys);
    WithoutContents(all, stillBad.values.Keys);
    removed := |all.Keys()| - |kept.Keys()|;
    RemovedCount(all, kept, stillBad.values.Keys);
    var cnamesActive := Generate.GenerateCNAMEsFile(kept, file);
    if cnamesActive.None? {
      return Abandoned, stillBad, kept, removed;
    }
    r := Proposed(cnamesActive);
  }

  /** The failed part of validating `bad` holds exactly the keys whose probe result fails. */
  lemma StillFailing(bad: Registry, validation: Option<Registry>, restrict: bool, net: Network)
    requires bad.Valid()
    ensures var input := Restricted(bad, restrict);
      && AllIn(input.Keys(), input)
      && var run := Run(Robot, input, validation, net, input.Keys(), 0, Start());
      && AllIn(run.tests.Keys(), run.tests)
      && Split(run.tests, run.tests.Keys(), 0, Empty(), Empty()).0.values.Keys == Failing(Robot, input, validation, net)
  {
    FailedPartIsFailing(Robot, Restricted(bad, restrict), validation, net);
  }

  /**
   * `mainCleanupPull` of src/prs.js: a failed lock throws; the registry is
   * `getCNAMEs(file)` (or its cache), every key the issue still lists is
   * removed, and the pull request carries whatever `generateCNAMEsFile`
   * gives, `undefined` included.
   */
  method MainCleanupPullSrc(cached: Option<string>, locked: bool, cache: Option<Registry>, file: string, names: seq<string>)
    returns (r: Cleanup, kept: Tests)
    requires cache.Some? ==> cache.value.Valid()
    ensures cached.Some? ==> r == FromCache(cached.value)
    ensures cached.None? && !locked ==> r == Abandoned
    ensures cached.None? && locked ==>
      var all := if cache.Some? then cache.value else Legacy.Scan(file, Legacy.Marked, 0, Empty());
      && all.Valid()
      && (forall k :: k in kept.values <==> k in all.values && k !in names)
      && (forall k :: k in kept.values ==> kept.values[k] == all.values[k])
      && r == Proposed(Generate.GenerateText(Legacy.LowerKeys(kept), file))
  {
    kept := Empty();
    if cached.Some? {
      return FromCache(cached.value), kept;
    }
    if !locked {
      return Abandoned, kept;
    }
    var all := Legacy.GetCNAMEs(Legacy.Marked, cache, file);
    kept := Without(all, NameSet(names));
    WithoutContents(all, NameSet(names));
    var cnamesActive := Legacy.GenerateCNAMEsFile(kept, file);
    r := Proposed(cnamesActive);
  }

  /**
   * `mainCleanupPull` of the root prs.js up to the generation, as evidently
   * intended: as written its `getCNAMEsFile` and `parseIssueEntries` calls
   * name functions the root files do not export, so the file and the
   * issue's names are inputs here. There is no cache check and no lock; the
   * registry is the root `getCNAMEs(file)` (or its cache) and every key the
   * issue lists is removed.
   */
  method MainCleanupPullRoot(cache: Option<Registry>, file: string, names: seq<string>) returns (kept: Tests)
    requires cache.Some? ==> cache.value.Valid()
    ensures var all := if cache.Some? then cache.value else Legacy.Scan(file, Legacy.Raw, 0, Empty());
      && all.Valid()
      && (forall k :: k in kept.values <==> k in all.values && k !in names)
      && (forall k :: k in kept.values ==> kept.values[k] == all.values[k])
  {
    var all := Legacy.GetCNAMEs(Legacy.Raw, cache, file);
    kept := Without(all, NameSet(names));
    WithoutContents(all, NameSet(names));
  }
}
