/**
 * The owner and repository that `attemptTargetIssues` (src/robot/issues.js
 * and issues.js) derives from an entry's target: one `exec` of
 * `/(\S+).github.io(?:\/(\S+))?/`, `owner = match[1]` and
 * `repo = match[2] || owner + ".github.io"`. Both dots of `.github.io` are
 * unescaped, so each matches any character but a line terminator. The
 * search is the regular expression's: the leftmost start, and from it the
 * longest `(\S+)` that `.github.io` can follow.
 */
module Github {
  import opened Wrappers
  import opened Text

  /** The end of the run of non-whitespace characters that starts at `i`. */
  function RunEnd(s: string, i: nat): (j: nat)
    requires i <= |s|
    ensures i <= j <= |s|
    ensures forall k :: i <= k < j ==> !IsWhitespace(s[k])
    ensures j < |s| ==> IsWhitespace(s[j])
    decreases |s| - i
  {
    if i < |s| && !IsWhitespace(s[i]) then RunEnd(s, i + 1) else i
  }

  /** `.github.io` at `q`: a character other than a line terminator, `github`, another such character, `io`. */
  predicate SuffixAt(s: string, q: nat) {
    && q + 10 <= |s|
    && !IsLineTerminator(s[q]) && s[q + 1..q + 7] == "github"
    && !IsLineTerminator(s[q + 7]) && s[q + 8..q + 10] == "io"
  }

  /** `(\S+)` can start at `p`, end at `q` and be followed by `.github.io`. */
  predicate OwnerSpan(s: string, p: nat, q: nat)
    requires p <= |s|
  {
    p < q <= RunEnd(s, p) && SuffixAt(s, q)
  }

  /** The longest `(\S+)` from `p` that ends at `q` or before and can be followed by `.github.io`. */
  function LastOwnerEnd(s: string, p: nat, q: nat): (r: Option<nat>)
    requires p <= |s| && q <= RunEnd(s, p)
    ensures r.Some? ==> r.value <= q && OwnerSpan(s, p, r.value)
    ensures r.Some? ==> forall q': nat :: r.value < q' <= q ==> !OwnerSpan(s, p, q')
    ensures r.None? ==> forall q': nat :: q' <= q ==> !OwnerSpan(s, p, q')
    decreases q
  {
    if q <= p then None
    else if SuffixAt(s, q) then Some(q)
    else LastOwnerEnd(s, p, q - 1)
  }

  /** The leftmost start at `p` or after from which the pattern matches, with the end of its owner. */
  function FirstOwnerStart(s: string, p: nat): (r: Option<(nat, nat)>)
    requires p <= |s|
    ensures r.Some? ==> p <= r.value.0 <= |s| && OwnerSpan(s, r.value.0, r.value.1)
    ensures r.Some? ==> forall q: nat :: r.value.1 < q ==> !OwnerSpan(s, r.value.0, q)
    ensures r.Some? ==> forall p': nat, q: nat :: p <= p' < r.value.0 ==> !OwnerSpan(s, p', q)
    ensures r.None? ==> forall p': nat, q: nat :: p <= p' <= |s| ==> !OwnerSpan(s, p', q)
    decreases |s| - p
  {
    if p == |s| then None
    else match LastOwnerEnd(s, p, RunEnd(s, p))
      case Some(q) => Some((p, q))
      case None => FirstOwnerStart(s, p + 1)
  }

  /** `(?:\/(\S+))?` at `e`: a slash and the longest non-empty run of non-whitespace after it, when there is one. */
  function PathAfter(s: string, e: nat): Option<string>
    requires e <= |s|
  {
    if e + 1 < |s| && s[e] == '/' && !IsWhitespace(s[e + 1]) then Some(s[e + 1..RunEnd(s, e + 1)]) else None
  }

  /** The groups of a match: `match[1]` and the optional `match[2]`. */
  datatype Groups = Groups(owner: string, path: Option<string>)

  /** `reg.exec(target)` */
  function Exec(s: string): Option<Groups> {
    match FirstOwnerStart(s, 0)
    case None => None
    case Some((p, q)) => Some(Groups(s[p..q], PathAfter(s, q + 10)))
  }

  datatype Repository = Repository(owner: string, repo: string)

  /** `owner` and `repo` of a GitHub Pages target, or `None` when it is not one. */
  function GithubRepository(target: string): Option<Repository> {
    match Exec(target)
    case None => None
    case Some(g) => Some(Repository(g.owner, if g.path.Some? then g.path.value else g.owner + ".github.io"))
  }

  /** A text that matches nowhere is not a GitHub Pages target, and one that matches somewhere is. */
  lemma ExecMatchesSomewhere(s: string)
    ensures Exec(s).None? <==> forall p: nat, q: nat :: p <= |s| ==> !OwnerSpan(s, p, q)
  {
  }

  /** `RunEnd` over a text with no whitespace from `i` on reaches its end. */
  lemma RunEndAll(s: string, i: nat)
    requires i <= |s|
    requires forall k :: i <= k < |s| ==> !IsWhitespace(s[k])
    ensures RunEnd(s, i) == |s|
  {
  }

  /** A target without `github` is not a GitHub Pages target. */
  lemma ExternalTarget(t: string)
    requires !Contains(t, "github")
    ensures GithubRepository(t).None?
  {
    forall q: nat | q + 10 <= |t| ensures !SuffixAt(t, q) {
      assert !OccursAt(t, "github", q + 1);
    }
  }

  /** Joining texts without whitespace gives a text without whitespace. */
  lemma NoWhitespaceAppend(a: string, b: string)
    requires NoWhitespace(a) && NoWhitespace(b)
    ensures NoWhitespace(a + b)
  {
    forall k | 0 <= k < |a + b| ensures !IsWhitespace((a + b)[k]) {
      if k >= |a| {
        assert (a + b)[k] == b[k - |a|];
      }
    }
  }

  /** The characters of `o + ".github.io" + rest` from `|o|` to `|o| + 10`. */
  lemma PagesSuffix(o: string, rest: string)
    ensures var s := o + ".github.io" + rest;
      && SuffixAt(s, |o|)
      && (forall k :: |o| <= k < |o| + 10 ==> !IsWhitespace(s[k]))
      && (forall k :: |o| + 2 <= k <= |o| + 9 ==> s[k] != 'g')
  {
    var s := o + ".github.io" + rest;
    assert s[|o|..|o| + 10] == ".github.io";
    assert s[|o| + 1..|o| + 7] == s[|o|..|o| + 10][1..7];
    assert s[|o| + 8..|o| + 10] == s[|o|..|o| + 10][8..10];
    forall k | |o| <= k < |o| + 10 ensures s[k] == ".github.io"[k - |o|] {
      assert s[k] == s[|o|..|o| + 10][k - |o|];
    }
  }

  /** `<owner>.github.io` names the owner's user site: owner `o` and repository `o.github.io`. */
  lemma GithubPagesRoot(o: string)
    requires o != [] && NoWhitespace(o)
    ensures GithubRepository(o + ".github.io") == Some(Repository(o, o + ".github.io"))
  {
    var s := o + ".github.io";
    PagesSuffix(o, "");
    assert s == o + ".github.io" + "";
    forall k | 0 <= k < |s| ensures !IsWhitespace(s[k]) {
      if k < |o| {
        assert s[k] == o[k];
      }
    }
    RunEndAll(s, 0);
    assert OwnerSpan(s, 0, |o|);
    var r := FirstOwnerStart(s, 0);
    assert r.Some? && r.value.0 == 0;
    assert r.value.1 == |o|;
    assert s[..|o|] == o;
  }

  /** No `.github.io` starts after the owner of `o + ".github.io/" + r` when `r` does not contain `github`. */
  lemma PagesPathOnlySuffix(o: string, r: string, q: nat)
    requires !Contains(r, "github")
    requires |o| < q
    ensures !SuffixAt(o + ".github.io/" + r, q)
  {
    var s := o + ".github.io/" + r;
    PagesSuffix(o, "/" + r);
    assert s == o + ".github.io" + ("/" + r);
    if q + 10 <= |s| {
      assert s[q + 1..q + 7][0] == s[q + 1];
      if q + 1 == |o| + 10 {
        assert s[|o| + 10] == '/';
      } else if q + 1 > |o| + 10 {
        var i := q + 1 - (|o| + 11);
        assert s[|o| + 11..] == r;
        assert r[i..i + 6] == s[q + 1..q + 7];
        assert !OccursAt(r, "github", i);
      }
    }
  }

  /** In `o + ".github.io/" + r`, the pattern starts at 0 and its owner is `o`. */
  lemma PagesPathOwner(o: string, r: string)
    requires o != [] && NoWhitespace(o) && NoWhitespace(r) && !Contains(r, "github")
    ensures var s := o + ".github.io/" + r;
      && RunEnd(s, 0) == |s|
      && FirstOwnerStart(s, 0) == Some((0, |o|))
  {
    var s := o + ".github.io/" + r;
    PagesSuffix(o, "/" + r);
    assert s == o + ".github.io" + ("/" + r);
    NoWhitespaceAppend(o, ".github.io/");
    NoWhitespaceAppend(o + ".github.io/", r);
    RunEndAll(s, 0);
    assert OwnerSpan(s, 0, |o|);
    forall q: nat | |o| < q ensures !OwnerSpan(s, 0, q) {
      PagesPathOnlySuffix(o, r, q);
    }
  }

  /** In `o + ".github.io/" + r`, the optional group holds `r`. */
  lemma PagesPathGroup(o: string, r: string)
    requires r != [] && NoWhitespace(r)
    ensures var s := o + ".github.io/" + r;
      PathAfter(s, |o| + 10) == Some(r)
  {
    var s := o + ".github.io/" + r;
    var t := o + ".github.io/";
    assert s == t + r;
    assert t[|o|..] == ".github.io/";
    assert t[|o| + 10] == t[|o|..][10] == '/';
    assert s[|o| + 10] == t[|o| + 10];
    assert s[|t|..] == r;
    assert s[|o| + 11] == r[0];
    forall k | |o| + 11 <= k < |s| ensures !IsWhitespace(s[k]) {
      assert s[k] == r[k - (|o| + 11)];
    }
    RunEndAll(s, |o| + 11);
    assert |o| + 11 < |s|;
    assert s[|o| + 10] == '/';
    assert !IsWhitespace(s[|o| + 11]);
    assert s[|o| + 11..RunEnd(s, |o| + 11)] == r;
  }

  /** `<owner>.github.io/<repo>` names the repository `repo` of `owner`, when `repo` does not contain `github`. */
  lemma GithubPagesPath(o: string, r: string)
    requires o != [] && NoWhitespace(o)
    requires r != [] && NoWhitespace(r) && !Contains(r, "github")
    ensures GithubRepository(o + ".github.io/" + r) == Some(Repository(o, r))
  {
    var s := o + ".github.io/" + r;
    PagesPathOwner(o, r);
    PagesPathGroup(o, r);
    assert s[..|o|] == o;
  }
}
