/**
 * The regular expressions of src/util/cnames.js, each written out as a small
 * recogniser that follows the expression's own greedy and backtracking
 * choices, and the chain of rewrites applied to a matched key and target.
 */
module Grammar {
  import opened Wrappers
  import opened Text
  import opened Entries

  const VarDeclaration: string := "var cnames_active = {"

  /** `/^var cnames_active = {[ \t]*$/` */
  predicate IsVarLine(line: string) {
    StartsWith(line, VarDeclaration) && AllBlank(line[|VarDeclaration|..])
  }

  /** After a `*` `/` ending at `i`: `[ \t]*\n};?[ \t]*(\n|$)`. */
  predicate BraceFollows(t: string, i: nat)
    requires i <= |t|
  {
    var a := SkipBlanks(t, i);
    && a + 1 < |t| && t[a] == '\n' && t[a + 1] == '}'
    && var b := if a + 2 < |t| && t[a + 2] == ';' then a + 3 else a + 2;
       var c := SkipBlanks(t, b);
       c == |t| || t[c] == '\n'
  }

  predicate ClosesAt(t: string, k: int) {
    OccursAt(t, "*/", k) && BraceFollows(t, k + 2)
  }

  /** `/^[ \t]*\/\*[\S\s]+?\*\/[ \t]*\n};?[ \t]*(\n|$)/.test(t)` */
  predicate IsClosing(t: string) {
    var w := SkipBlanks(t, 0);
    OccursAt(t, "/*", w) && exists k | w + 3 <= k <= |t| :: ClosesAt(t, k)
  }

  /** `[a-z0-9-_.]` under the `i` flag. */
  predicate IsKeyChar(c: char) {
    ('a' <= c <= 'z') || IsUpper(c) || IsDigit(c) || c == '-' || c == '_' || c == '.'
  }

  function SkipKeyChars(s: string, i: nat): (j: nat)
    requires i <= |s|
    ensures i <= j <= |s|
    ensures forall k :: i <= k < j ==> IsKeyChar(s[k])
    ensures j < |s| ==> !IsKeyChar(s[j])
    decreases |s| - i
  {
    if i < |s| && IsKeyChar(s[i]) then SkipKeyChars(s, i + 1) else i
  }

  function SkipSpaces(s: string, i: nat): (j: nat)
    requires i <= |s|
    ensures i <= j <= |s|
    ensures forall k :: i <= k < j ==> s[k] == ' '
    ensures j < |s| ==> s[j] != ' '
    decreases |s| - i
  {
    if i < |s| && s[i] == ' ' then SkipSpaces(s, i + 1) else i
  }

  /** `\/\/ *nocf.*` (flag i) starting at `c` and reaching the end of `r`. */
  predicate MarkerAt(r: string, c: nat) {
    && OccursAt(r, "//", c)
    && var d := SkipSpaces(r, c + 2);
       d + 4 <= |r| && EqualsIgnoreCase(r[d..d + 4], "nocf") && NoLineTerminator(r[d + 4..])
  }

  /**
   * `[ \t]*,?[ \t]*(\/\/ *nocf.*)?[ \t]*$` (flag i) against all of `r`:
   * `None` when it does not match, otherwise the optional third group.
   */
  function MatchTail(r: string): (m: Option<Option<string>>)
    ensures m.Some? && m.value.Some? ==> StartsWith(m.value.value, "//")
  {
    var a := SkipBlanks(r, 0);
    var b := if a < |r| && r[a] == ',' then a + 1 else a;
    var c := SkipBlanks(r, b);
    if c == |r| then Some(None)
    else if MarkerAt(r, c) then Some(Some(r[c..]))
    else None
  }

  predicate ValueEndsAt(s: string, j: int) {
    0 <= j < |s| && IsQuote(s[j]) && MatchTail(s[j + 1..]).Some?
  }

  /** The largest `i` in `[lo, hi]` with `p(i)`: where a greedy group settles. */
  function LastWhere(p: int -> bool, lo: nat, hi: int): (r: Option<nat>)
    ensures r.Some? ==> lo <= r.value <= hi && p(r.value)
    decreases hi - lo + 1
  {
    if hi < lo then None
    else if p(hi) then Some(hi)
    else LastWhere(p, lo, hi - 1)
  }

  lemma {:induction false} LastWhereIsLast(p: int -> bool, lo: nat, hi: int)
    ensures LastWhere(p, lo, hi).Some? ==> forall i :: LastWhere(p, lo, hi).value < i <= hi ==> !p(i)
    ensures LastWhere(p, lo, hi).None? ==> forall i :: lo <= i <= hi ==> !p(i)
    decreases hi - lo + 1
  {
    if lo <= hi && !p(hi) {
      LastWhereIsLast(p, lo, hi - 1);
    }
  }

  /** The greedy `([^"]*)['"]`: the largest end in `[v0, j]` after which the tail matches. */
  function ValueEnd(s: string, v0: nat, j: int): (r: Option<nat>)
    ensures r.Some? ==> v0 <= r.value <= j && ValueEndsAt(s, r.value)
  {
    LastWhere(ValueEnder(s), v0, j)
  }

  function ValueEnder(s: string): int -> bool {
    j => ValueEndsAt(s, j)
  }

  /** No quote above the end that `ValueEnd` picks, and none at all when it picks none, is followed by a matching tail. */
  lemma ValueEndGreedy(s: string, v0: nat, j: int)
    ensures ValueEnd(s, v0, j).Some? ==> forall i :: ValueEnd(s, v0, j).value < i <= j ==> !ValueEndsAt(s, i)
    ensures ValueEnd(s, v0, j).None? ==> forall i :: v0 <= i <= j ==> !ValueEndsAt(s, i)
  {
    var p := ValueEnder(s);
    LastWhereIsLast(p, v0, j);
    forall i ensures p(i) == ValueEndsAt(s, i) {
    }
  }

  /** The three groups of one entry line. */
  datatype Fields = Fields(key: string, value: string, marker: Option<string>)

  /** Where the key starts and ends and where the value starts, when the line gets that far. */
  function EntryHead(s: string): (r: Option<(nat, nat, nat)>)
    ensures r.Some? ==> var (a, b, v0) := r.value; 0 < a <= b < v0 <= |s|
    ensures r.Some? ==> var (a, b, _) := r.value; forall i :: a <= i < b ==> IsKeyChar(s[i])
  {
    var a := SkipBlanks(s, 0);
    if a == |s| || !IsQuote(s[a]) then None
    else
      var b := SkipKeyChars(s, a + 1);
      if b == |s| || !IsQuote(s[b]) then None
      else
        var c := SkipBlanks(s, b + 1);
        if c == |s| || s[c] != ':' then None
        else
          var d := SkipBlanks(s, c + 1);
          if d == |s| || !IsQuote(s[d]) then None
          else Some((a + 1, b, d + 1))
  }

  /** The end of the value: searched from the first double quote, or from the last character. */
  function ValueLimit(s: string, v0: nat): (top: int)
    requires v0 <= |s|
    ensures top < |s|
    ensures forall i :: v0 <= i < top ==> s[i] != '"'
  {
    var limit := IndexFrom(s, '"', v0);
    if limit < |s| then limit else |s| - 1
  }

  /**
   * `/^[ \t]*['"]([a-z0-9-_.]*)['"][ \t]*:[ \t]*['"]([^"]*)['"][ \t]*,?[ \t]*(\/\/ *nocf.*)?[ \t]*$/i`
   */
  function MatchEntry(s: string): Option<Fields> {
    match EntryHead(s)
    case None => None
    case Some((a, b, v0)) =>
      match ValueEnd(s, v0, ValueLimit(s, v0))
      case None => None
      case Some(j) => Some(Fields(s[a..b], s[v0..j], TailMarker(s, j)))
  }

  /** The marker group of the tail after the value's closing quote at `j`. */
  function TailMarker(s: string, j: nat): Option<string>
    requires ValueEndsAt(s, j)
  {
    MatchTail(s[j + 1..]).value
  }

  lemma MatchedFields(s: string)
    requires MatchEntry(s).Some?
    ensures forall i :: 0 <= i < |MatchEntry(s).value.key| ==> IsKeyChar(MatchEntry(s).value.key[i])
    ensures '"' !in MatchEntry(s).value.value
  {
    var (a, b, v0) := EntryHead(s).value;
    var j := ValueEnd(s, v0, ValueLimit(s, v0)).value;
    assert MatchEntry(s).value.value == s[v0..j];
  }

  // ---------------------------------------------------------------
  // Normalisation of a matched key and target
  // ---------------------------------------------------------------

  /** Lower case, then `.replace(/\.js\.org$/, '')`. */
  function NormaliseKey(raw: string): (k: string)
    ensures forall i :: 0 <= i < |k| ==> !IsUpper(k[i])
  {
    var l := Lower(raw);
    if EndsWith(l, ".js.org") then l[..|l| - 7] else l
  }

  /** `.replace(/\/+$/, '')` */
  function DropTrailingSlashes(t: string): (r: string)
    ensures |r| <= |t| && r == t[..|r|]
    ensures |r| > 0 ==> r[|r| - 1] != '/'
  {
    if |t| > 0 && t[|t| - 1] == '/' then DropTrailingSlashes(t[..|t| - 1]) else t
  }

  /** `/^(?:https?:)?\/\/(.+)$/i`: the length of the prefix it strips, or 0. */
  function ProtocolLength(t: string): nat {
    if StartsWithIgnoreCase(t, "https://") then 8
    else if StartsWithIgnoreCase(t, "http://") then 7
    else if StartsWith(t, "//") then 2
    else 0
  }

  function DropProtocol(t: string): (r: string)
    ensures EndsWith(t, r)
  {
    var p := ProtocolLength(t);
    if 0 < p < |t| && NoLineTerminator(t[p..]) then t[p..] else t
  }

  /** `/^github\.com\/([^/]+)\/(.+)$/i` rewritten to `${1}.github.io/${2}`. */
  function GithubComToIo(t: string): string {
    if StartsWithIgnoreCase(t, "github.com/") then
      var o := IndexFrom(t, '/', 11);
      if 11 < o < |t| - 1 && NoLineTerminator(t[o + 1..]) then t[11..o] + ".github.io/" + t[o + 1..] else t
    else t
  }

  /** `/^[^.]+\.github\.io\/[^/]+$/i` */
  predicate IsGithubIoPath(t: string) {
    var d := IndexFrom(t, '.', 0);
    && 1 <= d && d + 11 < |t|
    && EqualsIgnoreCase(t[d..d + 11], ".github.io/")
    && '/' !in t[d + 11..]
  }

  /** Drops the path unless the target is a GitHub Pages project (`/^([^/]+)\/(.+)$/`). */
  function DropPath(t: string): string {
    var p := IndexFrom(t, '/', 0);
    if !IsGithubIoPath(t) && 1 <= p && p + 1 < |t| && NoLineTerminator(t[p + 1..]) then t[..p] else t
  }

  const VercelTarget: string := "cname.vercel-dns.com"

  function VercelUpstream(t: string): string {
    if EndsWith(t, ".vercel.app") then VercelTarget else t
  }

  /** `/^([^/]+)(.*)$/`, with the first group lowered. */
  function LowerHost(t: string): string {
    var h := IndexFrom(t, '/', 0);
    if 1 <= h && NoLineTerminator(t[h..]) then Lower(t[..h]) + t[h..] else t
  }

  function NormaliseTarget(raw: string): string {
    LowerHost(VercelUpstream(DropPath(GithubComToIo(DropProtocol(DropTrailingSlashes(raw))))))
  }

  /** `// noCF${m.slice(2).trim().slice(4)}` */
  function RenderMarker(m: string): (r: string)
    ensures StartsWith(r, ForcedMarker)
  {
    ForcedMarker + Slice(Trim(Slice(m, 2)), 4)
  }

  const ForcedMarker: string := "// noCF"

  /** `match[3] ? \`// noCF${…}\` : undefined` */
  function RenderedMarker(marker: Option<string>): (n: Option<string>)
    ensures Present(marker) ==> n == Some(RenderMarker(marker.value))
    ensures !Present(marker) ==> n == None
  {
    if Present(marker) then Some(RenderMarker(marker.value)) else None
  }

  /** The noCF tag of a parsed entry: forced for sub-sub-domains and Vercel deployments. */
  function NoCF(key: string, target: string, rendered: Option<string>): Option<string> {
    var n1 := if '.' in key && !Present(rendered) then Some(ForcedMarker) else rendered;
    if target == VercelTarget && !Present(n1) then Some(ForcedMarker) else n1
  }

  /** Sub-sub-domains and Vercel deployments are always marked; a present marker is kept; nothing else is added. */
  lemma NoCFForced(key: string, target: string, rendered: Option<string>)
    ensures ('.' in key || target == VercelTarget) ==> Present(NoCF(key, target, rendered))
    ensures Present(rendered) ==> NoCF(key, target, rendered) == rendered
    ensures '.' !in key && target != VercelTarget ==> NoCF(key, target, rendered) == rendered
  {
    assert |ForcedMarker| == 7;
  }

  lemma NocfEnds(tag: string)
    requires |tag| == 4 && EqualsIgnoreCase(tag, "nocf")
    ensures !IsWhitespace(tag[0]) && !IsWhitespace(tag[3])
  {
    assert Lower(tag)[0] == 'n' && Lower(tag)[3] == 'f';
  }

  /** A marker `//`, spaces, `nocf` in any case, then a comment is rendered as `// noCF` and the comment, trimmed at its end. */
  lemma RenderMarkerKeepsComment(spaces: string, tag: string, comment: string)
    requires forall i :: 0 <= i < |spaces| ==> spaces[i] == ' '
    requires |tag| == 4 && EqualsIgnoreCase(tag, "nocf")
    ensures RenderMarker("//" + spaces + tag + comment) == ForcedMarker + TrimEnd(comment)
  {
    var m := "//" + spaces + tag + comment;
    NocfEnds(tag);
    assert Slice(m, 2) == spaces + tag + comment;
    TrimPadded(spaces, tag, comment);
    assert Slice(tag + TrimEnd(comment), 4) == TrimEnd(comment);
  }

  /** A marker the generator wrote (`// noCF` and a comment with no trailing whitespace) is rendered unchanged. */
  lemma RenderMarkerCanonical(comment: string)
    requires TrimEnd(comment) == comment
    ensures RenderMarker(ForcedMarker + comment) == ForcedMarker + comment
  {
    assert ForcedMarker + comment == "//" + " " + "noCF" + comment;
    assert EqualsIgnoreCase("noCF", "nocf");
    RenderMarkerKeepsComment(" ", "noCF", comment);
  }

  // ---------------------------------------------------------------
  // What the target rewrites guarantee
  // ---------------------------------------------------------------

  predicate NoTrailingSlash(t: string) {
    |t| == 0 || t[|t| - 1] != '/'
  }

  /** The part before the first `/`. */
  function Host(t: string): string {
    t[..IndexFrom(t, '/', 0)]
  }

  /** A path survives only as the single segment of a GitHub Pages project, or after a leading `/`. */
  predicate PathOnlyForPages(t: string) {
    '/' !in t || t[0] == '/' || IsGithubIoPath(t)
  }

  lemma DropProtocolKeeps(t: string)
    requires NoLineTerminator(t) && NoTrailingSlash(t)
    ensures NoLineTerminator(DropProtocol(t)) && NoTrailingSlash(DropProtocol(t))
  {
  }

  lemma GithubComToIoKeeps(t: string)
    requires NoLineTerminator(t) && NoTrailingSlash(t)
    ensures NoLineTerminator(GithubComToIo(t)) && NoTrailingSlash(GithubComToIo(t))
  {
    var r := GithubComToIo(t);
    if r != t {
      var o := IndexFrom(t, '/', 11);
      assert r == t[11..o] + ".github.io/" + t[o + 1..];
      assert r[|r| - 1] == t[|t| - 1];
    }
  }

  lemma DropPathLeavesPages(t: string)
    requires NoLineTerminator(t) && NoTrailingSlash(t)
    ensures NoLineTerminator(DropPath(t)) && NoTrailingSlash(DropPath(t)) && PathOnlyForPages(DropPath(t))
  {
    var p := IndexFrom(t, '/', 0);
    var r := DropPath(t);
    if r != t {
      assert r == t[..p];
      assert '/' !in r;
    }
  }

  lemma LowerCharOnlyLetters(c: char)
    ensures !IsUpper(c) ==> LowerChar(c) == c
    ensures IsUpper(c) ==> 'a' <= LowerChar(c) <= 'z'
  {
  }

  lemma LowerCharSlash(c: char)
    ensures LowerChar(c) == '/' <==> c == '/'
    ensures LowerChar(c) == '.' <==> c == '.'
  {
  }

  lemma LowerHostKeeps(t: string)
    requires NoLineTerminator(t) && NoTrailingSlash(t) && PathOnlyForPages(t)
    ensures NoTrailingSlash(LowerHost(t)) && PathOnlyForPages(LowerHost(t))
    ensures forall i :: 0 <= i < |Host(LowerHost(t))| ==> !IsUpper(Host(LowerHost(t))[i])
  {
    var h := IndexFrom(t, '/', 0);
    var r := LowerHost(t);
    if 1 <= h {
      var host := Lower(t[..h]);
      assert r == host + t[h..];
      forall i | 0 <= i < h ensures r[i] != '/' {
        LowerCharSlash(t[i]);
      }
      assert IndexFrom(r, '/', 0) == h;
      assert Host(r) == host;
      if IsGithubIoPath(t) {
        LowerHostPages(t, h);
      }
      if h == |t| {
        assert r == host;
        if |r| > 0 { LowerCharSlash(t[|t| - 1]); }
      }
    } else {
      assert h == 0 && r == t;
      assert Host(r) == [];
    }
  }

  /** Two texts that agree up to case agree on where `c` (not a letter) first occurs. */
  lemma {:induction false} IndexFromFolded(r: string, t: string, c: char, i: nat)
    requires |r| == |t| && i <= |t| && !IsUpper(c) && !('a' <= c <= 'z')
    requires forall k :: 0 <= k < |t| ==> LowerChar(r[k]) == LowerChar(t[k])
    ensures IndexFrom(r, c, i) == IndexFrom(t, c, i)
    decreases |t| - i
  {
    if i < |t| {
      LowerCharOnlyLetters(r[i]);
      LowerCharOnlyLetters(t[i]);
      IndexFromFolded(r, t, c, i + 1);
    }
  }

  /** Being a GitHub Pages project does not depend on case. */
  lemma PagesFolded(r: string, t: string)
    requires |r| == |t|
    requires forall k :: 0 <= k < |t| ==> LowerChar(r[k]) == LowerChar(t[k])
    ensures IsGithubIoPath(r) == IsGithubIoPath(t)
  {
    IndexFromFolded(r, t, '.', 0);
    var d := IndexFrom(t, '.', 0);
    if 1 <= d && d + 11 < |t| {
      assert Lower(r[d..d + 11]) == Lower(t[d..d + 11]);
      assert '/' in r[d + 11..] <==> '/' in t[d + 11..] by {
        forall k | d + 11 <= k < |t| ensures r[k] == '/' <==> t[k] == '/' {
          assert LowerChar(r[k]) == LowerChar(t[k]);
        }
      }
    }
  }

  lemma LowerHostPages(t: string, h: nat)
    requires h <= |t|
    ensures IsGithubIoPath(Lower(t[..h]) + t[h..]) == IsGithubIoPath(t)
  {
    var r := Lower(t[..h]) + t[h..];
    forall k | 0 <= k < |t| ensures LowerChar(r[k]) == LowerChar(t[k]) {
      if k < h { assert r[k] == LowerChar(t[k]); } else { assert r[k] == t[k]; }
    }
    PagesFolded(r, t);
  }

  lemma VercelKeeps(t: string)
    requires NoLineTerminator(t) && NoTrailingSlash(t) && PathOnlyForPages(t)
    ensures NoLineTerminator(VercelUpstream(t)) && NoTrailingSlash(VercelUpstream(t)) && PathOnlyForPages(VercelUpstream(t))
  {
    if VercelUpstream(t) != t {
      assert '/' !in VercelTarget;
    }
  }

  /**
   * Every normalised target (of a line without line breaks) has no trailing
   * `/`, has a lower-case host, and keeps a path only when it is a GitHub
   * Pages project `<owner>.github.io/<repo>` (or starts with `/`).
   */
  lemma NormaliseTargetShape(raw: string)
    requires NoLineTerminator(raw)
    ensures NoTrailingSlash(NormaliseTarget(raw))
    ensures PathOnlyForPages(NormaliseTarget(raw))
    ensures forall i :: 0 <= i < |Host(NormaliseTarget(raw))| ==> !IsUpper(Host(NormaliseTarget(raw))[i])
  {
    var t0 := DropTrailingSlashes(raw);
    assert NoLineTerminator(t0);
    DropProtocolKeeps(t0);
    var t1 := DropProtocol(t0);
    GithubComToIoKeeps(t1);
    var t2 := GithubComToIo(t1);
    DropPathLeavesPages(t2);
    var t3 := DropPath(t2);
    VercelKeeps(t3);
    LowerHostKeeps(VercelUpstream(t3));
  }
}
