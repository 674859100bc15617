/**
 * `testUrl`: one request to a subdomain and the verdict on it. The response
 * (or the error the request ended with) is an input; the verdict is the
 * first failed check as a reason string, or `None` for success. The three
 * versions differ: src/cnames.js accepts a redirect only to an origin
 * ending in `.js.org`, src/robot/cnames.js also to `https://js.org`, and the
 * root cnames.js checks neither redirects nor an empty body.
 */
module Probe {
  import opened Wrappers
  import opened Text
  import opened JsObjects

  /** Which version of `testUrl`. */
  datatype Version = Current | Robot | Root

  /** A thrown error: its `name` and what `${err}` renders. */
  datatype RequestError = RequestError(name: string, shown: string)

  /** The parts of a `fetch` response that `testUrl` reads; `origin` is `new URL(url).origin`. */
  datatype Response = Response(status: nat, statusText: string, redirected: bool, url: string, origin: string, body: string)

  /** How a request ends. */
  datatype Outcome = Errored(error: RequestError) | Answered(response: Response)

  /** `resp.ok`: a status in the range 200 to 299 (section 2.2.3 of the WHATWG Fetch Standard). */
  predicate Ok(r: Response) {
    200 <= r.status <= 299
  }

  function DigitChar(n: nat): char
    requires n < 10
  {
    ('0' as int + n) as char
  }

  /** `${n}` for a non-negative integer. */
  function DecimalString(n: nat): (s: string)
    ensures |s| > 0 && forall i :: 0 <= i < |s| ==> IsDigit(s[i])
  {
    if n < 10 then [DigitChar(n)] else DecimalString(n / 10) + [DigitChar(n % 10)]
  }

  /** The digits read back give the number. */
  lemma {:induction false} DecimalStringValue(n: nat)
    ensures DecimalValue(DecimalString(n)) == n
  {
    if n >= 10 {
      DecimalStringValue(n / 10);
      var s, t := DecimalString(n), DecimalString(n / 10);
      assert s == t + [DigitChar(n % 10)];
      PrefixAgree(s, t, |t|);
      assert DigitValue(s[|t|]) == n % 10;
      assert DecimalValue(s) == DecimalPrefix(t, |t|) * 10 + n % 10;
    } else {
      var s := DecimalString(n);
      assert DigitValue(s[0]) == n;
      assert DecimalValue(s) == DecimalPrefix(s, 0) * 10 + DigitValue(s[0]);
    }
  }

  const TimeoutReason: string := "Failed due to time out after 5s"
  const RequestOpening: string := "Failed during request with error '"
  const StatusOpening: string := "Failed with status code '"
  const RedirectOpening: string := "Failed due to automatic redirect to '"
  const EmptyBodyOpening: string := "Failed with empty return body (status '"

  function RequestReason(e: RequestError): string {
    RequestOpening + (e.shown + "'")
  }

  function StatusReason(r: Response): string {
    StatusOpening + (DecimalString(r.status) + " " + r.statusText + "'")
  }

  function RedirectReason(r: Response): string {
    RedirectOpening + (r.url + "'")
  }

  function EmptyBodyReason(r: Response): string {
    EmptyBodyOpening + (DecimalString(r.status) + " " + r.statusText + "')")
  }

  /** Where a redirect may end. */
  predicate AllowedOrigin(v: Version, origin: string) {
    match v
    case Current => EndsWith(origin, ".js.org")
    case Robot => origin == "https://js.org" || EndsWith(origin, ".js.org")
    case Root => true
  }

  /** `text.toLowerCase().trim() === ""` */
  predicate EmptyBody(body: string) {
    Trim(Lower(body)) == ""
  }

  /** `testUrl(url)`, given how the request for `url` ended. */
  function TestUrl(v: Version, o: Outcome): (reason: Option<string>)
    ensures reason.Some? ==> |reason.value| > 0
  {
    match o
    case Errored(e) =>
      if v != Root && e.name == "AbortError" then Some(TimeoutReason) else Some(RequestReason(e))
    case Answered(r) =>
      if !Ok(r) then Some(StatusReason(r))
      else if v != Root && r.redirected && !AllowedOrigin(v, r.origin) then Some(RedirectReason(r))
      else if v != Root && EmptyBody(r.body) then Some(EmptyBodyReason(r))
      else None
  }

  // ---------------------------------------------------------------
  // What a verdict means
  // ---------------------------------------------------------------

  /** Everything a successful probe satisfies, with no order among the checks. */
  predicate Accepted(v: Version, o: Outcome) {
    && o.Answered?
    && Ok(o.response)
    && (v != Root ==> !o.response.redirected || AllowedOrigin(v, o.response.origin))
    && (v != Root ==> exists i :: 0 <= i < |o.response.body| && !IsWhitespace(o.response.body[i]))
  }

  /** The checks `testUrl` makes, in the order it makes them. */
  datatype Check = TimedOut | RequestFailed | BadStatus | ForeignRedirect | NoBody

  /** Recovers the check from a reason string by its fixed opening words. */
  function ReasonCheck(reason: string): Option<Check> {
    if StartsWith(reason, TimeoutReason) then Some(TimedOut)
    else if StartsWith(reason, RequestOpening) then Some(RequestFailed)
    else if StartsWith(reason, StatusOpening) then Some(BadStatus)
    else if StartsWith(reason, RedirectOpening) then Some(ForeignRedirect)
    else if StartsWith(reason, EmptyBodyOpening) then Some(NoBody)
    else None
  }

  /** The check that fails a probe, written as the conditions under which it is the first to fail. */
  predicate FailsFirst(v: Version, o: Outcome, c: Check) {
    match c
    case TimedOut => o.Errored? && v != Root && o.error.name == "AbortError"
    case RequestFailed => o.Errored? && (v == Root || o.error.name != "AbortError")
    case BadStatus => o.Answered? && !Ok(o.response)
    case ForeignRedirect =>
      o.Answered? && Ok(o.response) && v != Root && o.response.redirected && !AllowedOrigin(v, o.response.origin)
    case NoBody =>
      && o.Answered? && Ok(o.response) && v != Root
      && (!o.response.redirected || AllowedOrigin(v, o.response.origin))
      && EmptyBody(o.response.body)
  }

  lemma LowerKeepsWhitespace(s: string)
    ensures forall i :: 0 <= i < |s| ==> (IsWhitespace(Lower(s)[i]) <==> IsWhitespace(s[i]))
  {
  }

  lemma {:induction false} TrimEmpty(s: string)
    ensures Trim(s) == "" <==> forall i :: 0 <= i < |s| ==> IsWhitespace(s[i])
  {
    var e := TrimEnd(s);
    if |e| > 0 {
      assert e[|e| - 1] == s[|e| - 1];
      assert !IsWhitespace(TrimStart(e)[|TrimStart(e)| - 1]) by {
        assert TrimStart(e) == e[|e| - |TrimStart(e)|..];
      }
    } else {
      assert TrimStart(e) == "";
    }
  }

  /** An empty body is one made only of whitespace. */
  lemma EmptyBodyIsWhitespace(body: string)
    ensures EmptyBody(body) <==> forall i :: 0 <= i < |body| ==> IsWhitespace(body[i])
  {
    LowerKeepsWhitespace(body);
    TrimEmpty(Lower(body));
  }

  /** A probe passes exactly when every check holds. */
  lemma PassesIffAccepted(v: Version, o: Outcome)
    ensures TestUrl(v, o).None? <==> Accepted(v, o)
  {
    if o.Answered? {
      EmptyBodyIsWhitespace(o.response.body);
    }
  }

  lemma {:induction false} OpensWith(p: string, x: string)
    ensures StartsWith(p + x, p)
  {
    assert (p + x)[..|p|] == p;
  }

  /** A string that opens with `p` does not open with a `q` that differs from `p` at `i`. */
  lemma {:induction false} DoesNotOpenWith(p: string, x: string, q: string, i: nat)
    requires i < |p| && i < |q| && p[i] != q[i]
    ensures !StartsWith(p + x, q)
  {
    assert (p + x)[i] == p[i];
  }

  lemma TimeoutReasonCheck()
    ensures ReasonCheck(TimeoutReason) == Some(TimedOut)
  {
    assert TimeoutReason[..|TimeoutReason|] == TimeoutReason;
  }

  lemma RequestReasonCheck(e: RequestError)
    ensures ReasonCheck(RequestReason(e)) == Some(RequestFailed)
  {
    var p := RequestOpening;
    OpensWith(p, e.shown + "'");
    DoesNotOpenWith(p, e.shown + "'", TimeoutReason, 9);
  }

  lemma StatusReasonCheck(r: Response)
    ensures ReasonCheck(StatusReason(r)) == Some(BadStatus)
  {
    var p, x := StatusOpening, DecimalString(r.status) + " " + r.statusText + "'";
    OpensWith(p, x);
    DoesNotOpenWith(p, x, TimeoutReason, 7);
    DoesNotOpenWith(p, x, RequestOpening, 7);
  }

  lemma RedirectReasonCheck(r: Response)
    ensures ReasonCheck(RedirectReason(r)) == Some(ForeignRedirect)
  {
    var p, x := RedirectOpening, r.url + "'";
    DoesNotOpenWith(p, x, StatusOpening, 7);
    DoesNotOpenWith(p, x, RequestOpening, 9);
    DoesNotOpenWith(p, x, TimeoutReason, 14);
    OpensWith(p, x);
  }

  lemma EmptyBodyReasonCheck(r: Response)
    ensures ReasonCheck(EmptyBodyReason(r)) == Some(NoBody)
  {
    var p, x := EmptyBodyOpening, DecimalString(r.status) + " " + r.statusText + "')";
    OpensWith(p, x);
    DoesNotOpenWith(p, x, TimeoutReason, 7);
    DoesNotOpenWith(p, x, RequestOpening, 7);
    DoesNotOpenWith(p, x, StatusOpening, 12);
    DoesNotOpenWith(p, x, RedirectOpening, 7);
  }

  /** A failed probe's reason names the first check that failed; every earlier check passed. */
  lemma ReasonNamesFirstFailure(v: Version, o: Outcome)
    requires TestUrl(v, o).Some?
    ensures ReasonCheck(TestUrl(v, o).value).Some?
    ensures FailsFirst(v, o, ReasonCheck(TestUrl(v, o).value).value)
  {
    match o
    case Errored(e) =>
      if v != Root && e.name == "AbortError" {
        TimeoutReasonCheck();
      } else {
        RequestReasonCheck(e);
      }
    case Answered(r) =>
      if !Ok(r) {
        StatusReasonCheck(r);
      } else if v != Root && r.redirected && !AllowedOrigin(v, r.origin) {
        RedirectReasonCheck(r);
      } else {
        EmptyBodyReasonCheck(r);
      }
  }

  /** The current version is the strictest and the root one the most lenient: what one version passes, the next passes too. */
  lemma StrictnessOrder(o: Outcome)
    ensures TestUrl(Current, o).None? ==> TestUrl(Robot, o).None?
    ensures TestUrl(Robot, o).None? ==> TestUrl(Root, o).None?
  {
  }

  /** A successful response that redirected to the apex `https://js.org` fails the current version and passes the robot. */
  lemma ApexRedirect(r: Response)
    requires Ok(r) && r.redirected && r.origin == "https://js.org"
    requires exists i :: 0 <= i < |r.body| && !IsWhitespace(r.body[i])
    ensures TestUrl(Current, Answered(r)) == Some(RedirectReason(r))
    ensures TestUrl(Robot, Answered(r)).None?
  {
    assert !EndsWith("https://js.org", ".js.org") by {
      assert "https://js.org"[7] == '/';
    }
    EmptyBodyIsWhitespace(r.body);
  }

  /** The root version never reports a redirect or an empty body: `!resp.text()` tests a promise, which is always truthy. */
  lemma RootIgnoresBody(r: Response)
    ensures TestUrl(Root, Answered(r)) == if Ok(r) then None else Some(StatusReason(r))
  {
  }

  // ---------------------------------------------------------------
  // The URLs probed
  // ---------------------------------------------------------------

  /** `cname + (cname === '' ? '' : '.')` */
  function Subdomain(cname: string): string {
    cname + (if cname == "" then "" else ".")
  }

  /** `http://${subdomain}js.org` or `https://${subdomain}js.org` */
  function ProbeUrl(secure: bool, cname: string): (url: string)
    ensures cname != "" ==> url == (if secure then "https://" else "http://") + cname + ".js.org"
    ensures cname == "" ==> url == (if secure then "https://js.org" else "http://js.org")
  {
    (if secure then "https://" else "http://") + Subdomain(cname) + "js.org"
  }

  /** Different subdomains are probed at different URLs: the apex gets no leading dot. */
  lemma ProbeUrlInjective(secure: bool, a: string, b: string)
    requires ProbeUrl(secure, a) == ProbeUrl(secure, b)
    ensures a == b
  {
    var p := if secure then "https://" else "http://";
    var u := ProbeUrl(secure, a);
    assert u == p + Subdomain(a) + "js.org" == p + Subdomain(b) + "js.org";
    assert Subdomain(a) == u[|p|..|u| - 6];
    assert Subdomain(b) == u[|p|..|u| - 6];
    if a != "" && b != "" {
      assert a == Subdomain(a)[..|a|];
      assert b == Subdomain(b)[..|b|];
    }
  }
}
