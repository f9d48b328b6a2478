/**
 * The anonymous redirect endpoint `GET /{code}`: the route constraint on the
 * code, the 404-or-302 decision, the single hit registration and the query
 * string carried over to the target.
 */
module Redirect {
  import opened Wrappers
  import opened Text
  import opened Model
  import opened LinkManager

  const MaxRouteCode: nat := 64

  predicate RouteChar(c: char) {
    IsAsciiLetter(c) || IsAsciiDigit(c) || c == '_' || c == '-'
  }

  /** `^[a-zA-Z0-9_-]{1,64}` matched against the whole of `s`. */
  predicate RouteBody(s: string) {
    1 <= |s| <= MaxRouteCode && forall i | 0 <= i < |s| :: RouteChar(s[i])
  }

  /**
   * The route's regular expression. A .NET `$` also matches just before a
   * final line feed, so one trailing `\n` is tolerated.
   */
  predicate RouteMatches(code: string) {
    || RouteBody(code)
    || (|code| >= 1 && code[|code| - 1] == '\n' && RouteBody(code[..|code| - 1]))
  }

  /** Scans the route value once, as the regex engine does. */
  method MatchRoute(code: string) returns (r: bool)
    ensures r <==> RouteMatches(code)
  {
    var n := |code|;
    if n > 0 && code[n - 1] == '\n' {
      n := n - 1;
    }
    if n < 1 || n > MaxRouteCode {
      return false;
    }
    var i := 0;
    while i < n
      invariant 0 <= i <= n
      invariant forall k | 0 <= k < i :: RouteChar(code[k])
    {
      if !RouteChar(code[i]) {
        assert !RouteBody(code[..n]);
        assert !RouteBody(code) by {
          if n < |code| {
            assert !RouteChar(code[n]);
          }
        }
        return false;
      }
      i := i + 1;
    }
    assert RouteBody(code[..n]);
    return true;
  }

  /** Every code the link service generates is reachable through the redirect route. */
  lemma GeneratedCodesAreRoutable(links: map<int, Link>, c: string)
    requires GeneratedCode(links, c)
    ensures RouteMatches(c)
  {
    assert RouteBody(c);
  }

  /** The route never admits a path separator, a query or white space. */
  lemma RouteRejectsSeparators(code: string, i: int)
    requires 0 <= i < |code|
    requires code[i] in {'/', '?', '#', '.', ' ', '%'}
    ensures !RouteMatches(code)
  {
    if |code| >= 1 && code[|code| - 1] == '\n' && i < |code| - 1 {
      assert code[..|code| - 1][i] == code[i];
    }
  }

  /**
   * `AppendQuery`: the target unchanged for a null, empty or bare "?" query;
   * otherwise the query joined with '&' (leading '?'s dropped) when the
   * target already has one, or appended verbatim when it has none.
   */
  function AppendQuery(targetUrl: string, incomingQuery: Option<string>): (r: string)
    ensures |targetUrl| <= |r| && r[..|targetUrl|] == targetUrl
    ensures NullOrEmpty(incomingQuery) || incomingQuery == Some("?") ==> r == targetUrl
    ensures !(NullOrEmpty(incomingQuery) || incomingQuery == Some("?")) && HasChar(targetUrl, '?') ==>
      && r[|targetUrl|..] != []
      && r[|targetUrl|] == '&'
      && StripsLeading(incomingQuery.value, '?', r[|targetUrl| + 1..])
    ensures !(NullOrEmpty(incomingQuery) || incomingQuery == Some("?")) && !HasChar(targetUrl, '?') ==>
      r[|targetUrl|..] == incomingQuery.value
  {
    if NullOrEmpty(incomingQuery) || incomingQuery == Some("?") then targetUrl
    else if HasChar(targetUrl, '?') then
      var r := targetUrl + "&" + TrimStartChar(incomingQuery.value, '?');
      assert r[|targetUrl| + 1..] == TrimStartChar(incomingQuery.value, '?');
      r
    else
      targetUrl + incomingQuery.value
  }

  /** Carrying a query over never drops a character of it other than the leading '?'s. */
  lemma AppendQueryKeepsQueryTail(targetUrl: string, q: string)
    requires q != "" && q != "?"
    ensures var r := AppendQuery(targetUrl, Some(q));
      var rest := TrimStartChar(q, '?');
      |rest| <= |r| && r[|r| - |rest|..] == rest
  {
    var r := AppendQuery(targetUrl, Some(q));
    var rest := TrimStartChar(q, '?');
    if HasChar(targetUrl, '?') {
      assert r == (targetUrl + "&") + rest;
    } else {
      assert r == targetUrl + q;
      assert q == q[..|q| - |rest|] + rest;
      assert r == (targetUrl + q[..|q| - |rest|]) + rest;
    }
  }

  /** The request facts the handler reads. */
  datatype Request = Request(
    scheme: string,
    host: string,
    referer: string,
    userAgent: string,
    remoteIp: Option<string>,
    queryString: Option<string>)

  /** The arguments of one `RegisterHitAndTouchAsync` call. */
  datatype HitRegistration = HitRegistration(
    linkId: int,
    referer: string,
    userAgent: string,
    remoteIp: Option<string>,
    isBot: bool,
    at: Time)

  /**
   * `302 Found` (section 15.4.3 of RFC 9110), `404 Not Found`, or an exception
   * that escapes the endpoint (left to the error-handling middleware).
   */
  datatype Response = NotFound | Found(location: string) | Fault(error: Exception)

  /** The response and the hit registrations one request attempts, in order. */
  datatype Handled = Handled(response: Response, registrations: seq<HitRegistration>)

  /**
   * The handler body. `resolve` stands for `ResolveForRedirectAsync(scheme,
   * host, code, now)`, `register` for the outcome of `RegisterHitAndTouchAsync`
   * with the given arguments, and `looksLikeBot` for `LooksLikeBot`; none of
   * them is part of this model. Nothing is caught: an exception of either
   * service call ends the request without a redirect.
   */
  function HandleRedirect(
    resolve: (string, string, string, Time) -> Call<Option<Link>>,
    register: HitRegistration -> Call<()>,
    looksLikeBot: string -> bool,
    req: Request, code: string, now: Time): (h: Handled)
    requires RouteMatches(code)
    ensures var found := resolve(req.scheme, req.host, code, now);
      && (found.Throws? ==> h == Handled(Fault(found.error), []))
      && (found == Returns(None) <==> h.response.NotFound?)
      && (found == Returns(None) ==> h.registrations == [])
    ensures h.response.Found? <==>
      && resolve(req.scheme, req.host, code, now).Returns?
      && resolve(req.scheme, req.host, code, now).value.Some?
      && |h.registrations| == 1
      && register(h.registrations[0]).Returns?
    ensures resolve(req.scheme, req.host, code, now).Returns? && resolve(req.scheme, req.host, code, now).value.Some? ==>
      var link := resolve(req.scheme, req.host, code, now).value.value;
      var hit := HitRegistration(link.id, req.referer, req.userAgent, req.remoteIp, looksLikeBot(req.userAgent), now);
      && h.registrations == [hit]
      && (register(hit).Throws? ==> h.response == Fault(register(hit).error))
      && (register(hit).Returns? ==> h.response == Found(AppendQuery(link.targetUrl, req.queryString)))
  {
    match resolve(req.scheme, req.host, code, now)
    case Throws(e) => Handled(Fault(e), [])
    case Returns(None) => Handled(NotFound, [])
    case Returns(Some(link)) =>
      var isBot := looksLikeBot(req.userAgent);
      var hit := HitRegistration(link.id, req.referer, req.userAgent, req.remoteIp, isBot, now);
      match register(hit)
      case Throws(e) => Handled(Fault(e), [hit])
      case Returns(_) => Handled(Found(AppendQuery(link.targetUrl, req.queryString)), [hit])
  }

  /**
   * Endpoint dispatch: `None` when the path segment does not satisfy the
   * route constraint, so the request falls through to the other endpoints.
   * A redirect is sent only after the link resolved and its hit was
   * registered, and it leads to the link's target.
   */
  function Dispatch(
    resolve: (string, string, string, Time) -> Call<Option<Link>>,
    register: HitRegistration -> Call<()>,
    looksLikeBot: string -> bool,
    req: Request, code: string, now: Time): (h: Option<Handled>)
    ensures h.Some? <==> RouteMatches(code)
    ensures h.Some? ==> h.value == HandleRedirect(resolve, register, looksLikeBot, req, code, now)
    ensures h.Some? ==> |h.value.registrations| <= 1
    ensures h.Some? ==> (h.value.response.NotFound? <==> resolve(req.scheme, req.host, code, now) == Returns(None))
    ensures h.Some? && h.value.response.Found? ==>
      && resolve(req.scheme, req.host, code, now).Returns?
      && resolve(req.scheme, req.host, code, now).value.Some?
      && |h.value.registrations| == 1
      && register(h.value.registrations[0]).Returns?
      && h.value.registrations[0].linkId == resolve(req.scheme, req.host, code, now).value.value.id
      && StartsWith(h.value.response.location, resolve(req.scheme, req.host, code, now).value.value.targetUrl)
      && h.value.response.location == AppendQuery(resolve(req.scheme, req.host, code, now).value.value.targetUrl, req.queryString)
    ensures h.Some? && h.value.response.Fault? ==>
      || resolve(req.scheme, req.host, code, now).Throws?
      || (|h.value.registrations| == 1 && register(h.value.registrations[0]).Throws?)
  {
    if RouteMatches(code) then Some(HandleRedirect(resolve, register, looksLikeBot, req, code, now)) else None
  }
}
