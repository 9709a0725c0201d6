/** The redirect and retry loop of session/session.go: the log of its transport calls obeys a
    policy for neighbouring calls, from which the promises about whole chains follow. */
module Redirects {

  import opened Numbers
  import opened Sequences
  import opened Text
  import opened Wrappers

  type Headers = map<string, seq<string>>

  /** A URL by its origin and the rest; an empty scheme marks one that cannot be parsed. */
  datatype Url = Url(scheme: string, host: string, port: string, rest: string)

  datatype Request = Request(method_: string, url: Url, headers: Headers, body: string)

  /** `location` is the Location header resolved against the request's URL. */
  datatype Response = Response(status: int, location: Option<Url>)

  datatype Config = Config(withoutCookieJar: bool, retryEnabled: bool, configuredRetries: int,
                           configuredStatuses: seq<int>, followRedirects: bool, configuredRedirects: int)

  function MaxRetries(cfg: Config): nat {
    if cfg.retryEnabled && cfg.configuredRetries > 0 then cfg.configuredRetries else 0
  }

  function MaxRedirects(cfg: Config): nat {
    if cfg.configuredRedirects > 0 then cfg.configuredRedirects else 10
  }

  function RetryStatuses(cfg: Config): seq<int> {
    if cfg.configuredStatuses != [] then cfg.configuredStatuses else [429, 500, 502, 503, 504]
  }

  // ----- What the outside does -----

  datatype Outcome = Failed | Replied(resp: Response)

  /** One transport call: the cookie header the jar builds for it, the client hints in force,
      what comes back, and whether the context is cancelled in the wait that may follow. */
  datatype Attempt = Attempt(jarCookie: string, hints: Headers, outcome: Outcome, cancelled: bool)

  /** What one hop meets: the session's state, its cached validators, and its attempts. */
  datatype Hop = Hop(active: bool, refreshed: bool, etag: string, lastModified: string, attempts: seq<Attempt>)

  function AttemptAt(hop: Hop, i: nat): Attempt {
    if i < |hop.attempts| then hop.attempts[i] else Attempt("", map[], Failed, false)
  }

  // ----- Headers the session itself sets -----

  const HINT_HEADERS: set<string> :=
    {"Sec-Ch-Ua-Arch", "Sec-Ch-Ua-Bitness", "Sec-Ch-Ua-Full-Version-List", "Sec-Ch-Ua-Model",
     "Sec-Ch-Ua-Platform-Version", "Sec-Ch-Ua-Wow64"}

  const VALIDATOR_HEADERS: set<string> := {"cache-control", "If-None-Match", "If-Modified-Since"}

  predicate SetBySession(k: string) {
    k in HINT_HEADERS || k in VALIDATOR_HEADERS || k == "Cookie"
  }

  function Prepare(hop: Hop, h: Headers): Headers {
    var h1 := if hop.refreshed then h["cache-control" := ["max-age=0"]] else h;
    var h2 := if hop.etag != "" then h1["If-None-Match" := [hop.etag]] else h1;
    if hop.lastModified != "" then h2["If-Modified-Since" := [hop.lastModified]] else h2
  }

  function OwnCookie(h: Headers): string {
    if "Cookie" in h && h["Cookie"] != [] then h["Cookie"][0] else ""
  }

  function WithCookie(cfg: Config, h: Headers, own: string, jarCookie: string): Headers {
    if cfg.withoutCookieJar || (jarCookie == "" && own == "") then h
    else h["Cookie" := [if jarCookie == "" then own else if own == "" then jarCookie else own + "; " + jarCookie]]
  }

  function WithHints(h: Headers, hints: Headers): Headers {
    h + map k | k in hints && k in HINT_HEADERS :: hints[k]
  }

  // ----- Redirects -----

  predicate IsRedirectStatus(code: int) {
    code == 301 || code == 302 || code == 303 || code == 307 || code == 308
  }

  predicate SameOrigin(a: Url, b: Url) {
    a.scheme != "" && b.scheme != "" && a.scheme == b.scheme && a.host == b.host && a.port == b.port
  }

  predicate IsDowngrade(from: Url, to: Url) {
    from.scheme == "https" && to.scheme == "http"
  }

  function NewMethod(m: string, status: int): string {
    if status == 303 || ((status == 301 || status == 302) && m == "POST") then "GET" else m
  }

  predicate IsAuth(k: string) {
    ToLower(k) == "authorization" || ToLower(k) == "proxy-authorization"
  }

  predicate Dropped(k: string, methodChanged: bool, from: Url, to: Url) {
    || (methodChanged && k in {"Content-Type", "Content-Length", "content-type", "content-length"})
    || k == "Cookie" || k == "cookie"
    || (IsDowngrade(from, to) && ToLower(k) == "referer")
    || ((!SameOrigin(from, to) || IsDowngrade(from, to)) && IsAuth(k))
  }

  function Carried(h: Headers, methodChanged: bool, from: Url, to: Url): Headers {
    map k | k in h && !Dropped(k, methodChanged, from, to) :: h[k]
  }

  function NextRequest(req: Request, status: int, to: Url): Request {
    var m := NewMethod(req.method_, status);
    Request(m, to, Carried(req.headers, m != req.method_, req.url, to), if status == 307 || status == 308 then req.body else "")
  }

  // ----- The loop -----

  datatype Call = Call(hop: nat, attempt: nat, request: Request, jarCookie: string, outcome: Outcome)

  datatype Redirect = Redirect(status: int, url: Url)

  datatype Result = Closed | TransportError | Cancelled | TooManyRedirects | Done(resp: Response, history: seq<Redirect>)

  datatype Tried = Tried(calls: seq<Call>, headers: Headers, cancelled: bool, outcome: Outcome)

  predicate ShouldRetry(cfg: Config, outcome: Outcome) {
    outcome.Failed? || outcome.resp.status in RetryStatuses(cfg)
  }

  function Send(cfg: Config, hop: Hop, own: string, h: Headers, attempt: nat): Headers {
    var a := AttemptAt(hop, attempt);
    WithHints(WithCookie(cfg, h, own, a.jarCookie), a.hints)
  }

  /** The attempts of one hop from `attempt` on. */
  function Try(cfg: Config, n: nat, hop: Hop, req: Request, own: string, attempt: nat): Tried
    requires attempt <= MaxRetries(cfg)
    decreases MaxRetries(cfg) - attempt
  {
    var a := AttemptAt(hop, attempt);
    var sent := req.(headers := Send(cfg, hop, own, req.headers, attempt));
    var call := Call(n, attempt, sent, a.jarCookie, a.outcome);
    if !ShouldRetry(cfg, a.outcome) || attempt >= MaxRetries(cfg) then Tried([call], sent.headers, false, a.outcome)
    else if a.cancelled then Tried([call], sent.headers, true, a.outcome)
    else
      var rest := Try(cfg, n, hop, sent, own, attempt + 1);
      rest.(calls := [call] + rest.calls)
  }

  function TryHop(cfg: Config, n: nat, hop: Hop, req: Request): Tried {
    var prepared := Prepare(hop, req.headers);
    Try(cfg, n, hop, req.(headers := prepared), OwnCookie(prepared), 0)
  }

  /** What hop `n` ends the chain with, or nothing when there is a redirect to follow. */
  function EndOf(cfg: Config, n: nat, history: seq<Redirect>, t: Tried): (end: Option<Result>)
    ensures end.None? ==> t.outcome.Replied? && t.outcome.resp.location.Some? && n < MaxRedirects(cfg)
  {
    if t.cancelled then Some(Cancelled)
    else if t.outcome.Failed? then Some(TransportError)
    else
      var resp := t.outcome.resp;
      if !IsRedirectStatus(resp.status) || !cfg.followRedirects then Some(Done(resp, history))
      else if n >= MaxRedirects(cfg) then Some(TooManyRedirects)
      else if resp.location.None? then Some(Done(resp, history))
      else None
  }

  /** The whole chain from the `n`-th hop on; a script that runs out stands for a closed session. */
  function Chain(cfg: Config, script: seq<Hop>, req: Request, n: nat, history: seq<Redirect>): (seq<Call>, Result)
    requires n <= MaxRedirects(cfg)
    decreases MaxRedirects(cfg) - n
  {
    if script == [] || !script[0].active then ([], Closed) else
      var t := TryHop(cfg, n, script[0], req);
      var end := EndOf(cfg, n, history, t);
      if end.Some? then (t.calls, end.value) else
        var resp := t.outcome.resp;
        var next := NextRequest(req.(headers := t.headers), resp.status, resp.location.value);
        var rest := Chain(cfg, script[1..], next, n + 1, history + [Redirect(resp.status, req.url)]);
        (t.calls + rest.0, rest.1)
  }

  // ----- The policy for neighbouring calls -----

  // It is written out in statuses, methods and header names, without the functions of the loop.

  /** Outside the headers that the session sets itself, `b` has exactly those of `a` that `keep` admits. */
  ghost predicate CarriesOver(a: Headers, b: Headers, keep: string -> bool) {
    forall k :: !SetBySession(k) ==>
      && (k in b <==> k in a && keep(k))
      && (k in b ==> b[k] == a[k])
  }

  const REDIRECTS: set<int> := {301, 302, 303, 307, 308}

  /** The outcome asks for another attempt. */
  predicate AsksRetry(cfg: Config, outcome: Outcome) {
    outcome.Failed?
    || outcome.resp.status in (if cfg.configuredStatuses != [] then cfg.configuredStatuses else [429, 500, 502, 503, 504])
  }

  predicate LastAttempt(cfg: Config, attempt: nat) {
    attempt == if cfg.retryEnabled && cfg.configuredRetries > 0 then cfg.configuredRetries else 0
  }

  predicate LastHop(cfg: Config, hop: nat) {
    hop == if cfg.configuredRedirects > 0 then cfg.configuredRedirects else 10
  }

  /** From `a` to `b` the request leaves the origin; URLs that cannot be parsed count as foreign. */
  predicate Leaves(a: Url, b: Url) {
    a.scheme == "" || b.scheme == "" || (a.scheme, a.host, a.port) != (b.scheme, b.host, b.port)
  }

  predicate ToPlain(a: Url, b: Url) {
    a.scheme == "https" && b.scheme == "http"
  }

  /** The headers that a redirect carries over. */
  predicate MayCarry(k: string, a: Request, b: Request) {
    && (k in {"Content-Type", "content-type", "Content-Length", "content-length"} ==> a.method_ == b.method_)
    && k !in {"Cookie", "cookie"}
    && (ToLower(k) == "referer" ==> !ToPlain(a.url, b.url))
    && (ToLower(k) in {"authorization", "proxy-authorization"} ==> !Leaves(a.url, b.url) && !ToPlain(a.url, b.url))
  }

  /** The method after a redirect: GET after 303, and after 301 or 302 to a POST; else the same. */
  predicate MethodFollows(before: string, status: int, after: string) {
    if status == 303 || (status in {301, 302} && before == "POST") then after == "GET" else after == before
  }

  /** A second attempt at the same request, because the first asked for one. */
  ghost predicate RetryStep(cfg: Config, a: Call, b: Call) {
    && b.hop == a.hop && b.attempt == a.attempt + 1 <= MaxRetries(cfg)
    && AsksRetry(cfg, a.outcome) && !LastAttempt(cfg, a.attempt)
    && b.request.method_ == a.request.method_ && b.request.url == a.request.url && b.request.body == a.request.body
    && CarriesOver(a.request.headers, b.request.headers, _ => true)
  }

  /** The first attempt at the location of a redirect that needed no further attempt. */
  ghost predicate RedirectStep(cfg: Config, a: Call, b: Call) {
    && b.hop == a.hop + 1 <= MaxRedirects(cfg) && b.attempt == 0 && cfg.followRedirects && !LastHop(cfg, a.hop)
    && a.outcome.Replied? && a.outcome.resp.status in REDIRECTS
    && (AsksRetry(cfg, a.outcome) ==> LastAttempt(cfg, a.attempt))
    && a.outcome.resp.location == Some(b.request.url)
    && MethodFollows(a.request.method_, a.outcome.resp.status, b.request.method_)
    && b.request.body == (if a.outcome.resp.status in {307, 308} then a.request.body else "")
    && CarriesOver(a.request.headers, b.request.headers, k => MayCarry(k, a.request, b.request))
    && ("Cookie" in b.request.headers <==> !cfg.withoutCookieJar && b.jarCookie != "")
    && ("Cookie" in b.request.headers ==> b.request.headers["Cookie"] == [b.jarCookie])
  }

  ghost predicate Obeys(cfg: Config, calls: seq<Call>) {
    && (forall i :: 0 <= i < |calls| ==> calls[i].attempt <= MaxRetries(cfg) && calls[i].hop <= MaxRedirects(cfg))
    && (forall i {:trigger calls[i]} :: 0 <= i < |calls| - 1 ==>
          RetryStep(cfg, calls[i], calls[i + 1]) || RedirectStep(cfg, calls[i], calls[i + 1]))
  }

  function FirstRedirect(a: Call, b: Call): seq<Redirect> {
    if b.hop != a.hop && a.outcome.Replied? then [Redirect(a.outcome.resp.status, a.request.url)] else []
  }

  /** The redirects that a log shows, hop by hop. */
  function RedirectsOf(calls: seq<Call>): seq<Redirect> {
    if |calls| <= 1 then [] else
      FirstRedirect(calls[0], calls[1]) + RedirectsOf(calls[1..])
  }

  /** A redirect that is to be followed. */
  predicate ToFollow(cfg: Config, outcome: Outcome) {
    outcome.Replied? && outcome.resp.status in REDIRECTS && cfg.followRedirects && outcome.resp.location.Some?
  }

  /** How the last call of a chain explains its result. */
  predicate Explains(cfg: Config, last: Call, result: Result) {
    && (!result.Cancelled? && AsksRetry(cfg, last.outcome) ==> LastAttempt(cfg, last.attempt))
    && match result
       case Closed => ToFollow(cfg, last.outcome) && !LastHop(cfg, last.hop)
       case TransportError => last.outcome.Failed?
       case Cancelled => AsksRetry(cfg, last.outcome) && !LastAttempt(cfg, last.attempt)
       case TooManyRedirects =>
         last.outcome.Replied? && last.outcome.resp.status in REDIRECTS && cfg.followRedirects && LastHop(cfg, last.hop)
       case Done(resp, _) =>
         && last.outcome == Replied(resp) && !ToFollow(cfg, last.outcome)
         && (resp.status in REDIRECTS && cfg.followRedirects ==> !LastHop(cfg, last.hop))
  }

  // ----- The loop obeys the policy -----

  /** The loop's own tests are those of the policy. */
  lemma TestsAreThePolicy(cfg: Config, attempt: nat, hop: nat, outcome: Outcome, status: int)
    ensures ShouldRetry(cfg, outcome) == AsksRetry(cfg, outcome)
    ensures LastAttempt(cfg, attempt) <==> attempt == MaxRetries(cfg)
    ensures LastHop(cfg, hop) <==> hop == MaxRedirects(cfg)
    ensures IsRedirectStatus(status) <==> status in REDIRECTS
  {}

  lemma SendCarries(cfg: Config, hop: Hop, own: string, h: Headers, attempt: nat)
    ensures CarriesOver(h, Send(cfg, hop, own, h, attempt), _ => true)
  {}

  function Last(calls: seq<Call>): Call
    requires calls != []
  {
    calls[|calls| - 1]
  }

  /** The attempts of hop `n`: they obey the policy, start and end where the loop does, and
      contain no redirect. */
  ghost predicate HopLog(cfg: Config, n: nat, req: Request, t: Tried) {
    && t.calls != [] && Obeys(cfg, t.calls) && RedirectsOf(t.calls) == []
    && Last(t.calls).hop == n && Last(t.calls).outcome == t.outcome
    && Last(t.calls).request == req.(headers := t.headers)
    && (AsksRetry(cfg, t.outcome) ==> t.cancelled != LastAttempt(cfg, Last(t.calls).attempt))
    && (t.cancelled ==> AsksRetry(cfg, t.outcome))
  }

  lemma {:induction false} TryObeys(cfg: Config, n: nat, hop: Hop, req: Request, own: string, attempt: nat)
    requires attempt <= MaxRetries(cfg) && n <= MaxRedirects(cfg)
    ensures HopLog(cfg, n, req, Try(cfg, n, hop, req, own, attempt))
    ensures var first := Try(cfg, n, hop, req, own, attempt).calls[0];
            first == Call(n, attempt, req.(headers := Send(cfg, hop, own, req.headers, attempt)),
                          AttemptAt(hop, attempt).jarCookie, AttemptAt(hop, attempt).outcome)
    decreases MaxRetries(cfg) - attempt
  {
    hide ShouldRetry, Send, AttemptAt, Obeys, RedirectsOf, MaxRetries, MaxRedirects, CarriesOver, RedirectStep;
    var a := AttemptAt(hop, attempt);
    var sent := req.(headers := Send(cfg, hop, own, req.headers, attempt));
    var call := Call(n, attempt, sent, a.jarCookie, a.outcome);
    OneCallObeys(cfg, call);
    TestsAreThePolicy(cfg, attempt, n, a.outcome, 0);
    hide AsksRetry, LastAttempt, LastHop;
    if ShouldRetry(cfg, a.outcome) && attempt < MaxRetries(cfg) && !a.cancelled {
      TryObeys(cfg, n, hop, sent, own, attempt + 1);
      var rest := Try(cfg, n, hop, sent, own, attempt + 1);
      SendCarries(cfg, hop, own, sent.headers, attempt + 1);
      hide Try;
      ConsObeys(cfg, call, rest.calls);
    }
  }

  lemma OneCallObeys(cfg: Config, call: Call)
    requires call.attempt <= MaxRetries(cfg) && call.hop <= MaxRedirects(cfg)
    ensures Obeys(cfg, [call]) && RedirectsOf([call]) == []
  {}

  lemma ConsObeys(cfg: Config, call: Call, rest: seq<Call>)
    requires rest != [] && Obeys(cfg, rest) && call.hop == rest[0].hop
    requires call.attempt <= MaxRetries(cfg) && call.hop <= MaxRedirects(cfg) && RetryStep(cfg, call, rest[0])
    ensures Obeys(cfg, [call] + rest) && RedirectsOf([call] + rest) == RedirectsOf(rest)
  {
    hide RetryStep, RedirectStep, RedirectsOf;
    var calls := [call] + rest;
    assert calls[1..] == rest;
    RedirectsCons(calls);
    assert [] + RedirectsOf(rest) == RedirectsOf(rest);
    forall i | 0 <= i < |calls| - 1
      ensures RetryStep(cfg, calls[i], calls[i + 1]) || RedirectStep(cfg, calls[i], calls[i + 1])
    {
      if i > 0 { assert calls[i] == rest[i - 1] && calls[i + 1] == rest[i]; }
    }
  }

  lemma {:induction false} JoinObeys(cfg: Config, a: seq<Call>, b: seq<Call>)
    requires a != [] && b != [] && Obeys(cfg, a) && Obeys(cfg, b) && RedirectStep(cfg, Last(a), b[0])
    ensures Obeys(cfg, a + b)
    ensures RedirectsOf(a + b)
         == RedirectsOf(a) + [Redirect(Last(a).outcome.resp.status, Last(a).request.url)] + RedirectsOf(b)
  {
    RedirectsJoin(a, b);
    hide RetryStep, RedirectsOf;
    var calls := a + b;
    forall i | 0 <= i < |calls| - 1
      ensures RetryStep(cfg, calls[i], calls[i + 1]) || RedirectStep(cfg, calls[i], calls[i + 1])
    {
      hide RedirectStep;
      if i < |a| - 1 {
        assert calls[i] == a[i] && calls[i + 1] == a[i + 1];
      } else if i == |a| - 1 {
        assert calls[i] == Last(a) && calls[i + 1] == b[0];
      } else {
        assert calls[i] == b[i - |a|] && calls[i + 1] == b[i - |a| + 1];
      }
    }
  }

  lemma RedirectsCons(calls: seq<Call>)
    requires |calls| > 1
    ensures RedirectsOf(calls) == FirstRedirect(calls[0], calls[1]) + RedirectsOf(calls[1..])
    ensures RedirectsOf([calls[0]]) == []
  {}

  lemma {:induction false} RedirectsJoin(a: seq<Call>, b: seq<Call>)
    requires a != [] && b != [] && b[0].hop != Last(a).hop && Last(a).outcome.Replied?
    ensures RedirectsOf(a + b)
         == RedirectsOf(a) + [Redirect(Last(a).outcome.resp.status, Last(a).request.url)] + RedirectsOf(b)
  {
    hide RedirectsOf;
    assert (a + b)[1..] == a[1..] + b;
    RedirectsCons(a + b);
    if |a| == 1 {
      assert a[1..] + b == b;
      assert a == [(a + b)[0]];
      assert [] + FirstRedirect(a[0], b[0]) == FirstRedirect(a[0], b[0]);
    } else {
      RedirectsJoin(a[1..], b);
      RedirectsCons(a);
    }
  }

  /** The first call after a redirect stands to the last one before it as the policy says. */
  lemma RedirectObeys(cfg: Config, last: Call, hop: Hop, req: Request, first: Call)
    requires cfg.followRedirects && last.hop < MaxRedirects(cfg)
    requires AsksRetry(cfg, last.outcome) ==> LastAttempt(cfg, last.attempt)
    requires last.outcome.Replied? && IsRedirectStatus(last.outcome.resp.status) && last.outcome.resp.location.Some?
    requires req == NextRequest(last.request, last.outcome.resp.status, last.outcome.resp.location.value)
    requires var prepared := Prepare(hop, req.headers);
             first == Call(last.hop + 1, 0, req.(headers := Send(cfg, hop, OwnCookie(prepared), prepared, 0)),
                           AttemptAt(hop, 0).jarCookie, AttemptAt(hop, 0).outcome)
    ensures RedirectStep(cfg, last, first)
  {
    var prepared := Prepare(hop, req.headers);
    TestsAreThePolicy(cfg, 0, last.hop, last.outcome, last.outcome.resp.status);
    NextIsThePolicy(last.request, last.outcome.resp.status, req.url);
    assert "Cookie" !in req.headers;
    hide NextRequest, MayCarry, MethodFollows, AsksRetry, LastAttempt, LastHop, IsRedirectStatus, MaxRedirects, SetBySession;
    PreparedAndSent(cfg, hop, req.headers);
    hide Prepare, Send, OwnCookie;
  }

  /** What becomes of headers without a cookie on their way to the first call. */
  lemma PreparedAndSent(cfg: Config, hop: Hop, h: Headers)
    requires "Cookie" !in h
    ensures var prepared := Prepare(hop, h);
            var sent := Send(cfg, hop, OwnCookie(prepared), prepared, 0);
            && CarriesOver(h, sent, _ => true)
            && ("Cookie" in sent <==> !cfg.withoutCookieJar && AttemptAt(hop, 0).jarCookie != "")
            && ("Cookie" in sent ==> sent["Cookie"] == [AttemptAt(hop, 0).jarCookie])
  {
    var prepared := Prepare(hop, h);
    assert "Cookie" !in prepared && OwnCookie(prepared) == "";
    assert CarriesOver(h, prepared, _ => true);
    hide Prepare;
  }

  /** The redirected request is as the policy says. */
  lemma NextIsThePolicy(req: Request, status: int, to: Url)
    ensures var next := NextRequest(req, status, to);
            && MethodFollows(req.method_, status, next.method_)
            && next.url == to && next.body == (if status in {307, 308} then req.body else "")
            && (forall k :: k in next.headers <==> k in req.headers && MayCarry(k, req, next))
            && forall k :: k in next.headers ==> next.headers[k] == req.headers[k]
  {
    hide ToLower;
  }

  lemma TryHopObeys(cfg: Config, n: nat, hop: Hop, req: Request)
    requires n <= MaxRedirects(cfg)
    ensures HopLog(cfg, n, req, TryHop(cfg, n, hop, req))
    ensures IsFirstOf(cfg, n, hop, req, TryHop(cfg, n, hop, req).calls[0])
  {
    var prepared := Prepare(hop, req.headers);
    TryObeys(cfg, n, hop, req.(headers := prepared), OwnCookie(prepared), 0);
  }

  predicate IsFirstOf(cfg: Config, n: nat, hop: Hop, req: Request, first: Call) {
    var prepared := Prepare(hop, req.headers);
    first == Call(n, 0, req.(headers := Send(cfg, hop, OwnCookie(prepared), prepared, 0)),
                  AttemptAt(hop, 0).jarCookie, AttemptAt(hop, 0).outcome)
  }

  /** What the rest of a chain contributes after one more hop. */
  lemma HopThenRest(cfg: Config, n: nat, req: Request, t: Tried, hop: Hop, rest: seq<Call>)
    requires HopLog(cfg, n, req, t) && !t.cancelled && n < MaxRedirects(cfg) && cfg.followRedirects
    requires t.outcome.Replied? && IsRedirectStatus(t.outcome.resp.status) && t.outcome.resp.location.Some?
    requires rest != [] && Obeys(cfg, rest)
    requires var resp := t.outcome.resp;
             IsFirstOf(cfg, n + 1, hop, NextRequest(req.(headers := t.headers), resp.status, resp.location.value), rest[0])
    ensures Obeys(cfg, t.calls + rest)
    ensures RedirectsOf(t.calls + rest) == [Redirect(t.outcome.resp.status, req.url)] + RedirectsOf(rest)
  {
    var next := NextRequest(req.(headers := t.headers), t.outcome.resp.status, t.outcome.resp.location.value);
    hide Obeys, RedirectsOf, Prepare, IsRedirectStatus, MaxRedirects, NextRequest, Send;
    RedirectObeys(cfg, Last(t.calls), hop, next, rest[0]);
    JoinObeys(cfg, t.calls, rest);
  }

  /** What is known of a chain from its log: it obeys the policy, starts as it should, and a
      finished chain's history lists its redirects. */
  ghost predicate ChainLog(cfg: Config, script: seq<Hop>, req: Request, n: nat, history: seq<Redirect>,
                           calls: seq<Call>, result: Result) {
    && Obeys(cfg, calls)
    && (calls != [] ==> script != [] && IsFirstOf(cfg, n, script[0], req, calls[0]))
    && (if calls == [] then result == Closed else Explains(cfg, Last(calls), result))
    && (result.Done? ==> result.history == history + RedirectsOf(calls))
  }

  lemma {:induction false} ChainObeys(cfg: Config, script: seq<Hop>, req: Request, n: nat, history: seq<Redirect>)
    requires n <= MaxRedirects(cfg)
    ensures ChainLog(cfg, script, req, n, history, Chain(cfg, script, req, n, history).0, Chain(cfg, script, req, n, history).1)
    decreases MaxRedirects(cfg) - n
  {
    if script == [] || !script[0].active { return; }
    TryHopObeys(cfg, n, script[0], req);
    var t := TryHop(cfg, n, script[0], req);
    var end := EndOf(cfg, n, history, t);
    hide TryHop, MaxRedirects, NextRequest, EndOf, ChainLog, HopLog, IsFirstOf;
    if end.Some? {
      HopEndsChain(cfg, script, req, n, history, t, end.value);
    } else {
      var resp := t.outcome.resp;
      var next := NextRequest(req.(headers := t.headers), resp.status, resp.location.value);
      var longer := history + [Redirect(resp.status, req.url)];
      ChainObeys(cfg, script[1..], next, n + 1, longer);
      var (rest, result) := Chain(cfg, script[1..], next, n + 1, longer);
      hide Chain;
      HopBeforeChain(cfg, script, req, n, history, t, rest, result);
    }
  }

  lemma HopEndsChain(cfg: Config, script: seq<Hop>, req: Request, n: nat, history: seq<Redirect>, t: Tried, end: Result)
    requires script != [] && HopLog(cfg, n, req, t) && IsFirstOf(cfg, n, script[0], req, t.calls[0])
    requires EndOf(cfg, n, history, t) == Some(end) && n <= MaxRedirects(cfg)
    ensures ChainLog(cfg, script, req, n, history, t.calls, end)
  {
    TestsAreThePolicy(cfg, 0, n, t.outcome, if t.outcome.Replied? then t.outcome.resp.status else 0);
    hide Obeys, RedirectsOf, IsFirstOf, IsRedirectStatus, MaxRedirects, AsksRetry, LastAttempt, LastHop;
    assert history + [] == history;
  }

  lemma HopBeforeChain(cfg: Config, script: seq<Hop>, req: Request, n: nat, history: seq<Redirect>, t: Tried,
                       rest: seq<Call>, result: Result)
    requires script != [] && HopLog(cfg, n, req, t) && EndOf(cfg, n, history, t) == None
    requires IsFirstOf(cfg, n, script[0], req, t.calls[0])
    requires var resp := t.outcome.resp;
             ChainLog(cfg, script[1..], NextRequest(req.(headers := t.headers), resp.status, resp.location.value), n + 1,
                      history + [Redirect(resp.status, req.url)], rest, result)
    ensures ChainLog(cfg, script, req, n, history, t.calls + rest, result)
  {
    if rest == [] {
      TestsAreThePolicy(cfg, 0, n, t.outcome, t.outcome.resp.status);
      hide Obeys, RedirectsOf, IsFirstOf, IsRedirectStatus, MaxRedirects, NextRequest, AsksRetry, LastAttempt, LastHop;
      assert t.calls + [] == t.calls;
      assert ToFollow(cfg, t.outcome);
    } else {
      HopThenRest(cfg, n, req, t, script[1], rest);
      hide Obeys, RedirectsOf, IsFirstOf, IsRedirectStatus, MaxRedirects, NextRequest, Explains, HopLog;
      Associative(history, [Redirect(t.outcome.resp.status, req.url)], RedirectsOf(rest));
      assert Last(t.calls + rest) == Last(rest);
    }
  }

  // ----- Promises about whole chains -----

  predicate IsSecret(k: string) {
    ToLower(k) in {"authorization", "proxy-authorization"}
  }

  predicate IsReferer(k: string) {
    ToLower(k) == "referer"
  }

  ghost predicate NoSecrets(h: Headers) {
    forall k :: k in h ==> !IsSecret(k)
  }

  ghost predicate NoReferer(h: Headers) {
    forall k :: k in h ==> !IsReferer(k)
  }

  /** The session never adds credentials or a referer of its own. */
  lemma SessionHeadersAreHarmless(k: string)
    requires SetBySession(k)
    ensures !IsSecret(k) && !IsReferer(k)
  {
    assert |ToLower(k)| == |k|;
    assert k != "" ==> ToLower(k)[0] == LowerChar(k[0]);
  }

  ghost predicate Step(cfg: Config, a: Call, b: Call) {
    RetryStep(cfg, a, b) || RedirectStep(cfg, a, b)
  }

  lemma StepAddsNoCredentials(cfg: Config, a: Call, b: Call)
    requires Step(cfg, a, b)
    ensures forall k :: k in b.request.headers && (IsSecret(k) || IsReferer(k)) ==> k in a.request.headers
    ensures RedirectStep(cfg, a, b) ==>
              forall k :: k in b.request.headers && (IsSecret(k) || IsReferer(k)) ==> MayCarry(k, a.request, b.request)
  {
    forall k | k in b.request.headers && (IsSecret(k) || IsReferer(k))
      ensures !SetBySession(k)
    {
      if SetBySession(k) { SessionHeadersAreHarmless(k); }
    }
    hide IsSecret, IsReferer, SetBySession, MayCarry;
  }

  /** The hop from call `i` to call `i + 1` leaves the origin or the secure scheme. */
  predicate Crosses(calls: seq<Call>, i: nat)
    requires i + 1 < |calls|
  {
    var a, b := calls[i], calls[i + 1];
    a.hop != b.hop && (Leaves(a.request.url, b.request.url) || ToPlain(a.request.url, b.request.url))
  }

  lemma StepAt(cfg: Config, calls: seq<Call>, i: nat)
    requires Obeys(cfg, calls) && i + 1 < |calls|
    ensures Step(cfg, calls[i], calls[i + 1])
  {
    hide RetryStep, RedirectStep;
  }

  lemma StepKeepsFree(cfg: Config, a: Call, b: Call)
    requires Step(cfg, a, b)
    ensures NoSecrets(a.request.headers) ==> NoSecrets(b.request.headers)
    ensures NoReferer(a.request.headers) ==> NoReferer(b.request.headers)
  {
    StepAddsNoCredentials(cfg, a, b);
    hide Step, IsSecret, IsReferer;
  }

  lemma CrossingDrops(cfg: Config, a: Call, b: Call)
    requires Step(cfg, a, b) && a.hop != b.hop
    ensures Leaves(a.request.url, b.request.url) || ToPlain(a.request.url, b.request.url) ==>
              NoSecrets(b.request.headers)
    ensures ToPlain(a.request.url, b.request.url) ==> NoReferer(b.request.headers)
  {
    StepAddsNoCredentials(cfg, a, b);
    hide ToLower, CarriesOver;
  }

  /** Once a hop has crossed origins or downgraded, no later request carries credentials in
      any spelling; after a downgrade none carries a referer either. */
  lemma {:induction false} CredentialsStayDropped(cfg: Config, calls: seq<Call>, i: nat, j: nat)
    requires Obeys(cfg, calls) && i < j < |calls| && Crosses(calls, i)
    ensures NoSecrets(calls[j].request.headers)
    ensures ToPlain(calls[i].request.url, calls[i + 1].request.url) ==> NoReferer(calls[j].request.headers)
    decreases j
  {
    hide Obeys, Step, NoSecrets, NoReferer, Leaves, ToPlain;
    StepAt(cfg, calls, j - 1);
    if j == i + 1 {
      CrossingDrops(cfg, calls[i], calls[j]);
    } else {
      CredentialsStayDropped(cfg, calls, i, j - 1);
      StepKeepsFree(cfg, calls[j - 1], calls[j]);
    }
  }

  /** From `a` to `b` the body is kept: no redirect, or one by 307 or 308. */
  predicate KeptAcross(a: Call, b: Call) {
    a.hop != b.hop ==> a.outcome.Replied? && a.outcome.resp.status in {307, 308}
  }

  /** Whether every redirect up to call `j` preserved the request body. */
  predicate KeepsBody(calls: seq<Call>, j: nat)
    requires j < |calls|
  {
    forall i {:trigger calls[i]} :: 0 <= i < j ==> KeptAcross(calls[i], calls[i + 1])
  }

  /** From `a` to `b` a redirect turns the request, first sent as `first`, into a GET. */
  predicate TurnsToGet(first: string, a: Call, b: Call) {
    && a.hop != b.hop && a.outcome.Replied?
    && (a.outcome.resp.status == 303 || (a.outcome.resp.status in {301, 302} && first == "POST"))
  }

  /** Whether a redirect up to call `j` has turned the request into a GET. */
  predicate TurnedToGet(calls: seq<Call>, j: nat)
    requires j < |calls|
  {
    exists i {:trigger calls[i]} :: 0 <= i < j && TurnsToGet(calls[0].request.method_, calls[i], calls[i + 1])
  }

  lemma TurnedToGetSnoc(calls: seq<Call>, j: nat)
    requires 0 < j < |calls|
    ensures TurnedToGet(calls, j) <==>
              TurnedToGet(calls, j - 1) || TurnsToGet(calls[0].request.method_, calls[j - 1], calls[j])
  {
    hide TurnsToGet;
    assert calls[j - 1] == calls[j - 1];
  }

  lemma RetryBody(cfg: Config, a: Call, b: Call)
    requires RetryStep(cfg, a, b)
    ensures KeptAcross(a, b) && b.request.body == a.request.body && b.request.method_ == a.request.method_
    ensures forall first :: !TurnsToGet(first, a, b)
  {
    hide CarriesOver;
  }

  lemma RedirectBody(cfg: Config, a: Call, b: Call)
    requires RedirectStep(cfg, a, b)
    ensures b.request.body == if KeptAcross(a, b) then a.request.body else ""
    ensures b.request.method_ == if TurnsToGet(a.request.method_, a, b) then "GET" else a.request.method_
    ensures KeptAcross(a, b) ==> forall first :: !TurnsToGet(first, a, b)
    ensures forall first :: TurnsToGet("GET", a, b) ==> TurnsToGet(first, a, b)
  {
    hide CarriesOver;
  }

  /** A request carries the body exactly as long as all redirects were 307 or 308. Its method
      is GET once a redirect was 303, or 301 or 302 of a POST, and else the first one. */
  lemma {:induction false} BodyAndMethod(cfg: Config, calls: seq<Call>, j: nat)
    requires Obeys(cfg, calls) && j < |calls|
    ensures calls[j].request.body == if KeepsBody(calls, j) then calls[0].request.body else ""
    ensures calls[j].request.method_ == if TurnedToGet(calls, j) then "GET" else calls[0].request.method_
    ensures KeepsBody(calls, j) ==> !TurnedToGet(calls, j)
    decreases j
  {
    if j == 0 {
      assert KeepsBody(calls, 0);
    } else {
      StepAt(cfg, calls, j - 1);
      KeepsBodySnoc(calls, j);
      TurnedToGetSnoc(calls, j);
      hide Obeys, KeepsBody, TurnedToGet, RetryStep, RedirectStep, KeptAcross;
      BodyAndMethod(cfg, calls, j - 1);
      var a, b := calls[j - 1], calls[j];
      if RetryStep(cfg, a, b) { RetryBody(cfg, a, b); } else { RedirectBody(cfg, a, b); }
    }
  }

  lemma KeepsBodySnoc(calls: seq<Call>, j: nat)
    requires 0 < j < |calls|
    ensures KeepsBody(calls, j) <==> KeepsBody(calls, j - 1) && KeptAcross(calls[j - 1], calls[j])
  {
    hide KeptAcross;
    assert calls[j - 1] == calls[j - 1];
  }

  lemma CallInRange(cfg: Config, calls: seq<Call>, i: nat)
    requires Obeys(cfg, calls) && i < |calls|
    ensures calls[i].attempt <= MaxRetries(cfg) && calls[i].hop <= MaxRedirects(cfg)
  {
    hide RetryStep, RedirectStep;
  }

  lemma StepAdvances(cfg: Config, a: Call, b: Call)
    requires Step(cfg, a, b)
    ensures (b.hop == a.hop && b.attempt == a.attempt + 1) || (b.hop == a.hop + 1 && b.attempt == 0)
  {
    hide CarriesOver, ShouldRetry, NewMethod, IsRedirectStatus, MaxRetries;
  }

  /** The place of a hop's first call when every earlier hop uses all its attempts. */
  function Row(cfg: Config, hop: nat): nat {
    hop * (MaxRetries(cfg) + 1)
  }

  lemma RowsGrow(cfg: Config, a: nat, b: nat)
    requires a < b
    ensures Row(cfg, a) + MaxRetries(cfg) + 1 <= Row(cfg, b)
    ensures b == a + 1 ==> Row(cfg, a) + MaxRetries(cfg) + 1 == Row(cfg, b)
  {
    MultiplesGrow(a + 1, b, MaxRetries(cfg) + 1);
    MultiplesGrow(a, a + 1, MaxRetries(cfg) + 1);
  }

  /** A call's place in the log is bounded by its hop and attempt. */
  lemma {:induction false} IndexBound(cfg: Config, calls: seq<Call>, i: nat)
    requires Obeys(cfg, calls) && i < |calls|
    ensures i <= Row(cfg, calls[i].hop) + calls[i].attempt
    decreases i
  {
    if i > 0 {
      StepAt(cfg, calls, i - 1);
      CallInRange(cfg, calls, i - 1);
      hide Obeys, MaxRetries, Row;
      IndexBound(cfg, calls, i - 1);
      StepAdvances(cfg, calls[i - 1], calls[i]);
      hide Step;
      RowsGrow(cfg, calls[i - 1].hop, calls[i - 1].hop + 1);
    }
  }

  lemma {:induction false} RedirectCount(cfg: Config, calls: seq<Call>)
    requires Obeys(cfg, calls) && calls != []
    ensures |RedirectsOf(calls)| == Last(calls).hop - calls[0].hop
  {
    if |calls| > 1 {
      assert Step(cfg, calls[0], calls[1]);
      TailObeys(cfg, calls);
      hide Obeys;
      RedirectCount(cfg, calls[1..]);
    }
  }

  lemma TailObeys(cfg: Config, calls: seq<Call>)
    requires Obeys(cfg, calls) && calls != []
    ensures Obeys(cfg, calls[1..])
  {
    hide RetryStep, RedirectStep;
    var tail := calls[1..];
    forall i | 0 <= i < |tail| - 1
      ensures RetryStep(cfg, tail[i], tail[i + 1]) || RedirectStep(cfg, tail[i], tail[i + 1])
    {
      assert tail[i] == calls[i + 1] && tail[i + 1] == calls[i + 2];
    }
  }

  /** A log that starts at the first hop is no longer than its hops and attempts allow. */
  lemma LogIsBounded(cfg: Config, calls: seq<Call>)
    requires Obeys(cfg, calls) && calls != [] && calls[0].hop == 0
    ensures |calls| <= Row(cfg, MaxRedirects(cfg) + 1)
    ensures |RedirectsOf(calls)| == Last(calls).hop <= MaxRedirects(cfg)
  {
    CallInRange(cfg, calls, |calls| - 1);
    hide Obeys, MaxRedirects, MaxRetries, RedirectsOf, Row;
    IndexBound(cfg, calls, |calls| - 1);
    RedirectCount(cfg, calls);
    RowsGrow(cfg, Last(calls).hop, MaxRedirects(cfg) + 1);
  }

  /** The number of transport calls is bounded, the history has one entry per redirect, and
      only a chain that used up all its redirects fails for having too many. */
  lemma ChainIsBounded(cfg: Config, script: seq<Hop>, req: Request)
    ensures var (calls, result) := Chain(cfg, script, req, 0, []);
            && |calls| <= (MaxRedirects(cfg) + 1) * (MaxRetries(cfg) + 1)
            && (result.Done? ==> calls != [] && |result.history| == Last(calls).hop <= MaxRedirects(cfg))
            && (result.Done? ==> result.history == RedirectsOf(calls))
            && (result.TooManyRedirects? ==> calls != [] && |RedirectsOf(calls)| == MaxRedirects(cfg))
  {
    ChainObeys(cfg, script, req, 0, []);
    assert Row(cfg, MaxRedirects(cfg) + 1) == (MaxRedirects(cfg) + 1) * (MaxRetries(cfg) + 1);
    hide Chain, Obeys, RedirectsOf, MaxRedirects, MaxRetries, Row, Prepare, Send;
    var (calls, result) := Chain(cfg, script, req, 0, []);
    assert [] + RedirectsOf(calls) == RedirectsOf(calls);
    if calls != [] { LogIsBounded(cfg, calls); }
  }

  /** The promises, for every chain that a request can start: `i` and `j` are transport calls
      of the chain, in order. */
  lemma ChainPromises(cfg: Config, script: seq<Hop>, req: Request, i: nat, j: nat)
    requires i < j < |Chain(cfg, script, req, 0, []).0|
    ensures var calls := Chain(cfg, script, req, 0, []).0;
            && (Crosses(calls, i) ==> NoSecrets(calls[j].request.headers))
            && (Crosses(calls, i) && ToPlain(calls[i].request.url, calls[i + 1].request.url) ==>
                  NoReferer(calls[j].request.headers))
            && calls[j].request.body == (if KeepsBody(calls, j) then req.body else "")
            && calls[j].request.method_ == (if TurnedToGet(calls, j) then "GET" else req.method_)
            && (KeepsBody(calls, j) ==> !TurnedToGet(calls, j))
  {
    ChainObeys(cfg, script, req, 0, []);
    hide Chain, Obeys, Crosses, KeepsBody, TurnedToGet, NoSecrets, NoReferer, ToPlain;
    var calls := Chain(cfg, script, req, 0, []).0;
    if Crosses(calls, i) { CredentialsStayDropped(cfg, calls, i, j); }
    BodyAndMethod(cfg, calls, j);
  }

  // ----- What the session adds to each call -----

  predicate Has(h: Headers, k: string, value: string) {
    k in h && h[k] == [value]
  }

  predicate Validated(hop: Hop, h: Headers) {
    && (hop.refreshed ==> Has(h, "cache-control", "max-age=0"))
    && (hop.etag != "" ==> Has(h, "If-None-Match", hop.etag))
    && (hop.lastModified != "" ==> Has(h, "If-Modified-Since", hop.lastModified))
  }

  /** The call carries the validators of its hop, the client hints of its attempt, and the
      request's own cookie before the jar's. */
  predicate SentAsScripted(cfg: Config, hop: Hop, own: string, call: Call) {
    var attempt, h := AttemptAt(hop, call.attempt), call.request.headers;
    && call.outcome == attempt.outcome && call.jarCookie == attempt.jarCookie
    && Validated(hop, h)
    && (forall k :: k in HINT_HEADERS && k in attempt.hints ==> k in h && h[k] == attempt.hints[k])
    && (!cfg.withoutCookieJar && own == "" && call.jarCookie != "" ==> Has(h, "Cookie", call.jarCookie))
    && (!cfg.withoutCookieJar && own != "" && call.jarCookie == "" ==> Has(h, "Cookie", own))
    && (!cfg.withoutCookieJar && own != "" && call.jarCookie != "" ==> Has(h, "Cookie", own + "; " + call.jarCookie))
  }

  lemma SendKeepsValidated(cfg: Config, hop: Hop, own: string, req: Request, n: nat, attempt: nat)
    requires Validated(hop, req.headers)
    ensures var sent := req.(headers := Send(cfg, hop, own, req.headers, attempt));
            SentAsScripted(cfg, hop, own, Call(n, attempt, sent, AttemptAt(hop, attempt).jarCookie, AttemptAt(hop, attempt).outcome))
  {}

  lemma {:induction false} TrySends(cfg: Config, n: nat, hop: Hop, req: Request, own: string, attempt: nat)
    requires attempt <= MaxRetries(cfg) && Validated(hop, req.headers)
    ensures forall c :: c in Try(cfg, n, hop, req, own, attempt).calls ==> c.hop == n && SentAsScripted(cfg, hop, own, c)
    decreases MaxRetries(cfg) - attempt
  {
    SendKeepsValidated(cfg, hop, own, req, n, attempt);
    hide Send, AttemptAt, Has, ShouldRetry;
    var a := AttemptAt(hop, attempt);
    var sent := req.(headers := Send(cfg, hop, own, req.headers, attempt));
    if ShouldRetry(cfg, a.outcome) && attempt < MaxRetries(cfg) && !a.cancelled {
      TrySends(cfg, n, hop, sent, own, attempt + 1);
      hide SentAsScripted, MaxRetries;
    }
  }

  lemma HopSends(cfg: Config, n: nat, hop: Hop, req: Request)
    ensures forall c :: c in TryHop(cfg, n, hop, req).calls ==> c.hop == n && SentAsScripted(cfg, hop, OwnCookie(req.headers), c)
  {
    var prepared := Prepare(hop, req.headers);
    assert Validated(hop, prepared) && OwnCookie(prepared) == OwnCookie(req.headers);
    hide Prepare, Validated, OwnCookie, SentAsScripted;
    TrySends(cfg, n, hop, req.(headers := prepared), OwnCookie(prepared), 0);
  }

  /** Every call belongs to an active hop of the script, whose first hop is the `n`-th one, and
      is sent as that says; only the `n`-th hop sends the cookie header `own`. */
  ghost predicate Scripted(cfg: Config, script: seq<Hop>, n: nat, own: string, calls: seq<Call>) {
    forall c :: c in calls ==>
      && n <= c.hop < n + |script| && script[c.hop - n].active
      && SentAsScripted(cfg, script[c.hop - n], if c.hop == n then own else "", c)
  }

  lemma ScriptedJoin(cfg: Config, script: seq<Hop>, n: nat, own: string, a: seq<Call>, b: seq<Call>)
    requires script != [] && script[0].active && Scripted(cfg, script[1..], n + 1, "", b)
    requires forall c :: c in a ==> c.hop == n && SentAsScripted(cfg, script[0], own, c)
    ensures Scripted(cfg, script, n, own, a + b) && Scripted(cfg, script, n, own, a)
  {
    hide SentAsScripted;
    forall c | c in b
      ensures n < c.hop < n + |script| && script[c.hop - n].active && SentAsScripted(cfg, script[c.hop - n], "", c)
    {
      assert script[1..][c.hop - (n + 1)] == script[c.hop - n];
    }
  }

  /** In every chain the session adds to each call what its script says. */
  lemma {:induction false} ChainSends(cfg: Config, script: seq<Hop>, req: Request, n: nat, history: seq<Redirect>)
    requires n <= MaxRedirects(cfg)
    ensures Scripted(cfg, script, n, OwnCookie(req.headers), Chain(cfg, script, req, n, history).0)
    decreases MaxRedirects(cfg) - n
  {
    if script == [] || !script[0].active { return; }
    HopSends(cfg, n, script[0], req);
    var t := TryHop(cfg, n, script[0], req);
    assert Scripted(cfg, script[1..], n + 1, "", []);
    hide TryHop, EndOf, MaxRedirects, SentAsScripted, Scripted;
    if EndOf(cfg, n, history, t).Some? {
      ScriptedJoin(cfg, script, n, OwnCookie(req.headers), t.calls, []);
    } else {
      var resp := t.outcome.resp;
      var next := NextRequest(req.(headers := t.headers), resp.status, resp.location.value);
      var longer := history + [Redirect(resp.status, req.url)];
      assert OwnCookie(next.headers) == "";
      hide NextRequest, OwnCookie;
      ChainSends(cfg, script[1..], next, n + 1, longer);
      ScriptedJoin(cfg, script, n, OwnCookie(req.headers), t.calls, Chain(cfg, script[1..], next, n + 1, longer).0);
    }
  }

  // ----- The session's own methods -----

  class Session {
    const cfg: Config
    var log: seq<Call>

    constructor (cfg: Config)
      ensures this.cfg == cfg && log == []
    {
      this.cfg, log := cfg, [];
    }

    /** The retry loop of one hop. */
    method TryAttempts(n: nat, hop: Hop, req: Request)
      returns (headers: Headers, cancelled: bool, outcome: Outcome)
      modifies this
      ensures var t := TryHop(cfg, n, hop, req);
              log == old(log) + t.calls && headers == t.headers && cancelled == t.cancelled && outcome == t.outcome
    {
      hide Prepare, OwnCookie, ShouldRetry, MaxRetries, WithCookie, WithHints, AttemptAt;
      headers := Prepare(hop, req.headers);
      var own := OwnCookie(headers);
      var attempt: nat := 0;
      ghost var all := Try(cfg, n, hop, req.(headers := headers), own, 0);
      ghost var sent: seq<Call> := [];
      while true
        invariant attempt <= MaxRetries(cfg) && log == old(log) + sent
        invariant var rest := Try(cfg, n, hop, req.(headers := headers), own, attempt);
                  all == rest.(calls := sent + rest.calls)
        decreases MaxRetries(cfg) - attempt
      {
        var a := AttemptAt(hop, attempt);
        headers := WithHints(WithCookie(cfg, headers, own, a.jarCookie), a.hints);
        var call := Call(n, attempt, req.(headers := headers), a.jarCookie, a.outcome);
        Associative(old(log), sent, [call]);
        ghost var before := sent;
        log := log + [call];
        sent := before + [call];
        if !ShouldRetry(cfg, a.outcome) || attempt >= MaxRetries(cfg) {
          return headers, false, a.outcome;
        }
        if a.cancelled {
          return headers, true, a.outcome;
        }
        attempt := attempt + 1;
        Associative(before, [call], Try(cfg, n, hop, req.(headers := headers), own, attempt).calls);
      }
    }

    /** The copy of the headers to a redirected request. */
    method CopyHeaders(h: Headers, methodChanged: bool, from: Url, to: Url) returns (copied: Headers)
      ensures copied == Carried(h, methodChanged, from, to)
    {
      copied := map[];
      var downgrade, crossOrigin := IsDowngrade(from, to), !SameOrigin(from, to);
      var todo := h.Keys;
      while todo != {}
        invariant todo <= h.Keys
        invariant copied == map k | k in h && k !in todo && !Dropped(k, methodChanged, from, to) :: h[k]
        decreases todo
      {
        var k :| k in todo;
        todo := todo - {k};
        if methodChanged && (k == "Content-Type" || k == "Content-Length" || k == "content-type" || k == "content-length") {
          continue;
        }
        if k == "Cookie" || k == "cookie" { continue; }
        var lower := ToLower(k);
        if downgrade && lower == "referer" { continue; }
        if (crossOrigin || downgrade) && (lower == "authorization" || lower == "proxy-authorization") { continue; }
        copied := copied[k := h[k]];
      }
    }

    method RedirectedRequest(req: Request, status: int, redirectUrl: Url) returns (newReq: Request)
      ensures newReq == NextRequest(req, status, redirectUrl)
      ensures MethodFollows(req.method_, status, newReq.method_) && newReq.url == redirectUrl
      ensures newReq.body == if status in {307, 308} then req.body else ""
      ensures forall k :: k in newReq.headers <==> k in req.headers && MayCarry(k, req, newReq)
      ensures forall k :: k in newReq.headers ==> newReq.headers[k] == req.headers[k]
    {
      NextIsThePolicy(req, status, redirectUrl);
      hide MayCarry;
      var newMethod := req.method_;
      if status == 303 || ((status == 301 || status == 302) && req.method_ == "POST") {
        newMethod := "GET";
      }
      var headers := CopyHeaders(req.headers, newMethod != req.method_, req.url, redirectUrl);
      newReq := Request(newMethod, redirectUrl, headers, "");
      if status == 307 || status == 308 {
        newReq := newReq.(body := req.body);
      }
    }

    method RequestWithRedirects(script: seq<Hop>, req: Request, redirectCount: nat, history: seq<Redirect>)
      returns (result: Result)
      requires redirectCount <= MaxRedirects(cfg)
      modifies this
      ensures (log, result) == (old(log) + Chain(cfg, script, req, redirectCount, history).0,
                                Chain(cfg, script, req, redirectCount, history).1)
      decreases MaxRedirects(cfg) - redirectCount
    {
      if script == [] || !script[0].active {
        assert log == old(log) + [];
        return Closed;
      }
      hide TryHop, IsRedirectStatus, MaxRedirects, NextRequest, Prepare, OwnCookie;
      var sent, cancelled, outcome := TryAttempts(redirectCount, script[0], req);
      ghost var t := TryHop(cfg, redirectCount, script[0], req);
      if cancelled { return Cancelled; }
      if outcome.Failed? { return TransportError; }
      var resp := outcome.resp;
      if !IsRedirectStatus(resp.status) || !cfg.followRedirects { return Done(resp, history); }
      if redirectCount >= MaxRedirects(cfg) { return TooManyRedirects; }
      if resp.location.None? { return Done(resp, history); }
      var redirectUrl := resp.location.value;
      var longer := history + [Redirect(resp.status, req.url)];
      var newReq := RedirectedRequest(req.(headers := sent), resp.status, redirectUrl);
      result := RequestWithRedirects(script[1..], newReq, redirectCount + 1, longer);
      Associative(old(log), t.calls, Chain(cfg, script[1..], newReq, redirectCount + 1, longer).0);
    }
  }
}
