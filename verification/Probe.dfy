/**
 * One HTTP attempt as an event machine: sockets, responses, errors and a single deadline race
 * to settle one promise.  Times are nanoseconds since the attempt started; a handler reads
 * the clock once, at the time of its event.
 */
module Probe {
  import opened Common

  datatype Scheme = HTTP | HTTPS | OTHER

  datatype Url = Malformed | Url(scheme: Scheme, host: string, port: nat, path: string)

  datatype Origin = NoOrigin | Origin(scheme: Scheme, host: string, port: nat)

  function OriginOf(u: Url): Origin {
    match u
    case Malformed => NoOrigin
    case Url(scheme, host, port, _) => Origin(scheme, host, port)
  }

  datatype ErrorCode =
    | ERR_CHECK_TIMEOUT | ERR_INVALID_URL | ERR_UNSUPPORTED_PROTOCOL | ERR_TOO_MANY_REDIRECTS
    | HttpStatus(status: int)
    | Transport(code: string)

  const RETRYABLE_CODES: set<string> :=
    {"ECONNRESET", "ECONNREFUSED", "ECONNABORTED", "ETIMEDOUT", "EAI_AGAIN", "EPIPE",
     "EHOSTUNREACH", "ENETUNREACH", "ENETRESET", "ESOCKETTIMEDOUT", "ERR_CHECK_TIMEOUT"}

  predicate IsRetryableStatus(status: int) {
    status == 408 || status == 429 || 500 <= status
  }

  datatype Options = Options(url: Url, timeoutMs: nat, maxRedirects: nat)

  const NS_PER_MS := 1_000_000

  function Ms(ns: nat): nat {
    ns / NS_PER_MS
  }

  /** Phases in milliseconds; None where never observed. */
  datatype Timings = Timings(dns: Option<nat>, tcp: Option<nat>, tls: Option<nat>, ttfb: Option<nat>,
                             total: Option<nat>)

  function Value(o: Option<nat>): nat {
    if o.Some? then o.value else 0
  }

  function Setup(t: Timings): nat {
    Value(t.dns) + Value(t.tcp) + Value(t.tls)
  }

  /** What the promise resolves with; `timings` is the object as it stands at that moment. */
  datatype Result = Result(up: bool, statusCode: Option<int>, errorCode: Option<ErrorCode>, retryable: bool,
                           redirects: nat, responseTime: nat, timings: Timings)

  /** One request of the chain, with its own phase marks. */
  datatype Hop = Hop(start: nat, secure: bool, dns: Option<nat>, tcp: Option<nat>, tls: Option<nat>,
                     responded: bool, awaitingBody: Option<int>)

  datatype Request = Request(url: Url, carriesHeaders: bool)

  datatype State = State(redirects: nat, settled: bool, settledAt: nat, resolutions: seq<Result>, timings: Timings,
                         hops: seq<Hop>, requests: seq<Request>)

  datatype Event =
    | Lookup(hop: nat)
    | Connect(hop: nat)
    | SecureConnect(hop: nat)
    | Response(hop: nat, status: int, location: Option<Url>)
    | BodyDone(hop: nat)
    | RequestError(hop: nat, code: string)
    | Deadline

  predicate IsPhase(e: Event) {
    e.Lookup? || e.Connect? || e.SecureConnect?
  }

  datatype Timed = Timed(at: nat, event: Event)

  // ---------------------------------------------------------------- handlers

  function Down(statusCode: Option<int>, code: ErrorCode, retryable: bool): Result {
    Result(false, statusCode, Some(code), retryable, 0, 0, Timings(None, None, None, None, None))
  }

  const Timeout := Down(None, ERR_CHECK_TIMEOUT, true)

  function Graded(status: int): Result {
    if 200 <= status < 400 then Result(true, Some(status), None, false, 0, 0, Timings(None, None, None, None, None))
    else Down(Some(status), HttpStatus(status), IsRetryableStatus(status))
  }

  /** The settle-once guard. */
  function Finish(s: State, at: nat, r: Result): State {
    if s.settled then s
    else
      var timings := s.timings.(total := Some(Ms(at)));
      s.(settled := true, settledAt := at, timings := timings,
         resolutions := s.resolutions + [r.(redirects := s.redirects, responseTime := Ms(at), timings := timings)])
  }

  function Issue(o: Options, s: State, at: nat, target: Url): State {
    match target
    case Malformed => Finish(s, at, Down(None, ERR_INVALID_URL, false))
    case Url(scheme, _, _, _) =>
      if scheme == OTHER then Finish(s, at, Down(None, ERR_UNSUPPORTED_PROTOCOL, false))
      else s.(hops := s.hops + [Hop(at, scheme == HTTPS, None, None, None, false, None)],
              requests := s.requests + [Request(target, OriginOf(target) == OriginOf(o.url))])
  }

  function OnLookup(s: State, at: nat, h: nat): State
    requires h < |s.hops| && s.hops[h].start <= at
  {
    var dns := Ms(at - s.hops[h].start);
    s.(hops := s.hops[h := s.hops[h].(dns := Some(dns))],
       timings := s.timings.(dns := Some(Value(s.timings.dns) + dns)))
  }

  function OnConnect(s: State, at: nat, h: nat): State
    requires h < |s.hops| && s.hops[h].start <= at
  {
    var tcp := Max(0, Ms(at - s.hops[h].start) - Value(s.hops[h].dns));
    s.(hops := s.hops[h := s.hops[h].(tcp := Some(tcp))],
       timings := s.timings.(tcp := Some(Value(s.timings.tcp) + tcp)))
  }

  function OnSecureConnect(s: State, at: nat, h: nat): State
    requires h < |s.hops| && s.hops[h].start <= at
  {
    var tls := Max(0, Ms(at - s.hops[h].start) - Value(s.hops[h].dns) - Value(s.hops[h].tcp));
    s.(hops := s.hops[h := s.hops[h].(tls := Some(tls))],
       timings := s.timings.(tls := Some(Value(s.timings.tls) + tls)))
  }

  /** The state once a response's first byte is in. */
  function Responded(s: State, at: nat, h: nat): State
    requires h < |s.hops|
  {
    s.(timings := s.timings.(ttfb := Some(Ms(at))), hops := s.hops[h := s.hops[h].(responded := true)])
  }

  /** Follow the redirect, give up on too many, or read the body out. */
  function Routed(o: Options, s: State, at: nat, h: nat, status: int, location: Option<Url>): State
    requires h < |s.hops|
  {
    if location.Some? && 300 <= status < 400 && s.redirects < o.maxRedirects then
      Issue(o, s.(redirects := s.redirects + 1), at, location.value)
    else if location.Some? && o.maxRedirects <= s.redirects then
      Finish(s, at, Down(Some(status), ERR_TOO_MANY_REDIRECTS, false))
    else
      s.(hops := s.hops[h := s.hops[h].(awaitingBody := Some(status))])
  }

  function OnResponse(o: Options, s: State, at: nat, h: nat, status: int, location: Option<Url>): State
    requires h < |s.hops|
  {
    Routed(o, Responded(s, at, h), at, h, status, location)
  }

  /**
   * When the platform delivers an event: phase events once each, in order, before the hop's
   * response; a response once, for the current request, which a settled probe has destroyed;
   * errors at any time; the deadline at its time.
   */
  predicate Delivers(o: Options, s: State, at: nat, e: Event) {
    match e
    case Deadline => at == o.timeoutMs * NS_PER_MS
    case _ =>
      && e.hop < |s.hops| && s.hops[e.hop].start <= at
      && var hop := s.hops[e.hop];
         match e
         case Lookup(_) => !hop.responded && hop.dns.None? && hop.tcp.None? && hop.tls.None?
         case Connect(_) => !hop.responded && hop.tcp.None? && hop.tls.None?
         case SecureConnect(_) => hop.secure && !hop.responded && hop.tcp.Some? && hop.tls.None?
         case Response(h, _, _) => !hop.responded && h == |s.hops| - 1 && !s.settled
         case BodyDone(_) => hop.awaitingBody.Some?
         case RequestError(_, _) => true
  }

  function Handle(o: Options, s: State, at: nat, e: Event): State
    requires Delivers(o, s, at, e)
  {
    match e
    case Lookup(h) => OnLookup(s, at, h)
    case Connect(h) => OnConnect(s, at, h)
    case SecureConnect(h) => OnSecureConnect(s, at, h)
    case Response(h, status, location) => OnResponse(o, s, at, h, status, location)
    case BodyDone(h) => Finish(s, at, Graded(s.hops[h].awaitingBody.value))
    case RequestError(h, code) => Finish(s, at, Down(None, Transport(code), code in RETRYABLE_CODES))
    case Deadline => Finish(s, at, Timeout)
  }

  /** The timer fires before anything later than it is delivered. */
  function Elapse(o: Options, s: State, at: nat): State {
    if o.timeoutMs * NS_PER_MS < at then Finish(s, o.timeoutMs * NS_PER_MS, Timeout) else s
  }

  function Deliver(o: Options, s: State, e: Timed): State {
    var s1 := Elapse(o, s, e.at);
    if Delivers(o, s1, e.at, e.event) then Handle(o, s1, e.at, e.event) else s1
  }

  function Start(o: Options): State {
    Issue(o, State(0, false, 0, [], Timings(None, None, None, None, None), [], []), 0, o.url)
  }

  function Run(o: Options, trace: seq<Timed>): State {
    if trace == [] then Start(o) else Deliver(o, Run(o, trace[..|trace| - 1]), trace[|trace| - 1])
  }

  ghost predicate InOrder(trace: seq<Timed>) {
    forall i, j :: 0 <= i < j < |trace| ==> trace[i].at <= trace[j].at
  }

  /** The attempt once its deadline has passed as well. */
  function Concluded(o: Options, trace: seq<Timed>): State {
    Finish(Run(o, trace), o.timeoutMs * NS_PER_MS, Timeout)
  }

  // ---------------------------------------------------------------- settle once, in time, within bounds

  ghost predicate Inv(o: Options, s: State) {
    && |s.resolutions| == (if s.settled then 1 else 0)
    && s.settledAt <= o.timeoutMs * NS_PER_MS
    && (s.settled ==> s.resolutions[0].responseTime == Ms(s.settledAt))
    && |s.hops| == |s.requests| <= s.redirects + 1 && s.redirects <= o.maxRedirects
    && (s.hops == [] ==> s.settled)
    && forall i :: 0 <= i < |s.requests| ==>
         && s.requests[i].url.Url? && s.requests[i].url.scheme != OTHER
         && (s.requests[i].carriesHeaders <==> OriginOf(s.requests[i].url) == OriginOf(o.url))
  }

  lemma DeliverInv(o: Options, s: State, e: Timed)
    requires Inv(o, s)
    ensures Inv(o, Deliver(o, s, e))
    ensures s.resolutions <= Deliver(o, s, e).resolutions
    ensures o.timeoutMs * NS_PER_MS < e.at ==> Deliver(o, s, e).settled
  {
  }

  lemma {:induction false} InvReachable(o: Options, trace: seq<Timed>)
    ensures Inv(o, Run(o, trace))
  {
    if trace != [] {
      InvReachable(o, trace[..|trace| - 1]);
      DeliverInv(o, Run(o, trace[..|trace| - 1]), trace[|trace| - 1]);
    }
  }

  /** Scheme, host and port are all the same. */
  predicate IsSameOrigin(u: Url, v: Url) {
    u.Url? && v.Url? && u.scheme == v.scheme && u.host == v.host && u.port == v.port
  }

  /**
   * For every order of events: the promise has settled exactly once by the deadline at the
   * latest, after at most maxRedirects + 1 requests, and the configured headers went exactly
   * to the requests whose origin is the configured one.
   */
  lemma SettlesOnce(o: Options, trace: seq<Timed>)
    ensures var s := Concluded(o, trace);
            && s.settled && |s.resolutions| == 1 && s.settledAt <= o.timeoutMs * NS_PER_MS
            && s.resolutions[0].responseTime <= o.timeoutMs
            && |s.requests| <= o.maxRedirects + 1
            && forall r :: r in s.requests ==> (r.carriesHeaders <==> IsSameOrigin(r.url, o.url))
  {
    InvReachable(o, trace);
  }

  /** Nothing that happens later takes the resolution back or adds another. */
  lemma {:induction false} ResolutionIsFinal(o: Options, trace: seq<Timed>, more: seq<Timed>)
    ensures Run(o, trace).settled ==> Run(o, trace + more).resolutions == Run(o, trace).resolutions
  {
    if more == [] {
      assert trace + more == trace;
    } else {
      var n := |more| - 1;
      ResolutionIsFinal(o, trace, more[..n]);
      assert (trace + more)[..|trace + more| - 1] == trace + more[..n];
      InvReachable(o, trace);
      InvReachable(o, trace + more[..n]);
      InvReachable(o, trace + more);
      DeliverInv(o, Run(o, trace + more[..n]), more[n]);
    }
  }

  // ---------------------------------------------------------------- what a resolution means

  /**
   * UP is exactly a status in 200..399 that was not given up on for its redirects.  A retry is worth it only after
   * the deadline, an overload or server status, or a transient transport error, and always
   * after one of those, never after a stable DNS or certificate answer; redirects are
   * given up on only when the budget is spent.
   */
  predicate WellGraded(o: Options, r: Result) {
    && (r.up <==> r.errorCode.None?)
    && (r.up <==> r.statusCode.Some? && 200 <= r.statusCode.value < 400 && r.errorCode != Some(ERR_TOO_MANY_REDIRECTS))
    && (r.up ==> r.statusCode.Some? && 200 <= r.statusCode.value < 400 && !r.retryable)
    && (!r.up ==>
          match r.errorCode.value
          case ERR_CHECK_TIMEOUT => r.retryable && r.statusCode.None?
          case HttpStatus(status) =>
            && r.statusCode == Some(status) && !(200 <= status < 400)
            && (r.retryable <==> status in {408, 429} || 500 <= status)
          case Transport(code) => r.statusCode.None? && (r.retryable <==> IsTransient(code))
          case ERR_TOO_MANY_REDIRECTS => !r.retryable && r.statusCode.Some? && r.redirects == o.maxRedirects
          case _ => !r.retryable && r.statusCode.None?)
  }

  /** Connections that broke or timed out, unreachable hosts, and a DNS server that did not answer. */
  predicate IsTransient(code: string) {
    || code in {"ECONNRESET", "ECONNREFUSED", "ECONNABORTED", "EPIPE", "ENETRESET"}
    || code in {"ETIMEDOUT", "ESOCKETTIMEDOUT", "ERR_CHECK_TIMEOUT"}
    || code in {"EHOSTUNREACH", "ENETUNREACH", "EAI_AGAIN"}
  }

  ghost predicate AllGraded(o: Options, s: State) {
    s.redirects <= o.maxRedirects && forall r :: r in s.resolutions ==> WellGraded(o, r)
  }

  lemma DeliverGraded(o: Options, s: State, e: Timed)
    requires AllGraded(o, s)
    ensures AllGraded(o, Deliver(o, s, e))
  {
  }

  lemma {:induction false} GradedReachable(o: Options, trace: seq<Timed>)
    ensures AllGraded(o, Run(o, trace))
  {
    if trace != [] {
      GradedReachable(o, trace[..|trace| - 1]);
      DeliverGraded(o, Run(o, trace[..|trace| - 1]), trace[|trace| - 1]);
    }
  }

  /** Whatever the events, the attempt's result is well graded. */
  lemma ResultIsGraded(o: Options, trace: seq<Timed>)
    ensures |Concluded(o, trace).resolutions| == 1 && WellGraded(o, Concluded(o, trace).resolutions[0])
  {
    SettlesOnce(o, trace);
    GradedReachable(o, trace);
  }

  /** A response that is read or refused instead of followed. */
  predicate IsFinalAnswer(o: Options, s: State, e: Event) {
    e.Response? && !(e.location.Some? && 300 <= e.status < 400 && s.redirects < o.maxRedirects)
  }

  /**
   * What an answer that is not followed means once it has been read out in time: UP iff its
   * status is in 200..399 and it does not carry a Location with the redirect budget spent.
   * So even a 2xx with a Location is DOWN at the end of a redirect chain.
   */
  lemma AnswerDecides(o: Options, trace: seq<Timed>, answer: Timed, end: Timed, more: seq<Timed>)
    requires !Run(o, trace).settled && IsFinalAnswer(o, Run(o, trace), answer.event)
    requires Delivers(o, Run(o, trace), answer.at, answer.event)
    requires end.event == BodyDone(answer.event.hop) && answer.at <= end.at <= o.timeoutMs * NS_PER_MS
    ensures var s := Run(o, trace + [answer] + [end] + more);
            && s.settled && |s.resolutions| == 1
            && s.resolutions[0].statusCode == Some(answer.event.status)
            && s.resolutions[0].redirects == Run(o, trace).redirects
            && s.resolutions[0].timings.ttfb == Some(Ms(answer.at))
            && (s.resolutions[0].up <==>
                  200 <= answer.event.status < 400
                  && !(answer.event.location.Some? && o.maxRedirects <= Run(o, trace).redirects))
  {
    InvReachable(o, trace);
    var s0, h := Run(o, trace), answer.event.hop;
    var s1, s2 := Run(o, trace + [answer]), Run(o, trace + [answer] + [end]);
    assert (trace + [answer])[..|trace|] == trace;
    assert (trace + [answer] + [end])[..|trace| + 1] == trace + [answer];
    assert s1 == OnResponse(o, s0, answer.at, h, answer.event.status, answer.event.location);
    assert s2 == Deliver(o, s1, end);
    ResolutionIsFinal(o, trace + [answer] + [end], more);
    SettledStays(o, trace + [answer] + [end], more);
  }

  /** Where a probe begins: one request for the configured address, or a refusal that makes none. */
  lemma FirstRequest(o: Options)
    ensures var s := Run(o, []);
            if o.url.Malformed? then IsRefused(s, [], 0, ERR_INVALID_URL)
            else if o.url.scheme == OTHER then IsRefused(s, [], 0, ERR_UNSUPPORTED_PROTOCOL)
            else
              && !s.settled && s.resolutions == [] && s.redirects == 0 && s.requests == [Request(o.url, true)]
              && |s.hops| == 1 && IsNewHop(s.hops[0], 0, o.url)
  {
  }

  /** A hop that starts its clock now, expects a secure connection iff the address does, and has seen nothing yet. */
  predicate IsNewHop(h: Hop, at: nat, target: Url) {
    && target.Url? && h.start == at && (h.secure <==> target.scheme == HTTPS)
    && h.dns.None? && h.tcp.None? && h.tls.None? && !h.responded && h.awaitingBody.None?
  }

  /** Settled by a refusal of an address, with no further request. */
  predicate IsRefused(s: State, requests: seq<Request>, redirects: nat, code: ErrorCode) {
    && s.settled && s.requests == requests && s.redirects == redirects && |s.resolutions| == 1
    && var r := s.resolutions[0];
       !r.up && r.errorCode == Some(code) && r.statusCode.None? && !r.retryable && r.redirects == redirects
  }

  /**
   * Where a followed redirect leads: to exactly one more request, for its target, with headers
   * iff that has the configured origin; or, if the target cannot be requested, to the refusal
   * that says why.
   */
  lemma RedirectIsFollowed(o: Options, trace: seq<Timed>, answer: Timed)
    requires var s := Run(o, trace);
             && !s.settled && answer.at <= o.timeoutMs * NS_PER_MS && Delivers(o, s, answer.at, answer.event)
             && answer.event.Response? && answer.event.location.Some? && 300 <= answer.event.status < 400
             && s.redirects < o.maxRedirects
    ensures var s, s', target := Run(o, trace), Run(o, trace + [answer]), answer.event.location.value;
            if target.Malformed? then IsRefused(s', s.requests, s.redirects + 1, ERR_INVALID_URL)
            else if target.scheme == OTHER then IsRefused(s', s.requests, s.redirects + 1, ERR_UNSUPPORTED_PROTOCOL)
            else
              && s'.requests == s.requests + [Request(target, IsSameOrigin(target, o.url))]
              && s'.redirects == s.redirects + 1 && !s'.settled && s'.resolutions == []
              && |s'.hops| == |s.hops| + 1 && IsNewHop(s'.hops[|s.hops|], answer.at, target)
  {
    InvReachable(o, trace);
    RunSnoc(o, trace, answer);
  }

  /** A transport error that finds the probe unsettled decides it, under its own code. */
  lemma ErrorDecides(o: Options, trace: seq<Timed>, e: Timed, more: seq<Timed>)
    requires !Run(o, trace).settled && e.at <= o.timeoutMs * NS_PER_MS
    requires e.event.RequestError? && Delivers(o, Run(o, trace), e.at, e.event)
    ensures var s := Run(o, trace + [e] + more);
            && |s.resolutions| == 1
            && var r := s.resolutions[0];
               && !r.up && r.errorCode == Some(Transport(e.event.code)) && r.retryable == IsTransient(e.event.code)
               && r.responseTime == Ms(e.at)
  {
    InvReachable(o, trace);
    RunSnoc(o, trace, e);
    ResolutionIsFinal(o, trace + [e], more);
  }

  /** A probe that is still unsettled at the deadline ends there, as a timeout worth a retry. */
  lemma DeadlineDecides(o: Options, trace: seq<Timed>)
    requires !Run(o, trace).settled
    ensures var s := Concluded(o, trace);
            && |s.resolutions| == 1 && s.settledAt == o.timeoutMs * NS_PER_MS
            && var r := s.resolutions[0];
               !r.up && r.errorCode == Some(ERR_CHECK_TIMEOUT) && r.retryable && r.responseTime == o.timeoutMs
  {
    InvReachable(o, trace);
  }

  lemma {:induction false} SettledStays(o: Options, trace: seq<Timed>, more: seq<Timed>)
    requires Run(o, trace).settled
    ensures Run(o, trace + more).settled
  {
    if more == [] {
      assert trace + more == trace;
    } else {
      SettledStays(o, trace, more[..|more| - 1]);
      assert (trace + more)[..|trace + more| - 1] == trace + more[..|more| - 1];
    }
  }

  // ---------------------------------------------------------------- phase arithmetic

  /** Whole milliseconds, rounded down. */
  lemma MsSpec(ns: nat)
    ensures 1_000_000 * Ms(ns) <= ns < 1_000_000 * (Ms(ns) + 1)
  {
  }

  lemma FloorsAdd(a: nat, b: nat)
    ensures Ms(a) + Ms(b) <= Ms(a + b)
  {
  }

  lemma MsMono(a: nat, b: nat)
    requires a <= b
    ensures Ms(a) <= Ms(b)
  {
  }

  function Own(h: Hop): nat {
    Value(h.dns) + Value(h.tcp) + Value(h.tls)
  }

  /**
   * Hop-local floored differences telescope: a hop's phases add up to the floored time of its
   * latest phase event, and whole hops lie end to end.
   */
  ghost predicate TimeInv(s: State, now: nat) {
    && (forall i :: 0 <= i < |s.hops| ==> HopOk(s.hops[i], i == |s.hops| - 1, now))
    && ChainOk(s, now)
    && (forall r :: r in s.resolutions ==> Consistent(r))
  }

  predicate HopOk(h: Hop, isLast: bool, now: nat) {
    && h.start <= now && Own(h) <= Ms(now - h.start)
    && (!isLast ==> h.responded)
    && (h.awaitingBody.Some? ==> h.responded && isLast)
  }

  predicate ChainOk(s: State, now: nat) {
    if s.hops == [] then Setup(s.timings) == 0
    else
      var last := s.hops[|s.hops| - 1];
      && Own(last) <= Setup(s.timings) <= Ms(last.start) + Own(last)
      && (last.responded ==> s.timings.ttfb.Some? && Setup(s.timings) <= s.timings.ttfb.value <= Ms(now))
  }

  /** Setup never exceeds the total, and fits before the first byte whenever a status was graded. */
  predicate Consistent(r: Result) {
    && r.timings.total == Some(r.responseTime)
    && Setup(r.timings) <= r.responseTime
    && (r.statusCode.Some? ==> r.timings.ttfb.Some? && Setup(r.timings) <= r.timings.ttfb.value <= r.responseTime)
  }

  lemma SetupWithinNow(s: State, now: nat)
    requires TimeInv(s, now)
    ensures Setup(s.timings) <= Ms(now)
  {
    if s.hops != [] {
      var last := s.hops[|s.hops| - 1];
      FloorsAdd(last.start, now - last.start);
    }
  }

  lemma FinishTimes(s: State, now: nat, r: Result)
    requires TimeInv(s, now)
    requires r.statusCode.Some? ==> s.hops != [] && s.hops[|s.hops| - 1].responded
    ensures TimeInv(Finish(s, now, r), now)
  {
    SetupWithinNow(s, now);
  }

  lemma LaterTimes(s: State, now: nat, later: nat)
    requires TimeInv(s, now) && now <= later
    ensures TimeInv(s, later)
  {
    MsMono(now, later);
    forall i | 0 <= i < |s.hops| ensures HopOk(s.hops[i], i == |s.hops| - 1, later) {
      assert HopOk(s.hops[i], i == |s.hops| - 1, now);
      MsMono(now - s.hops[i].start, later - s.hops[i].start);
    }
  }

  lemma PhaseTimes(o: Options, s: State, at: nat, e: Event)
    requires TimeInv(s, at) && Delivers(o, s, at, e) && IsPhase(e)
    ensures TimeInv(Handle(o, s, at, e), at)
  {
    var s', h := Handle(o, s, at, e), e.hop;
    assert h == |s.hops| - 1;
    assert s'.resolutions == s.resolutions;
    assert Own(s'.hops[h]) == Ms(at - s.hops[h].start);
  }

  lemma IssueTimes(o: Options, s: State, at: nat, target: Url)
    requires TimeInv(s, at)
    requires s.hops != [] ==> s.hops[|s.hops| - 1].responded && s.hops[|s.hops| - 1].awaitingBody.None?
    ensures TimeInv(Issue(o, s, at, target), at)
  {
    SetupWithinNow(s, at);
    if target.Malformed? || target.scheme == OTHER {
      FinishTimes(s, at, Down(None, if target.Malformed? then ERR_INVALID_URL else ERR_UNSUPPORTED_PROTOCOL, false));
    }
  }

  /**
   * The three phases divide a hop's setup time: up to the lookup, from there to the connection,
   * from there to the secure connection; and each goes to its own total and no other.
   */
  lemma PhasesDivide(o: Options, s: State, h: nat, t1: nat, t2: nat, t3: nat)
    requires t1 <= t2 <= t3 && Delivers(o, s, t1, Lookup(h)) && s.hops[h].secure
    ensures var a := Handle(o, s, t1, Lookup(h));
            && Delivers(o, a, t2, Connect(h))
            && var b := Handle(o, a, t2, Connect(h));
               && Delivers(o, b, t3, SecureConnect(h))
               && var c := Handle(o, b, t3, SecureConnect(h));
                  && Value(c.timings.dns) - Value(s.timings.dns) == Ms(t1 - s.hops[h].start)
                  && Value(c.timings.tcp) - Value(s.timings.tcp) == Ms(t2 - s.hops[h].start) - Ms(t1 - s.hops[h].start)
                  && Value(c.timings.tls) - Value(s.timings.tls) == Ms(t3 - s.hops[h].start) - Ms(t2 - s.hops[h].start)
                  && c.timings.ttfb == s.timings.ttfb && c.timings.total == s.timings.total
  {
    MsMono(t1 - s.hops[h].start, t2 - s.hops[h].start);
    MsMono(t2 - s.hops[h].start, t3 - s.hops[h].start);
  }

  /** Without a lookup, as for a numeric address, the connection takes the whole time. */
  lemma ConnectWithoutLookup(o: Options, s: State, h: nat, at: nat)
    requires Delivers(o, s, at, Connect(h)) && s.hops[h].dns.None?
    ensures var s' := Handle(o, s, at, Connect(h));
            && Value(s'.timings.tcp) - Value(s.timings.tcp) == Ms(at - s.hops[h].start)
            && s'.timings.dns == s.timings.dns && s'.timings.tls == s.timings.tls
  {
  }

  /** The first byte comes no earlier than the phases, and the hop has no more of them. */
  lemma RespondedTimes(o: Options, s: State, at: nat, h: nat, status: int, location: Option<Url>)
    requires TimeInv(s, at) && Delivers(o, s, at, Response(h, status, location))
    ensures TimeInv(Responded(s, at, h), at)
    ensures var last := Responded(s, at, h).hops[|s.hops| - 1]; last.responded && last.awaitingBody.None?
  {
    SetupWithinNow(s, at);
  }

  lemma RedirectTimes(o: Options, s: State, at: nat, target: Url)
    requires TimeInv(s, at) && s.hops != [] && s.hops[|s.hops| - 1].responded && s.hops[|s.hops| - 1].awaitingBody.None?
    ensures TimeInv(Issue(o, s.(redirects := s.redirects + 1), at, target), at)
  {
    IssueTimes(o, s.(redirects := s.redirects + 1), at, target);
  }

  lemma ResponseTimes(o: Options, s: State, at: nat, h: nat, status: int, location: Option<Url>)
    requires TimeInv(s, at) && Delivers(o, s, at, Response(h, status, location))
    ensures TimeInv(OnResponse(o, s, at, h, status, location), at)
  {
    RespondedTimes(o, s, at, h, status, location);
    RoutedTimes(o, Responded(s, at, h), at, h, status, location);
  }

  lemma RoutedTimes(o: Options, s: State, at: nat, h: nat, status: int, location: Option<Url>)
    requires TimeInv(s, at) && |s.hops| == h + 1 && s.hops[h].responded && s.hops[h].awaitingBody.None?
    ensures TimeInv(Routed(o, s, at, h, status, location), at)
  {
    if location.Some? && 300 <= status < 400 && s.redirects < o.maxRedirects {
      RedirectTimes(o, s, at, location.value);
    } else if location.Some? && o.maxRedirects <= s.redirects {
      FinishTimes(s, at, Down(Some(status), ERR_TOO_MANY_REDIRECTS, false));
    } else {
      AwaitBodyTimes(s, at, h, status);
    }
  }

  lemma AwaitBodyTimes(s: State, at: nat, h: nat, status: int)
    requires TimeInv(s, at) && |s.hops| == h + 1 && s.hops[h].responded
    ensures TimeInv(s.(hops := s.hops[h := s.hops[h].(awaitingBody := Some(status))]), at)
  {
  }

  lemma ElapseTimes(o: Options, s: State, now: nat, at: nat)
    requires TimeInv(s, now) && now <= at && (!s.settled ==> now <= o.timeoutMs * NS_PER_MS)
    ensures TimeInv(Elapse(o, s, at), at)
    ensures !Elapse(o, s, at).settled ==> at <= o.timeoutMs * NS_PER_MS
  {
    var deadline := o.timeoutMs * NS_PER_MS;
    if deadline < at && !s.settled {
      LaterTimes(s, now, deadline);
      FinishTimes(s, deadline, Timeout);
      LaterTimes(Elapse(o, s, at), deadline, at);
    } else {
      LaterTimes(s, now, at);
    }
  }

  lemma HandleTimes(o: Options, s: State, at: nat, e: Event)
    requires TimeInv(s, at) && Delivers(o, s, at, e)
    ensures TimeInv(Handle(o, s, at, e), at)
  {
    match e
    case Response(h, status, location) => ResponseTimes(o, s, at, h, status, location);
    case BodyDone(h) => FinishTimes(s, at, Graded(s.hops[h].awaitingBody.value));
    case RequestError(h, code) => FinishTimes(s, at, Down(None, Transport(code), code in RETRYABLE_CODES));
    case Deadline => FinishTimes(s, at, Timeout);
    case _ => PhaseTimes(o, s, at, e);
  }

  lemma DeliverTimes(o: Options, s: State, now: nat, e: Timed)
    requires TimeInv(s, now) && now <= e.at && (!s.settled ==> now <= o.timeoutMs * NS_PER_MS)
    ensures TimeInv(Deliver(o, s, e), e.at)
    ensures !Deliver(o, s, e).settled ==> e.at <= o.timeoutMs * NS_PER_MS
  {
    ElapseTimes(o, s, now, e.at);
    var s1 := Elapse(o, s, e.at);
    if Delivers(o, s1, e.at, e.event) { HandleTimes(o, s1, e.at, e.event); }
  }

  lemma {:induction false} TimesReachable(o: Options, trace: seq<Timed>)
    requires InOrder(trace)
    ensures var s, now := Run(o, trace), if trace == [] then 0 else trace[|trace| - 1].at;
            TimeInv(s, now) && (!s.settled ==> now <= o.timeoutMs * NS_PER_MS)
  {
    if trace == [] {
      IssueTimes(o, State(0, false, 0, [], Timings(None, None, None, None, None), [], []), 0, o.url);
    } else {
      var n := |trace| - 1;
      TimesReachable(o, trace[..n]);
      DeliverTimes(o, Run(o, trace[..n]), if n == 0 then 0 else trace[n - 1].at, trace[n]);
    }
  }

  /**
   * Across any redirect chain the result's phases satisfy dns + tcp + tls <= total, and
   * dns + tcp + tls <= ttfb <= total whenever it carries a status code.
   */
  lemma PhasesTelescope(o: Options, trace: seq<Timed>)
    requires InOrder(trace)
    ensures var s := Concluded(o, trace); |s.resolutions| == 1 && Consistent(s.resolutions[0])
  {
    TimesReachable(o, trace);
    InvReachable(o, trace);
    var s, now, deadline := Run(o, trace), if trace == [] then 0 else trace[|trace| - 1].at, o.timeoutMs * NS_PER_MS;
    if !s.settled {
      LaterTimes(s, now, deadline);
      FinishTimes(s, deadline, Timeout);
    }
  }

  /**
   * The result shares its timings object with the probe, and a name lookup that is delivered
   * after the deadline still writes to it: read later, that object can show a setup time beyond
   * the total.  Whether one is delivered once the socket is destroyed is up to the platform.
   */
  lemma LateLookupOvertakesTotal(o: Options, late: nat)
    requires o.url.Url? && o.url.scheme != OTHER && o.timeoutMs < late
    ensures var s := Run(o, [Timed(late * NS_PER_MS, Lookup(0))]);
            s.settled && s.timings.total == Some(o.timeoutMs) && o.timeoutMs < Setup(s.timings)
  {
    assert [Timed(late * NS_PER_MS, Lookup(0))][..0] == [];
  }

  function SumOwn(hops: seq<Hop>): nat {
    if hops == [] then 0 else SumOwn(hops[..|hops| - 1]) + Own(hops[|hops| - 1])
  }

  lemma SumOwnLast(hops: seq<Hop>, h: Hop)
    requires hops != []
    ensures SumOwn(hops[|hops| - 1 := h]) == SumOwn(hops[..|hops| - 1]) + Own(h)
    ensures SumOwn(hops + [h]) == SumOwn(hops) + Own(h)
  {
    assert hops[|hops| - 1 := h][..|hops| - 1] == hops[..|hops| - 1];
    assert (hops + [h])[..|hops|] == hops;
  }

  /** The shared phase totals are the sums over the hops. */
  ghost predicate SetupIsSum(s: State) {
    Setup(s.timings) == SumOwn(s.hops)
  }

  lemma PhaseKeepsSum(o: Options, s: State, at: nat, e: Event)
    requires TimeInv(s, at) && SetupIsSum(s) && Delivers(o, s, at, e) && IsPhase(e)
    ensures var s' := Handle(o, s, at, e);
            && SetupIsSum(s') && e.hop == |s.hops| - 1
            && s'.timings.total == s.timings.total && s'.settled == s.settled
            && Setup(s'.timings) == SumOwn(s.hops[..e.hop]) + Ms(at - s.hops[e.hop].start)
  {
    var s', h := Handle(o, s, at, e), e.hop;
    assert HopOk(s.hops[h], h == |s.hops| - 1, at);
    PhaseOwn(o, s, at, e);
    assert s'.hops == s.hops[h := s'.hops[h]];
    SumOwnLast(s.hops, s'.hops[h]);
  }

  /** A phase event brings its hop's phases up to the time since the hop began, and the shared ones by as much. */
  lemma PhaseOwn(o: Options, s: State, at: nat, e: Event)
    requires Delivers(o, s, at, e) && IsPhase(e) && Own(s.hops[e.hop]) <= Ms(at - s.hops[e.hop].start)
    ensures var s' := Handle(o, s, at, e);
            && |s'.hops| == |s.hops| && Own(s'.hops[e.hop]) == Ms(at - s.hops[e.hop].start)
            && Setup(s'.timings) - Setup(s.timings) == Own(s'.hops[e.hop]) - Own(s.hops[e.hop])
  {
  }

  lemma AnsweredKeepsSum(o: Options, s: State, at: nat, h: nat)
    requires SetupIsSum(s) && |s.hops| == h + 1
    ensures SetupIsSum(Responded(s, at, h))
  {
    SumOwnLast(s.hops, Responded(s, at, h).hops[h]);
  }

  lemma RoutedKeepsSum(o: Options, s: State, at: nat, h: nat, status: int, location: Option<Url>)
    requires SetupIsSum(s) && |s.hops| == h + 1
    ensures SetupIsSum(Routed(o, s, at, h, status, location))
  {
    if location.Some? && 300 <= status < 400 && s.redirects < o.maxRedirects {
      IssueKeepsSum(o, s.(redirects := s.redirects + 1), at, location.value);
    } else {
      SumOwnLast(s.hops, s.hops[h].(awaitingBody := Some(status)));
    }
  }

  lemma IssueKeepsSum(o: Options, s: State, at: nat, target: Url)
    requires SetupIsSum(s)
    ensures SetupIsSum(Issue(o, s, at, target))
  {
    if target.Url? && target.scheme != OTHER {
      var hop := Hop(at, target.scheme == HTTPS, None, None, None, false, None);
      assert (s.hops + [hop])[..|s.hops|] == s.hops;
    }
  }

  lemma HandleKeepsSum(o: Options, s: State, at: nat, e: Event)
    requires TimeInv(s, at) && SetupIsSum(s) && Delivers(o, s, at, e)
    ensures SetupIsSum(Handle(o, s, at, e))
  {
    if IsPhase(e) {
      PhaseKeepsSum(o, s, at, e);
    } else if e.Response? {
      AnsweredKeepsSum(o, s, at, e.hop);
      RoutedKeepsSum(o, Responded(s, at, e.hop), at, e.hop, e.status, e.location);
    }
  }

  function LastTime(trace: seq<Timed>): nat {
    if trace == [] then 0 else trace[|trace| - 1].at
  }

  lemma DeliverKeepsSum(o: Options, s: State, now: nat, e: Timed)
    requires TimeInv(s, now) && now <= e.at && (!s.settled ==> now <= o.timeoutMs * NS_PER_MS) && SetupIsSum(s)
    ensures SetupIsSum(Deliver(o, s, e))
  {
    ElapseTimes(o, s, now, e.at);
    var s1 := Elapse(o, s, e.at);
    if Delivers(o, s1, e.at, e.event) { HandleKeepsSum(o, s1, e.at, e.event); }
  }

  lemma {:induction false} SumReachable(o: Options, trace: seq<Timed>)
    requires InOrder(trace)
    ensures SetupIsSum(Run(o, trace))
  {
    if trace == [] {
      IssueKeepsSum(o, State(0, false, 0, [], Timings(None, None, None, None, None), [], []), 0, o.url);
    } else {
      var n := |trace| - 1;
      SumReachable(o, trace[..n]);
      TimesReachable(o, trace[..n]);
      DeliverKeepsSum(o, Run(o, trace[..n]), LastTime(trace[..n]), trace[n]);
    }
  }

  /**
   * Exactly which late phase events do that: one that arrives after settlement pushes the
   * shared setup beyond the total iff the earlier hops' phases and the time since its own hop
   * began come to more than the total.
   */
  lemma LatePhaseOvertakes(o: Options, trace: seq<Timed>, late: Timed)
    requires InOrder(trace) && LastTime(trace) <= late.at && IsPhase(late.event)
    requires var s := Elapse(o, Run(o, trace), late.at); s.settled && Delivers(o, s, late.at, late.event)
    ensures var s, s' := Elapse(o, Run(o, trace), late.at), Run(o, trace + [late]);
            && late.event.hop == |s.hops| - 1
            && s'.timings.total == s.timings.total == Some(Ms(s.settledAt))
            && (Ms(s.settledAt) < Setup(s'.timings) <==>
                  Ms(s.settledAt) < SumOwn(s.hops[..late.event.hop]) + Ms(late.at - s.hops[late.event.hop].start))
  {
    LateState(o, trace, late.at);
    RunSnoc(o, trace, late);
    PhaseKeepsSum(o, Elapse(o, Run(o, trace), late.at), late.at, late.event);
  }

  lemma LateState(o: Options, trace: seq<Timed>, at: nat)
    requires InOrder(trace) && LastTime(trace) <= at && Elapse(o, Run(o, trace), at).settled
    ensures var s := Elapse(o, Run(o, trace), at);
            TimeInv(s, at) && SetupIsSum(s) && s.timings.total == Some(Ms(s.settledAt))
  {
    SumReachable(o, trace);
    TimesReachable(o, trace);
    TotalReachable(o, trace);
    ElapseTimes(o, Run(o, trace), LastTime(trace), at);
  }

  lemma RunSnoc(o: Options, trace: seq<Timed>, e: Timed)
    ensures Run(o, trace + [e]) == Deliver(o, Run(o, trace), e)
  {
    assert (trace + [e])[..|trace|] == trace;
  }

  lemma {:induction false} TotalReachable(o: Options, trace: seq<Timed>)
    ensures Run(o, trace).settled ==> Run(o, trace).timings.total == Some(Ms(Run(o, trace).settledAt))
  {
    if trace != [] { TotalReachable(o, trace[..|trace| - 1]); }
  }

  /** Until a phase event arrives after settlement, the shared object is the one that was resolved with. */
  lemma {:induction false} SharedTimingsAgree(o: Options, trace: seq<Timed>)
    requires forall k :: 0 <= k < |trace| && Elapse(o, Run(o, trace[..k]), trace[k].at).settled ==>
               !IsPhase(trace[k].event)
    ensures Run(o, trace).settled ==>
              |Run(o, trace).resolutions| == 1 && Run(o, trace).timings == Run(o, trace).resolutions[0].timings
  {
    InvReachable(o, trace);
    if trace != [] {
      var n := |trace| - 1;
      forall k | 0 <= k < n && Elapse(o, Run(o, trace[..n][..k]), trace[..n][k].at).settled
        ensures !IsPhase(trace[k].event)
      {
        assert trace[..n][..k] == trace[..k];
      }
      SharedTimingsAgree(o, trace[..n]);
      InvReachable(o, trace[..n]);
    }
  }
}
