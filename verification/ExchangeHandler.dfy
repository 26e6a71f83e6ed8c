/** One exchange request from start to finish, as the handler serves it: what it logs and answers, and
    why that is a run of the pipeline in which nobody interferes. */
module ExchangeHandler {
  import opened AdminTracker
  import AnomalyDetection
  import opened AnomalyDetector
  import opened ExchangePipeline
  import opened RoleMapping
  import opened TokenClaims
  import opened Tracking
  import opened Wrappers

  /** A request with a token, when it is served and how the certificate issuer will respond. */
  datatype Request = Request(
    token: Token, clientIP: string, checked: Time, accepted: Time, finished: Time, issues: bool,
    expiry: Time, ttl: string, fingerprint: string)

  datatype Response =
    | MethodNotAllowed | TooLarge | BadJson | TokenRequired
    | Unauthorized | Forbidden | Failed | Issued(roles: seq<string>)

  function Rejected(q: Request): Event {
    Event(AuthFailure, q.accepted, "", "", "", q.clientIP, [], None, "", "")
  }

  function Admitted(q: Request, claims: Claims): Event {
    Event(AuthSuccess, q.accepted, StringClaim(claims, "sub"), StringClaim(claims, "email"), StringClaim(claims, "iss"),
          q.clientIP, [], None, "", "")
  }

  /** An event without the issuer. */
  function NotIssued(q: Request, claims: Claims): Event {
    Event(CertError, q.finished, StringClaim(claims, "sub"), StringClaim(claims, "email"), "", q.clientIP, [], None, "", "")
  }

  function Certified(q: Request, claims: Claims, roles: seq<string>): Event {
    Event(CertIssued, q.finished, StringClaim(claims, "sub"), StringClaim(claims, "email"), StringClaim(claims, "iss"),
          q.clientIP, roles, Some(q.expiry), q.ttl, q.fingerprint)
  }

  /** As the handler makes it; the logger sets the time. */
  function Unstamped(e: Event): Event {
    e.(timestamp := ZERO_TIME)
  }

  /** What the request adds to the audit log, given the roles chosen for it. */
  function Events(c: Config, q: Request, roles: seq<string>): seq<Event> {
    match c.validate(q.token, q.checked)
    case None => [Rejected(q)]
    case Some(claims) =>
      if roles == [] then [Admitted(q, claims)]
      else if q.issues then [Admitted(q, claims), Certified(q, claims, roles)]
      else [Admitted(q, claims), NotIssued(q, claims)]
  }

  function Answer(c: Config, q: Request, roles: seq<string>): Response {
    if c.validate(q.token, q.checked).None? then Unauthorized
    else if roles == [] then Forbidden
    else if q.issues then Issued(roles)
    else Failed
  }

  ghost predicate Adds(added: seq<Event>, kind: EventType) {
    exists i: nat :: i < |added| && added[i].kind == kind
  }

  /** What an answer means for the audit log: 401 for a failed authentication, 500 for a certificate
      that could not be issued, 403 for an authentication alone, and a certificate with its roles. */
  ghost predicate AnswerFitsLog(r: Response, added: seq<Event>) {
    && (r.Unauthorized? <==> Adds(added, AuthFailure))
    && (r.Failed? <==> Adds(added, CertError))
    && (r.Issued? <==> Adds(added, CertIssued))
    && (r.Issued? ==> r.roles != [] && forall e <- added :: e.kind.CertIssued? ==> e.roles == r.roles)
    && (r.Forbidden? <==> |added| == 1 && added[0].kind.AuthSuccess?)
  }

  lemma AnswersFitLog(c: Config, q: Request, roles: seq<string>)
    ensures AnswerFitsLog(Answer(c, q, roles), Events(c, q, roles))
  {
    var events := Events(c, q, roles);
    assert events != [] && (|events| > 1 ==> events[1].kind != AuthSuccess);
    if Answer(c, q, roles).Unauthorized? {
      assert events[0].kind == AuthFailure;
    } else if !Answer(c, q, roles).Forbidden? {
      assert events[1].kind == if q.issues then CertIssued else CertError;
    }
  }

  /** The tracker's records grow by one exactly when a certificate was issued, and hold its subject,
      email, client, roles, lifetime and fingerprint, from the claims and the request. */
  lemma IssuedIsRecorded(c: Config, q: Request, roles: seq<string>, history: seq<Event>)
    ensures AllRecords(history + Events(c, q, roles)) ==
            if Answer(c, q, roles).Issued? then
              var claims := c.validate(q.token, q.checked).value;
              AllRecords(history) + [CertRecord(StringClaim(claims, "sub"), StringClaim(claims, "email"), q.finished, q.expiry,
                                                q.clientIP, roles, q.ttl, q.fingerprint)]
            else AllRecords(history)
  {
    var events := Events(c, q, roles);
    assert (history + [events[0]])[..|history|] == history;
    if |events| == 2 {
      assert history + events == (history + [events[0]]) + [events[1]];
      assert ((history + [events[0]]) + [events[1]])[..|history| + 1] == history + [events[0]];
    } else {
      assert history + events == history + [events[0]];
    }
  }

  ghost predicate Choosable(c: Config, q: Request, roles: seq<string>) {
    c.validate(q.token, q.checked).Some? ==> MayChoose(c, c.validate(q.token, q.checked).value, roles)
  }

  /** The listeners after several events. */
  function HandleEach(ts: seq<Tracked>, events: seq<Event>): seq<Tracked> {
    if events == [] then ts else HandleAll(HandleEach(ts, events[..|events| - 1]), events[|events| - 1])
  }

  lemma HandleOneOrTwo(ts: seq<Tracked>, a: Event, b: Event)
    ensures HandleEach(ts, [a]) == HandleAll(ts, a)
    ensures HandleEach(ts, [a, b]) == HandleAll(HandleAll(ts, a), b)
  {
    assert [a][..0] == [] && [a, b][..1] == [a];
  }

  /** The handler once the token has been found to carry these claims. */
  method ExchangeClaims(c: Config, log: Logger, q: Request, claims: Claims) returns (r: Response, ghost roles: seq<string>)
    requires log.Valid() && c.validate(q.token, q.checked) == Some(claims)
    modifies log, log.Owner.Keys
    ensures log.Valid() && log.listeners == old(log.listeners)
    ensures forall o <- log.Owner :: o in old(log.Owner) || fresh(o)
    ensures Choosable(c, q, roles) && r == Answer(c, q, roles)
    ensures log.written == old(log.written) + Events(c, q, roles)
    ensures log.Values == HandleEach(old(log.Values), Events(c, q, roles))
  {
    ghost var before := log.Values;
    log.Log(Unstamped(Admitted(q, claims)), q.accepted, true);
    var chosen;
    if |c.rules| > 0 {
      chosen := MapRoles(c.rules, c.defaults, claims);
    } else {
      chosen := c.roles;
    }
    HandleOneOrTwo(before, Admitted(q, claims), if q.issues then Certified(q, claims, chosen) else NotIssued(q, claims));
    if |chosen| == 0 {
      return Forbidden, chosen;
    }
    if !q.issues {
      log.Log(Unstamped(NotIssued(q, claims)), q.finished, true);
      return Failed, chosen;
    }
    log.Log(Unstamped(Certified(q, claims, chosen)), q.finished, true);
    return Issued(chosen), chosen;
  }

  /** The handler from the validation of the token on. */
  method Exchange(c: Config, log: Logger, q: Request) returns (r: Response, ghost roles: seq<string>)
    requires log.Valid()
    modifies log, log.Owner.Keys
    ensures log.Valid() && log.listeners == old(log.listeners)
    ensures forall o <- log.Owner :: o in old(log.Owner) || fresh(o)
    ensures Choosable(c, q, roles) && r == Answer(c, q, roles)
    ensures log.written == old(log.written) + Events(c, q, roles)
    ensures log.Values == HandleEach(old(log.Values), Events(c, q, roles))
    ensures old(log.written) <= log.written && AnswerFitsLog(r, log.written[|old(log.written)|..])
  {
    ghost var before, written := log.Values, log.written;
    var validated := c.validate(q.token, q.checked);
    if validated.None? {
      log.Log(Unstamped(Rejected(q)), q.accepted, true);
      HandleOneOrTwo(before, Rejected(q), Rejected(q));
      r, roles := Unauthorized, [];
    } else {
      r, roles := ExchangeClaims(c, log, q, validated.value);
    }
    AnswersFitLog(c, q, roles);
    assert log.written[|written|..] == Events(c, q, roles);
  }

  // ----- from the request line on -----

  /** What reading the body yields: nothing, something else than JSON, or an id_token, empty if there
      is none. */
  datatype Body = Unreadable | NotJson | IDToken(token: Token)

  /** The answer to a request that presents no token. */
  function Refusal(post: bool, body: Body): Option<Response> {
    if !post then Some(MethodNotAllowed)
    else match body
      case Unreadable => Some(TooLarge)
      case NotJson => Some(BadJson)
      case IDToken(token) => if token == "" then Some(TokenRequired) else None
  }

  /** When the detector is told of the token and, if it is refused, of the failure. */
  datatype Watch = Watch(hash: AnomalyDetection.Hash, used: Time, failed: Time)

  /** What the detector has seen after the request. */
  function Watched(t: AnomalyDetection.Tables, cfg: AnomalyDetection.Config, clientIP: string, rejected: bool, w: Watch):
    AnomalyDetection.Tables
  {
    var t' := AnomalyDetection.RecordTokenUse(cfg, t, w.hash, w.used).0;
    if rejected then AnomalyDetection.RecordFailure(cfg, t', clientIP, w.failed).0 else t'
  }

  /** The failures counted go up for the client exactly if one was logged, and for nobody else. */
  ghost predicate FailureIsCounted(t: AnomalyDetection.Tables, t': AnomalyDetection.Tables, cfg: AnomalyDetection.Config,
                                   clientIP: string, now: Time, failed: bool)
  {
    t'.ips == if failed then AnomalyDetection.RecordFailure(cfg, t, clientIP, now).0.ips else t.ips
  }

  lemma WatchedCountsFailure(c: Config, q: Request, roles: seq<string>, t: AnomalyDetection.Tables,
                             cfg: AnomalyDetection.Config, w: Watch)
    ensures FailureIsCounted(t, Watched(t, cfg, q.clientIP, Answer(c, q, roles).Unauthorized?, w), cfg, q.clientIP, w.failed,
                             Adds(Events(c, q, roles), AuthFailure))
  {
    AnswersFitLog(c, q, roles);
  }

  /** The detector, if there is one, and its counters. */
  ghost function ObjectsOf(d: Detector?): set<object>
    reads d
  {
    if d == null then {} else {d} + d.ipMap.Values + d.tokens.Values
  }

  method NoteToken(log: Logger, d: Detector, w: Watch)
    requires log.Valid() && d.Valid() && ObjectsOf(d) !! {log} + log.Owner.Keys
    modifies d, d.tokens.Values
    ensures log.Valid() && unchanged(log) && d.Valid() && ObjectsOf(d) !! {log} + log.Owner.Keys
    ensures forall o <- ObjectsOf(d) :: o in old(ObjectsOf(d)) || fresh(o)
    ensures d.Value() == AnomalyDetection.RecordTokenUse(d.cfg, old(d.Value()), w.hash, w.used).0
  {
    var _ := d.RecordTokenUse(w.hash, w.used);
  }

  method NoteFailure(log: Logger, d: Detector, clientIP: string, w: Watch)
    requires log.Valid() && d.Valid() && ObjectsOf(d) !! {log} + log.Owner.Keys
    modifies d, d.ipMap.Values
    ensures log.Valid() && unchanged(log) && d.Valid()
    ensures d.Value() == AnomalyDetection.RecordFailure(d.cfg, old(d.Value()), clientIP, w.failed).0
  {
    var _ := d.RecordFailure(clientIP, w.failed);
  }

  /** The exchange beside a detector that it leaves alone. */
  method ExchangeBeside(c: Config, log: Logger, d: Detector, q: Request) returns (r: Response, ghost roles: seq<string>)
    requires log.Valid() && d.Valid() && ObjectsOf(d) !! {log} + log.Owner.Keys
    modifies log, log.Owner.Keys
    ensures log.Valid() && log.listeners == old(log.listeners)
    ensures d.Valid() && unchanged(d) && ObjectsOf(d) !! {log} + log.Owner.Keys
    ensures Choosable(c, q, roles) && r == Answer(c, q, roles)
    ensures log.written == old(log.written) + Events(c, q, roles)
    ensures log.Values == HandleEach(old(log.Values), Events(c, q, roles))
  {
    r, roles := Exchange(c, log, q);
  }

  /** An exchange of which the detector learns the token and a failure. */
  method WatchedExchange(c: Config, log: Logger, d: Detector, q: Request, w: Watch) returns (r: Response, ghost roles: seq<string>)
    requires log.Valid() && d.Valid() && ObjectsOf(d) !! {log} + log.Owner.Keys
    modifies log, log.Owner.Keys, ObjectsOf(d)
    ensures log.Valid() && log.listeners == old(log.listeners) && d.Valid()
    ensures Choosable(c, q, roles) && r == Answer(c, q, roles)
    ensures log.written == old(log.written) + Events(c, q, roles)
    ensures log.Values == HandleEach(old(log.Values), Events(c, q, roles))
    ensures d.Value() == Watched(old(d.Value()), d.cfg, q.clientIP, r.Unauthorized?, w)
  {
    NoteToken(log, d, w);
    r, roles := ExchangeBeside(c, log, d, q);
    if r.Unauthorized? {
      NoteFailure(log, d, q.clientIP, w);
    }
  }

  /** A request in full: refused for its form, with nothing logged or counted, or else an exchange. */
  method HandleExchange(c: Config, log: Logger, d: Detector?, post: bool, body: Body, q: Request, w: Watch)
    returns (r: Response, ghost roles: seq<string>)
    requires log.Valid() && (d != null ==> d.Valid()) && ObjectsOf(d) !! {log} + log.Owner.Keys
    modifies log, log.Owner.Keys, ObjectsOf(d)
    ensures log.Valid() && log.listeners == old(log.listeners) && (d != null ==> d.Valid())
    ensures Refusal(post, body).Some? ==>
              && r == Refusal(post, body).value
              && log.written == old(log.written) && log.Values == old(log.Values)
              && (d != null ==> d.Value() == old(d.Value()))
    ensures r.MethodNotAllowed? <==> !post
    ensures r.TooLarge? <==> post && body.Unreadable?
    ensures r.BadJson? <==> post && body.NotJson?
    ensures r.TokenRequired? <==> post && body == IDToken("")
    ensures old(log.written) <= log.written
    ensures var added := log.written[|old(log.written)|..];
            && (added != [] ==> AnswerFitsLog(r, added))
            && (d != null ==> FailureIsCounted(old(d.Value()), d.Value(), d.cfg, q.clientIP, w.failed, Adds(added, AuthFailure)))
    ensures Refusal(post, body).None? ==>
              var q := q.(token := body.token);
              && Choosable(c, q, roles) && r == Answer(c, q, roles)
              && log.written == old(log.written) + Events(c, q, roles)
              && log.Values == HandleEach(old(log.Values), Events(c, q, roles))
              && (d != null ==> d.Value() == Watched(old(d.Value()), d.cfg, q.clientIP, r.Unauthorized?, w))
  {
    if !post {
      return MethodNotAllowed, [];
    }
    match body {
      case Unreadable => return TooLarge, [];
      case NotJson => return BadJson, [];
      case IDToken(token) =>
        if token == "" {
          return TokenRequired, [];
        }
        ghost var before := log.written;
        if d == null {
          r, roles := Exchange(c, log, q.(token := token));
        } else {
          ghost var t := d.Value();
          r, roles := WatchedExchange(c, log, d, q.(token := token), w);
          WatchedCountsFailure(c, q.(token := token), roles, t, d.cfg, w);
        }
        AnswersFitLog(c, q.(token := token), roles);
        assert log.written[|before|..] == Events(c, q.(token := token), roles);
    }
  }

  // ----- the same request in the pipeline -----

  function StepsOf(c: Config, tid: Tid, q: Request, roles: seq<string>): seq<Step> {
    match c.validate(q.token, q.checked)
    case None => [Present(tid, q.token, q.checked, Rejected(q))]
    case Some(claims) =>
      [Present(tid, q.token, q.checked, Admitted(q, claims))] + RestOf(tid, q, claims, roles)
  }

  /** From the choice of roles on. */
  function RestOf(tid: Tid, q: Request, claims: Claims, roles: seq<string>): seq<Step> {
    [ChooseRoles(tid, roles)] + if roles == [] then [] else
      [ExchangePipeline.Issue(tid, q.issues)] +
      [LogOutcome(tid, if q.issues then Certified(q, claims, roles) else NotIssued(q, claims))]
  }

  /** What the whole request changes. */
  function Served(c: Config, s: State, q: Request, roles: seq<string>): State {
    var events := Events(c, q, roles);
    s.(history := s.history + events,
       tracker := if |events| == 1 then Handle(s.tracker, events[0]) else Handle(Handle(s.tracker, events[0]), events[1]),
       refused := s.refused + if Answer(c, q, roles).Forbidden? then 1 else 0,
       calls := if c.validate(q.token, q.checked).None? || roles == [] then s.calls
                else s.calls + [Call(q.token, q.checked, c.validate(q.token, q.checked).value, roles, q.issues)])
  }

  lemma RunStep(c: Config, s: State, step: Step, rest: seq<Step>)
    requires Possible(c, s, step) && Runs(c, Next(c, s, step), rest)
    ensures Runs(c, s, [step] + rest) && Exec(c, s, [step] + rest) == Exec(c, Next(c, s, step), rest)
  {
    assert ([step] + rest)[1..] == rest;
  }

  lemma RestIsARun(c: Config, s: State, s1: State, tid: Tid, q: Request, claims: Claims, roles: seq<string>)
    requires tid !in s.inFlight && Choosable(c, q, roles) && c.validate(q.token, q.checked) == Some(claims)
    requires s1 == Next(c, s, Present(tid, q.token, q.checked, Admitted(q, claims)))
    ensures Runs(c, s1, RestOf(tid, q, claims, roles))
    ensures Exec(c, s1, RestOf(tid, q, claims, roles)) == Served(c, s, q, roles)
  {
    var choose := ChooseRoles(tid, roles);
    var s2 := Next(c, s1, choose);
    if roles == [] {
      assert s2.inFlight == s.inFlight;
      RunStep(c, s1, choose, []);
    } else {
      var issue := ExchangePipeline.Issue(tid, q.issues);
      var outcome := LogOutcome(tid, if q.issues then Certified(q, claims, roles) else NotIssued(q, claims));
      var s3 := Next(c, s2, issue);
      assert Next(c, s3, outcome).inFlight == s.inFlight;
      RunStep(c, s3, outcome, []);
      RunStep(c, s2, issue, [outcome]);
      RunStep(c, s1, choose, [issue] + [outcome]);
    }
  }

  /** A request that nobody interferes with logs, answers and issues as its run of the pipeline. */
  lemma HandlerIsARun(c: Config, s: State, tid: Tid, q: Request, roles: seq<string>)
    requires tid !in s.inFlight && Choosable(c, q, roles)
    ensures Runs(c, s, StepsOf(c, tid, q, roles))
    ensures Exec(c, s, StepsOf(c, tid, q, roles)) == Served(c, s, q, roles)
  {
    match c.validate(q.token, q.checked)
    case None => RunStep(c, s, Present(tid, q.token, q.checked, Rejected(q)), []);
    case Some(claims) =>
      var present := Present(tid, q.token, q.checked, Admitted(q, claims));
      RestIsARun(c, s, Next(c, s, present), tid, q, claims, roles);
      RunStep(c, s, present, RestOf(tid, q, claims, roles));
  }
}
