/** The exchange handler, step by step, for any number of requests at once: a token is validated, the
    outcome is logged, roles are chosen, a certificate is issued or not, and that is logged. */
module ExchangePipeline {
  import opened RoleMapping
  import opened TokenClaims
  import opened Tracking
  import opened Wrappers

  type Tid = nat
  type Token = string

  /** `validate` is what checking a token at some moment yields; keys and lifetimes change it over time. */
  datatype Config = Config(
    rules: seq<Rule>, defaults: seq<string>, roles: seq<string>, validate: (Token, Time) -> Option<Claims>)

  /** ApplyDefaults: without rules there is always at least one static role. */
  function ApplyDefaults(roles: seq<string>, rules: seq<Rule>): seq<string> {
    if roles == [] && rules == [] then ["os:admin"] else roles
  }

  /** A request whose token was accepted: before roles are chosen, before the certificate is
      requested, and with the outcome of that not logged yet. */
  datatype Phase =
    | Accepted(token: Token, at: Time, claims: Claims)
    | Authorised(token: Token, at: Time, claims: Claims, roles: seq<string>)
    | Answered(token: Token, at: Time, claims: Claims, roles: seq<string>, ok: bool)

  /** A call to the certificate issuer, for a token that was checked `at` some moment. */
  datatype Call = Call(token: Token, at: Time, claims: Claims, roles: seq<string>, ok: bool)

  datatype State = State(
    inFlight: map<Tid, Phase>,
    refused: nat,                // history: requests refused for want of a role
    calls: seq<Call>,            // history: calls to the issuer
    history: seq<Event>,         // the audit log
    tracker: Tracked)

  const INIT := State(map[], 0, [], [], FRESH)

  datatype Step =
    | Present(tid: Tid, token: Token, at: Time, e: Event)
    | ChooseRoles(tid: Tid, roles: seq<string>)
    | Issue(tid: Tid, ok: bool)
    | LogOutcome(tid: Tid, e: Event)

  /** The roles the handler may come up with for these claims. */
  ghost predicate MayChoose(c: Config, claims: Claims, roles: seq<string>) {
    if c.rules != [] then IsMapping(c.rules, c.defaults, claims, roles) else roles == c.roles
  }

  ghost predicate Possible(c: Config, s: State, step: Step) {
    match step
    case Present(tid, token, at, e) =>
      tid !in s.inFlight && e.kind == if c.validate(token, at).Some? then AuthSuccess else AuthFailure
    case ChooseRoles(tid, roles) =>
      tid in s.inFlight && s.inFlight[tid].Accepted? && MayChoose(c, s.inFlight[tid].claims, roles)
    case Issue(tid, _) => tid in s.inFlight && s.inFlight[tid].Authorised?
    case LogOutcome(tid, e) =>
      && tid in s.inFlight && s.inFlight[tid].Answered?
      && (if s.inFlight[tid].ok then e.kind == CertIssued && e.roles == s.inFlight[tid].roles else e.kind == CertError)
  }

  /** Logging hands the event to the tracker before the log's lock is released. */
  function Log(s: State, e: Event): State {
    s.(history := s.history + [e], tracker := Handle(s.tracker, e))
  }

  function Next(c: Config, s: State, step: Step): State
    requires Possible(c, s, step)
  {
    match step
    case Present(tid, token, at, e) =>
      if c.validate(token, at).None? then Log(s, e)
      else Log(s.(inFlight := s.inFlight[tid := Accepted(token, at, c.validate(token, at).value)]), e)
    case ChooseRoles(tid, roles) =>
      var p := s.inFlight[tid];
      if |roles| == 0 then s.(inFlight := s.inFlight - {tid}, refused := s.refused + 1)
      else s.(inFlight := s.inFlight[tid := Authorised(p.token, p.at, p.claims, roles)])
    case Issue(tid, ok) =>
      var p := s.inFlight[tid];
      s.(inFlight := s.inFlight[tid := Answered(p.token, p.at, p.claims, p.roles, ok)],
         calls := s.calls + [Call(p.token, p.at, p.claims, p.roles, ok)])
    case LogOutcome(tid, e) => Log(s.(inFlight := s.inFlight - {tid}), e)
  }

  ghost predicate Runs(c: Config, s: State, steps: seq<Step>)
    decreases |steps|
  {
    steps == [] || (Possible(c, s, steps[0]) && Runs(c, Next(c, s, steps[0]), steps[1..]))
  }

  ghost function Exec(c: Config, s: State, steps: seq<Step>): State
    requires Runs(c, s, steps)
    decreases |steps|
  {
    if steps == [] then s else Exec(c, Next(c, s, steps[0]), steps[1..])
  }

  // ----- what every run keeps -----

  /** Every accepted token is accounted for. */
  ghost predicate Conserved(s: State) {
    Count(s.history, AuthSuccess) == Count(s.history, CertIssued) + Count(s.history, CertError) + s.refused + |s.inFlight|
  }

  /** The tracker has counted what the log holds. */
  ghost predicate Counted(s: State) {
    s.tracker.counters == Tally(s.history)
  }

  ghost predicate PhaseInv(c: Config, s: State, p: Phase) {
    && c.validate(p.token, p.at) == Some(p.claims)
    && (!p.Accepted? ==> p.roles != [] && MayChoose(c, p.claims, p.roles))
    && (p.Answered? ==> Call(p.token, p.at, p.claims, p.roles, p.ok) in s.calls)
  }

  ghost predicate CallInv(c: Config, call: Call) {
    c.validate(call.token, call.at) == Some(call.claims) && call.roles != [] && MayChoose(c, call.claims, call.roles)
  }

  ghost predicate Inv(c: Config, s: State) {
    && Conserved(s)
    && Counted(s)
    && (forall tid <- s.inFlight :: PhaseInv(c, s, s.inFlight[tid]))
    && (forall call <- s.calls :: CallInv(c, call))
    && (forall e <- s.history :: e.kind.CertIssued? ==> exists call <- s.calls :: call.ok && call.roles == e.roles)
    && (c.rules == [] && c.roles != [] ==> s.refused == 0)
  }

  lemma LogCounts(s: State, e: Event)
    requires Counted(s)
    ensures Counted(Log(s, e))
    ensures forall kind :: Count(Log(s, e).history, kind) == Count(s.history, kind) + if e.kind == kind then 1 else 0
  {
    assert (s.history + [e])[..|s.history|] == s.history;
  }

  /** What a step adds to the requests in flight. */
  function Gain(c: Config, step: Step): int {
    match step
    case Present(_, token, at, _) => if c.validate(token, at).Some? then 1 else 0
    case ChooseRoles(_, roles) => if |roles| == 0 then -1 else 0
    case Issue(_, _) => 0
    case LogOutcome(_, _) => -1
  }

  lemma StepInFlight(c: Config, s: State, step: Step)
    requires Possible(c, s, step)
    ensures |Next(c, s, step).inFlight| == |s.inFlight| + Gain(c, step)
  {
  }

  lemma StepKeepsCounts(c: Config, s: State, step: Step)
    requires Conserved(s) && Counted(s) && Possible(c, s, step)
    ensures Conserved(Next(c, s, step)) && Counted(Next(c, s, step))
  {
    StepInFlight(c, s, step);
    if step.Present? || step.LogOutcome? {
      LogCounts(s, step.e);
    }
  }

  lemma StepKeepsPhases(c: Config, s: State, step: Step, tid: Tid)
    requires Inv(c, s) && Possible(c, s, step) && tid in Next(c, s, step).inFlight
    ensures PhaseInv(c, Next(c, s, step), Next(c, s, step).inFlight[tid])
  {
  }

  lemma StepKeepsCalls(c: Config, s: State, step: Step, call: Call)
    requires Inv(c, s) && Possible(c, s, step) && call in Next(c, s, step).calls
    ensures CallInv(c, call)
  {
  }

  lemma StepKeepsLog(c: Config, s: State, step: Step, e: Event)
    requires Inv(c, s) && Possible(c, s, step) && e in Next(c, s, step).history && e.kind.CertIssued?
    ensures exists call <- Next(c, s, step).calls :: call.ok && call.roles == e.roles
  {
  }

  lemma StepKeepsInv(c: Config, s: State, step: Step)
    requires Inv(c, s) && Possible(c, s, step)
    ensures Inv(c, Next(c, s, step))
  {
    var s' := Next(c, s, step);
    StepKeepsCounts(c, s, step);
    forall tid <- s'.inFlight ensures PhaseInv(c, s', s'.inFlight[tid]) {
      StepKeepsPhases(c, s, step, tid);
    }
    forall call <- s'.calls ensures CallInv(c, call) {
      StepKeepsCalls(c, s, step, call);
    }
    forall e <- s'.history | e.kind.CertIssued? ensures exists call <- s'.calls :: call.ok && call.roles == e.roles {
      StepKeepsLog(c, s, step, e);
    }
    if step.ChooseRoles? {
      assert PhaseInv(c, s, s.inFlight[step.tid]);
    }
  }

  lemma {:induction false} RunKeepsInv(c: Config, s: State, steps: seq<Step>)
    requires Inv(c, s) && Runs(c, s, steps)
    ensures Inv(c, Exec(c, s, steps))
    decreases |steps|
  {
    if steps != [] {
      StepKeepsInv(c, s, steps[0]);
      RunKeepsInv(c, Next(c, s, steps[0]), steps[1..]);
    }
  }

  /** Main result: at every point of every interleaving, the accepted tokens are the certificates
      issued, the certificate errors, the refusals for want of roles and the requests in flight; and
      the tracker's counters are the counts of the audit log. */
  lemma AcceptedTokensAreConserved(c: Config, steps: seq<Step>)
    requires Runs(c, INIT, steps)
    ensures var s := Exec(c, INIT, steps);
            && Count(s.history, AuthSuccess)
               == Count(s.history, CertIssued) + Count(s.history, CertError) + s.refused + |s.inFlight|
            && s.tracker.counters.issued == Count(s.history, CertIssued)
            && s.tracker.counters.certErrors == Count(s.history, CertError)
            && s.tracker.counters.authSuccess == Count(s.history, AuthSuccess)
            && s.tracker.counters.authFailure == Count(s.history, AuthFailure)
  {
    RunKeepsInv(c, INIT, steps);
  }

  /** Main result: the issuer is only ever called for a token that validated, with at least one
      role, and each role is there because a rule that the token's claims match lists it, or, when
      none matches, because it is in the default list, or, without rules, in the static list. */
  lemma EveryIssuedRoleIsJustified(c: Config, steps: seq<Step>, call: Call, role: string)
    requires Runs(c, INIT, steps) && call in Exec(c, INIT, steps).calls
    ensures c.validate(call.token, call.at) == Some(call.claims) && call.roles != []
    ensures role in call.roles <==>
              if c.rules == [] then role in c.roles
              else if SomeRuleMatches(c.rules, call.claims) then
                exists r <- c.rules :: RuleMatches(r, call.claims) && role in r.roles
              else role in c.defaults
  {
    RunKeepsInv(c, INIT, steps);
    assert CallInv(c, call);
    if c.rules != [] {
      RolesAreJustified(c.rules, c.rules, c.defaults, call.claims, call.roles, call.roles);
    }
  }

  /** Every certificate in the audit log comes from such a call, with the roles it was issued for. */
  lemma LoggedCertificatesWereIssued(c: Config, steps: seq<Step>, e: Event)
    requires Runs(c, INIT, steps) && e in Exec(c, INIT, steps).history && e.kind.CertIssued?
    ensures exists call <- Exec(c, INIT, steps).calls ::
              call.ok && call.roles == e.roles && c.validate(call.token, call.at) == Some(call.claims)
  {
    RunKeepsInv(c, INIT, steps);
    var call :| call in Exec(c, INIT, steps).calls && call.ok && call.roles == e.roles;
    assert CallInv(c, call);
  }

  /** Without rules every certificate has the configured roles, or os:admin if none are configured. */
  lemma StaticRoles(c: Config, steps: seq<Step>, configured: seq<string>, call: Call)
    requires Runs(c, INIT, steps) && call in Exec(c, INIT, steps).calls
    requires c.rules == [] && c.roles == ApplyDefaults(configured, c.rules)
    ensures call.roles == if configured == [] then ["os:admin"] else configured
  {
    RunKeepsInv(c, INIT, steps);
    assert CallInv(c, call);
  }

  /** With the configured defaults applied, only a server with rules ever refuses for want of a role. */
  lemma OnlyRulesRefuse(c: Config, steps: seq<Step>, configured: seq<string>)
    requires Runs(c, INIT, steps) && c.roles == ApplyDefaults(configured, c.rules)
    ensures Exec(c, INIT, steps).refused > 0 ==> c.rules != []
  {
    RunKeepsInv(c, INIT, steps);
  }
}
