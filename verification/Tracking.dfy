/** The admin tracker on values: what an audit event does to it, and why its pruned list and its
    counters agree with the whole audit history. */
module Tracking {
  import opened GoSlice
  import opened Wrappers

  datatype EventType = CertIssued | AuthFailure | AuthSuccess | CertError

  datatype Event = Event(
    kind: EventType, timestamp: Time, subject: string, email: string, issuer: string, clientIP: string, roles: seq<string>,
    certExpiry: Option<Time>, certTTL: string, fingerprint: string)

  datatype CertRecord = CertRecord(
    subject: string, email: string, issuedAt: Time, expiresAt: Time, clientIP: string, roles: seq<string>,
    ttl: string, fingerprint: string)

  function RecordOf(e: Event): CertRecord {
    CertRecord(e.subject, e.email, e.timestamp, if e.certExpiry.None? then ZERO_TIME else e.certExpiry.value,
               e.clientIP, e.roles, e.certTTL, e.fingerprint)
  }

  datatype Counters = Counters(issued: nat, authSuccess: nat, authFailure: nat, certErrors: nat)

  datatype Tracked = Tracked(certs: seq<CertRecord>, counters: Counters)

  function Handle(t: Tracked, e: Event): Tracked {
    match e.kind
    case CertIssued => Tracked(t.certs + [RecordOf(e)], t.counters.(issued := t.counters.issued + 1))
    case AuthSuccess => t.(counters := t.counters.(authSuccess := t.counters.authSuccess + 1))
    case AuthFailure => t.(counters := t.counters.(authFailure := t.counters.authFailure + 1))
    case CertError => t.(counters := t.counters.(certErrors := t.counters.certErrors + 1))
  }

  function Unexpired(now: Time): CertRecord -> bool { (r: CertRecord) => r.expiresAt > now }

  function Prune(t: Tracked, now: Time): Tracked {
    t.(certs := Filter(t.certs, Unexpired(now)))
  }

  const FRESH := Tracked([], Counters(0, 0, 0, 0))

  /** A duration to the nearest second, halves away from zero. */
  function Rounded(d: Time): (r: Time)
    ensures r % SECOND == 0
    ensures if d >= 0 then -SECOND <= 2 * (d - r) < SECOND else -SECOND < 2 * (d - r) <= SECOND
  {
    if d >= 0 then (d + SECOND / 2) / SECOND * SECOND else -((-d + SECOND / 2) / SECOND * SECOND)
  }

  // ----- the whole history -----

  /** A record for every certificate ever issued, in order. */
  function AllRecords(history: seq<Event>): seq<CertRecord> {
    if history == [] then []
    else
      var before, e := AllRecords(history[..|history| - 1]), history[|history| - 1];
      if e.kind.CertIssued? then before + [RecordOf(e)] else before
  }

  function Count(history: seq<Event>, kind: EventType): nat {
    if history == [] then 0
    else Count(history[..|history| - 1], kind) + if history[|history| - 1].kind == kind then 1 else 0
  }

  ghost function Places(history: seq<Event>, kind: EventType): set<nat> {
    set i: nat | i < |history| && history[i].kind == kind
  }

  lemma PlacesSnoc(history: seq<Event>, e: Event, kind: EventType)
    ensures Places(history + [e], kind) == Places(history, kind) + if e.kind == kind then {|history|} else {}
  {
  }

  /** Counting is counting. */
  lemma {:induction false} CountIsCardinality(history: seq<Event>, kind: EventType)
    ensures Count(history, kind) == |Places(history, kind)|
  {
    if history != [] {
      var front, last := history[..|history| - 1], history[|history| - 1];
      CountIsCardinality(front, kind);
      PlacesSnoc(front, last, kind);
      assert history == front + [last] && |front| !in Places(front, kind);
    }
  }

  function Tally(history: seq<Event>): Counters {
    Counters(Count(history, CertIssued), Count(history, AuthSuccess), Count(history, AuthFailure), Count(history, CertError))
  }

  // ----- runs -----

  /** An event, a request for the list of active certificates, or one for the statistics. */
  datatype Op = Notify(e: Event) | ActiveCerts(now: Time) | GetStats(now: Time)

  datatype Answer = Certs(records: seq<CertRecord>) | Stats(counters: Counters, active: nat)

  function Run(t: Tracked, ops: seq<Op>): seq<Answer>
    decreases |ops|
  {
    if ops == [] then []
    else match ops[0]
      case Notify(e) => Run(Handle(t, e), ops[1..])
      case ActiveCerts(now) => [Certs(Prune(t, now).certs)] + Run(Prune(t, now), ops[1..])
      case GetStats(now) => [Stats(t.counters, |Prune(t, now).certs|)] + Run(Prune(t, now), ops[1..])
  }

  /** The lists among the answers. */
  function ListsIn(answers: seq<Answer>): seq<seq<CertRecord>> {
    if answers == [] then []
    else (if answers[0].Certs? then [answers[0].records] else []) + ListsIn(answers[1..])
  }

  /** The same lists, straight from the operations. */
  function ListsOf(t: Tracked, ops: seq<Op>): seq<seq<CertRecord>>
    decreases |ops|
  {
    if ops == [] then []
    else match ops[0]
      case Notify(e) => ListsOf(Handle(t, e), ops[1..])
      case ActiveCerts(now) => [Prune(t, now).certs] + ListsOf(Prune(t, now), ops[1..])
      case GetStats(now) => ListsOf(Prune(t, now), ops[1..])
  }

  /** What one operation adds to the lists given so far. */
  lemma ListsTurn(t: Tracked, ops: seq<Op>, i: nat, given: seq<seq<CertRecord>>)
    requires i < |ops|
    ensures given + ListsOf(t, ops[i..]) ==
              if ops[i].Notify? then given + ListsOf(Handle(t, ops[i].e), ops[i + 1..])
              else (given + if ops[i].ActiveCerts? then [Prune(t, ops[i].now).certs] else [])
                   + ListsOf(Prune(t, ops[i].now), ops[i + 1..])
  {
    assert ops[i..][1..] == ops[i + 1..];
  }

  lemma {:induction false} ListsOfAnswers(t: Tracked, ops: seq<Op>)
    ensures ListsIn(Run(t, ops)) == ListsOf(t, ops)
    decreases |ops|
  {
    if ops != [] {
      var answers := Run(t, ops);
      match ops[0]
      case Notify(e) => ListsOfAnswers(Handle(t, e), ops[1..]);
      case ActiveCerts(now) =>
        assert answers[1..] == Run(Prune(t, now), ops[1..]);
        ListsOfAnswers(Prune(t, now), ops[1..]);
      case GetStats(now) =>
        assert answers[1..] == Run(Prune(t, now), ops[1..]);
        ListsOfAnswers(Prune(t, now), ops[1..]);
    }
  }

  /** The same answers worked out from the history, which is never pruned. */
  function RefRun(history: seq<Event>, ops: seq<Op>): seq<Answer>
    decreases |ops|
  {
    if ops == [] then []
    else match ops[0]
      case Notify(e) => RefRun(history + [e], ops[1..])
      case ActiveCerts(now) => [Certs(Filter(AllRecords(history), Unexpired(now)))] + RefRun(history, ops[1..])
      case GetStats(now) => [Stats(Tally(history), |Filter(AllRecords(history), Unexpired(now))|)] + RefRun(history, ops[1..])
  }

  /** The readings of the clock never go back. */
  predicate InTime(ops: seq<Op>, clock: Time) {
    ops == [] || (if ops[0].Notify? then InTime(ops[1..], clock) else clock <= ops[0].now && InTime(ops[1..], ops[0].now))
  }

  ghost predicate Agrees(t: Tracked, history: seq<Event>, clock: Time) {
    && t.counters == Tally(history)
    && Filter(t.certs, Unexpired(clock)) == Filter(AllRecords(history), Unexpired(clock))
  }

  lemma HandleAgrees(t: Tracked, history: seq<Event>, clock: Time, e: Event)
    requires Agrees(t, history, clock)
    ensures Agrees(Handle(t, e), history + [e], clock)
  {
    assert (history + [e])[..|history|] == history;
    FilterSnoc(t.certs, RecordOf(e), Unexpired(clock));
    FilterSnoc(AllRecords(history), RecordOf(e), Unexpired(clock));
  }

  lemma PruneAgrees(t: Tracked, history: seq<Event>, clock: Time, now: Time)
    requires Agrees(t, history, clock) && clock <= now
    ensures Agrees(Prune(t, now), history, now)
    ensures Prune(t, now).certs == Filter(AllRecords(history), Unexpired(now))
  {
    FilterNarrow(t.certs, Unexpired(clock), Unexpired(now));
    FilterNarrow(AllRecords(history), Unexpired(clock), Unexpired(now));
    FilterNarrow(t.certs, Unexpired(now), Unexpired(now));
  }

  lemma {:induction false} RunAgrees(t: Tracked, history: seq<Event>, clock: Time, ops: seq<Op>)
    requires Agrees(t, history, clock) && InTime(ops, clock)
    ensures Run(t, ops) == RefRun(history, ops)
    decreases |ops|
  {
    if ops != [] {
      match ops[0]
      case Notify(e) =>
        HandleAgrees(t, history, clock, e);
        RunAgrees(Handle(t, e), history + [e], clock, ops[1..]);
      case ActiveCerts(now) =>
        PruneAgrees(t, history, clock, now);
        RunAgrees(Prune(t, now), history, now, ops[1..]);
      case GetStats(now) =>
        PruneAgrees(t, history, clock, now);
        RunAgrees(Prune(t, now), history, now, ops[1..]);
    }
  }

  /** Main result: whatever was pruned before, every list of active certificates holds exactly the
      unexpired ones of all ever issued, in order of issue, and the counters are the counts of the
      audit history. */
  lemma TrackerMatchesHistory(clock: Time, ops: seq<Op>)
    requires InTime(ops, clock)
    ensures Run(FRESH, ops) == RefRun([], ops)
  {
    RunAgrees(FRESH, [], clock, ops);
  }
}
