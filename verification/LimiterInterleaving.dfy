/** The limiter at its real lock boundaries: a call reads the clock, finds its client under the
    limiter's lock, and decides under the client's lock; the cleanup holds the limiter's lock
    throughout, takes each client's lock only to prune it, and reads its length without it.
    Any number of calls and cleanups interleave. */
module LimiterInterleaving {
  import opened GoSlice
  import opened SlidingWindow
  import opened Wrappers

  type Tid = nat  // a goroutine
  type Ref = nat  // a client object: an index into objs

  datatype Call =
    | Called(ip: IP, now: Time)
    | Holding(ip: IP, now: Time, client: Ref)

  /** How far the cleanup is; anything but Idle means it holds the limiter's lock. */
  datatype Sweep =
    | Idle
    | Sweeping(now: Time, todo: set<IP>)
    | Pruned(now: Time, todo: set<IP>, ip: IP)
    | FoundEmpty(now: Time, todo: set<IP>, ip: IP)

  datatype State = State(
    clients: map<IP, Ref>,
    objs: seq<seq<Time>>,
    calls: map<Tid, Call>,
    sweep: Sweep,
    log: Log,             // history: what was accepted, in order of decision
    last: map<IP, Time>)  // history: the newest clock reading used on each IP's timestamps

  datatype Step =
    | ReadClock(tid: Tid, ip: IP, now: Time)
    | Lookup(tid: Tid)
    | Decide(tid: Tid)
    | BeginSweep(now: Time)
    | PruneNext(ip: IP)
    | ReadLen
    | DeleteEmpty
    | EndSweep

  const INIT := State(map[], [], map[], Idle, [], map[])

  predicate Possible(s: State, step: Step) {
    match step
    case ReadClock(tid, _, _) => tid !in s.calls
    case Lookup(tid) => tid in s.calls && s.calls[tid].Called? && s.sweep.Idle?
    case Decide(tid) => tid in s.calls && s.calls[tid].Holding? && s.calls[tid].client < |s.objs|
    case BeginSweep(_) => s.sweep.Idle?
    case PruneNext(ip) => s.sweep.Sweeping? && ip in s.sweep.todo && ip in s.clients && s.clients[ip] < |s.objs|
    case ReadLen => s.sweep.Pruned? && s.sweep.ip in s.clients && s.clients[s.sweep.ip] < |s.objs|
    case DeleteEmpty => s.sweep.FoundEmpty?
    case EndSweep => s.sweep.Sweeping? && s.sweep.todo == {}
  }

  function Later(last: map<IP, Time>, ip: IP, now: Time): map<IP, Time> {
    last[ip := if ip in last && last[ip] > now then last[ip] else now]
  }

  function Next(c: Config, s: State, step: Step): State
    requires Possible(s, step)
  {
    match step
    case ReadClock(tid, ip, now) => s.(calls := s.calls[tid := Called(ip, now)])
    case Lookup(tid) =>
      var ip, now := s.calls[tid].ip, s.calls[tid].now;
      if ip in s.clients then s.(calls := s.calls[tid := Holding(ip, now, s.clients[ip])])
      else s.(clients := s.clients[ip := |s.objs|], objs := s.objs + [[]], calls := s.calls[tid := Holding(ip, now, |s.objs|)])
    case Decide(tid) =>
      var Holding(ip, now, r) := s.calls[tid];
      var (kept, ok) := SlidingWindow.Decide(c, s.objs[r], now);
      s.(objs := s.objs[r := kept], calls := s.calls - {tid}, last := Later(s.last, ip, now),
         log := if ok then s.log + [Accepted(ip, now)] else s.log)
    case BeginSweep(now) => s.(sweep := Sweeping(now, s.clients.Keys))
    case PruneNext(ip) =>
      var r := s.clients[ip];
      s.(objs := s.objs[r := Filter(s.objs[r], Newer(s.sweep.now - c.window))],
         sweep := Pruned(s.sweep.now, s.sweep.todo - {ip}, ip), last := Later(s.last, ip, s.sweep.now))
    case ReadLen =>
      if s.objs[s.clients[s.sweep.ip]] == [] then s.(sweep := FoundEmpty(s.sweep.now, s.sweep.todo, s.sweep.ip))
      else s.(sweep := Sweeping(s.sweep.now, s.sweep.todo))
    case DeleteEmpty => s.(clients := s.clients - {s.sweep.ip}, sweep := Sweeping(s.sweep.now, s.sweep.todo))
    case EndSweep => s.(sweep := Idle)
  }

  predicate Held(s: State, r: Ref) {
    exists tid :: tid in s.calls && s.calls[tid].Holding? && s.calls[tid].client == r
  }

  /** A decision's clock reading is no older than any already used on that IP's timestamps. */
  predicate ClockInOrder(s: State, step: Step)
    requires Possible(s, step)
  {
    step.Decide? ==>
      var call := s.calls[step.tid];
      call.ip in s.last ==> s.last[call.ip] <= call.now
  }

  /** The cleanup does not find empty, and so delete, a client that a call in flight has looked up. */
  predicate DeletesUnheld(s: State, step: Step)
    requires Possible(s, step)
  {
    step.ReadLen? && s.objs[s.clients[s.sweep.ip]] == [] ==> !Held(s, s.clients[s.sweep.ip])
  }

  /** A run of the limiter from s. */
  predicate Runs(c: Config, s: State, steps: seq<Step>)
    decreases |steps|
  {
    steps == [] || (Possible(s, steps[0]) && Runs(c, Next(c, s, steps[0]), steps[1..]))
  }

  function Exec(c: Config, s: State, steps: seq<Step>): State
    requires Runs(c, s, steps)
    decreases |steps|
  {
    if steps == [] then s else Exec(c, Next(c, s, steps[0]), steps[1..])
  }

  predicate InClockOrder(c: Config, s: State, steps: seq<Step>)
    requires Runs(c, s, steps)
    decreases |steps|
  {
    steps == [] || (ClockInOrder(s, steps[0]) && InClockOrder(c, Next(c, s, steps[0]), steps[1..]))
  }

  predicate DeletesOnlyUnheld(c: Config, s: State, steps: seq<Step>)
    requires Runs(c, s, steps)
    decreases |steps|
  {
    steps == [] || (DeletesUnheld(s, steps[0]) && DeletesOnlyUnheld(c, Next(c, s, steps[0]), steps[1..]))
  }

  /** The requests in the order of their decisions, and the answers they got. */
  function Decisions(c: Config, s: State, steps: seq<Step>): (seq<Op>, seq<bool>)
    requires Runs(c, s, steps)
    decreases |steps|
  {
    if steps == [] then ([], [])
    else
      var (ops, answers) := Decisions(c, Next(c, s, steps[0]), steps[1..]);
      if steps[0].Decide? then
        var call := s.calls[steps[0].tid];
        ([AllowOp(call.ip, call.now)] + ops, [SlidingWindow.Decide(c, s.objs[call.client], call.now).1] + answers)
      else (ops, answers)
  }

  // ----- the invariant -----

  function Stored(s: State, ip: IP): seq<Time> {
    if ip in s.clients && s.clients[ip] < |s.objs| then s.objs[s.clients[ip]] else []
  }

  /** Client objects exist and are not shared, and every call in flight holds the mapped client. */
  ghost predicate Linked(s: State) {
    && (forall ip <- s.clients :: s.clients[ip] < |s.objs|)
    && (forall ip, other | ip in s.clients && other in s.clients && s.clients[ip] == s.clients[other] :: ip == other)
    && (forall tid <- s.calls :: s.calls[tid].Holding? ==>
          s.calls[tid].ip in s.clients && s.clients[s.calls[tid].ip] == s.calls[tid].client)
  }

  ghost predicate SweepInv(s: State) {
    && (s.sweep.Sweeping? ==> s.sweep.todo <= s.clients.Keys)
    && (s.sweep.Pruned? || s.sweep.FoundEmpty? ==>
          s.sweep.todo <= s.clients.Keys && s.sweep.ip in s.clients && s.sweep.ip !in s.sweep.todo)
    && (s.sweep.FoundEmpty? ==> Stored(s, s.sweep.ip) == [] && !Held(s, s.clients[s.sweep.ip]))
  }

  /** Timestamps kept and timestamps accepted agree on everything later than the cutoff used at now,
      the newest reading used so far. */
  ghost predicate AgreesAt(c: Config, kept: seq<Time>, times: seq<Time>, now: Time) {
    && Filter(kept, Newer(now - c.window)) == Filter(times, Newer(now - c.window))
    && forall t <- times :: t <= now
  }

  /** What is stored for ip agrees with the log. */
  ghost predicate StoredAgrees(c: Config, s: State, ip: IP) {
    if ip in s.last then AgreesAt(c, Stored(s, ip), TimesOf(s.log, ip), s.last[ip])
    else Stored(s, ip) == [] && TimesOf(s.log, ip) == []
  }

  ghost predicate Inv(c: Config, s: State) {
    && Linked(s)
    && SweepInv(s)
    && (forall ip :: StoredAgrees(c, s, ip))
    && Bounded(c, s.log)
  }

  /** The timestamps of ip after a section that ran with clock reading now. */
  lemma AgreeAt(c: Config, s: State, ip: IP, now: Time)
    requires StoredAgrees(c, s, ip) && (ip in s.last ==> s.last[ip] <= now)
    ensures AgreesAt(c, Stored(s, ip), TimesOf(s.log, ip), now)
  {
    if ip in s.last {
      FilterNarrow(Stored(s, ip), Newer(s.last[ip] - c.window), Newer(now - c.window));
      FilterNarrow(TimesOf(s.log, ip), Newer(s.last[ip] - c.window), Newer(now - c.window));
    }
  }

  lemma LookupKeepsInv(c: Config, s: State, tid: Tid)
    requires Inv(c, s) && Possible(s, Lookup(tid))
    ensures Inv(c, Next(c, s, Lookup(tid)))
  {
    var s' := Next(c, s, Lookup(tid));
    forall ip ensures StoredAgrees(c, s', ip) {
      assert StoredAgrees(c, s, ip) && Stored(s', ip) == Stored(s, ip);
    }
  }

  lemma DecisionAgrees(c: Config, kept: seq<Time>, times: seq<Time>, now: Time)
    requires c.requests > 0 && AgreesAt(c, kept, times, now)
    ensures var (kept', ok) := SlidingWindow.Decide(c, kept, now);
            && ok == (|Filter(times, Newer(now - c.window))| < c.requests)
            && AgreesAt(c, kept', if ok then times + [now] else times, now)
  {
    DecideFollows(c, kept, times, now);
  }

  /** What a decision leaves, in a state where its client is the mapped one. */
  lemma DecideEffect(c: Config, s: State, tid: Tid)
    requires Linked(s) && Possible(s, Decide(tid)) && ClockInOrder(s, Decide(tid))
    ensures var (Holding(ip, now, r), s') := (s.calls[tid], Next(c, s, Decide(tid)));
            && Stored(s, ip) == s.objs[r]
            && Stored(s', ip) == SlidingWindow.Decide(c, s.objs[r], now).0
            && ip in s'.last && s'.last[ip] == now
  {
  }

  /** A decision in clock order answers as the reference and records what the reference records. */
  lemma DecideIsReference(c: Config, s: State, tid: Tid)
    requires c.requests > 0 && Inv(c, s) && Possible(s, Decide(tid)) && ClockInOrder(s, Decide(tid))
    ensures var Holding(ip, now, r) := s.calls[tid];
            && SlidingWindow.Decide(c, s.objs[r], now).1 == RefAllows(c, s.log, ip, now)
            && StoredAgrees(c, Next(c, s, Decide(tid)), ip)
  {
    var Holding(ip, now, r) := s.calls[tid];
    DecideEffect(c, s, tid);
    assert StoredAgrees(c, s, ip);
    AgreeAt(c, s, ip, now);
    DecisionAgrees(c, s.objs[r], TimesOf(s.log, ip), now);
    TimesOfSnoc(s.log, Accepted(ip, now), ip);
  }

  lemma DecideKeepsInv(c: Config, s: State, tid: Tid)
    requires c.requests > 0 && Inv(c, s) && Possible(s, Decide(tid)) && ClockInOrder(s, Decide(tid))
    ensures Inv(c, Next(c, s, Decide(tid)))
  {
    var Holding(ip, now, r) := s.calls[tid];
    var s' := Next(c, s, Decide(tid));
    DecideIsReference(c, s, tid);
    forall other | other != ip ensures StoredAgrees(c, s', other) {
      assert StoredAgrees(c, s, other);
      TimesOfSnoc(s.log, Accepted(ip, now), other);
      assert Stored(s', other) == Stored(s, other);
    }
    if RefAllows(c, s.log, ip, now) {
      AcceptKeepsBounded(c, s.log, ip, now);
    }
  }

  lemma PruneKeepsInv(c: Config, s: State, ip: IP)
    requires Inv(c, s) && Possible(s, PruneNext(ip))
    ensures Inv(c, Next(c, s, PruneNext(ip)))
  {
    var s' := Next(c, s, PruneNext(ip));
    var now := s.sweep.now;
    forall other ensures StoredAgrees(c, s', other) {
      assert StoredAgrees(c, s, other);
      if other == ip {
        AgreeAt(c, s, ip, s'.last[ip]);
        FilterNarrow(Stored(s, ip), Newer(now - c.window), Newer(s'.last[ip] - c.window));
      } else {
        assert Stored(s', other) == Stored(s, other);
      }
    }
  }

  lemma DeleteKeepsInv(c: Config, s: State)
    requires Inv(c, s) && Possible(s, DeleteEmpty)
    ensures Inv(c, Next(c, s, DeleteEmpty))
  {
    var s' := Next(c, s, DeleteEmpty);
    forall ip ensures StoredAgrees(c, s', ip) {
      assert StoredAgrees(c, s, ip) && Stored(s', ip) == Stored(s, ip);
    }
  }

  /** Steps that touch no client. */
  lemma OtherStepKeepsInv(c: Config, s: State, step: Step)
    requires Inv(c, s) && Possible(s, step) && DeletesUnheld(s, step)
    requires step.ReadClock? || step.BeginSweep? || step.ReadLen? || step.EndSweep?
    ensures Inv(c, Next(c, s, step))
  {
    var s' := Next(c, s, step);
    assert s'.clients == s.clients && s'.objs == s.objs && s'.log == s.log && s'.last == s.last;
    forall ip ensures StoredAgrees(c, s', ip) {
      assert StoredAgrees(c, s, ip);
    }
  }

  lemma StepKeepsInv(c: Config, s: State, step: Step)
    requires c.requests > 0 && Inv(c, s) && Possible(s, step) && ClockInOrder(s, step) && DeletesUnheld(s, step)
    ensures Inv(c, Next(c, s, step))
  {
    match step
    case Lookup(tid) => LookupKeepsInv(c, s, tid);
    case Decide(tid) => DecideKeepsInv(c, s, tid);
    case PruneNext(ip) => PruneKeepsInv(c, s, ip);
    case DeleteEmpty => DeleteKeepsInv(c, s);
    case _ => OtherStepKeepsInv(c, s, step);
  }

  lemma {:induction false} RunKeepsInv(c: Config, s: State, steps: seq<Step>)
    requires c.requests > 0 && Inv(c, s) && Runs(c, s, steps) && InClockOrder(c, s, steps) && DeletesOnlyUnheld(c, s, steps)
    ensures Inv(c, Exec(c, s, steps))
    ensures RefRun(c, s.log, Decisions(c, s, steps).0) == (Exec(c, s, steps).log, Decisions(c, s, steps).1)
    decreases |steps|
  {
    if steps != [] {
      var s' := Next(c, s, steps[0]);
      StepKeepsInv(c, s, steps[0]);
      RunKeepsInv(c, s', steps[1..]);
      if steps[0].Decide? {
        DecideIsReference(c, s, steps[0].tid);
        var ops := Decisions(c, s', steps[1..]).0;
        assert Decisions(c, s, steps).0[1..] == ops;
      }
    }
  }

  /** Main result: at the real lock boundaries, in every run whose decisions are in clock order and
      whose cleanups delete no client that a call still holds, no window (t - W, t] holds more than
      N accepted requests of an IP ... */
  lemma InterleavedBound(c: Config, steps: seq<Step>, ip: IP, t: Time)
    requires c.requests > 0 && Runs(c, INIT, steps)
    requires InClockOrder(c, INIT, steps) && DeletesOnlyUnheld(c, INIT, steps)
    ensures InWindow(c, Exec(c, INIT, steps).log, ip, t) <= c.requests
  {
    RunKeepsInv(c, INIT, steps);
    assert InWindow(c, Exec(c, INIT, steps).log, ip, t) <= c.requests;
  }

  /** ... and the answers are those of the reference limiter given the requests one at a time,
      in the order of their decisions. */
  lemma InterleavedRefinesReference(c: Config, steps: seq<Step>)
    requires c.requests > 0 && Runs(c, INIT, steps)
    requires InClockOrder(c, INIT, steps) && DeletesOnlyUnheld(c, INIT, steps)
    ensures Decisions(c, INIT, steps).1 == RefRun(c, [], Decisions(c, INIT, steps).0).1
  {
    RunKeepsInv(c, INIT, steps);
  }
}
