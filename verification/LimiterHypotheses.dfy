/** Neither hypothesis of the interleaved bound can be dropped: for every limit N and window W there
    is a run that breaks the bound and breaks only that one hypothesis. */
module LimiterHypotheses {
  import opened GoSlice
  import opened SlidingWindow
  import opened LimiterInterleaving
  import opened Wrappers

  lemma {:induction false} RunsConcat(c: Config, s: State, a: seq<Step>, b: seq<Step>)
    requires Runs(c, s, a) && Runs(c, Exec(c, s, a), b)
    ensures Runs(c, s, a + b) && Exec(c, s, a + b) == Exec(c, Exec(c, s, a), b)
    ensures InClockOrder(c, s, a + b) == (InClockOrder(c, s, a) && InClockOrder(c, Exec(c, s, a), b))
    ensures DeletesOnlyUnheld(c, s, a + b) == (DeletesOnlyUnheld(c, s, a) && DeletesOnlyUnheld(c, Exec(c, s, a), b))
    decreases |a|
  {
    if a == [] {
      assert a + b == b;
    } else {
      assert (a + b)[0] == a[0] && (a + b)[1..] == a[1..] + b;
      RunsConcat(c, Next(c, s, a[0]), a[1..], b);
    }
  }

  /** One more step at the end of a run that has led to s. */
  lemma OneMore(c: Config, steps: seq<Step>, s: State, step: Step)
    requires Runs(c, INIT, steps) && Exec(c, INIT, steps) == s && Possible(s, step)
    ensures Runs(c, INIT, steps + [step]) && Exec(c, INIT, steps + [step]) == Next(c, s, step)
    ensures InClockOrder(c, INIT, steps + [step]) == (InClockOrder(c, INIT, steps) && ClockInOrder(s, step))
    ensures DeletesOnlyUnheld(c, INIT, steps + [step]) == (DeletesOnlyUnheld(c, INIT, steps) && DeletesUnheld(s, step))
  {
    var s' := Next(c, s, step);
    assert Runs(c, s', [step][1..]) && Exec(c, s', [step][1..]) == s';
    assert InClockOrder(c, s', [step][1..]) && DeletesOnlyUnheld(c, s', [step][1..]);
    RunsConcat(c, INIT, steps, [step]);
  }

  function Zeros(n: nat): seq<Time> { seq(n, i => 0) }

  function AcceptedAtZero(ip: IP, n: nat): Log { seq(n, i => Accepted(ip, 0)) }

  lemma {:induction false} TimesAtZero(ip: IP, n: nat)
    ensures TimesOf(AcceptedAtZero(ip, n), ip) == Zeros(n)
  {
    if n > 0 {
      TimesAtZero(ip, n - 1);
      assert AcceptedAtZero(ip, n) == AcceptedAtZero(ip, n - 1) + [Accepted(ip, 0)];
      TimesOfSnoc(AcceptedAtZero(ip, n - 1), Accepted(ip, 0), ip);
    }
  }

  lemma CountAtZero(c: Config, ip: IP, n: nat)
    requires c.window > 0
    ensures InWindow(c, AcceptedAtZero(ip, n), ip, 0) == n
    ensures TimesOf(AcceptedAtZero(ip, n), ip) == Zeros(n)
  {
    TimesAtZero(ip, n);
    AllAtZero(n, c.window);
    assert 0 - c.window == -c.window;
  }

  lemma AllAtZero(n: nat, window: Time)
    requires window > 0
    ensures Filter(Zeros(n), Within(-window, 0)) == Zeros(n)
  {
    FilterAll(Zeros(n), Within(-window, 0));
  }

  // ----- n requests at time 0, each running from start to finish -----

  function Burst(before: seq<Step>, ip: IP, n: nat): seq<Step> {
    if n == 0 then before
    else Burst(before, ip, n - 1) + [ReadClock(1, ip, 0)] + [Lookup(1)] + [Decide(1)]
  }

  ghost predicate ReadyForBurst(s: State, ip: IP, r: Ref) {
    && s.sweep.Idle? && 1 !in s.calls
    && ip in s.clients && s.clients[ip] == r && r < |s.objs| && s.objs[r] == []
    && (ip in s.last ==> s.last[ip] <= 0)
    && s.log == []
  }

  function AfterBurst(s: State, ip: IP, r: Ref, n: nat): State
    requires r < |s.objs|
  {
    if n == 0 then s
    else s.(objs := s.objs[r := Zeros(n)], log := AcceptedAtZero(ip, n), last := s.last[ip := 0])
  }

  lemma DecideAtZero(c: Config, ip: IP, n: nat)
    requires c.window > 0 && n < c.requests
    ensures SlidingWindow.Decide(c, Zeros(n), 0) == (Zeros(n + 1), true)
    ensures AcceptedAtZero(ip, n) + [Accepted(ip, 0)] == AcceptedAtZero(ip, n + 1)
  {
    FilterAll(Zeros(n), Newer(0 - c.window));
    assert Zeros(n + 1) == Zeros(n) + [0];
  }

  /** The decision of the n-th request of the burst. */
  lemma BurstDecides(c: Config, s: State, ip: IP, r: Ref, n: nat)
    requires c.window > 0 && n < c.requests && ReadyForBurst(s, ip, r)
    ensures var called := AfterBurst(s, ip, r, n).(calls := s.calls[1 := Holding(ip, 0, r)]);
            Possible(called, Decide(1)) && Next(c, called, Decide(1)) == AfterBurst(s, ip, r, n + 1)
  {
    var called := AfterBurst(s, ip, r, n).(calls := s.calls[1 := Holding(ip, 0, r)]);
    DecideAtZero(c, ip, n);
    assert called.objs[r] == Zeros(n) && called.log == AcceptedAtZero(ip, n);
    assert called.objs[r := Zeros(n + 1)] == s.objs[r := Zeros(n + 1)];
    assert Later(called.last, ip, 0) == s.last[ip := 0];
    assert s.calls[1 := Holding(ip, 0, r)] - {1} == s.calls;
  }

  /** Number n + 1 of the burst. */
  lemma OneMoreInBurst(c: Config, run: seq<Step>, s: State, ip: IP, r: Ref, n: nat)
    requires c.window > 0 && n < c.requests && ReadyForBurst(s, ip, r)
    requires Runs(c, INIT, run) && Exec(c, INIT, run) == AfterBurst(s, ip, r, n)
    ensures var run' := run + [ReadClock(1, ip, 0)] + [Lookup(1)] + [Decide(1)];
            && Runs(c, INIT, run') && Exec(c, INIT, run') == AfterBurst(s, ip, r, n + 1)
            && (InClockOrder(c, INIT, run) ==> InClockOrder(c, INIT, run'))
            && (DeletesOnlyUnheld(c, INIT, run) ==> DeletesOnlyUnheld(c, INIT, run'))
  {
    var s0 := AfterBurst(s, ip, r, n);
    var s1 := s0.(calls := s.calls[1 := Called(ip, 0)]);
    var s2 := s0.(calls := s.calls[1 := Holding(ip, 0, r)]);
    assert s1.calls[1 := Holding(ip, 0, r)] == s2.calls;
    OneMore(c, run, s0, ReadClock(1, ip, 0));
    OneMore(c, run + [ReadClock(1, ip, 0)], s1, Lookup(1));
    BurstDecides(c, s, ip, r, n);
    OneMore(c, run + [ReadClock(1, ip, 0)] + [Lookup(1)], s2, Decide(1));
  }

  lemma {:induction false} BurstAccepted(c: Config, before: seq<Step>, s: State, ip: IP, r: Ref, n: nat)
    requires Runs(c, INIT, before) && Exec(c, INIT, before) == s
    requires c.window > 0 && n <= c.requests && ReadyForBurst(s, ip, r)
    ensures Runs(c, INIT, Burst(before, ip, n)) && Exec(c, INIT, Burst(before, ip, n)) == AfterBurst(s, ip, r, n)
    ensures InClockOrder(c, INIT, before) ==> InClockOrder(c, INIT, Burst(before, ip, n))
    ensures DeletesOnlyUnheld(c, INIT, before) ==> DeletesOnlyUnheld(c, INIT, Burst(before, ip, n))
  {
    if n > 0 {
      BurstAccepted(c, before, s, ip, r, n - 1);
      OneMoreInBurst(c, Burst(before, ip, n - 1), s, ip, r, n - 1);
    }
  }

  // ----- a late decision with an old clock reading -----

  function CallZero(ip: IP): seq<Step> { [] + [ReadClock(0, ip, 0)] + [Lookup(0)] }

  lemma CallZeroRuns(c: Config, ip: IP) returns (s: State)
    ensures Runs(c, INIT, CallZero(ip)) && Exec(c, INIT, CallZero(ip)) == s
    ensures InClockOrder(c, INIT, CallZero(ip)) && DeletesOnlyUnheld(c, INIT, CallZero(ip))
    ensures s == INIT.(clients := map[ip := 0], objs := [[]], calls := map[0 := Holding(ip, 0, 0)])
  {
    var s1 := INIT.(calls := map[0 := Called(ip, 0)]);
    OneMore(c, [], INIT, ReadClock(0, ip, 0));
    OneMore(c, [] + [ReadClock(0, ip, 0)], s1, Lookup(0));
    s := Next(c, s1, Lookup(0));
  }

  function LateRun(c: Config, ip: IP): seq<Step>
    requires c.requests > 0
  {
    Burst(CallZero(ip), ip, c.requests) + [BeginSweep(c.window)] + [PruneNext(ip)] + [Decide(0)]
  }

  /** A call that read the clock before a window's worth of requests, and decides after a prune at a
      newer reading, is accepted as number N + 1; nothing is deleted. */
  lemma ClockOrderIsNeeded(c: Config, ip: IP)
    requires c.requests > 0 && c.window > 0
    ensures Runs(c, INIT, LateRun(c, ip)) && DeletesOnlyUnheld(c, INIT, LateRun(c, ip))
    ensures InWindow(c, Exec(c, INIT, LateRun(c, ip)).log, ip, 0) == c.requests + 1
  {
    var n := c.requests;
    var s := CallZeroRuns(c, ip);
    BurstAccepted(c, CallZero(ip), s, ip, 0, n);
    var run, s3 := Burst(CallZero(ip), ip, n), AfterBurst(s, ip, 0, n);
    OneMore(c, run, s3, BeginSweep(c.window));
    var s4 := Next(c, s3, BeginSweep(c.window));
    OneMore(c, run + [BeginSweep(c.window)], s4, PruneNext(ip));
    FilterNone(Zeros(n), Newer(c.window - c.window));
    var s5 := Next(c, s4, PruneNext(ip));
    assert s5.objs[0] == [];
    OneMore(c, run + [BeginSweep(c.window)] + [PruneNext(ip)], s5, Decide(0));
    assert AcceptedAtZero(ip, n + 1) == AcceptedAtZero(ip, n) + [Accepted(ip, 0)];
    CountAtZero(c, ip, n + 1);
  }

  // ----- a client deleted under a call that holds it -----

  function DeletedUnderCall(ip: IP): seq<Step> {
    CallZero(ip) + [BeginSweep(0)] + [PruneNext(ip)] + [ReadLen] + [DeleteEmpty] + [EndSweep]
  }

  lemma DeletedUnderCallRuns(c: Config, ip: IP) returns (s: State)
    requires c.window > 0
    ensures Runs(c, INIT, DeletedUnderCall(ip)) && Exec(c, INIT, DeletedUnderCall(ip)) == s
    ensures InClockOrder(c, INIT, DeletedUnderCall(ip))
    ensures s == INIT.(objs := [[]], calls := map[0 := Holding(ip, 0, 0)], last := map[ip := 0])
  {
    var run := CallZero(ip);
    var s0 := CallZeroRuns(c, ip);
    assert s0.clients.Keys == {ip} && {ip} - {ip} == {};
    OneMore(c, run, s0, BeginSweep(0));
    var s1 := s0.(sweep := Sweeping(0, {ip}));
    OneMore(c, run + [BeginSweep(0)], s1, PruneNext(ip));
    var s2 := s0.(sweep := Pruned(0, {}, ip), last := map[ip := 0]);
    assert Next(c, s1, PruneNext(ip)) == s2;
    OneMore(c, run + [BeginSweep(0)] + [PruneNext(ip)], s2, ReadLen);
    var s3 := s2.(sweep := FoundEmpty(0, {}, ip));
    OneMore(c, run + [BeginSweep(0)] + [PruneNext(ip)] + [ReadLen], s3, DeleteEmpty);
    var s4 := s2.(clients := map[], sweep := Sweeping(0, {}));
    assert Next(c, s3, DeleteEmpty) == s4;
    OneMore(c, run + [BeginSweep(0)] + [PruneNext(ip)] + [ReadLen] + [DeleteEmpty], s4, EndSweep);
    s := s4.(sweep := Idle);
  }

  function OrphanRun(c: Config, ip: IP): seq<Step>
    requires c.requests > 0
  {
    Burst(DeletedUnderCall(ip) + [ReadClock(2, ip, 0)] + [Lookup(2)], ip, c.requests) + [Decide(0)]
  }

  /** A call whose client is deleted between its two sections decides on timestamps nobody else sees,
      and is accepted as number N + 1; every clock reading is in order (they are all equal). */
  lemma UnheldDeletionIsNeeded(c: Config, ip: IP)
    requires c.requests > 0 && c.window > 0
    ensures Runs(c, INIT, OrphanRun(c, ip)) && InClockOrder(c, INIT, OrphanRun(c, ip))
    ensures InWindow(c, Exec(c, INIT, OrphanRun(c, ip)).log, ip, 0) == c.requests + 1
  {
    var n := c.requests;
    var run := DeletedUnderCall(ip);
    var s0 := DeletedUnderCallRuns(c, ip);
    OneMore(c, run, s0, ReadClock(2, ip, 0));
    var s1 := Next(c, s0, ReadClock(2, ip, 0));
    OneMore(c, run + [ReadClock(2, ip, 0)], s1, Lookup(2));
    var s2 := Next(c, s1, Lookup(2));
    BurstAccepted(c, run + [ReadClock(2, ip, 0)] + [Lookup(2)], s2, ip, 1, n);
    var s3 := AfterBurst(s2, ip, 1, n);
    assert s3.objs[0] == [];
    OneMore(c, Burst(run + [ReadClock(2, ip, 0)] + [Lookup(2)], ip, n), s3, Decide(0));
    assert AcceptedAtZero(ip, n + 1) == AcceptedAtZero(ip, n) + [Accepted(ip, 0)];
    CountAtZero(c, ip, n + 1);
  }
}
