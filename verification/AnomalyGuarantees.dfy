/** What the detector's alerts guarantee about arbitrary intervals, and how exactly. */
module AnomalyGuarantees {
  import opened CounterWindows
  import opened AnomalyDetection
  import opened Wrappers

  /** The failures of ip in a run, in order. */
  function FailuresOf(c: Config, clock: Time, ops: seq<Op>, ip: IP): seq<Event> {
    History(Exec(c, Init(clock), ops).failures, ip)
  }

  /** Every alert is deserved: the last Threshold failures, this one included, are in one window. */
  lemma AlertsAreDeserved(c: Config, clock: Time, ops: seq<Op>, ip: IP, j: nat)
    requires InTime(ops, clock)
    requires j < |FailuresOf(c, clock, ops, ip)| && FailuresOf(c, clock, ops, ip)[j].alert
    ensures var h, t := FailuresOf(c, clock, ops, ip), if c.maxFailures < 2 then 2 else c.maxFailures;
            j >= t - 1 && h[j].at - h[j - (t - 1)].at <= c.window
  {
    var s, t := Exec(c, Init(clock), ops), Threshold(c.maxFailures);
    var h := FailuresOf(c, clock, ops, ip);
    ReachedInv(c, clock, ops);
    assert FailuresInv(c, s, ip) && Follows(h, j, c.window, t);
    CounterStart(h, c.window, t, j, t - 1);
    CounterStart(h, c.window, t, j, h[j].index - 1);
    var first := j - (h[j].index - 1);
    assert Follows(h, first, c.window, t);
    CounterWindows.Ordered(h, c.window, t, first, j - (t - 1));
  }

  /** Failures i to j of a run, all from ip and within one window. */
  ghost predicate InOneWindow(c: Config, clock: Time, ops: seq<Op>, ip: IP, i: nat, j: nat) {
    && InTime(ops, clock)
    && var h := FailuresOf(c, clock, ops, ip); i <= j < |h| && h[j].at - h[i].at <= c.window
  }

  ghost predicate SomeAlert(c: Config, clock: Time, ops: seq<Op>, ip: IP, i: nat, j: nat) {
    exists m :: i <= m <= j && m < |FailuresOf(c, clock, ops, ip)| && FailuresOf(c, clock, ops, ip)[m].alert
  }

  /** In every run, any n failures of an IP within one window include one that alerts. */
  ghost predicate Catches(c: Config, n: nat) {
    forall clock, ops, ip, i: nat, j: nat | InOneWindow(c, clock, ops, ip, i, j) && j - i + 1 >= n ::
      SomeAlert(c, clock, ops, ip, i, j)
  }

  lemma EnoughFailuresAlert(c: Config, clock: Time, ops: seq<Op>, ip: IP, i: nat, j: nat)
    requires InOneWindow(c, clock, ops, ip, i, j) && j - i + 1 >= 2 * Threshold(c.maxFailures) - 2
    ensures SomeAlert(c, clock, ops, ip, i, j)
  {
    var h := FailuresOf(c, clock, ops, ip);
    ReachedInv(c, clock, ops);
    assert FailuresInv(c, Exec(c, Init(clock), ops), ip);
    if forall m | i <= m <= j :: !h[m].alert {
      QuietEvents(h, c.window, Threshold(c.maxFailures), i, j);
    }
  }

  // ----- one fewer can go unnoticed -----

  function Repeat(op: Op, n: nat): seq<Op> {
    seq(n, i => op)
  }

  lemma {:induction false} ExecConcat(c: Config, s: State, a: seq<Op>, b: seq<Op>)
    ensures Exec(c, s, a + b) == Exec(c, Exec(c, s, a), b)
    decreases |a|
  {
    if a == [] {
      assert a + b == b;
    } else {
      assert (a + b)[0] == a[0] && (a + b)[1..] == a[1..] + b;
      ExecConcat(c, Next(c, s, a[0]), a[1..], b);
    }
  }

  lemma {:induction false} RepeatInTime(op: Op, n: nat, clock: Time, rest: seq<Op>)
    requires clock <= op.now && InTime(rest, op.now)
    ensures InTime(Repeat(op, n) + rest, clock)
  {
    var ops := Repeat(op, n) + rest;
    if n == 0 {
      assert ops == rest;
    } else {
      assert ops[1..] == Repeat(op, n - 1) + rest;
      RepeatInTime(op, n - 1, op.now, rest);
    }
  }

  /** n more failures within a window that has room for them. */
  lemma {:induction false} FailuresRun(c: Config, s: State, ip: IP, n: nat, now: Time)
    requires ip in s.tables.ips && now <= s.tables.ips[ip].windowEnd
    requires s.tables.ips[ip].failures >= 1 && s.tables.ips[ip].failures + n < Threshold(c.maxFailures)
    ensures var s', h := Exec(c, s, Repeat(Failure(ip, now), n)), History(s.failures, ip);
            && ip in s'.tables.ips && s'.tables.ips[ip] == s.tables.ips[ip].(failures := s.tables.ips[ip].failures + n)
            && |History(s'.failures, ip)| == |h| + n && History(s'.failures, ip)[..|h|] == h
            && forall m | |h| <= m < |h| + n :: History(s'.failures, ip)[m].at == now && !History(s'.failures, ip)[m].alert
    decreases n
  {
    if n > 0 {
      var s1 := Next(c, s, Failure(ip, now));
      var h, h1 := History(s.failures, ip), History(s1.failures, ip);
      assert Repeat(Failure(ip, now), n)[1..] == Repeat(Failure(ip, now), n - 1);
      FailuresRun(c, s1, ip, n - 1, now);
      var h' := History(Exec(c, s, Repeat(Failure(ip, now), n)).failures, ip);
      assert h1 == h + [h1[|h|]] && h'[..|h1|] == h1;
      assert h'[..|h|] == h'[..|h1|][..|h|] == h;
      assert h'[|h|] == h1[|h|];
    } else {
      assert Repeat(Failure(ip, now), 0) == [];
    }
  }

  /** A window that fills up but for one at its very end, and the next one likewise at its start. */
  function Straddle(c: Config, ip: IP): seq<Op> {
    var room := Threshold(c.maxFailures) - 2;
    Repeat(Failure(ip, 0), 1) + (Repeat(Failure(ip, c.window), room) +
      (Repeat(Failure(ip, c.window + 1), 1) + Repeat(Failure(ip, c.window + 1), room)))
  }

  lemma StraddleInTime(c: Config, ip: IP)
    requires c.window >= 1
    ensures InTime(Straddle(c, ip), 0)
  {
    var room := Threshold(c.maxFailures) - 2;
    var b, d := Repeat(Failure(ip, c.window), room), Repeat(Failure(ip, c.window + 1), 1);
    var e := Repeat(Failure(ip, c.window + 1), room);
    assert e + [] == e;
    RepeatInTime(Failure(ip, c.window + 1), room, c.window + 1, []);
    RepeatInTime(Failure(ip, c.window + 1), 1, c.window, e);
    RepeatInTime(Failure(ip, c.window), room, 0, d + e);
    RepeatInTime(Failure(ip, 0), 1, 0, b + (d + e));
  }

  lemma OneOp(c: Config, s: State, op: Op)
    ensures Exec(c, s, Repeat(op, 1)) == Next(c, s, op)
  {
    assert Repeat(op, 1)[1..] == [];
  }

  /** The straddling run up to the first failure of the second window. */
  lemma StraddleHalf(c: Config, ip: IP) returns (s: State)
    requires c.window >= 1
    ensures ip in s.tables.ips && s.tables.ips[ip] == IpEntry(1, 2 * c.window + 1)
    ensures var h, t := History(s.failures, ip), Threshold(c.maxFailures);
            |h| == t && forall m | 1 <= m < t :: c.window <= h[m].at <= c.window + 1 && !h[m].alert
    ensures Exec(c, Init(0), Straddle(c, ip)) == Exec(c, s, Repeat(Failure(ip, c.window + 1), Threshold(c.maxFailures) - 2))
  {
    var room := Threshold(c.maxFailures) - 2;
    var b, d := Repeat(Failure(ip, c.window), room), Repeat(Failure(ip, c.window + 1), 1);
    var e := Repeat(Failure(ip, c.window + 1), room);
    ExecConcat(c, Init(0), Repeat(Failure(ip, 0), 1), b + (d + e));
    OneOp(c, Init(0), Failure(ip, 0));
    var s1 := Next(c, Init(0), Failure(ip, 0));
    ExecConcat(c, s1, b, d + e);
    FailuresRun(c, s1, ip, room, c.window);
    var s2 := Exec(c, s1, b);
    ExecConcat(c, s2, d, e);
    OneOp(c, s2, Failure(ip, c.window + 1));
    s := Next(c, s2, Failure(ip, c.window + 1));
  }

  lemma StraddleUnnoticed(c: Config, ip: IP)
    requires c.window >= 1
    ensures var h, t := FailuresOf(c, 0, Straddle(c, ip), ip), Threshold(c.maxFailures);
            && |h| == 2 * t - 2
            && forall m | 1 <= m < |h| :: c.window <= h[m].at <= c.window + 1 && !h[m].alert
  {
    var s := StraddleHalf(c, ip);
    FailuresRun(c, s, ip, Threshold(c.maxFailures) - 2, c.window + 1);
    var half, h := History(s.failures, ip), FailuresOf(c, 0, Straddle(c, ip), ip);
    forall m | 1 <= m < |h| ensures c.window <= h[m].at <= c.window + 1 && !h[m].alert {
      assert m < |half| ==> h[m] == h[..|half|][m] == half[m];
    }
  }

  /** Main result: a counter with one window catches every burst of n failures within any window
      if and only if n is at least twice the threshold less two. */
  lemma CatchesExactly(c: Config, n: nat)
    requires c.window >= 1 && n >= 1
    ensures Catches(c, n) <==> n >= if c.maxFailures < 2 then 2 else 2 * c.maxFailures - 2
  {
    if n >= 2 * Threshold(c.maxFailures) - 2 {
      forall clock, ops, ip, i: nat, j: nat | InOneWindow(c, clock, ops, ip, i, j) && j - i + 1 >= n
        ensures SomeAlert(c, clock, ops, ip, i, j)
      {
        EnoughFailuresAlert(c, clock, ops, ip, i, j);
      }
    } else {
      StraddleInTime(c, "");
      StraddleUnnoticed(c, "");
      assert InOneWindow(c, 0, Straddle(c, ""), "", 1, n);
      assert !SomeAlert(c, 0, Straddle(c, ""), "", 1, n);
    }
  }

  // ----- cleanup -----

  function StripCleanups(ops: seq<Op>): seq<Op> {
    if ops == [] then []
    else (if ops[0].CleanupOp? then [] else [ops[0]]) + StripCleanups(ops[1..])
  }

  /** With and without cleanups: the same entries, but for those whose window has ended. */
  ghost predicate SameLiveEntries(a: State, b: State, clock: Time) {
    && a.failures == b.failures
    && forall ip ::
        && (ip in a.tables.ips ==> ip in b.tables.ips && a.tables.ips[ip] == b.tables.ips[ip])
        && (ip in b.tables.ips && ip !in a.tables.ips ==> clock > b.tables.ips[ip].windowEnd)
  }

  lemma CleanupKeepsLive(c: Config, a: State, b: State, now: Time, clock: Time)
    requires SameLiveEntries(a, b, clock) && clock <= now
    ensures SameLiveEntries(Next(c, a, CleanupOp(now)), b, now)
  {
  }

  lemma OpKeepsLive(c: Config, a: State, b: State, op: Op, clock: Time)
    requires SameLiveEntries(a, b, clock) && clock <= op.now && !op.CleanupOp?
    ensures SameLiveEntries(Next(c, a, op), Next(c, b, op), op.now)
  {
  }

  lemma {:induction false} CleanupKeepsFailures(c: Config, a: State, b: State, ops: seq<Op>, clock: Time)
    requires SameLiveEntries(a, b, clock) && InTime(ops, clock)
    ensures Exec(c, a, ops).failures == Exec(c, b, StripCleanups(ops)).failures
    decreases |ops|
  {
    if ops != [] {
      var rest := StripCleanups(ops[1..]);
      if ops[0].CleanupOp? {
        assert StripCleanups(ops) == rest;
        CleanupKeepsLive(c, a, b, ops[0].now, clock);
        CleanupKeepsFailures(c, Next(c, a, ops[0]), b, ops[1..], ops[0].now);
      } else {
        assert StripCleanups(ops)[0] == ops[0] && StripCleanups(ops)[1..] == rest;
        OpKeepsLive(c, a, b, ops[0], clock);
        CleanupKeepsFailures(c, Next(c, a, ops[0]), Next(c, b, ops[0]), ops[1..], ops[0].now);
      }
    }
  }

  /** Main result: cleanups change no failure alert of any run. */
  lemma CleanupIsInvisible(c: Config, clock: Time, ops: seq<Op>, ip: IP)
    requires InTime(ops, clock)
    ensures FailuresOf(c, clock, ops, ip) == FailuresOf(c, clock, StripCleanups(ops), ip)
  {
    CleanupKeepsFailures(c, Init(clock), Init(clock), ops, clock);
  }
}
