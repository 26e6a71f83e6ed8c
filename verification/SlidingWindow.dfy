/** The per-IP sliding-window limiter on values: what one call does to the pruned windows,
    the reference limiter that forgets nothing, and the theorems that join them. */
module SlidingWindow {
  import opened GoSlice
  import opened Wrappers

  type IP = string

  datatype Config = Config(requests: int, window: Time)

  /** The constructor's one normalisation: a window that is not positive becomes a minute. */
  function New(requests: int, window: Time): (c: Config)
    ensures c.window > 0
  {
    Config(requests, if window <= 0 then MINUTE else window)
  }

  // ----- the pruned state -----

  type Windows = map<IP, seq<Time>>

  function Newer(cutoff: Time): Time -> bool { (t: Time) => t > cutoff }

  function Within(after: Time, upTo: Time): Time -> bool { (t: Time) => after < t <= upTo }

  function Kept(w: Windows, ip: IP): seq<Time> {
    if ip in w then w[ip] else []
  }

  /** The section under the client's lock: prune, then refuse or record. */
  function Decide(c: Config, kept: seq<Time>, now: Time): (seq<Time>, bool) {
    var valid := Filter(kept, Newer(now - c.window));
    if |valid| >= c.requests then (valid, false) else (valid + [now], true)
  }

  function Allow(c: Config, w: Windows, ip: IP, now: Time): (Windows, bool) {
    if c.requests <= 0 then (w, true)
    else
      var (kept, ok) := Decide(c, Kept(w, ip), now);
      (w[ip := kept], ok)
  }

  function Cleanup(c: Config, w: Windows, now: Time): Windows {
    if c.requests <= 0 then w
    else map ip | ip in w && Filter(w[ip], Newer(now - c.window)) != [] :: Filter(w[ip], Newer(now - c.window))
  }

  // ----- the reference: every accepted request, for ever -----

  datatype Accepted = Accepted(ip: IP, at: Time)

  type Log = seq<Accepted>

  function TimesOf(log: Log, ip: IP): seq<Time> {
    if log == [] then []
    else
      var front, last := TimesOf(log[..|log| - 1], ip), log[|log| - 1];
      if last.ip == ip then front + [last.at] else front
  }

  lemma TimesOfSnoc(log: Log, a: Accepted, ip: IP)
    ensures TimesOf(log + [a], ip) == if a.ip == ip then TimesOf(log, ip) + [a.at] else TimesOf(log, ip)
  {
    assert (log + [a])[..|log|] == log;
  }

  /** How many requests of ip were accepted after `after` and up to `upTo`. */
  function AcceptedIn(log: Log, ip: IP, after: Time, upTo: Time): nat {
    |Filter(TimesOf(log, ip), Within(after, upTo))|
  }

  /** How many requests of ip were accepted in the window (t - W, t]. */
  function InWindow(c: Config, log: Log, ip: IP, t: Time): nat {
    AcceptedIn(log, ip, t - c.window, t)
  }

  predicate RefAllows(c: Config, log: Log, ip: IP, now: Time) {
    c.requests > 0 ==> |Filter(TimesOf(log, ip), Newer(now - c.window))| < c.requests
  }

  // ----- runs -----

  datatype Op = AllowOp(ip: IP, now: Time) | CleanupOp(now: Time)

  /** Clock readings never go back. */
  predicate Ordered(ops: seq<Op>, clock: Time) {
    ops == [] || (clock <= ops[0].now && Ordered(ops[1..], ops[0].now))
  }

  /** The code's run, with the log of what it accepted kept on the side. */
  function Run(c: Config, w: Windows, log: Log, ops: seq<Op>): (Log, seq<bool>)
    decreases |ops|
  {
    if ops == [] then (log, [])
    else match ops[0]
      case CleanupOp(now) => Run(c, Cleanup(c, w, now), log, ops[1..])
      case AllowOp(ip, now) =>
        var (w', ok) := Allow(c, w, ip, now);
        var (log', answers) := Run(c, w', if ok then log + [Accepted(ip, now)] else log, ops[1..]);
        (log', [ok] + answers)
  }

  /** The reference run: it has no pruned state, so a cleanup is nothing to it. */
  function RefRun(c: Config, log: Log, ops: seq<Op>): (Log, seq<bool>)
    decreases |ops|
  {
    if ops == [] then (log, [])
    else match ops[0]
      case CleanupOp(_) => RefRun(c, log, ops[1..])
      case AllowOp(ip, now) =>
        var ok := RefAllows(c, log, ip, now);
        var (log', answers) := RefRun(c, if ok then log + [Accepted(ip, now)] else log, ops[1..]);
        (log', [ok] + answers)
  }

  function StripCleanups(ops: seq<Op>): seq<Op> {
    if ops == [] then []
    else (if ops[0].CleanupOp? then [] else [ops[0]]) + StripCleanups(ops[1..])
  }

  // ----- refinement -----

  /** The pruned windows and the full log hold the same timestamps later than clock - window. */
  ghost predicate Agree(c: Config, w: Windows, log: Log, clock: Time) {
    forall ip :: Filter(Kept(w, ip), Newer(clock - c.window)) == Filter(TimesOf(log, ip), Newer(clock - c.window))
  }

  lemma AgreeLater(c: Config, w: Windows, log: Log, clock: Time, now: Time)
    requires Agree(c, w, log, clock) && clock <= now
    ensures Agree(c, w, log, now)
  {
    forall ip ensures Filter(Kept(w, ip), Newer(now - c.window)) == Filter(TimesOf(log, ip), Newer(now - c.window)) {
      FilterNarrow(Kept(w, ip), Newer(clock - c.window), Newer(now - c.window));
      FilterNarrow(TimesOf(log, ip), Newer(clock - c.window), Newer(now - c.window));
    }
  }

  /** What the decision does to one IP's timestamps. */
  lemma DecideAgrees(valid: seq<Time>, kept: seq<Time>, times: seq<Time>, cutoff: Time, now: Time)
    requires Filter(kept, Newer(cutoff)) == Filter(times, Newer(cutoff)) == valid
    ensures Filter(valid, Newer(cutoff)) == valid
    ensures Filter(valid + [now], Newer(cutoff)) == Filter(times + [now], Newer(cutoff))
  {
    FilterNarrow(kept, Newer(cutoff), Newer(cutoff));
    FilterSnoc(valid, now, Newer(cutoff));
    FilterSnoc(times, now, Newer(cutoff));
  }

  /** The same, for the decision as a whole: its answer, and the timestamps it leaves and records. */
  lemma DecideFollows(c: Config, kept: seq<Time>, times: seq<Time>, now: Time)
    requires c.requests > 0
    requires Filter(kept, Newer(now - c.window)) == Filter(times, Newer(now - c.window))
    ensures var (kept', ok) := Decide(c, kept, now);
            && ok == (|Filter(times, Newer(now - c.window))| < c.requests)
            && Filter(kept', Newer(now - c.window)) == Filter(if ok then times + [now] else times, Newer(now - c.window))
  {
    DecideAgrees(Filter(kept, Newer(now - c.window)), kept, times, now - c.window, now);
  }

  /** New timestamps for one IP, and for it alone. */
  lemma AgreeUpdated(c: Config, w: Windows, log: Log, ip: IP, kept: seq<Time>, ok: bool, now: Time)
    requires Agree(c, w, log, now)
    requires var times := TimesOf(log, ip);
             Filter(kept, Newer(now - c.window)) == Filter(if ok then times + [now] else times, Newer(now - c.window))
    ensures Agree(c, w[ip := kept], if ok then log + [Accepted(ip, now)] else log, now)
  {
    var w', log' := w[ip := kept], if ok then log + [Accepted(ip, now)] else log;
    forall other ensures Filter(Kept(w', other), Newer(now - c.window)) == Filter(TimesOf(log', other), Newer(now - c.window)) {
      assert Filter(Kept(w, other), Newer(now - c.window)) == Filter(TimesOf(log, other), Newer(now - c.window));
      TimesOfSnoc(log, Accepted(ip, now), other);
    }
  }

  lemma AllowAgrees(c: Config, w: Windows, log: Log, clock: Time, ip: IP, now: Time)
    requires c.requests > 0 && Agree(c, w, log, clock) && clock <= now
    ensures Allow(c, w, ip, now).1 == RefAllows(c, log, ip, now)
    ensures Agree(c, Allow(c, w, ip, now).0, if RefAllows(c, log, ip, now) then log + [Accepted(ip, now)] else log, now)
  {
    AgreeLater(c, w, log, clock, now);
    DecideFollows(c, Kept(w, ip), TimesOf(log, ip), now);
    var (kept, ok) := Decide(c, Kept(w, ip), now);
    AgreeUpdated(c, w, log, ip, kept, ok, now);
  }

  /** Cleaning up leaves each IP what filtering would leave it, present or deleted. */
  lemma CleanupKept(c: Config, w: Windows, now: Time, ip: IP)
    requires c.requests > 0
    ensures Kept(Cleanup(c, w, now), ip) == Filter(Kept(w, ip), Newer(now - c.window))
  {
  }

  lemma CleanupAgrees(c: Config, w: Windows, log: Log, clock: Time, now: Time)
    requires c.requests > 0 && Agree(c, w, log, clock) && clock <= now
    ensures Agree(c, Cleanup(c, w, now), log, now)
  {
    AgreeLater(c, w, log, clock, now);
    var w' := Cleanup(c, w, now);
    forall ip ensures Filter(Kept(w', ip), Newer(now - c.window)) == Filter(TimesOf(log, ip), Newer(now - c.window)) {
      CleanupKept(c, w, now, ip);
      FilterNarrow(Kept(w, ip), Newer(now - c.window), Newer(now - c.window));
    }
  }

  lemma {:induction false} RunAgrees(c: Config, w: Windows, log: Log, clock: Time, ops: seq<Op>)
    requires Agree(c, w, log, clock) && Ordered(ops, clock)
    ensures c.requests > 0 ==> Run(c, w, log, ops) == RefRun(c, log, ops)
    ensures Run(c, w, log, ops).1 == RefRun(c, log, ops).1
    decreases |ops|
  {
    if ops != [] {
      var now := ops[0].now;
      if c.requests <= 0 {
        DisabledAnswers(c, w, log, log, ops);
      } else if ops[0].CleanupOp? {
        CleanupAgrees(c, w, log, clock, now);
        RunAgrees(c, Cleanup(c, w, now), log, now, ops[1..]);
      } else {
        var ip := ops[0].ip;
        AllowAgrees(c, w, log, clock, ip, now);
        var (w', ok) := Allow(c, w, ip, now);
        RunAgrees(c, w', if ok then log + [Accepted(ip, now)] else log, now, ops[1..]);
      }
    }
  }

  lemma {:induction false} DisabledAnswers(c: Config, w: Windows, log: Log, refLog: Log, ops: seq<Op>)
    requires c.requests <= 0
    ensures Run(c, w, log, ops).1 == RefRun(c, refLog, ops).1
    decreases |ops|
  {
    if ops != [] {
      match ops[0]
      case CleanupOp(_) => DisabledAnswers(c, w, log, refLog, ops[1..]);
      case AllowOp(ip, now) =>
        DisabledAnswers(c, w, log + [Accepted(ip, now)], refLog + [Accepted(ip, now)], ops[1..]);
    }
  }

  /** Main result: over every run with nondecreasing time, the pruning limiter answers every
      request as the limiter that never forgets a timestamp, and accepts the same ones. */
  lemma LimiterRefinesReference(c: Config, clock: Time, ops: seq<Op>)
    requires Ordered(ops, clock)
    ensures Run(c, map[], [], ops).1 == RefRun(c, [], ops).1
    ensures c.requests > 0 ==> Run(c, map[], [], ops).0 == RefRun(c, [], ops).0
  {
    RunAgrees(c, map[], [], clock, ops);
  }

  lemma {:induction false} RefIgnoresCleanups(c: Config, log: Log, ops: seq<Op>)
    ensures RefRun(c, log, ops) == RefRun(c, log, StripCleanups(ops))
    decreases |ops|
  {
    if ops != [] {
      var rest := StripCleanups(ops[1..]);
      match ops[0]
      case CleanupOp(_) =>
        assert StripCleanups(ops) == rest;
        RefIgnoresCleanups(c, log, ops[1..]);
      case AllowOp(ip, now) =>
        var ok := RefAllows(c, log, ip, now);
        RefIgnoresCleanups(c, if ok then log + [Accepted(ip, now)] else log, ops[1..]);
        assert StripCleanups(ops)[1..] == rest;
    }
  }

  lemma {:induction false} StripKeepsOrder(ops: seq<Op>, clock: Time, earlier: Time)
    requires Ordered(ops, clock) && earlier <= clock
    ensures Ordered(StripCleanups(ops), earlier)
    decreases |ops|
  {
    if ops != [] {
      if ops[0].CleanupOp? {
        StripKeepsOrder(ops[1..], ops[0].now, earlier);
        assert StripCleanups(ops) == StripCleanups(ops[1..]);
      } else {
        StripKeepsOrder(ops[1..], ops[0].now, ops[0].now);
        assert StripCleanups(ops)[1..] == StripCleanups(ops[1..]);
      }
    }
  }

  /** Background cleanup, including the deletion of clients, changes no answer of any run. */
  lemma CleanupIsInvisible(c: Config, clock: Time, ops: seq<Op>)
    requires Ordered(ops, clock)
    ensures Run(c, map[], [], ops).1 == Run(c, map[], [], StripCleanups(ops)).1
  {
    LimiterRefinesReference(c, clock, ops);
    StripKeepsOrder(ops, clock, clock);
    LimiterRefinesReference(c, clock, StripCleanups(ops));
    RefIgnoresCleanups(c, [], ops);
  }

  // ----- the bound on accepted requests -----

  /** No half-open window of the configured length holds more than the configured number. */
  ghost predicate Bounded(c: Config, log: Log) {
    forall ip, t :: InWindow(c, log, ip, t) <= c.requests
  }

  predicate UpTo(log: Log, clock: Time) {
    forall a <- log :: a.at <= clock
  }

  lemma {:induction false} TimesUpTo(log: Log, ip: IP, clock: Time)
    requires UpTo(log, clock)
    ensures forall t <- TimesOf(log, ip) :: t <= clock
  {
    if log != [] {
      TimesUpTo(log[..|log| - 1], ip, clock);
    }
  }

  lemma AcceptInWindow(c: Config, log: Log, ip: IP, now: Time, t: Time)
    requires c.requests > 0 && InWindow(c, log, ip, t) <= c.requests && RefAllows(c, log, ip, now)
    ensures InWindow(c, log + [Accepted(ip, now)], ip, t) <= c.requests
  {
    var times, window := TimesOf(log, ip), Within(t - c.window, t);
    TimesOfSnoc(log, Accepted(ip, now), ip);
    FilterSnoc(times, now, window);
    if window(now) {
      FilterMonotone(times, window, Newer(now - c.window));
    }
  }

  /** Accepting what the reference accepts keeps the bound, in whatever order readings come. */
  lemma AcceptKeepsBounded(c: Config, log: Log, ip: IP, now: Time)
    requires c.requests > 0 && Bounded(c, log) && RefAllows(c, log, ip, now)
    ensures Bounded(c, log + [Accepted(ip, now)])
  {
    forall other, t ensures InWindow(c, log + [Accepted(ip, now)], other, t) <= c.requests {
      assert InWindow(c, log, other, t) <= c.requests;
      TimesOfSnoc(log, Accepted(ip, now), other);
      if other == ip {
        AcceptInWindow(c, log, ip, now, t);
      }
    }
  }

  lemma {:induction false} RefRunBounded(c: Config, log: Log, ops: seq<Op>)
    requires c.requests > 0 && Bounded(c, log)
    ensures Bounded(c, RefRun(c, log, ops).0)
    decreases |ops|
  {
    if ops != [] {
      match ops[0]
      case CleanupOp(_) => RefRunBounded(c, log, ops[1..]);
      case AllowOp(ip, now) =>
        if RefAllows(c, log, ip, now) {
          AcceptKeepsBounded(c, log, ip, now);
          RefRunBounded(c, log + [Accepted(ip, now)], ops[1..]);
        } else {
          RefRunBounded(c, log, ops[1..]);
        }
    }
  }

  /** The window in force: as configured, or a minute. */
  function WindowOf(window: Time): Time {
    if window <= 0 then 60 * SECOND else window
  }

  /** Main result: in every run of a limiter set to a positive number of requests, every window
      (t - W, t] holds at most that many accepted requests of an IP. */
  lemma WindowBound(requests: int, window: Time, clock: Time, ops: seq<Op>, ip: IP, t: Time)
    requires requests > 0 && Ordered(ops, clock)
    ensures AcceptedIn(Run(New(requests, window), map[], [], ops).0, ip, t - WindowOf(window), t) <= requests
  {
    var c := New(requests, window);
    LimiterRefinesReference(c, clock, ops);
    assert Bounded(c, []);
    RefRunBounded(c, [], ops);
    assert InWindow(c, Run(c, map[], [], ops).0, ip, t) <= requests;
  }

  lemma {:induction false} FilterSplit(s: seq<Time>, a: Time, b: Time, d: Time)
    requires a <= b <= d
    ensures |Filter(s, Within(a, d))| == |Filter(s, Within(a, b))| + |Filter(s, Within(b, d))|
  {
    if s != [] {
      FilterSplit(s[..|s| - 1], a, b, d);
    }
  }

  /** a / b rounded up. */
  function CeilDiv(a: int, b: int): nat
    requires b > 0
    decreases a
  {
    if a <= 0 then 0 else 1 + CeilDiv(a - b, b)
  }

  lemma {:induction false} CeilDivIsCeiling(a: int, b: int)
    requires a > 0 && b > 0
    ensures (CeilDiv(a, b) - 1) * b < a <= CeilDiv(a, b) * b
    decreases a
  {
    if a > b {
      CeilDivIsCeiling(a - b, b);
      var k := CeilDiv(a - b, b);
      assert CeilDiv(a, b) == k + 1;
      assert (k + 1) * b == k * b + b && (k - 1) * b == k * b - b;
    } else {
      assert CeilDiv(a - b, b) == 0;
    }
  }

  lemma {:induction false} BoundedIntervals(c: Config, log: Log, ip: IP, a: Time, length: nat)
    requires c.requests > 0 && c.window > 0 && Bounded(c, log)
    ensures AcceptedIn(log, ip, a, a + length) <= c.requests * CeilDiv(length, c.window)
    decreases length
  {
    var times := TimesOf(log, ip);
    assert InWindow(c, log, ip, a + c.window) <= c.requests;
    if length == 0 {
      FilterNone(times, Within(a, a));
    } else if length <= c.window {
      assert CeilDiv(length - c.window, c.window) == 0;
      FilterMonotone(times, Within(a, a + length), Within(a, a + c.window));
    } else {
      FilterSplit(times, a, a + c.window, a + length);
      BoundedIntervals(c, log, ip, a + c.window, length - c.window);
      var k := CeilDiv(length - c.window, c.window);
      assert c.requests * (k + 1) == c.requests * k + c.requests;
    }
  }

  /** Any interval (a, a + L] of any run holds at most N * ceil(L / W) accepted requests of an IP. */
  lemma IntervalBound(requests: int, window: Time, clock: Time, ops: seq<Op>, ip: IP, a: Time, length: nat)
    requires requests > 0 && Ordered(ops, clock)
    ensures AcceptedIn(Run(New(requests, window), map[], [], ops).0, ip, a, a + length)
            <= requests * CeilDiv(length, WindowOf(window))
  {
    var c := New(requests, window);
    LimiterRefinesReference(c, clock, ops);
    assert Bounded(c, []);
    RefRunBounded(c, [], ops);
    BoundedIntervals(c, RefRun(c, [], ops).0, ip, a, length);
  }

  // ----- each single answer -----

  lemma {:induction false} RefRunConcat(c: Config, log: Log, a: seq<Op>, b: seq<Op>)
    ensures RefRun(c, log, a + b).0 == RefRun(c, RefRun(c, log, a).0, b).0
    ensures RefRun(c, log, a + b).1 == RefRun(c, log, a).1 + RefRun(c, RefRun(c, log, a).0, b).1
    decreases |a|
  {
    if a == [] {
      assert a + b == b;
    } else {
      assert (a + b)[0] == a[0] && (a + b)[1..] == a[1..] + b;
      match a[0]
      case CleanupOp(_) => RefRunConcat(c, log, a[1..], b);
      case AllowOp(ip, now) =>
        RefRunConcat(c, if RefAllows(c, log, ip, now) then log + [Accepted(ip, now)] else log, a[1..], b);
    }
  }

  lemma {:induction false} OrderedPrefix(a: seq<Op>, b: seq<Op>, clock: Time)
    requires Ordered(a + b, clock)
    ensures Ordered(a, clock)
    ensures b != [] ==> clock <= b[0].now && forall op <- a :: op.now <= b[0].now
    decreases |a|
  {
    if a == [] {
      assert a + b == b;
    } else {
      assert (a + b)[0] == a[0] && (a + b)[1..] == a[1..] + b;
      OrderedPrefix(a[1..], b, a[0].now);
    }
  }

  /** A run accepts nothing later than its last clock reading. */
  lemma {:induction false} RefRunUpTo(c: Config, log: Log, ops: seq<Op>, t: Time)
    requires UpTo(log, t) && forall op <- ops :: op.now <= t
    ensures UpTo(RefRun(c, log, ops).0, t)
    decreases |ops|
  {
    if ops != [] {
      assert ops[0] in ops;
      match ops[0]
      case CleanupOp(_) => RefRunUpTo(c, log, ops[1..], t);
      case AllowOp(ip, now) =>
        RefRunUpTo(c, if RefAllows(c, log, ip, now) then log + [Accepted(ip, now)] else log, ops[1..], t);
    }
  }

  /** Without the upper end: nothing accepted is later than the clock. */
  lemma WindowIsOpenEnded(log: Log, ip: IP, after: Time, now: Time)
    requires UpTo(log, now)
    ensures Filter(TimesOf(log, ip), Newer(after)) == Filter(TimesOf(log, ip), Within(after, now))
  {
    TimesUpTo(log, ip, now);
    FilterAgree(TimesOf(log, ip), Newer(after), Within(after, now));
  }

  /** Main result: in every run, a request is let in exactly if the limiter is set to no positive
      number, or fewer than that number of the IP's requests were accepted in the window before it. */
  lemma AnswerExactly(requests: int, window: Time, clock: Time, before: seq<Op>, ip: IP, now: Time)
    requires Ordered(before + [AllowOp(ip, now)], clock)
    ensures var c := New(requests, window);
            Run(c, map[], [], before + [AllowOp(ip, now)]).1 == Run(c, map[], [], before).1 +
              [requests <= 0 || AcceptedIn(Run(c, map[], [], before).0, ip, now - WindowOf(window), now) < requests]
  {
    var c, last := New(requests, window), [AllowOp(ip, now)];
    OrderedPrefix(before, last, clock);
    LimiterRefinesReference(c, clock, before + last);
    LimiterRefinesReference(c, clock, before);
    RefRunConcat(c, [], before, last);
    RefRunUpTo(c, [], before, now);
    WindowIsOpenEnded(RefRun(c, [], before).0, ip, now - WindowOf(window), now);
    assert RefRun(c, RefRun(c, [], before).0, last).1 == [RefAllows(c, RefRun(c, [], before).0, ip, now)] + [];
  }

  /** A limiter set to no positive number lets everything in. */
  lemma {:induction false} DisabledLetsAllIn(requests: int, window: Time, w: Windows, log: Log, ops: seq<Op>)
    requires requests <= 0
    ensures forall answer <- Run(New(requests, window), w, log, ops).1 :: answer
    decreases |ops|
  {
    if ops != [] {
      match ops[0]
      case CleanupOp(now) => DisabledLetsAllIn(requests, window, w, log, ops[1..]);
      case AllowOp(ip, now) => DisabledLetsAllIn(requests, window, w, log + [Accepted(ip, now)], ops[1..]);
    }
  }

  /** A cleanup forgets exactly what has left the window, and the clients that leaves with nothing. */
  lemma CleanupExactly(requests: int, window: Time, w: Windows, now: Time, ip: IP, t: Time)
    requires requests > 0
    ensures var w' := Cleanup(New(requests, window), w, now);
            && (t in Kept(w', ip) <==> t in Kept(w, ip) && t > now - WindowOf(window))
            && (ip in w' ==> w'[ip] != [])
  {
    FilterSound(Kept(w, ip), Newer(now - WindowOf(window)));
    CleanupKept(New(requests, window), w, now, ip);
  }
}
