/** What a 429 promises: the Retry-After header holds the window in whole seconds, and a client
    that stays quiet for at least that long must be admitted. */
module RetryAfter {
  import opened GoSlice
  import opened SlidingWindow
  import opened Wrappers

  /** The header: the window's seconds, fraction dropped. */
  function RetryAfterSeconds(c: Config): int {
    c.window / SECOND
  }

  /** Run `before`, one request refused at t, then other clients' requests and cleanups. */
  ghost predicate RefusedThenQuiet(c: Config, clock: Time, before: seq<Op>, ip: IP, t: Time, quiet: seq<Op>, late: nat) {
    && Ordered(Retried(c, before, ip, t, quiet, late), clock)
    && !RefAllows(c, RefRun(c, [], before).0, ip, t)
    && forall op <- quiet :: op.AllowOp? ==> op.ip != ip
  }

  /** The retry comes `late` after the time the header names. */
  function Retried(c: Config, before: seq<Op>, ip: IP, t: Time, quiet: seq<Op>, late: nat): seq<Op> {
    before + [AllowOp(ip, t)] + quiet + [AllowOp(ip, t + RetryAfterSeconds(c) * SECOND + late)]
  }

  /** The code's answer to the retry. */
  ghost predicate RetryAdmitted(c: Config, before: seq<Op>, ip: IP, t: Time, quiet: seq<Op>, late: nat) {
    var answers := Run(c, map[], [], Retried(c, before, ip, t, quiet, late)).1;
    answers != [] && answers[|answers| - 1]
  }

  ghost predicate HonoursRetryAfter(c: Config) {
    forall clock, before, ip, t, quiet, late: nat | RefusedThenQuiet(c, clock, before, ip, t, quiet, late) ::
      RetryAdmitted(c, before, ip, t, quiet, late)
  }

  lemma {:induction false} QuietKeepsTimes(c: Config, log: Log, ops: seq<Op>, ip: IP)
    requires forall op <- ops :: op.AllowOp? ==> op.ip != ip
    ensures TimesOf(RefRun(c, log, ops).0, ip) == TimesOf(log, ip)
    decreases |ops|
  {
    if ops != [] {
      assert ops[0] in ops;
      match ops[0]
      case CleanupOp(_) => QuietKeepsTimes(c, log, ops[1..], ip);
      case AllowOp(other, now) =>
        TimesOfSnoc(log, Accepted(other, now), ip);
        QuietKeepsTimes(c, if RefAllows(c, log, other, now) then log + [Accepted(other, now)] else log, ops[1..], ip);
    }
  }

  /** The retry is answered by the log of the run up to the refusal. */
  lemma RetryAnswer(c: Config, clock: Time, before: seq<Op>, ip: IP, t: Time, quiet: seq<Op>, late: nat)
    requires RefusedThenQuiet(c, clock, before, ip, t, quiet, late)
    ensures UpTo(RefRun(c, [], before).0, t)
    ensures RetryAdmitted(c, before, ip, t, quiet, late)
         == RefAllows(c, RefRun(c, [], before).0, ip, t + RetryAfterSeconds(c) * SECOND + late)
  {
    var log := RefRun(c, [], before).0;
    var last := AllowOp(ip, t + RetryAfterSeconds(c) * SECOND + late);
    LimiterRefinesReference(c, clock, Retried(c, before, ip, t, quiet, late));
    assert Retried(c, before, ip, t, quiet, late) == before + ([AllowOp(ip, t)] + (quiet + [last]));
    OrderedPrefix(before, [AllowOp(ip, t)] + (quiet + [last]), clock);
    RefRunUpTo(c, [], before, t);
    RefRunConcat(c, [], before, [AllowOp(ip, t)] + (quiet + [last]));
    assert RefRun(c, log, [AllowOp(ip, t)]).0 == log;
    RefRunConcat(c, log, [AllowOp(ip, t)], quiet + [last]);
    RefRunConcat(c, log, quiet, [last]);
    QuietKeepsTimes(c, log, quiet, ip);
  }

  /** n requests of one IP at one instant. */
  function Burst(ip: IP, t: Time, n: nat): seq<Op> {
    seq(n, i => AllowOp(ip, t))
  }

  /** While fewer than c.requests of the IP are remembered, one more is accepted. */
  lemma BurstGrows(c: Config, log: Log, ip: IP, t: Time)
    requires |TimesOf(log, ip)| < c.requests
    ensures RefRun(c, log, [AllowOp(ip, t)]).0 == log + [Accepted(ip, t)]
  {
    FilterSound(TimesOf(log, ip), Newer(t - c.window));
    assert RefAllows(c, log, ip, t);
    assert [AllowOp(ip, t)][1..] == [];
  }

  lemma {:induction false} BurstFills(c: Config, ip: IP, t: Time, n: nat)
    requires c.window > 0 && n <= c.requests
    ensures |TimesOf(RefRun(c, [], Burst(ip, t, n)).0, ip)| == n
    ensures forall x <- TimesOf(RefRun(c, [], Burst(ip, t, n)).0, ip) :: x == t
  {
    if n > 0 {
      var log := RefRun(c, [], Burst(ip, t, n - 1)).0;
      BurstFills(c, ip, t, n - 1);
      assert Burst(ip, t, n) == Burst(ip, t, n - 1) + [AllowOp(ip, t)];
      RefRunConcat(c, [], Burst(ip, t, n - 1), [AllowOp(ip, t)]);
      BurstGrows(c, log, ip, t);
      TimesOfSnoc(log, Accepted(ip, t), ip);
    }
  }

  lemma {:induction false} BurstOrdered(ip: IP, t: Time, n: nat, last: Op)
    requires t <= last.now
    ensures Ordered(Burst(ip, t, n) + [last], t)
  {
    if n > 0 {
      assert (Burst(ip, t, n) + [last])[1..] == Burst(ip, t, n - 1) + [last];
      BurstOrdered(ip, t, n - 1, last);
    }
  }

  /** A burst at time 0 that fills the window leads to refusals until time W. */
  lemma BurstFull(c: Config, ip: IP, now: Time)
    requires c.requests > 0 && 0 <= now < c.window
    ensures !RefAllows(c, RefRun(c, [], Burst(ip, 0, c.requests)).0, ip, now)
  {
    BurstFills(c, ip, 0, c.requests);
    FilterAll(TimesOf(RefRun(c, [], Burst(ip, 0, c.requests)).0, ip), Newer(now - c.window));
  }

  lemma BurstRefused(c: Config, ip: IP)
    requires c.requests > 0 && c.window > 0 && c.window % SECOND != 0
    ensures RefusedThenQuiet(c, 0, Burst(ip, 0, c.requests), ip, 0, [], 0)
    ensures !RetryAdmitted(c, Burst(ip, 0, c.requests), ip, 0, [], 0)
  {
    var retry := RetryAfterSeconds(c) * SECOND;
    BurstFull(c, ip, 0);
    BurstFull(c, ip, retry);
    assert Retried(c, Burst(ip, 0, c.requests), ip, 0, [], 0) == Burst(ip, 0, c.requests + 1) + [AllowOp(ip, retry)];
    BurstOrdered(ip, 0, c.requests + 1, AllowOp(ip, retry));
    RetryAnswer(c, 0, Burst(ip, 0, c.requests), ip, 0, [], 0);
  }

  /** Main result: waiting out Retry-After, or longer, always gets a refused client in
      if and only if the window is a whole number of seconds. */
  lemma RetryAfterExact(c: Config)
    requires c.requests > 0 && c.window > 0
    ensures HonoursRetryAfter(c) <==> c.window % SECOND == 0
  {
    if c.window % SECOND == 0 {
      assert RetryAfterSeconds(c) * SECOND == c.window;
      forall clock, before, ip, t, quiet, late: nat | RefusedThenQuiet(c, clock, before, ip, t, quiet, late)
        ensures RetryAdmitted(c, before, ip, t, quiet, late)
      {
        RetryAnswer(c, clock, before, ip, t, quiet, late);
        TimesUpTo(RefRun(c, [], before).0, ip, t);
        FilterNone(TimesOf(RefRun(c, [], before).0, ip), Newer(t + late));
      }
    } else {
      BurstRefused(c, "");
    }
  }
}
