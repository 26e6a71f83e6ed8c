/** Polling for the device token (RFC 8628): the loop, and how often and how long it can poll. */
module DevicePolling {
  import opened Wrappers

  /** The defaults for a provider that leaves out the interval or the lifetime (section 3.2). */
  function Interval(given: int): int { if given <= 0 then 5 else given }

  function ExpiresIn(given: int): int { if given <= 0 then 600 else given }

  datatype Reply = Token | BadToken | Pending | SlowDown | Denied | Unreadable | Unreachable

  /** What each poll meets: the reply, how long it takes, by how much the sleep after it overshoots,
      and whether the context ends during that sleep. */
  datatype World = World(reply: nat -> Reply, took: nat -> nat, overslept: nat -> nat, cancelled: nat -> bool)

  datatype Outcome = Granted | Expired | Failed | Cancelled

  /** The polls made, by the clock reading that let each of them go ahead, and how it ended. */
  datatype Trace = Trace(polls: seq<Time>, outcome: Outcome)

  predicate GoesOn(r: Reply) { r.Pending? || r.SlowDown? }

  /** The interval after a reply. */
  function Wait(interval: Time, r: Reply): Time {
    if r.SlowDown? then interval + 5 * SECOND else interval
  }

  /** The next clock reading after turn i at `now`; a wait that is not positive is none. */
  function NextAt(w: World, i: nat, now: Time, wait: Time): Time {
    now + w.took(i) + (if wait > 0 then wait else 0) + w.overslept(i)
  }

  /** Time passes from turn to turn: in the wait, or else in the requests. */
  ghost predicate Advances(w: World, interval: Time) {
    interval > 0 || forall i: nat :: w.took(i) > 0
  }

  /** The loop from its i-th turn, which reads the clock at `now`. */
  function Poll(w: World, i: nat, now: Time, interval: Time, deadline: Time): Trace
    requires Advances(w, interval)
    decreases deadline - now
  {
    if now > deadline then Trace([], Expired)
    else if w.reply(i).Token? then Trace([now], Granted)
    else if !GoesOn(w.reply(i)) then Trace([now], Failed)
    else if w.cancelled(i) then Trace([now], Cancelled)
    else
      var wait := Wait(interval, w.reply(i));
      var rest := Poll(w, i + 1, NextAt(w, i, now, wait), wait, deadline);
      Trace([now] + rest.polls, rest.outcome)
  }

  /** The whole run, from the polls already made and the run from here on. */
  function After(polls: seq<Time>, rest: Trace): Trace {
    Trace(polls + rest.polls, rest.outcome)
  }

  /** Whether the turn that got this reply is the last, and how it ends the loop. */
  function EndOf(r: Reply, cancelled: bool): Option<Outcome> {
    if r.Token? then Some(Granted)
    else if !GoesOn(r) then Some(Failed)
    else if cancelled then Some(Cancelled)
    else None
  }

  lemma OneTurn(w: World, polls: seq<Time>, i: nat, now: Time, interval: Time, deadline: Time)
    requires Advances(w, interval) && now <= deadline
    ensures var end, wait := EndOf(w.reply(i), w.cancelled(i)), Wait(interval, w.reply(i));
            After(polls, Poll(w, i, now, interval, deadline)) ==
            if end.Some? then Trace(polls + [now], end.value)
            else After(polls + [now], Poll(w, i + 1, NextAt(w, i, now, wait), wait, deadline))
  {
  }

  /** One turn of the loop that the deadline still allows: its outcome if it is the last, and
      otherwise the new interval and clock. */
  method TakeTurn(w: World, i: nat, now: Time, interval: Time) returns (end: Option<Outcome>, wait: Time, next: Time)
    ensures end == EndOf(w.reply(i), w.cancelled(i))
    ensures end.None? ==> wait == Wait(interval, w.reply(i)) && next == NextAt(w, i, now, wait)
  {
    wait, next := interval, now;
    match w.reply(i) {
      case Token => return Some(Granted), wait, next;
      case Pending =>
      case SlowDown => wait := wait + 5 * SECOND;
      case _ => return Some(Failed), wait, next;
    }
    if w.cancelled(i) {
      return Some(Cancelled), wait, next;
    }
    next := now + w.took(i) + w.overslept(i);
    if wait > 0 {
      next := next + wait;
    }
    return None, wait, next;
  }

  /** PollDeviceToken: the deadline is set at `start`, the loop begins at `now`. */
  method PollDeviceToken(w: World, intervalSeconds: int, expiresSeconds: int, start: Time, now: Time)
    returns (outcome: Outcome, polls: seq<Time>)
    requires Advances(w, intervalSeconds * SECOND)
    ensures Trace(polls, outcome) == Poll(w, 0, now, intervalSeconds * SECOND, start + expiresSeconds * SECOND)
  {
    var interval := intervalSeconds * SECOND;
    var deadline := start + expiresSeconds * SECOND;
    var clock: Time, i: nat := now, 0;
    polls := [];
    ghost var run := Poll(w, 0, now, interval, deadline);
    while true
      invariant Advances(w, interval)
      invariant run == After(polls, Poll(w, i, clock, interval, deadline))
      decreases deadline - clock
    {
      if clock > deadline {
        return Expired, polls;
      }
      OneTurn(w, polls, i, clock, interval, deadline);
      polls := polls + [clock];
      var end, wait, next := TakeTurn(w, i, clock, interval);
      if end.Some? {
        return end.value, polls;
      }
      interval, clock, i := wait, next, i + 1;
    }
  }

  // ----- what every run satisfies -----

  /** How many of the replies i..j-1 are slow_down. */
  function SlowDowns(w: World, i: nat, j: nat): nat
    requires i <= j
    decreases j
  {
    if i == j then 0 else SlowDowns(w, i, j - 1) + if w.reply(j - 1).SlowDown? then 1 else 0
  }

  lemma {:induction false} SlowDownsFirst(w: World, i: nat, j: nat)
    requires i < j
    ensures SlowDowns(w, i, j) == SlowDowns(w, i + 1, j) + if w.reply(i).SlowDown? then 1 else 0
    decreases j
  {
    if i + 1 < j {
      SlowDownsFirst(w, i, j - 1);
    }
  }

  /** Between one poll and the next passes the interval plus five seconds for every slow_down
      received so far (section 3.5). */
  ghost predicate Spaced(w: World, i: nat, polls: seq<Time>, interval: Time) {
    forall j | 0 <= j < |polls| - 1 :: polls[j + 1] - polls[j] >= interval + 5 * SECOND * SlowDowns(w, i, i + j + 1)
  }

  lemma SpacedFirst(w: World, i: nat, now: Time, rest: seq<Time>, interval: Time)
    requires Spaced(w, i + 1, rest, Wait(interval, w.reply(i)))
    requires rest != [] ==> rest[0] - now >= Wait(interval, w.reply(i))
    ensures Spaced(w, i, [now] + rest, interval)
  {
    var polls := [now] + rest;
    forall j | 0 <= j < |polls| - 1
      ensures polls[j + 1] - polls[j] >= interval + 5 * SECOND * SlowDowns(w, i, i + j + 1)
    {
      SlowDownsFirst(w, i, i + j + 1);
      if j > 0 {
        assert rest[(j - 1) + 1] - rest[j - 1]
            >= Wait(interval, w.reply(i)) + 5 * SECOND * SlowDowns(w, i + 1, i + 1 + (j - 1) + 1);
      }
    }
  }

  /** Every poll goes ahead by the deadline, and the polls keep their distance. */
  lemma {:induction false} PollsKeepTheirDistance(w: World, i: nat, now: Time, interval: Time, deadline: Time)
    requires Advances(w, interval)
    ensures var polls := Poll(w, i, now, interval, deadline).polls;
            && (polls != [] ==> polls[0] == now)
            && (forall t <- polls :: t <= deadline)
            && Spaced(w, i, polls, interval)
    decreases deadline - now
  {
    if now <= deadline && GoesOn(w.reply(i)) && !w.cancelled(i) {
      var wait := Wait(interval, w.reply(i));
      var next := NextAt(w, i, now, wait);
      PollsKeepTheirDistance(w, i + 1, next, wait, deadline);
      SpacedFirst(w, i, now, Poll(w, i + 1, next, wait, deadline).polls, interval);
    }
  }

  /** The least time the first j waits of a run take. */
  function LeastElapsed(w: World, interval: Time, j: nat): Time {
    if j == 0 then 0 else LeastElapsed(w, interval, j - 1) + interval + 5 * SECOND * SlowDowns(w, 0, j)
  }

  lemma {:induction false} ElapsedBetween(w: World, now: Time, interval: Time, deadline: Time, j: nat)
    requires Advances(w, interval) && j < |Poll(w, 0, now, interval, deadline).polls|
    ensures now + LeastElapsed(w, interval, j) <= Poll(w, 0, now, interval, deadline).polls[j] <= deadline
  {
    var polls := Poll(w, 0, now, interval, deadline).polls;
    PollsKeepTheirDistance(w, 0, now, interval, deadline);
    assert polls[j] in polls;
    if j > 0 {
      ElapsedBetween(w, now, interval, deadline, j - 1);
      assert polls[(j - 1) + 1] - polls[j - 1] >= interval + 5 * SECOND * SlowDowns(w, 0, 0 + (j - 1) + 1);
    }
  }

  lemma {:induction false} LeastElapsedLinear(w: World, interval: Time, j: nat)
    ensures LeastElapsed(w, interval, j) >= j * interval
  {
    if j > 0 {
      LeastElapsedLinear(w, interval, j - 1);
      assert j * interval == (j - 1) * interval + interval;
    }
  }

  /** Main result: polling ends after at most floor(ExpiresIn / Interval) + 1 polls, whatever the
      provider answers and whatever it gave for the two. */
  lemma PollCount(w: World, interval: int, expiresIn: int, start: Time, now: Time)
    requires start <= now
    ensures |Poll(w, 0, now, Interval(interval) * SECOND, start + ExpiresIn(expiresIn) * SECOND).polls|
            <= ExpiresIn(expiresIn) / Interval(interval) + 1
  {
    var i, e := Interval(interval), ExpiresIn(expiresIn);
    var polls := Poll(w, 0, now, i * SECOND, start + e * SECOND).polls;
    if polls != [] {
      var k := |polls| - 1;
      ElapsedBetween(w, now, i * SECOND, start + e * SECOND, k);
      LeastElapsedLinear(w, i * SECOND, k);
      assert k * (i * SECOND) == (k * i) * SECOND;
      Quotient(k, i, e);
    }
  }

  lemma MulMonotone(x: int, y: int, a: int)
    requires x <= y && a >= 0
    ensures x * a <= y * a
  {
  }

  lemma Quotient(k: nat, a: int, b: int)
    requires a >= 1 && k * a <= b
    ensures k <= b / a
  {
    var q := b / a;
    if k > q {
      MulMonotone(q + 1, k, a);
      assert false;
    }
  }

  /** The user never answers, and nothing takes time but the waiting. */
  const UNANSWERED := World(i => Pending, i => 0, i => 0, i => false)

  /** Then that many polls are made. */
  lemma {:induction false} PollCountIsReached(i: nat, now: Time, interval: Time, deadline: Time)
    requires interval > 0 && now <= deadline
    ensures |Poll(UNANSWERED, i, now, interval, deadline).polls| == (deadline - now) / interval + 1
    decreases deadline - now
  {
    if now + interval <= deadline {
      PollCountIsReached(i + 1, now + interval, interval, deadline);
      OneLess(deadline - now, interval);
    } else {
      assert (deadline - now) / interval == 0;
      assert Poll(UNANSWERED, i + 1, now + interval, interval, deadline).polls == [];
    }
  }

  lemma OneLess(x: int, d: int)
    requires x >= d > 0
    ensures (x - d) / d == x / d - 1
  {
    var q := x / d;
    assert x == q * d + x % d && x - d == (q - 1) * d + x % d;
    Quotient(q - 1, d, x - d);
    if (x - d) / d > q - 1 {
      MulMonotone(q, (x - d) / d, d);
      assert false;
    }
  }

  // ----- exact times -----

  /** Nothing but the waiting takes time. */
  ghost predicate Prompt(w: World) {
    forall i: nat :: w.took(i) == 0 && w.overslept(i) == 0
  }

  /** When poll i + n comes after poll i: every wait is the interval and five seconds more for each
      slow_down so far. */
  function PollTime(w: World, i: nat, interval: Time, n: nat): Time {
    if n == 0 then 0 else PollTime(w, i, interval, n - 1) + interval + 5 * SECOND * SlowDowns(w, i, i + n)
  }

  lemma {:induction false} PollTimeFirst(w: World, i: nat, interval: Time, n: nat)
    requires n >= 1
    ensures PollTime(w, i, interval, n)
         == Wait(interval, w.reply(i)) + PollTime(w, i + 1, Wait(interval, w.reply(i)), n - 1)
  {
    SlowDownsFirst(w, i, i + n);
    if n > 1 {
      PollTimeFirst(w, i, interval, n - 1);
      assert i + 1 + (n - 1) == i + n;
    }
  }

  ghost predicate OnTime(w: World, i: nat, now: Time, interval: Time, deadline: Time, t: Trace) {
    && (forall n: nat | n < |t.polls| :: t.polls[n] == now + PollTime(w, i, interval, n))
    && (t.outcome.Expired? ==> now + PollTime(w, i, interval, |t.polls|) > deadline)
    && (t.polls != [] ==> t.polls[|t.polls| - 1] <= deadline)
  }

  lemma OnTimeFirst(w: World, i: nat, now: Time, interval: Time, deadline: Time, rest: Trace)
    requires now <= deadline
    requires var wait := Wait(interval, w.reply(i)); OnTime(w, i + 1, now + wait, wait, deadline, rest)
    ensures OnTime(w, i, now, interval, deadline, Trace([now] + rest.polls, rest.outcome))
  {
    var wait, polls := Wait(interval, w.reply(i)), [now] + rest.polls;
    forall n: nat | 1 <= n <= |polls|
      ensures now + PollTime(w, i, interval, n) == now + wait + PollTime(w, i + 1, wait, n - 1)
    {
      PollTimeFirst(w, i, interval, n);
    }
  }

  lemma OnTimeLast(w: World, i: nat, now: Time, interval: Time, deadline: Time, outcome: Outcome)
    ensures now > deadline ==> OnTime(w, i, now, interval, deadline, Trace([], outcome))
    ensures now <= deadline && !outcome.Expired? ==> OnTime(w, i, now, interval, deadline, Trace([now], outcome))
  {
  }

  /** Main result: the polls come at exactly these times, none past the deadline, and the code runs
      out exactly when the next of them would be. */
  lemma {:induction false} PollsComeOnTime(w: World, i: nat, now: Time, interval: Time, deadline: Time)
    requires interval > 0 && Prompt(w)
    ensures OnTime(w, i, now, interval, deadline, Poll(w, i, now, interval, deadline))
    decreases deadline - now
  {
    var t := Poll(w, i, now, interval, deadline);
    if now <= deadline && GoesOn(w.reply(i)) && !w.cancelled(i) {
      var wait := Wait(interval, w.reply(i));
      assert NextAt(w, i, now, wait) == now + wait;
      var rest := Poll(w, i + 1, now + wait, wait, deadline);
      PollsComeOnTime(w, i + 1, now + wait, wait, deadline);
      OnTimeFirst(w, i, now, interval, deadline, rest);
      assert t == Trace([now] + rest.polls, rest.outcome);
    } else {
      OnTimeLast(w, i, now, interval, deadline, t.outcome);
      assert t == Trace(if now > deadline then [] else [now], t.outcome);
    }
  }

  /** An approval that the poll at its time would see is seen. */
  lemma {:induction false} ApprovalIsSeen(w: World, i: nat, now: Time, interval: Time, deadline: Time, n: nat)
    requires interval > 0 && Prompt(w) && w.reply(i + n).Token?
    requires forall m | i <= m < i + n :: GoesOn(w.reply(m)) && !w.cancelled(m)
    requires now + PollTime(w, i, interval, n) <= deadline
    ensures Poll(w, i, now, interval, deadline).outcome.Granted?
    ensures |Poll(w, i, now, interval, deadline).polls| == n + 1
    decreases n
  {
    PollTimeGrows(w, i, interval, n);
    if n > 0 {
      PollTimeFirst(w, i, interval, n);
      ApprovalIsSeen(w, i + 1, now + Wait(interval, w.reply(i)), Wait(interval, w.reply(i)), deadline, n - 1);
    }
  }

  lemma {:induction false} PollTimeGrows(w: World, i: nat, interval: Time, n: nat)
    requires interval > 0
    ensures PollTime(w, i, interval, n) >= n
  {
    if n > 0 {
      PollTimeGrows(w, i, interval, n - 1);
    }
  }

  /** A provider that gives neither interval nor lifetime, and a user who never answers: a poll every
      five seconds for ten minutes. */
  lemma SilentProvider(n: nat)
    ensures var polls := Poll(UNANSWERED, 0, 0, Interval(0) * SECOND, ExpiresIn(0) * SECOND).polls;
            |polls| == 121 && (n < 121 ==> polls[n] == 5 * n * SECOND)
  {
    PollCountIsReached(0, 0, 5 * SECOND, 600 * SECOND);
    PollsComeOnTime(UNANSWERED, 0, 0, 5 * SECOND, 600 * SECOND);
    NoSlowDowns(n);
  }

  lemma {:induction false} NoSlowDowns(n: nat)
    ensures SlowDowns(UNANSWERED, 0, n) == 0 && PollTime(UNANSWERED, 0, 5 * SECOND, n) == 5 * n * SECOND
  {
    if n > 0 {
      NoSlowDowns(n - 1);
    }
  }

  // ----- replies that only slow down -----

  lemma {:induction false} OnlySlowDowns(w: World, interval: Time, j: nat)
    requires forall m | 0 <= m < j :: w.reply(m).SlowDown?
    ensures SlowDowns(w, 0, j) == j
    ensures 2 * LeastElapsed(w, interval, j) == 2 * j * interval + 5 * SECOND * (j * (j + 1))
  {
    if j > 0 {
      OnlySlowDowns(w, interval, j - 1);
      assert 2 * j * interval == 2 * (j - 1) * interval + 2 * interval;
      assert j * (j + 1) == (j - 1) * j + 2 * j;
    }
  }

  /** Main result: k polls of which all but the last are answered with slow_down fit into the
      lifetime only if (k - 1) * Interval + 5 * (k - 1) * k / 2 <= ExpiresIn, in seconds. */
  lemma SlowDownIsQuadratic(w: World, interval: int, expiresIn: int, start: Time, now: Time, k: nat)
    requires start <= now
    requires 1 <= k <= |Poll(w, 0, now, Interval(interval) * SECOND, start + ExpiresIn(expiresIn) * SECOND).polls|
    requires forall m | 0 <= m < k - 1 :: w.reply(m).SlowDown?
    ensures 2 * (k - 1) * Interval(interval) + 5 * ((k - 1) * k) <= 2 * ExpiresIn(expiresIn)
  {
    var i, e := Interval(interval), ExpiresIn(expiresIn);
    ElapsedBetween(w, now, i * SECOND, start + e * SECOND, k - 1);
    OnlySlowDowns(w, i * SECOND, k - 1);
    InSeconds(k - 1, i, (k - 1) * k, e);
  }

  lemma InSeconds(j: nat, intervalSeconds: int, p: nat, expiresSeconds: int)
    requires 2 * j * (intervalSeconds * SECOND) + 5 * SECOND * p <= 2 * (expiresSeconds * SECOND)
    ensures 2 * j * intervalSeconds + 5 * p <= 2 * expiresSeconds
  {
  }

  /** How polling can end: with a token only by the last reply, by expiry only after replies that all
      said to go on. */
  lemma {:induction false} HowItEnds(w: World, i: nat, now: Time, interval: Time, deadline: Time)
    requires Advances(w, interval)
    ensures var t, n := Poll(w, i, now, interval, deadline), |Poll(w, i, now, interval, deadline).polls|;
            && (forall m | i <= m < i + n - 1 :: GoesOn(w.reply(m)) && !w.cancelled(m))
            && (t.outcome.Granted? <==> n > 0 && w.reply(i + n - 1).Token?)
            && (t.outcome.Failed? <==> n > 0 && !w.reply(i + n - 1).Token? && !GoesOn(w.reply(i + n - 1)))
            && (t.outcome.Cancelled? <==> n > 0 && GoesOn(w.reply(i + n - 1)) && w.cancelled(i + n - 1))
    decreases deadline - now
  {
    if now <= deadline && GoesOn(w.reply(i)) && !w.cancelled(i) {
      var wait := Wait(interval, w.reply(i));
      var next := NextAt(w, i, now, wait);
      HowItEnds(w, i + 1, next, wait, deadline);
      assert Poll(w, i, now, interval, deadline).polls == [now] + Poll(w, i + 1, next, wait, deadline).polls;
    }
  }
}
