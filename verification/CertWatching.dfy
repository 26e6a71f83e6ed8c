/** The `login --watch` loop: when it waits, when it renews, and whether a stored certificate can
    expire before the next one is stored. */
module CertWatching {
  import opened Wrappers

  const RENEW_BEFORE: Time := 5 * MINUTE
  const RETRY: Time := MINUTE
  const PAUSE: Time := 10 * SECOND

  /** How authenticating, exchanging the token and storing the certificate went. */
  datatype Attempt = Renewed(expiry: Time) | Failed | Fatal

  /** What one turn of the loop meets: the clock when the certificate is checked and when the wait is
      computed, and, if it renews, how that went and when it was done. */
  datatype Turn = Turn(checked: Time, untilAt: Time, attempt: Attempt, done: Time)

  datatype Then = Sleep(duration: Time) | Stop(ok: bool)

  /** A certificate that cannot be read counts as expired, so None covers that too. */
  predicate StillValid(expiry: Option<Time>, checked: Time) {
    expiry.Some? && checked + RENEW_BEFORE <= expiry.value
  }

  /** A wait lies between zero and a minute, does not run past the renewal time, and ends exactly
      there when that is less than a minute away; it is no shorter than it need be. */
  function WaitFor(expiry: Time, now: Time): (r: Time)
    ensures 0 <= r <= MINUTE
    ensures r > 0 ==> now + r <= expiry - RENEW_BEFORE
    ensures now <= expiry - 5 * MINUTE <= now + 60 * SECOND ==> now + r == expiry - 5 * MINUTE
    ensures expiry - 5 * MINUTE >= now + 60 * SECOND ==> r == 60 * SECOND
  {
    var wait := expiry - RENEW_BEFORE - now;
    var wait := if wait > MINUTE then MINUTE else wait;
    if wait < 0 then 0 else wait
  }

  /** One turn: the certificate stored after it, and what the loop does next. */
  function TakeTurn(expiry: Option<Time>, watch: bool, t: Turn): (Option<Time>, Then) {
    if StillValid(expiry, t.checked) then
      (expiry, if watch then Sleep(WaitFor(expiry.value, t.untilAt)) else Stop(true))
    else match t.attempt
      case Failed => (expiry, if watch then Sleep(RETRY) else Stop(false))
      case Fatal => (expiry, Stop(false))
      case Renewed(e) => (Some(e), if watch then Sleep(PAUSE) else Stop(true))
  }

  /** The loop over the turns it meets: the certificate it leaves, its sleeps, and how it stopped. */
  function Loop(expiry: Option<Time>, watch: bool, turns: seq<Turn>): (Option<Time>, seq<Time>, Option<bool>)
    decreases |turns|
  {
    if turns == [] then (expiry, [], None)
    else
      var (e, next) := TakeTurn(expiry, watch, turns[0]);
      match next
      case Stop(ok) => (e, [], Some(ok))
      case Sleep(d) =>
        var (e', sleeps, stopped) := Loop(e, watch, turns[1..]);
        (e', [d] + sleeps, stopped)
  }

  /** The loop from the i-th turn on, after some sleeps. */
  function LoopFrom(expiry: Option<Time>, watch: bool, turns: seq<Turn>, i: nat, sleeps: seq<Time>):
    (Option<Time>, seq<Time>, Option<bool>)
    requires i <= |turns|
  {
    var (e, rest, stopped) := Loop(expiry, watch, turns[i..]);
    (e, sleeps + rest, stopped)
  }

  lemma LoopTurn(expiry: Option<Time>, watch: bool, turns: seq<Turn>, i: nat, sleeps: seq<Time>)
    requires i < |turns|
    ensures var (e, next) := TakeTurn(expiry, watch, turns[i]);
            LoopFrom(expiry, watch, turns, i, sleeps) ==
            if next.Stop? then (e, sleeps, Some(next.ok)) else LoopFrom(e, watch, turns, i + 1, sleeps + [next.duration])
  {
    assert turns[i..][1..] == turns[i + 1..];
    var (e, next) := TakeTurn(expiry, watch, turns[i]);
    if next.Stop? {
      assert sleeps + [] == sleeps;
    } else {
      var rest := Loop(e, watch, turns[i + 1..]).1;
      assert sleeps + ([next.duration] + rest) == sleeps + [next.duration] + rest;
    }
  }

  lemma LoopEnds(expiry: Option<Time>, watch: bool, turns: seq<Turn>, sleeps: seq<Time>)
    ensures LoopFrom(expiry, watch, turns, 0, []) == Loop(expiry, watch, turns)
    ensures LoopFrom(expiry, watch, turns, |turns|, sleeps) == (expiry, sleeps, None)
  {
    assert turns[0..] == turns && [] + Loop(expiry, watch, turns).1 == Loop(expiry, watch, turns).1;
    assert sleeps + [] == sleeps;
  }

  /** Without --watch one turn is all: it ends well exactly if the stored certificate has at least five
      minutes left or is renewed, and what is stored changes exactly in the second case. */
  lemma OneTurnWithoutWatch(stored: Option<Time>, turns: seq<Turn>)
    requires turns != []
    ensures var t := turns[0];
            var good := stored.Some? && stored.value - t.checked >= 5 * MINUTE;
            Loop(stored, false, turns) == (
              if !good && t.attempt.Renewed? then Some(t.attempt.expiry) else stored, [],
              Some(good || t.attempt.Renewed?))
  {
  }

  /** With --watch the loop ends only on a fatal attempt to replace a certificate that has less than
      five minutes left, and then at once and badly; until then every turn ends in a sleep. */
  lemma {:induction false} WatchEndsOnFatal(stored: Option<Time>, turns: seq<Turn>)
    ensures var (expiry, sleeps, stopped) := Loop(stored, true, turns);
            if stopped.None? then |sleeps| == |turns|
            else
              && stopped == Some(false) && |sleeps| < |turns| && turns[|sleeps|].attempt.Fatal?
              && !(expiry.Some? && expiry.value - turns[|sleeps|].checked >= 5 * MINUTE)
    decreases |turns|
  {
    if turns != [] {
      WatchEndsOnFatal(TakeTurn(stored, true, turns[0]).0, turns[1..]);
    }
  }

  /** A fatal attempt ends the loop, with --watch too. */
  lemma FatalEnds(stored: Option<Time>, watch: bool, turns: seq<Turn>)
    requires turns != [] && turns[0].attempt.Fatal?
    requires !(stored.Some? && stored.value - turns[0].checked >= 5 * MINUTE)
    ensures Loop(stored, watch, turns) == (stored, [], Some(false))
  {
  }

  method RunLogin(stored: Option<Time>, watch: bool, turns: seq<Turn>)
    returns (expiry: Option<Time>, sleeps: seq<Time>, stopped: Option<bool>)
    ensures (expiry, sleeps, stopped) == Loop(stored, watch, turns)
    ensures !watch && turns != [] ==>
              var good := stored.Some? && stored.value - turns[0].checked >= 5 * MINUTE;
              && sleeps == [] && stopped == Some(good || turns[0].attempt.Renewed?)
              && expiry == if !good && turns[0].attempt.Renewed? then Some(turns[0].attempt.expiry) else stored
    ensures watch && stopped.Some? ==> stopped == Some(false) && |sleeps| < |turns| && turns[|sleeps|].attempt.Fatal?
    ensures watch && stopped.None? ==> |sleeps| == |turns|
  {
    if watch {
      WatchEndsOnFatal(stored, turns);
    } else if turns != [] {
      OneTurnWithoutWatch(stored, turns);
    }
    expiry, sleeps, stopped := stored, [], None;
    LoopEnds(expiry, watch, turns, []);
    var i := 0;
    while i < |turns|
      invariant i <= |turns| && stopped.None?
      invariant LoopFrom(expiry, watch, turns, i, sleeps) == Loop(stored, watch, turns)
    {
      var t := turns[i];
      LoopTurn(expiry, watch, turns, i, sleeps);
      if expiry.Some? && t.checked + RENEW_BEFORE <= expiry.value {
        if !watch {
          return expiry, sleeps, Some(true);
        }
        var wait := expiry.value - RENEW_BEFORE - t.untilAt;
        if wait > MINUTE {
          wait := MINUTE;
        }
        if wait < 0 {
          wait := 0;
        }
        sleeps := sleeps + [wait];
      } else if t.attempt.Failed? && watch {
        sleeps := sleeps + [RETRY];
      } else if !t.attempt.Renewed? {
        return expiry, sleeps, Some(false);
      } else {
        expiry := Some(t.attempt.expiry);
        if !watch {
          return expiry, sleeps, Some(true);
        }
        sleeps := sleeps + [PAUSE];
      }
      i := i + 1;
    }
    LoopEnds(expiry, watch, turns, sleeps);
  }

  // ----- timing -----

  /** Bounds on the surroundings: an attempt takes at most `effort`; everything else in a turn, the
      sleep's overshoot included, takes at most `slack`; no more than `retries` attempts in a row
      fail; a certificate is good for at least `life` from the start of the attempt that got it. */
  datatype Bounds = Bounds(effort: nat, slack: nat, retries: nat, life: Time)

  /** The stored certificate, whether this loop stored it, between when the next check comes, and
      how many attempts in a row have failed. */
  datatype State = State(expiry: Option<Time>, ours: bool, earliest: Time, latest: Time, failures: nat)

  predicate Allowed(b: Bounds, s: State, t: Turn) {
    && s.earliest <= t.checked <= s.latest
    && t.checked <= t.untilAt <= t.checked + b.slack
    && t.checked <= t.done <= t.checked + b.effort
    && (!StillValid(s.expiry, t.checked) ==>
          && !t.attempt.Fatal?
          && (t.attempt.Failed? ==> s.failures < b.retries)
          && (t.attempt.Renewed? ==> t.attempt.expiry >= t.checked + b.life))
  }

  function Next(b: Bounds, s: State, t: Turn): State
    requires Allowed(b, s, t)
  {
    var (e, next) := TakeTurn(s.expiry, true, t);
    if StillValid(s.expiry, t.checked) then
      s.(earliest := t.untilAt + next.duration, latest := t.checked + next.duration + b.slack)
    else if t.attempt.Failed? then
      s.(earliest := t.done + next.duration, latest := t.done + next.duration + b.slack, failures := s.failures + 1)
    else
      State(e, true, t.done + next.duration, t.done + next.duration + b.slack, 0)
  }

  predicate Runs(b: Bounds, s: State, turns: seq<Turn>)
    decreases |turns|
  {
    turns == [] || (Allowed(b, s, turns[0]) && Runs(b, Next(b, s, turns[0]), turns[1..]))
  }

  function Exec(b: Bounds, s: State, turns: seq<Turn>): State
    requires Runs(b, s, turns)
    decreases |turns|
  {
    if turns == [] then s else Exec(b, Next(b, s, turns[0]), turns[1..])
  }

  /** An attempt to replace the certificate this loop stored ends, well or not, after it expired. */
  predicate Lapses(s: State, t: Turn) {
    s.ours && s.expiry.Some? && !StillValid(s.expiry, t.checked) && t.done > s.expiry.value
  }

  predicate NoLapse(b: Bounds, s: State, turns: seq<Turn>)
    requires Runs(b, s, turns)
    decreases |turns|
  {
    turns == [] || (!Lapses(s, turns[0]) && NoLapse(b, Next(b, s, turns[0]), turns[1..]))
  }

  /** The loop starts with whatever certificate it finds. */
  function Start(expiry: Option<Time>, earliest: Time, latest: Time): State {
    State(expiry, false, earliest, latest, 0)
  }

  ghost predicate NeverLapses(b: Bounds) {
    forall expiry, earliest, latest, turns | Runs(b, Start(expiry, earliest, latest), turns) ::
      NoLapse(b, Start(expiry, earliest, latest), turns)
  }

  /** How long n failed attempts hold up the next. */
  function Delay(b: Bounds, n: nat): Time {
    if n == 0 then 0 else Delay(b, n - 1) + b.effort + RETRY + b.slack
  }

  lemma {:induction false} DelayIsProduct(b: Bounds, n: nat)
    ensures Delay(b, n) == n * (b.effort + RETRY + b.slack)
  {
    if n > 0 {
      DelayIsProduct(b, n - 1);
    }
  }

  lemma {:induction false} DelayGrows(b: Bounds, m: nat, n: nat)
    requires m <= n
    ensures 0 <= Delay(b, m) <= Delay(b, n)
    decreases n
  {
    if m < n {
      DelayGrows(b, m, n - 1);
    } else if n > 0 {
      DelayGrows(b, m - 1, n - 1);
    }
  }

  /** How long a renewal can take from its first check. */
  function WorstRenewal(b: Bounds): Time {
    Delay(b, b.retries) + b.effort
  }

  predicate EnoughTime(b: Bounds) {
    && WorstRenewal(b) + b.slack <= RENEW_BEFORE
    && WorstRenewal(b) + b.slack <= b.life - PAUSE - b.effort
  }

  /** How long before expiry the first check that renews comes, at the latest. */
  function Margin(b: Bounds): Time {
    if RENEW_BEFORE <= b.life - PAUSE - b.effort then RENEW_BEFORE - b.slack else b.life - PAUSE - b.effort - b.slack
  }

  predicate OnSchedule(b: Bounds, s: State) {
    s.ours ==> s.expiry.Some? && s.failures <= b.retries &&
               s.latest <= s.expiry.value - Margin(b) + Delay(b, s.failures)
  }

  lemma TurnKeepsSchedule(b: Bounds, s: State, t: Turn)
    requires EnoughTime(b) && OnSchedule(b, s) && Allowed(b, s, t)
    ensures OnSchedule(b, Next(b, s, t)) && !Lapses(s, t)
  {
    if s.ours {
      DelayGrows(b, s.failures, b.retries);
    }
  }

  lemma {:induction false} RunKeepsSchedule(b: Bounds, s: State, turns: seq<Turn>)
    requires EnoughTime(b) && OnSchedule(b, s) && Runs(b, s, turns)
    ensures NoLapse(b, s, turns)
    decreases |turns|
  {
    if turns != [] {
      TurnKeepsSchedule(b, s, turns[0]);
      RunKeepsSchedule(b, Next(b, s, turns[0]), turns[1..]);
    }
  }

  // ----- the worst case -----

  /** A run of the loop, extended at the front. */
  lemma Prepend(b: Bounds, s: State, t: Turn, rest: seq<Turn>)
    requires Allowed(b, s, t) && Runs(b, Next(b, s, t), rest)
    ensures Runs(b, s, [t] + rest) && (NoLapse(b, s, [t] + rest) ==> NoLapse(b, Next(b, s, t), rest))
    ensures Lapses(s, t) ==> !NoLapse(b, s, [t] + rest)
  {
    assert ([t] + rest)[1..] == rest;
  }

  /** From a check at `at` that renews, every attempt as slow as allowed and failing as often as
      allowed stores the next certificate only WorstRenewal later. */
  lemma {:induction false} SlowestRenewal(b: Bounds, s: State, at: Time) returns (turns: seq<Turn>)
    requires s.ours && s.expiry.Some? && s.earliest <= at <= s.latest && s.failures <= b.retries
    requires at + RENEW_BEFORE > s.expiry.value
    requires at + Delay(b, b.retries - s.failures) + b.effort > s.expiry.value
    ensures Runs(b, s, turns) && !NoLapse(b, s, turns)
    decreases b.retries - s.failures
  {
    var done, retry := at + b.effort, b.effort + RETRY + b.slack;
    if s.failures == b.retries {
      var t := Turn(at, at, Renewed(at + b.life), done);
      assert Runs(b, Next(b, s, t), []);
      Prepend(b, s, t, []);
      turns := [t] + [];
    } else {
      var t := Turn(at, at, Failed, done);
      var s' := Next(b, s, t);
      var rest := SlowestRenewal(b, s', at + retry);
      Prepend(b, s, t, rest);
      turns := [t] + rest;
    }
  }

  /** From a check at `at` that still waits, the loop can come to its first renewing check a full
      slack after the renewal time. */
  lemma {:induction false} LatestFirstCheck(b: Bounds, s: State, at: Time) returns (turns: seq<Turn>)
    requires b.slack >= 1 && s.ours && s.expiry.Some? && s.earliest <= at <= s.latest && s.failures == 0
    requires StillValid(s.expiry, at)
    requires WorstRenewal(b) + b.slack > RENEW_BEFORE
    ensures Runs(b, s, turns) && !NoLapse(b, s, turns)
    decreases s.expiry.value - at
  {
    var e := s.expiry.value;
    var t := Turn(at, at, Failed, at);
    var s' := Next(b, s, t);
    var rest;
    if e - RENEW_BEFORE - at <= MINUTE {
      rest := SlowestRenewal(b, s', e - RENEW_BEFORE + b.slack);
    } else {
      rest := LatestFirstCheck(b, s', at + MINUTE);
    }
    Prepend(b, s, t, rest);
    turns := [t] + rest;
  }

  lemma WorstCase(b: Bounds) returns (turns: seq<Turn>)
    requires b.slack >= 1 && !EnoughTime(b)
    ensures Runs(b, Start(None, 0, 0), turns) && !NoLapse(b, Start(None, 0, 0), turns)
  {
    var first := Turn(0, 0, Renewed(b.life), b.effort);
    var s := Start(None, 0, 0);
    var s' := Next(b, s, first);
    var rest;
    if WorstRenewal(b) + b.slack > RENEW_BEFORE && StillValid(s'.expiry, s'.earliest) {
      rest := LatestFirstCheck(b, s', s'.earliest);
    } else {
      rest := SlowestRenewal(b, s', s'.latest);
    }
    Prepend(b, s, first, rest);
    turns := [first] + rest;
  }

  /** Main result: whatever happens within the bounds, no attempt runs past the expiry of the
      certificate stored last, so that the next is stored in time, if and only if
      retries * (effort + 60s + slack) + effort + slack is at most both 5 minutes and
      life - 10s - effort. */
  lemma NeverLapsesExactly(b: Bounds)
    requires b.slack >= 1
    ensures NeverLapses(b) <==>
              var worst := b.retries * (b.effort + 60 * SECOND + b.slack) + b.effort;
              worst + b.slack <= 5 * MINUTE && worst + b.slack <= b.life - 10 * SECOND - b.effort
  {
    DelayIsProduct(b, b.retries);
    if EnoughTime(b) {
      forall expiry, earliest, latest, turns | Runs(b, Start(expiry, earliest, latest), turns)
        ensures NoLapse(b, Start(expiry, earliest, latest), turns)
      {
        RunKeepsSchedule(b, Start(expiry, earliest, latest), turns);
      }
    } else {
      var turns := WorstCase(b);
    }
  }

  // ----- short-lived certificates -----

  /** Every certificate the run stores expires less than `most` after it is stored. */
  predicate ShortLived(b: Bounds, s: State, turns: seq<Turn>, most: Time)
    requires Runs(b, s, turns)
    decreases |turns|
  {
    turns == [] || (
      && (!StillValid(s.expiry, turns[0].checked) && turns[0].attempt.Renewed? ==> turns[0].attempt.expiry < turns[0].done + most)
      && ShortLived(b, Next(b, s, turns[0]), turns[1..], most))
  }

  predicate NeverWaits(b: Bounds, s: State, turns: seq<Turn>)
    requires Runs(b, s, turns)
    decreases |turns|
  {
    turns == [] || (!StillValid(s.expiry, turns[0].checked) && NeverWaits(b, Next(b, s, turns[0]), turns[1..]))
  }

  /** Certificates that live no longer than the renewal margin plus the pause, such as those of the
      server's default of 5 minutes, are renewed on every turn: the loop never waits. */
  lemma {:induction false} ShortLivedAlwaysRenews(b: Bounds, s: State, turns: seq<Turn>)
    requires Runs(b, s, turns) && ShortLived(b, s, turns, 5 * MINUTE + 10 * SECOND)
    requires s.expiry.Some? ==> s.earliest + RENEW_BEFORE > s.expiry.value
    ensures NeverWaits(b, s, turns)
    decreases |turns|
  {
    if turns != [] {
      ShortLivedAlwaysRenews(b, Next(b, s, turns[0]), turns[1..]);
    }
  }
}
