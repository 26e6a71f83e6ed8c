/** How exact the login bound is, and what a lockout does. */
module LoginLimits {
  import opened LoginGuarding
  import opened Wrappers

  // ----- 4 + k is reached for every k -----

  function Zeros(m: nat): seq<Time> { seq(m, i => 0) }

  /** Requests 0..n-1, all of ip. */
  function Tids(n: nat, ip: IP): map<Tid, IP> {
    if n == 0 then map[] else Tids(n - 1, ip)[n - 1 := ip]
  }

  /** After m wrong tokens of ip at time 0, with requests 0..n-1 past the check. */
  function Reached(ip: IP, m: nat, n: nat): State {
    if m == 0 then State(map[], Tids(n, ip), map[], 0)
    else State(map[ip := Attempt(m, 0, m >= MAX_ATTEMPTS, if m >= MAX_ATTEMPTS then 0 else ZERO_TIME)],
               Tids(n, ip), map[ip := Zeros(m)], 0)
  }

  lemma {:induction false} TidsBelow(n: nat, ip: IP)
    ensures forall t: Tid :: t in Tids(n, ip) <==> t < n
    ensures Tids(n + 1, ip) - {n} == Tids(n, ip)
  {
    if n > 0 {
      TidsBelow(n - 1, ip);
    }
  }

  lemma {:induction false} ReachedInFlight(ip: IP, m: nat, n: nat)
    ensures |InFlight(Reached(ip, m, n), ip)| == n
  {
    if n > 0 {
      ReachedInFlight(ip, m, n - 1);
      TidsBelow(n - 1, ip);
      assert InFlight(Reached(ip, m, n), ip) == InFlight(Reached(ip, m, n - 1), ip) + {n - 1};
    }
  }

  lemma CheckPasses(ip: IP, m: nat, n: nat)
    requires m < MAX_ATTEMPTS
    ensures Possible(Reached(ip, m, n), Check(n, ip, 0))
    ensures Next(Reached(ip, m, n), Check(n, ip, 0)) == Reached(ip, m, n + 1)
  {
    TidsBelow(n, ip);
  }

  lemma WrongTokenCounts(ip: IP, m: nat, n: nat)
    ensures Possible(Reached(ip, m, n + 1), WrongToken(n, 0))
    ensures Next(Reached(ip, m, n + 1), WrongToken(n, 0)) == Reached(ip, m + 1, n)
  {
    TidsBelow(n, ip);
    assert Zeros(m + 1) == Fails(Reached(ip, m, n + 1), ip) + [0];
  }

  /** A run from one state to another with at most k requests of ip at once. */
  predicate RunsTo(s: State, steps: seq<Step>, end: State, ip: IP, k: nat) {
    Runs(s, steps) && AtMost(s, steps, ip, k) && Exec(s, steps) == end
  }

  /** One step in front of a run. */
  lemma Prepend(s: State, step: Step, s': State, rest: seq<Step>, end: State, ip: IP, k: nat)
    requires Possible(s, step) && Next(s, step) == s' && |InFlight(s, ip)| <= k && RunsTo(s', rest, end, ip, k)
    ensures RunsTo(s, [step] + rest, end, ip, k)
  {
    assert ([step] + rest)[1..] == rest;
  }

  function WrongTokens(n: nat): seq<Step> {
    if n == 0 then [] else [WrongToken(n - 1, 0)] + WrongTokens(n - 1)
  }

  function ChecksThenWrongTokens(ip: IP, n: nat, k: nat): seq<Step>
    requires n <= k
    decreases k - n
  {
    if n == k then WrongTokens(k) else [Check(n, ip, 0)] + ChecksThenWrongTokens(ip, n + 1, k)
  }

  /** m failures one at a time up to the fourth, then k requests at once. */
  function Crowd(ip: IP, m: nat, k: nat): seq<Step>
    decreases MAX_ATTEMPTS - m
  {
    if m >= MAX_ATTEMPTS - 1 then ChecksThenWrongTokens(ip, 0, k)
    else [Check(0, ip, 0)] + ([WrongToken(0, 0)] + Crowd(ip, m + 1, k))
  }

  lemma WrongTokenFirst(ip: IP, m: nat, n: nat, end: State, k: nat)
    requires n < k && RunsTo(Reached(ip, m + 1, n), WrongTokens(n), end, ip, k)
    ensures RunsTo(Reached(ip, m, n + 1), [WrongToken(n, 0)] + WrongTokens(n), end, ip, k)
  {
    ReachedInFlight(ip, m, n + 1);
    WrongTokenCounts(ip, m, n);
    Prepend(Reached(ip, m, n + 1), WrongToken(n, 0), Reached(ip, m + 1, n), WrongTokens(n), end, ip, k);
  }

  lemma {:induction false} WrongTokensRun(ip: IP, m: nat, n: nat, k: nat)
    requires n <= k
    ensures RunsTo(Reached(ip, m, n), WrongTokens(n), Reached(ip, m + n, 0), ip, k)
    decreases n
  {
    if n == 0 {
      ReachedInFlight(ip, m, n);
    } else {
      WrongTokensRun(ip, m + 1, n - 1, k);
      assert m + 1 + (n - 1) == m + n;
      WrongTokenFirst(ip, m, n - 1, Reached(ip, m + n, 0), k);
    }
  }

  lemma {:induction false} ChecksRun(ip: IP, m: nat, n: nat, k: nat)
    requires n <= k && m < MAX_ATTEMPTS
    ensures RunsTo(Reached(ip, m, n), ChecksThenWrongTokens(ip, n, k), Reached(ip, m + k, 0), ip, k)
    decreases k - n
  {
    ReachedInFlight(ip, m, n);
    if n == k {
      WrongTokensRun(ip, m, n, k);
    } else {
      CheckPasses(ip, m, n);
      ChecksRun(ip, m, n + 1, k);
      Prepend(Reached(ip, m, n), Check(n, ip, 0), Reached(ip, m, n + 1), ChecksThenWrongTokens(ip, n + 1, k),
              Reached(ip, m + k, 0), ip, k);
    }
  }

  lemma {:induction false} CrowdRuns(ip: IP, m: nat, k: nat)
    requires m <= MAX_ATTEMPTS - 1 && k >= 1
    ensures RunsTo(Reached(ip, m, 0), Crowd(ip, m, k), Reached(ip, MAX_ATTEMPTS - 1 + k, 0), ip, k)
    decreases MAX_ATTEMPTS - m
  {
    if m == MAX_ATTEMPTS - 1 {
      ChecksRun(ip, m, 0, k);
    } else {
      var end := Reached(ip, MAX_ATTEMPTS - 1 + k, 0);
      CrowdRuns(ip, m + 1, k);
      WrongTokenCounts(ip, m, 0);
      ReachedInFlight(ip, m, 1);
      Prepend(Reached(ip, m, 1), WrongToken(0, 0), Reached(ip, m + 1, 0), Crowd(ip, m + 1, k), end, ip, k);
      CheckPasses(ip, m, 0);
      ReachedInFlight(ip, m, 0);
      Prepend(Reached(ip, m, 0), Check(0, ip, 0), Reached(ip, m, 1), [WrongToken(0, 0)] + Crowd(ip, m + 1, k), end, ip, k);
    }
  }

  /** Wrong tokens i to j of a run with at most k requests at once, all within one window. */
  ghost predicate InOneWindow(k: nat, clock: Time, steps: seq<Step>, ip: IP, i: nat, j: nat) {
    && Runs(Init(clock), steps) && AtMost(Init(clock), steps, ip, k)
    && var h := Fails(Exec(Init(clock), steps), ip); i <= j < |h| && h[j] - h[i] <= 15 * MINUTE
  }

  /** The configured maximum holds over every run with at most k requests of an IP at once. */
  ghost predicate MaximumHolds(k: nat) {
    forall clock, steps, ip, i: nat, j: nat | InOneWindow(k, clock, steps, ip, i, j) :: j - i + 1 <= 5
  }

  /** Main result: five wrong tokens per 15 minutes is what the guard enforces
      if and only if the requests of an IP are handled one at a time. */
  lemma MaximumHoldsOneAtATime(k: nat)
    requires k >= 1
    ensures MaximumHolds(k) <==> k == 1
  {
    if k == 1 {
      forall clock, steps, ip, i: nat, j: nat | InOneWindow(k, clock, steps, ip, i, j) ensures j - i + 1 <= 5 {
        WrongTokensBound(clock, steps, ip, k, i, j);
      }
    } else {
      CrowdRuns("", 0, k);
      assert Reached("", 0, 0) == Init(0);
      assert InOneWindow(k, 0, Crowd("", 0, k), "", 0, MAX_ATTEMPTS - 2 + k);
    }
  }

  // ----- lockouts -----

  predicate ByTime(s: State, steps: seq<Step>, t: Time)
    requires Runs(s, steps)
    decreases |steps|
  {
    steps == [] || (steps[0].now <= t && ByTime(Next(s, steps[0]), steps[1..], t))
  }

  /** The IP is locked out as things stand, and its record is one the handler leaves (RunKeepsInv). */
  predicate InLockout(s: State, ip: IP) {
    && ip in s.attempts && s.attempts[ip].lockedOut && s.attempts[ip].count >= MAX_ATTEMPTS
    && s.attempts[ip].lastFail == s.attempts[ip].lockoutAt
    && s.attempts[ip].lockoutAt <= s.clock <= s.attempts[ip].lockoutAt + LOCKOUT
  }

  /** Whatever is submitted from s on leaves the record of ip alone until its lockout ends. */
  ghost predicate KeepsRecord(s: State, ip: IP)
    requires ip in s.attempts
  {
    forall steps | Runs(s, steps) && ByTime(s, steps, s.attempts[ip].lockoutAt + 15 * MINUTE) ::
      ip in Exec(s, steps).attempts && Exec(s, steps).attempts[ip] == s.attempts[ip]
  }

  /** What a lockout under record `a` has become: until it ends the record stands and nothing of ip is
      past the check; after that, a lockout is either gone by or a newer one. */
  ghost predicate Outcome(s: State, ip: IP, a: Attempt) {
    && (s.clock <= a.lockoutAt + LOCKOUT ==> ip in s.attempts && s.attempts[ip] == a && InFlight(s, ip) == {})
    && (ip in s.attempts ==>
          s.attempts[ip] == a || !s.attempts[ip].lockedOut || s.attempts[ip].lockoutAt > a.lockoutAt + LOCKOUT)
  }

  lemma {:induction false} OutcomeKept(s: State, steps: seq<Step>, ip: IP, a: Attempt)
    requires a.lockedOut && a.lastFail == a.lockoutAt && Outcome(s, ip, a) && Runs(s, steps)
    ensures Outcome(Exec(s, steps), ip, a)
    decreases |steps|
  {
    if steps != [] {
      var s' := Next(s, steps[0]);
      if !steps[0].Check? && s.clock <= a.lockoutAt + LOCKOUT {
        assert steps[0].tid !in InFlight(s, ip);
      }
      forall tid ensures s'.clock <= a.lockoutAt + LOCKOUT ==> tid !in InFlight(s', ip) {
        assert s.clock <= a.lockoutAt + LOCKOUT ==> tid !in InFlight(s, ip);
      }
      OutcomeKept(s', steps[1..], ip, a);
    }
  }

  lemma {:induction false} ClockByTime(s: State, steps: seq<Step>, t: Time)
    requires Runs(s, steps) && ByTime(s, steps, t) && s.clock <= t
    ensures Exec(s, steps).clock <= t
    decreases |steps|
  {
    if steps != [] {
      ClockByTime(Next(s, steps[0]), steps[1..], t);
    }
  }

  /** A request that had passed the check before the lockout, recording a wrong token at the end of
      the lockout. */
  lemma InFlightExtends(s: State, ip: IP, tid: Tid) returns (late: seq<Step>)
    requires InLockout(s, ip) && tid in InFlight(s, ip)
    ensures var end := s.attempts[ip].lockoutAt + LOCKOUT;
            && Runs(s, late) && ByTime(s, late, end)
            && ip in Exec(s, late).attempts
            && Exec(s, late).attempts[ip] == Attempt(s.attempts[ip].count + 1, end, true, end)
  {
    var step := WrongToken(tid, s.attempts[ip].lockoutAt + LOCKOUT);
    late := [step];
    assert Possible(s, step) && late[1..] == [];
    assert Runs(Next(s, step), late[1..]) && ByTime(Next(s, step), late[1..], step.now);
  }

  /** Main result: attempts during a lockout never touch the record, and so never extend the lockout,
      if and only if no request of the IP was already past the check. */
  lemma LockoutIsKeptExactly(s: State, ip: IP)
    requires InLockout(s, ip)
    ensures KeepsRecord(s, ip) <==> InFlight(s, ip) == {}
  {
    var a := s.attempts[ip];
    if InFlight(s, ip) == {} {
      forall steps | Runs(s, steps) && ByTime(s, steps, a.lockoutAt + LOCKOUT)
        ensures ip in Exec(s, steps).attempts && Exec(s, steps).attempts[ip] == a
      {
        OutcomeKept(s, steps, ip, a);
        ClockByTime(s, steps, a.lockoutAt + LOCKOUT);
      }
    } else {
      var tid :| tid in InFlight(s, ip);
      var late := InFlightExtends(s, ip, tid);
    }
  }

  /** The moment the refusal names, from a clock reading taken a little after the check. */
  function NamedEnd(s: State, ip: IP, read: Time): Time {
    read + DisplayedMinutes(RemainingLockout(s.attempts, ip, read)) * MINUTE
  }

  /** Whatever is submitted until the named moment, the IP is let in then, or has been locked out
      again since its lockout ended. */
  ghost predicate WaitEndsLockout(s: State, ip: IP, read: Time)
    requires ip in s.attempts
  {
    forall steps | Runs(s, steps) && ByTime(s, steps, NamedEnd(s, ip, read)) ::
      IsLockedOut(Exec(s, steps).attempts, ip, NamedEnd(s, ip, read)) ==>
        Exec(s, steps).attempts[ip].lockoutAt > s.attempts[ip].lockoutAt + 15 * MINUTE
  }

  /** The named moment is less than a minute past the end of the lockout. */
  lemma NamedEndIsClose(s: State, ip: IP, read: Time)
    requires InLockout(s, ip) && s.clock <= read
    ensures var end := s.attempts[ip].lockoutAt + LOCKOUT;
            NamedEnd(s, ip, read) > end && (read <= end ==> NamedEnd(s, ip, read) <= end + MINUTE)
  {
  }

  /** Main result: waiting as long as displayed ends the lockout, whatever is submitted meanwhile, if
      and only if no request of the IP was already past the check (or the second clock reading came
      so late that even a lockout that starts at the end of this one is over). */
  lemma DisplayedWaitEndsLockoutExactly(s: State, ip: IP, read: Time)
    requires InLockout(s, ip) && s.clock <= read
    ensures WaitEndsLockout(s, ip, read) <==>
              InFlight(s, ip) == {} || NamedEnd(s, ip, read) > s.attempts[ip].lockoutAt + 2 * LOCKOUT
  {
    var a, end := s.attempts[ip], NamedEnd(s, ip, read);
    NamedEndIsClose(s, ip, read);
    if InFlight(s, ip) == {} {
      forall steps | Runs(s, steps) && ByTime(s, steps, end)
        ensures IsLockedOut(Exec(s, steps).attempts, ip, end) ==> Exec(s, steps).attempts[ip].lockoutAt > a.lockoutAt + LOCKOUT
      {
        OutcomeKept(s, steps, ip, a);
      }
    } else if end <= a.lockoutAt + 2 * LOCKOUT {
      var tid :| tid in InFlight(s, ip);
      var late := InFlightExtends(s, ip, tid);
      ByTimeLater(s, late, a.lockoutAt + LOCKOUT, end);
    }
  }

  lemma {:induction false} ByTimeLater(s: State, steps: seq<Step>, t: Time, t': Time)
    requires Runs(s, steps) && ByTime(s, steps, t) && t <= t'
    ensures ByTime(s, steps, t')
    decreases |steps|
  {
    if steps != [] {
      ByTimeLater(Next(s, steps[0]), steps[1..], t, t');
    }
  }

  /** A wait shorter by a minute does not end it. */
  lemma DisplayedWaitIsNotMuchTooLong(s: State, steps: seq<Step>, ip: IP, read: Time)
    requires InLockout(s, ip) && InFlight(s, ip) == {} && s.clock <= read <= s.attempts[ip].lockoutAt + LOCKOUT
    requires Runs(s, steps) && ByTime(s, steps, NamedEnd(s, ip, read) - MINUTE)
    ensures IsLockedOut(Exec(s, steps).attempts, ip, NamedEnd(s, ip, read) - MINUTE)
  {
    NamedEndIsClose(s, ip, read);
    OutcomeKept(s, steps, ip, s.attempts[ip]);
    ByTimeLater(s, steps, NamedEnd(s, ip, read) - MINUTE, s.attempts[ip].lockoutAt + LOCKOUT);
    ClockByTime(s, steps, s.attempts[ip].lockoutAt + LOCKOUT);
  }

  /** Every lockout of a run is such a lockout. */
  lemma LockoutsOfRuns(clock: Time, steps: seq<Step>, ip: IP)
    requires Runs(Init(clock), steps)
    ensures var s := Exec(Init(clock), steps); IsLockedOut(s.attempts, ip, s.clock) ==> InLockout(s, ip)
  {
    var k := Crowded(Init(clock), steps, ip);
    assert InFlight(Init(clock), ip) == {};
    RunKeepsInv(Init(clock), steps, ip, k);
  }

  /** Some number bounds the requests of ip at once. */
  lemma {:induction false} Crowded(s: State, steps: seq<Step>, ip: IP) returns (k: nat)
    requires Runs(s, steps)
    ensures k >= 1 && AtMost(s, steps, ip, k)
    decreases |steps|
  {
    if steps == [] {
      k := |InFlight(s, ip)| + 1;
    } else {
      var rest := Crowded(Next(s, steps[0]), steps[1..], ip);
      k := rest + |InFlight(s, ip)|;
      AtMostMore(Next(s, steps[0]), steps[1..], ip, rest, k);
    }
  }

  lemma {:induction false} AtMostMore(s: State, steps: seq<Step>, ip: IP, k: nat, k': nat)
    requires Runs(s, steps) && AtMost(s, steps, ip, k) && k <= k'
    ensures AtMost(s, steps, ip, k')
    decreases |steps|
  {
    if steps != [] {
      AtMostMore(Next(s, steps[0]), steps[1..], ip, k, k');
    }
  }
}
