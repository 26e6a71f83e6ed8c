/** Brute-force protection of the admin login on values: one record per IP, and the handler as two
    sections, the lockout check and, after comparing the token, the recording of the outcome.
    Handlers of any number of requests interleave between their sections. */
module LoginGuarding {
  import opened Wrappers

  type IP = string
  type Tid = nat  // a request being handled

  const MAX_ATTEMPTS: nat := 5
  const LOCKOUT: Time := 15 * MINUTE
  const WINDOW: Time := 15 * MINUTE

  datatype Attempt = Attempt(count: nat, lastFail: Time, lockedOut: bool, lockoutAt: Time)

  type Attempts = map<IP, Attempt>

  function Locked(a: Attempt, now: Time): bool {
    a.lockedOut && now - a.lockoutAt <= LOCKOUT
  }

  predicate IsLockedOut(w: Attempts, ip: IP, now: Time) {
    ip in w && Locked(w[ip], now)
  }

  /** One more failure. */
  function Failed(a: Attempt, now: Time): Attempt {
    var a := if now - a.lastFail > WINDOW then a.(count := 0, lockedOut := false) else a;
    var a := a.(count := a.count + 1, lastFail := now);
    if a.count >= MAX_ATTEMPTS then a.(lockedOut := true, lockoutAt := now) else a
  }

  const BLANK := Attempt(0, ZERO_TIME, false, ZERO_TIME)

  function RecordFailed(w: Attempts, ip: IP, now: Time): Attempts {
    w[ip := Failed(if ip in w then w[ip] else BLANK, now)]
  }

  function RecordSuccess(w: Attempts, ip: IP): Attempts {
    w - {ip}
  }

  function RemainingLockout(w: Attempts, ip: IP, now: Time): Time {
    if ip !in w || !w[ip].lockedOut then 0
    else if LOCKOUT - (now - w[ip].lockoutAt) < 0 then 0
    else LOCKOUT - (now - w[ip].lockoutAt)
  }

  /** The minutes named in the refusal. */
  function DisplayedMinutes(remaining: Time): Time {
    remaining / MINUTE + 1
  }

  // ----- the handler's sections -----

  datatype State = State(
    attempts: Attempts,
    passed: map<Tid, IP>,          // requests past the lockout check whose outcome is not recorded yet
    fails: map<IP, seq<Time>>,     // history: when wrong tokens were recorded, since the last success
    clock: Time)

  datatype Step =
    | Check(tid: Tid, ip: IP, now: Time)
    | BadForm(tid: Tid, now: Time)
    | WrongToken(tid: Tid, now: Time)
    | RightToken(tid: Tid, now: Time)

  /** Each section reads the clock inside the lock, so readings never go back. */
  predicate Possible(s: State, step: Step) {
    s.clock <= step.now && (if step.Check? then step.tid !in s.passed else step.tid in s.passed)
  }

  function Fails(s: State, ip: IP): seq<Time> {
    if ip in s.fails then s.fails[ip] else []
  }

  function Next(s: State, step: Step): State
    requires Possible(s, step)
  {
    match step
    case Check(tid, ip, now) =>
      s.(passed := if IsLockedOut(s.attempts, ip, now) then s.passed else s.passed[tid := ip], clock := now)
    case BadForm(tid, now) => s.(passed := s.passed - {tid}, clock := now)
    case WrongToken(tid, now) =>
      var ip := s.passed[tid];
      s.(attempts := RecordFailed(s.attempts, ip, now), passed := s.passed - {tid},
         fails := s.fails[ip := Fails(s, ip) + [now]], clock := now)
    case RightToken(tid, now) =>
      var ip := s.passed[tid];
      s.(attempts := RecordSuccess(s.attempts, ip), passed := s.passed - {tid}, fails := s.fails - {ip}, clock := now)
  }

  function InFlight(s: State, ip: IP): set<Tid> {
    set tid | tid in s.passed && s.passed[tid] == ip
  }

  predicate Runs(s: State, steps: seq<Step>)
    decreases |steps|
  {
    steps == [] || (Possible(s, steps[0]) && Runs(Next(s, steps[0]), steps[1..]))
  }

  function Exec(s: State, steps: seq<Step>): State
    requires Runs(s, steps)
    decreases |steps|
  {
    if steps == [] then s else Exec(Next(s, steps[0]), steps[1..])
  }

  /** At no moment are more than k requests of ip between their two sections. */
  predicate AtMost(s: State, steps: seq<Step>, ip: IP, k: nat)
    requires Runs(s, steps)
    decreases |steps|
  {
    |InFlight(s, ip)| <= k && (steps == [] || AtMost(Next(s, steps[0]), steps[1..], ip, k))
  }

  function Init(clock: Time): State {
    State(map[], map[], map[], clock)
  }

  // ----- the invariant -----

  /** The record counts the latest run of failures with no gap longer than the window. */
  ghost predicate CountsLatestRun(h: seq<Time>, a: Attempt) {
    && 1 <= a.count <= |h|
    && a.lastFail == h[|h| - 1]
    && (forall i, j | |h| - a.count <= i <= j < |h| :: h[i] <= h[j])
    && (a.count < |h| ==> h[|h| - a.count] - h[|h| - a.count - 1] > WINDOW)
    && (forall i | 0 <= i < |h| - a.count :: h[i] <= h[|h| - a.count - 1])
  }

  /** No closed interval as long as the window holds more than `most` of the failures. */
  ghost predicate Spread(h: seq<Time>, most: nat) {
    forall i, j | 0 <= i <= j < |h| && h[j] - h[i] <= WINDOW :: j - i < most
  }

  ghost predicate Inv(s: State, ip: IP, k: nat) {
    && (ip in s.attempts <==> Fails(s, ip) != [])
    && (ip in s.attempts ==>
          var h, a := Fails(s, ip), s.attempts[ip];
          && CountsLatestRun(h, a) && a.lastFail <= s.clock
          && (a.lockedOut <==> a.count >= MAX_ATTEMPTS)
          && (a.lockedOut ==> a.lockoutAt == a.lastFail)
          && a.count <= MAX_ATTEMPTS - 1 + k
          && (a.count >= MAX_ATTEMPTS ==>
                a.count + |InFlight(s, ip)| <= MAX_ATTEMPTS - 1 + k || s.clock - a.lastFail > WINDOW))
    && Spread(Fails(s, ip), MAX_ATTEMPTS - 1 + k)
  }

  /** A failure joins the latest run or starts a new one. */
  lemma FailedCounts(h: seq<Time>, a: Attempt, now: Time)
    requires CountsLatestRun(h, a) && a.lastFail <= now
    ensures CountsLatestRun(h + [now], Failed(a, now))
  {
  }

  lemma FailedSpread(h: seq<Time>, a: Attempt, now: Time, most: nat)
    requires CountsLatestRun(h + [now], a) && Spread(h, most) && a.count <= most
    ensures Spread(h + [now], most)
  {
  }

  lemma InFlightDrops(s: State, tid: Tid, ip: IP)
    requires tid in s.passed
    ensures |InFlight(s.(passed := s.passed - {tid}), ip)| == |InFlight(s, ip)| - if s.passed[tid] == ip then 1 else 0
  {
    var s' := s.(passed := s.passed - {tid});
    if s.passed[tid] == ip {
      assert InFlight(s', ip) == InFlight(s, ip) - {tid};
    } else {
      assert InFlight(s', ip) == InFlight(s, ip);
    }
  }

  /** A wrong token of ip itself. */
  lemma WrongTokenRecorded(s: State, step: Step, ip: IP, k: nat)
    requires k >= 1 && step.WrongToken? && Possible(s, step) && Inv(s, ip, k) && |InFlight(s, ip)| <= k
    requires s.passed[step.tid] == ip
    ensures Inv(Next(s, step), ip, k)
  {
    var s', now, h := Next(s, step), step.now, Fails(s, ip);
    InFlightDrops(s, step.tid, ip);
    assert InFlight(s', ip) == InFlight(s.(passed := s.passed - {step.tid}), ip);
    assert Fails(s', ip) == h + [now];
    var a' := s'.attempts[ip];
    if ip in s.attempts {
      FailedCounts(h, s.attempts[ip], now);
    } else {
      assert h + [now] == [now];
    }
    assert CountsLatestRun(h + [now], a');
    assert a'.count <= MAX_ATTEMPTS - 1 + k;
    FailedSpread(h, a', now, MAX_ATTEMPTS - 1 + k);
  }

  lemma WrongTokenKeepsInv(s: State, step: Step, ip: IP, k: nat)
    requires k >= 1 && step.WrongToken? && Possible(s, step) && Inv(s, ip, k) && |InFlight(s, ip)| <= k
    ensures Inv(Next(s, step), ip, k)
  {
    var s' := Next(s, step);
    if s.passed[step.tid] == ip {
      WrongTokenRecorded(s, step, ip, k);
    } else {
      InFlightDrops(s, step.tid, ip);
      assert InFlight(s', ip) == InFlight(s.(passed := s.passed - {step.tid}), ip);
      assert Fails(s', ip) == Fails(s, ip);
    }
  }

  lemma CheckKeepsInv(s: State, step: Step, ip: IP, k: nat)
    requires k >= 1 && step.Check? && Possible(s, step) && Inv(s, ip, k)
    ensures Inv(Next(s, step), ip, k)
  {
    var s' := Next(s, step);
    if s'.passed == s.passed || step.ip != ip {
      assert InFlight(s', ip) == InFlight(s, ip);
    }
  }

  lemma OtherOutcomeKeepsInv(s: State, step: Step, ip: IP, k: nat)
    requires k >= 1 && (step.RightToken? || step.BadForm?) && Possible(s, step) && Inv(s, ip, k)
    ensures Inv(Next(s, step), ip, k)
  {
    var s' := Next(s, step);
    InFlightDrops(s, step.tid, ip);
    assert InFlight(s', ip) == InFlight(s.(passed := s.passed - {step.tid}), ip);
    if s.passed[step.tid] != ip || step.BadForm? {
      assert Fails(s', ip) == Fails(s, ip);
    }
  }

  lemma {:induction false} RunKeepsInv(s: State, steps: seq<Step>, ip: IP, k: nat)
    requires k >= 1 && Inv(s, ip, k) && Runs(s, steps) && AtMost(s, steps, ip, k)
    ensures Inv(Exec(s, steps), ip, k)
    decreases |steps|
  {
    if steps != [] {
      match steps[0] {
        case Check(_, _, _) => CheckKeepsInv(s, steps[0], ip, k);
        case WrongToken(_, _) => WrongTokenKeepsInv(s, steps[0], ip, k);
        case _ => OtherOutcomeKeepsInv(s, steps[0], ip, k);
      }
      RunKeepsInv(Next(s, steps[0]), steps[1..], ip, k);
    }
  }

  /** Main result: in any run in which at most k requests of an IP are handled at once, any closed
      15-minute interval since its last success holds at most 4 + k wrong tokens from it, although
      the record keeps only a count and two times; with k = 1 that is the configured 5. */
  lemma WrongTokensBound(clock: Time, steps: seq<Step>, ip: IP, k: nat, i: nat, j: nat)
    requires k >= 1 && Runs(Init(clock), steps) && AtMost(Init(clock), steps, ip, k)
    requires var h := Fails(Exec(Init(clock), steps), ip); i <= j < |h| && h[j] - h[i] <= 15 * MINUTE
    ensures j - i + 1 <= 4 + k
  {
    assert InFlight(Init(clock), ip) == {};
    RunKeepsInv(Init(clock), steps, ip, k);
  }
}
