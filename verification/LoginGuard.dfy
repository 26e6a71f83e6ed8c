/** The protector object and the decision order of the login handler. */
module LoginGuard {
  import opened LoginGuarding
  import opened Maps
  import opened Wrappers

  class LoginAttempt {
    ghost const ip: IP
    var count: nat
    var lastFail: Time
    var lockedOut: bool
    var lockoutAt: Time

    constructor (ghost ip: IP)
      ensures this.ip == ip && Value() == BLANK
    {
      this.ip := ip;
      count, lastFail, lockedOut, lockoutAt := 0, ZERO_TIME, false, ZERO_TIME;
    }

    function Value(): Attempt
      reads this
    {
      Attempt(count, lastFail, lockedOut, lockoutAt)
    }

    /** One more failure, after a reset if the last one is a window ago. */
    method Fail(now: Time)
      modifies this
      ensures Value() == Failed(old(Value()), now)
    {
      if now - lastFail > WINDOW {
        count := 0;
        lockedOut := false;
      }
      count := count + 1;
      lastFail := now;
      if count >= MAX_ATTEMPTS {
        lockedOut := true;
        lockoutAt := now;
      }
    }
  }

  datatype Outcome = LockedOut(minutes: Time) | Redirected | Rejected | LoggedIn

  class BruteForceProtector {
    var attempts: map<IP, LoginAttempt>
    ghost var Records: Attempts  // every record, as a value

    ghost predicate Valid()
      reads this, attempts.Values
    {
      && attempts.Keys == Records.Keys
      && forall ip <- attempts :: attempts[ip].ip == ip && attempts[ip].Value() == Records[ip]
    }

    constructor ()
      ensures Valid() && Records == map[] && attempts == map[]
    {
      attempts, Records := map[], map[];
    }

    method IsLockedOut(ip: IP, now: Time) returns (locked: bool)
      requires Valid()
      ensures locked == LoginGuarding.IsLockedOut(Records, ip, now)
    {
      if ip !in attempts {
        return false;
      }
      var attempt := attempts[ip];
      if attempt.lockedOut {
        if now - attempt.lockoutAt > LOCKOUT {
          return false;
        }
        return true;
      }
      return false;
    }

    /** The record of ip, created blank if there is none. */
    method Entry(ip: IP) returns (attempt: LoginAttempt)
      requires Valid()
      modifies this
      ensures Valid() && ip in attempts && attempts[ip] == attempt
      ensures Records == if ip in old(Records) then old(Records) else old(Records)[ip := BLANK]
      ensures forall a <- attempts.Values :: a in old(attempts.Values) || fresh(a)
    {
      if ip in attempts {
        return attempts[ip];
      }
      attempt := new LoginAttempt(ip);
      attempts, Records := attempts[ip := attempt], Records[ip := BLANK];
    }

    method RecordFailed(ip: IP, now: Time)
      requires Valid()
      modifies this, attempts.Values
      ensures Valid() && Records == LoginGuarding.RecordFailed(old(Records), ip, now)
      ensures forall a <- attempts.Values :: a in old(attempts.Values) || fresh(a)
    {
      var attempt := Entry(ip);
      assert forall other <- attempts :: attempts[other].ip == other;
      attempt.Fail(now);
      UpdateTwice(old(Records), ip, BLANK, attempt.Value());
      Records := Records[ip := attempt.Value()];
    }

    method RecordSuccess(ip: IP)
      requires Valid()
      modifies this
      ensures Valid() && Records == LoginGuarding.RecordSuccess(old(Records), ip)
      ensures attempts.Values <= old(attempts.Values)
    {
      attempts, Records := attempts - {ip}, Records - {ip};
    }

    method RemainingLockout(ip: IP, now: Time) returns (remaining: Time)
      requires Valid()
      ensures remaining == LoginGuarding.RemainingLockout(Records, ip, now)
    {
      if ip !in attempts || !attempts[ip].lockedOut {
        return 0;
      }
      remaining := LOCKOUT - (now - attempts[ip].lockoutAt);
      if remaining < 0 {
        return 0;
      }
    }

    /** The handler's order: the lockout check comes first and refuses without looking at the token;
        only a compared token is recorded. */
    method Login(ip: IP, checked: Time, read: Time, formOk: bool, tokenOk: bool, recorded: Time) returns (outcome: Outcome)
      requires Valid()
      modifies this, attempts.Values
      ensures Valid()
      ensures if LoginGuarding.IsLockedOut(old(Records), ip, checked) then
                Records == old(Records) &&
                outcome == LockedOut(DisplayedMinutes(LoginGuarding.RemainingLockout(old(Records), ip, read)))
              else if !formOk then Records == old(Records) && outcome == Redirected
              else if tokenOk then Records == LoginGuarding.RecordSuccess(old(Records), ip) && outcome == LoggedIn
              else Records == LoginGuarding.RecordFailed(old(Records), ip, recorded) && outcome == Rejected
    {
      var locked := IsLockedOut(ip, checked);
      if locked {
        var remaining := RemainingLockout(ip, read);
        return LockedOut(remaining / MINUTE + 1);
      }
      if !formOk {
        return Redirected;
      }
      if !tokenOk {
        RecordFailed(ip, recorded);
        return Rejected;
      }
      RecordSuccess(ip);
      return LoggedIn;
    }
  }
}
