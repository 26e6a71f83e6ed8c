/** The session store object; creating a session sweeps the map in a loop. */
module SessionStore {
  import opened Maps
  import opened Sessions
  import opened Wrappers

  class SessionStore {
    var sessions: Store

    constructor ()
      ensures sessions == map[]
    {
      sessions := map[];
    }

    method Create(token: Token, now: Time)
      modifies this
      ensures sessions == Sessions.Create(old(sessions), token, now)
    {
      SweptEnds(sessions, Unexpired(now));
      var todo := sessions.Keys;
      while todo != {}
        invariant todo <= old(sessions).Keys
        invariant sessions == Swept(old(sessions), Unexpired(now), todo)
        decreases todo
      {
        var id :| id in todo;
        SweptStep(old(sessions), Unexpired(now), todo, id);
        if now - sessions[id] > TIMEOUT {
          sessions := sessions - {id};
        }
        todo := todo - {id};
      }
      sessions := sessions[token := now];
    }

    method Validate(token: Token, now: Time) returns (ok: bool)
      ensures ok == Sessions.Validate(sessions, token, now)
    {
      if token !in sessions {
        return false;
      }
      if now - sessions[token] > TIMEOUT {
        return false;
      }
      return true;
    }

    method Delete(token: Token)
      modifies this
      ensures sessions == Sessions.Delete(old(sessions), token)
    {
      sessions := sessions - {token};
    }
  }
}
