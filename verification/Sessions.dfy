/** Dashboard sessions on values: `create` sweeps out expired sessions as it adds one, `validate` refuses
    expired ones, `delete` logs out. */
module Sessions {
  import opened Maps
  import opened Wrappers

  type Token = string

  const TIMEOUT: Time := 24 * HOUR

  type Store = map<Token, Time>  // when each session was created

  function Unexpired(now: Time): Time -> bool { (created: Time) => now - created <= TIMEOUT }

  function Create(s: Store, token: Token, now: Time): Store {
    Retain(s, Unexpired(now))[token := now]
  }

  predicate Validate(s: Store, token: Token, now: Time) {
    token in s && now - s[token] <= TIMEOUT
  }

  function Delete(s: Store, token: Token): Store {
    s - {token}
  }

  /** Creating a session forgets exactly the sessions older than a day. */
  lemma CreateExactly(s: Store, created: Token, now: Time, token: Token)
    ensures token in Create(s, created, now) <==> token == created || (token in s && now - s[token] <= 24 * HOUR)
    ensures token in Create(s, created, now) ==>
              Create(s, created, now)[token] == if token == created then now else s[token]
  {
  }

  // ----- the reference: sessions as issued, and logouts, for ever -----

  datatype Op = CreateOp(token: Token, now: Time) | ValidateOp(token: Token, now: Time) | DeleteOp(token: Token, now: Time)

  datatype Reference = Reference(issued: map<Token, Time>, loggedOut: set<Token>)

  predicate RefValidate(r: Reference, token: Token, now: Time) {
    token in r.issued && token !in r.loggedOut && now - r.issued[token] <= 24 * HOUR
  }

  /** Clock readings never go back, and a new session's token was never used before. */
  predicate Proper(r: Reference, ops: seq<Op>, clock: Time)
    decreases |ops|
  {
    ops == [] || (
      && clock <= ops[0].now
      && (ops[0].CreateOp? ==> ops[0].token !in r.issued && ops[0].token !in r.loggedOut)
      && Proper(RefNext(r, ops[0]), ops[1..], ops[0].now))
  }

  function Next(s: Store, op: Op): Store {
    match op
    case CreateOp(token, now) => Create(s, token, now)
    case ValidateOp(_, _) => s
    case DeleteOp(token, _) => Delete(s, token)
  }

  function RefNext(r: Reference, op: Op): Reference {
    match op
    case CreateOp(token, now) => r.(issued := r.issued[token := now])
    case ValidateOp(_, _) => r
    case DeleteOp(token, _) => r.(loggedOut := r.loggedOut + {token})
  }

  function Answers(s: Store, ops: seq<Op>): seq<bool>
    decreases |ops|
  {
    if ops == [] then []
    else (if ops[0].ValidateOp? then [Validate(s, ops[0].token, ops[0].now)] else []) + Answers(Next(s, ops[0]), ops[1..])
  }

  function RefAnswers(r: Reference, ops: seq<Op>): seq<bool>
    decreases |ops|
  {
    if ops == [] then []
    else (if ops[0].ValidateOp? then [RefValidate(r, ops[0].token, ops[0].now)] else []) + RefAnswers(RefNext(r, ops[0]), ops[1..])
  }

  /** The store holds issued sessions that were not logged out, and all of those still unexpired. */
  ghost predicate Agree(s: Store, r: Reference, clock: Time) {
    forall token ::
      && (token in s ==> token in r.issued && token !in r.loggedOut && s[token] == r.issued[token])
      && (RefValidate(r, token, clock) ==> token in s)
  }

  lemma {:induction false} AnswersAgree(s: Store, r: Reference, ops: seq<Op>, clock: Time)
    requires Agree(s, r, clock) && Proper(r, ops, clock)
    ensures Answers(s, ops) == RefAnswers(r, ops)
    decreases |ops|
  {
    if ops != [] {
      var now := ops[0].now;
      assert forall token :: RefValidate(r, token, now) ==> RefValidate(r, token, clock);
      AnswersAgree(Next(s, ops[0]), RefNext(r, ops[0]), ops[1..], now);
    }
  }

  /** Main result: over every run with fresh tokens and nondecreasing time, a session is accepted
      exactly while it was issued at most 24 hours ago and never logged out; sweeping removes
      nothing a later check would accept, and no deleted session comes back. */
  lemma SweepingIsInvisible(ops: seq<Op>, clock: Time)
    requires Proper(Reference(map[], {}), ops, clock)
    ensures Answers(map[], ops) == RefAnswers(Reference(map[], {}), ops)
  {
    AnswersAgree(map[], Reference(map[], {}), ops, clock);
  }
}
