/** The key-set cache on values: a read-locked fast path, then a write-locked double check around
    one fetch.  A fetch asks the provider at some instant and is recorded when it returns. */
module KeySetCaching {
  import opened Wrappers

  type KeySet = nat  // a fetched key set, by identity

  datatype State = State(keys: Option<KeySet>, fetchedAt: Time)

  const EMPTY := State(None, 0)

  predicate Valid(ttl: Time, s: State, now: Time) {
    s.keys.Some? && now - s.fetchedAt < ttl
  }

  /** The section under the write lock: the check at `now`, then perhaps the fetch that returned
      `fetched` at `done`.  The result is what Get returns, None for an error. */
  function Slow(ttl: Time, s: State, now: Time, fetched: Option<KeySet>, done: Time): (State, Option<KeySet>) {
    if Valid(ttl, s, now) then (s, s.keys)
    else if fetched.None? then (s, s.keys)
    else (State(fetched, done), fetched)
  }

  // ----- runs -----

  /** What the provider would answer at each instant; None is a failed fetch. */
  type Provider = Time -> Option<KeySet>

  /** One turn under the write lock: the check, the instant the provider is asked, and the return. */
  datatype Turn = Turn(now: Time, asked: Time, done: Time)

  function Take(ttl: Time, p: Provider, s: State, t: Turn): (State, Option<KeySet>) {
    Slow(ttl, s, t.now, p(t.asked), t.done)
  }

  function After(ttl: Time, p: Provider, s: State, ts: seq<Turn>): State
    decreases |ts|
  {
    if ts == [] then s else After(ttl, p, Take(ttl, p, s, ts[0]).0, ts[1..])
  }

  /** Turns exclude each other, and no fetch takes longer than `latency`. */
  predicate InTurn(ts: seq<Turn>, from: Time, latency: Time) {
    ts == [] ||
    (from <= ts[0].now <= ts[0].asked <= ts[0].done <= ts[0].asked + latency && InTurn(ts[1..], ts[0].done, latency))
  }

  /** The times at which a run records a fetch. */
  function Recorded(ttl: Time, p: Provider, s: State, ts: seq<Turn>): seq<Time>
    decreases |ts|
  {
    if ts == [] then []
    else
      var rest := Recorded(ttl, p, Take(ttl, p, s, ts[0]).0, ts[1..]);
      if !Valid(ttl, s, ts[0].now) && p(ts[0].asked).Some? then [ts[0].done] + rest else rest
  }

  /** However many readers miss at once, recorded fetches are at least the lifetime apart. */
  lemma {:induction false} FetchesAreApart(ttl: Time, p: Provider, s: State, ts: seq<Turn>, from: Time, latency: Time)
    requires ttl > 0 && InTurn(ts, from, latency)
    ensures Apart(Recorded(ttl, p, s, ts), ttl)
    ensures s.keys.Some? ==> forall m <- Recorded(ttl, p, s, ts) :: m >= s.fetchedAt + ttl
    decreases |ts|
  {
    if ts != [] {
      var s' := Take(ttl, p, s, ts[0]).0;
      var rest, all := Recorded(ttl, p, s', ts[1..]), Recorded(ttl, p, s, ts);
      FetchesAreApart(ttl, p, s', ts[1..], ts[0].done, latency);
      if all != rest {
        assert all == [ts[0].done] + rest;
        assert forall i | 0 < i < |all| :: all[i] == rest[i - 1] && rest[i - 1] in rest;
      }
    }
  }

  /** Once a key set is loaded no turn fails, and a key set that was out of date at the check is
      handed out only if this very turn's fetch failed. */
  lemma StaleOnlyOnFailure(ttl: Time, p: Provider, s: State, t: Turn)
    requires ttl > 0 && t.now <= t.asked <= t.done
    ensures var (s', got) := Take(ttl, p, s, t);
            && (s.keys.Some? ==> got.Some? && s'.keys.Some?)
            && (got.None? <==> s.keys.None? && p(t.asked).None?)
            && (got.Some? && !Valid(ttl, s, t.now) ==>
                  if p(t.asked).Some? then got == p(t.asked) && s' == State(got, t.done) else got == s.keys && s' == s)
            && (got.Some? ==> got == s'.keys)
  {
  }

  lemma {:induction false} LoadedStaysLoaded(ttl: Time, p: Provider, s: State, ts: seq<Turn>)
    requires s.keys.Some?
    ensures After(ttl, p, s, ts).keys.Some?
    decreases |ts|
  {
    if ts != [] {
      LoadedStaysLoaded(ttl, p, Take(ttl, p, s, ts[0]).0, ts[1..]);
    }
  }

  lemma {:induction false} AfterConcat(ttl: Time, p: Provider, s: State, a: seq<Turn>, b: seq<Turn>)
    ensures After(ttl, p, s, a + b) == After(ttl, p, After(ttl, p, s, a), b)
    decreases |a|
  {
    if a == [] {
      assert a + b == b;
    } else {
      assert (a + b)[0] == a[0] && (a + b)[1..] == a[1..] + b;
      AfterConcat(ttl, p, Take(ttl, p, s, a[0]).0, a[1..], b);
    }
  }

  /** Once any reader has been given keys, every later reader is: whatever fails after that, neither
      the fast path nor a turn under the lock returns an error. */
  lemma OnceLoadedAlwaysAnswers(ttl: Time, p: Provider, a: seq<Turn>, t: Turn, b: seq<Turn>, later: Turn)
    requires Take(ttl, p, After(ttl, p, EMPTY, a), t).1.Some?
    ensures var s := After(ttl, p, EMPTY, a + ([t] + b)); s.keys.Some? && Take(ttl, p, s, later).1.Some?
  {
    var s := After(ttl, p, EMPTY, a);
    AfterConcat(ttl, p, EMPTY, a, [t] + b);
    assert ([t] + b)[1..] == b;
    LoadedStaysLoaded(ttl, p, Take(ttl, p, s, t).0, b);
  }

  // ----- how long a rotation takes to arrive -----

  /** The keys held were asked for at some instant no more than `latency` before they were recorded. */
  ghost predicate AskedAt(p: Provider, s: State, asked: Time, latency: Time) {
    asked <= s.fetchedAt <= asked + latency && p(asked) == s.keys
  }

  ghost predicate FromProvider(p: Provider, s: State, latency: Time) {
    s.keys.Some? ==> exists asked :: AskedAt(p, s, asked, latency)
  }

  lemma {:induction false} RunIsFromProvider(ttl: Time, p: Provider, s: State, ts: seq<Turn>, from: Time, latency: Time)
    requires InTurn(ts, from, latency) && FromProvider(p, s, latency)
    ensures FromProvider(p, After(ttl, p, s, ts), latency)
    decreases |ts|
  {
    if ts != [] {
      var s' := Take(ttl, p, s, ts[0]).0;
      if s' != s {
        assert AskedAt(p, s', ts[0].asked, latency);
      }
      RunIsFromProvider(ttl, p, s', ts[1..], ts[0].done, latency);
    }
  }

  /** From instant r on the provider answers, and always with the same keys. */
  ghost predicate RotatedAt(p: Provider, r: Time, keys: KeySet) {
    forall t | t >= r :: p(t) == Some(keys)
  }

  /** Main result: a rotation reaches every reader within the lifetime plus one fetch latency.
      A reader that checks at `now`, on the fast path or in its turn t, gets the rotated keys. */
  lemma RotationArrives(ttl: Time, p: Provider, ts: seq<Turn>, from: Time, latency: Time, r: Time, keys: KeySet, now: Time, t: Turn)
    requires ttl > 0 && InTurn(ts, from, latency) && RotatedAt(p, r, keys)
    requires now >= r + latency + ttl && now <= t.now <= t.asked && latency >= 0
    ensures var s := After(ttl, p, EMPTY, ts);
            && (Valid(ttl, s, now) ==> s.keys == Some(keys))
            && Take(ttl, p, s, t).1 == Some(keys)
  {
    var s := After(ttl, p, EMPTY, ts);
    RunIsFromProvider(ttl, p, EMPTY, ts, from, latency);
    if Valid(ttl, s, now) {
      var asked :| AskedAt(p, s, asked, latency);
    }
    if Valid(ttl, s, t.now) {
      var asked :| AskedAt(p, s, asked, latency);
    }
  }

  /** The latency cannot be left out: a fetch answered just before the rotation and recorded after
      it is served until that much later. */
  lemma LatencyCounts(ttl: Time, latency: Time)
    requires ttl > 0 && latency > 0
    ensures var p: Provider := t => Some(if t < 0 then 1 else 2);
            var ts := [Turn(-1, -1, latency - 1)];
            && RotatedAt(p, 0, 2) && InTurn(ts, -1, latency)
            && var s := After(ttl, p, EMPTY, ts);
               Valid(ttl, s, latency + ttl - 2) && s.keys == Some(1)
  {
  }
}
