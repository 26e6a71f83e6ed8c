/** The hot reloader for the TLS key pair on values, in a world that rewrites the two files at any moment. */
module CertReloading {
  import opened Fingerprint
  import opened Wrappers

  type Content = nat  // what a file holds

  datatype Pair = Pair(cert: Content, key: Content)

  datatype State = State(pair: Pair, stamp: string, lastCheck: Time)

  // ----- the code, given what the operating system answers -----

  /** The answers to the two stats of the first fingerprint, to the two stats inside load, and to
      the reading of the pair (None when unreadable or mismatched). */
  datatype Answers = Answers(
    stat1: Option<Stamp>, stat2: Option<Stamp>, stat3: Option<Stamp>, stat4: Option<Stamp>, pair: Option<Pair>)

  function FingerprintOf(cert: Option<Stamp>, key: Option<Stamp>): Option<string> {
    if cert.None? || key.None? then None else Some(Render(cert.value, key.value))
  }

  /** load: the fingerprint is taken before the pair is read. */
  function Load(a: Answers): Option<(Pair, string)> {
    var stamp := FingerprintOf(a.stat3, a.stat4);
    if stamp.None? || a.pair.None? then None else Some((a.pair.value, stamp.value))
  }

  /** refresh, from inside the lock; `since` and `mark` are its two clock readings. */
  function Refresh(interval: Time, s: State, since: Time, mark: Time, a: Answers): State {
    if since - s.lastCheck < interval then s
    else
      var checked := s.(lastCheck := mark);
      var stamp := FingerprintOf(a.stat1, a.stat2);
      if stamp.None? || stamp.value == s.stamp then checked
      else match Load(a)
        case None => checked
        case Some((pair, stamp)) => State(pair, stamp, mark)
  }

  // ----- the world -----

  datatype File = File(stamp: Stamp, content: Content)

  datatype Files = Files(cert: Option<File>, key: Option<File>)

  /** The files at every instant, and which contents load as a pair. */
  datatype World = World(at: Time -> Files, matches: (Content, Content) -> bool)

  /** When one call of refresh does what. */
  datatype Check = Check(
    since: Time, mark: Time, stat1: Time, stat2: Time, stat3: Time, stat4: Time, readCert: Time, readKey: Time)

  predicate InOrder(k: Check, from: Time) {
    from <= k.since <= k.mark <= k.stat1 <= k.stat2 <= k.stat3 <= k.stat4 <= k.readCert <= k.readKey
  }

  function StampOf(f: Option<File>): Option<Stamp> {
    if f.None? then None else Some(f.value.stamp)
  }

  function ReadPair(w: World, readCert: Time, readKey: Time): Option<Pair> {
    var cert, key := w.at(readCert).cert, w.at(readKey).key;
    if cert.None? || key.None? || !w.matches(cert.value.content, key.value.content) then None
    else Some(Pair(cert.value.content, key.value.content))
  }

  function Observe(w: World, k: Check): Answers {
    Answers(StampOf(w.at(k.stat1).cert), StampOf(w.at(k.stat2).key),
            StampOf(w.at(k.stat3).cert), StampOf(w.at(k.stat4).key), ReadPair(w, k.readCert, k.readKey))
  }

  function Step(w: World, interval: Time, s: State, k: Check): State {
    Refresh(interval, s, k.since, k.mark, Observe(w, k))
  }

  /** Start-up: load, then note the time. */
  function Boot(w: World, k: Check, now: Time): Option<State> {
    match Load(Observe(w, k))
    case None => None
    case Some((pair, stamp)) => Some(State(pair, stamp, now))
  }

  function After(w: World, interval: Time, s: State, ks: seq<Check>): State
    decreases |ks|
  {
    if ks == [] then s else After(w, interval, Step(w, interval, s, ks[0]), ks[1..])
  }

  /** The mutex: one refresh at a time, each after the one before. */
  predicate OneAtATime(ks: seq<Check>, from: Time) {
    ks == [] || (InOrder(ks[0], from) && OneAtATime(ks[1..], ks[0].readKey))
  }

  function EndOf(ks: seq<Check>, started: Time): Time {
    if ks == [] then started else ks[|ks| - 1].readKey
  }

  /** A server that has started, and the refreshes it has made. */
  ghost predicate Started(w: World, boot: Check, started: Time, ks: seq<Check>) {
    && Boot(w, boot, started).Some? && InOrder(boot, boot.since) && boot.readKey <= started
    && OneAtATime(ks, started)
  }

  function Now(w: World, interval: Time, boot: Check, started: Time, ks: seq<Check>): State
    requires Boot(w, boot, started).Some?
  {
    After(w, interval, Boot(w, boot, started).value, ks)
  }

  // ----- what is assumed of the stamps -----

  predicate Untouched(f1: Option<File>, f2: Option<File>, f3: Option<File>) {
    f1.Some? && f3.Some? && f1.value.stamp == f3.value.stamp ==> f2.Some? && f2.value.content == f3.value.content
  }

  predicate UntouchedAt(w: World, t1: Time, t2: Time, t3: Time) {
    t1 <= t2 <= t3 ==>
      Untouched(w.at(t1).cert, w.at(t2).cert, w.at(t3).cert) && Untouched(w.at(t1).key, w.at(t2).key, w.at(t3).key)
  }

  /** No file gets back a stamp it had before a change: seeing the same stamp at two moments means
      the contents were the same in between. */
  ghost predicate StampsNeverReturn(w: World) {
    forall t1, t2, t3 :: UntouchedAt(w, t1, t2, t3)
  }

  /** The weaker reading: a stamp always stands for the same contents. */
  ghost predicate StampsNameContents(w: World) {
    forall t1, t3 :: UntouchedAt(w, t1, t1, t3) && UntouchedAt(w, t1, t3, t3)
  }

  /** From time t on the files do not change, and they form a pair that loads. */
  ghost predicate SettledAt(w: World, t: Time) {
    && (forall u | u >= t :: w.at(u) == w.at(t))
    && ReadPair(w, t, t).Some?
  }

  predicate SameStamps(w: World, statCert: Time, statKey: Time, t: Time) {
    StampOf(w.at(statCert).cert) == StampOf(w.at(t).cert) && StampOf(w.at(statKey).key) == StampOf(w.at(t).key)
  }

  /** When one load does its two stats and its two reads. */
  datatype Reading = Reading(statCert: Time, statKey: Time, readCert: Time, readKey: Time)

  predicate StatsFirst(r: Reading) {
    r.statCert <= r.statKey <= r.readCert <= r.readKey
  }

  /** The stats find the stamps of t, but the pair read after them is another. */
  predicate Straddles(w: World, t: Time, r: Reading) {
    && StatsFirst(r) && SameStamps(w, r.statCert, r.statKey, t)
    && ReadPair(w, r.readCert, r.readKey).Some? && ReadPair(w, r.readCert, r.readKey) != ReadPair(w, t, t)
  }

  /** The stamps that the files settle on were not on them before another pair could be read. */
  ghost predicate NoStraddle(w: World, t: Time) {
    forall r :: !Straddles(w, t, r)
  }

  // ----- what every run keeps -----

  /** The stamp and the pair come from one load, made before now. */
  ghost predicate LoadedBy(w: World, s: State, r: Reading, now: Time) {
    && StatsFirst(r) && r.readKey <= now
    && FingerprintOf(StampOf(w.at(r.statCert).cert), StampOf(w.at(r.statKey).key)) == Some(s.stamp)
    && ReadPair(w, r.readCert, r.readKey) == Some(s.pair)
  }

  function ReadingOf(k: Check): Reading {
    Reading(k.stat3, k.stat4, k.readCert, k.readKey)
  }

  /** The load whose results a check leaves. */
  function NextReading(w: World, interval: Time, s: State, r: Reading, k: Check): Reading {
    var s' := Step(w, interval, s, k);
    if (s'.pair, s'.stamp) == (s.pair, s.stamp) then r else ReadingOf(k)
  }

  lemma StepKeepsLoaded(w: World, interval: Time, s: State, r: Reading, k: Check, from: Time)
    requires LoadedBy(w, s, r, from) && InOrder(k, from)
    ensures LoadedBy(w, Step(w, interval, s, k), NextReading(w, interval, s, r, k), k.readKey)
  {
  }

  /** A state with the load it comes from and the end of the last check. */
  datatype Held = Held(state: State, reading: Reading, end: Time)

  function Follow(w: World, interval: Time, h: Held, ks: seq<Check>): Held
    decreases |ks|
  {
    if ks == [] then h
    else
      var k := ks[0];
      var h' := Held(Step(w, interval, h.state, k), NextReading(w, interval, h.state, h.reading, k), k.readKey);
      Follow(w, interval, h', ks[1..])
  }

  lemma {:induction false} FollowRun(w: World, interval: Time, h: Held, ks: seq<Check>)
    ensures Follow(w, interval, h, ks).state == After(w, interval, h.state, ks)
    ensures Follow(w, interval, h, ks).end == EndOf(ks, h.end)
    decreases |ks|
  {
    if ks != [] {
      var k := ks[0];
      FollowRun(w, interval, Held(Step(w, interval, h.state, k), NextReading(w, interval, h.state, h.reading, k), k.readKey), ks[1..]);
    }
  }

  ghost predicate IsLoaded(w: World, h: Held) {
    LoadedBy(w, h.state, h.reading, h.end)
  }

  lemma {:induction false} FollowKeepsLoaded(w: World, interval: Time, h: Held, ks: seq<Check>)
    requires IsLoaded(w, h) && OneAtATime(ks, h.end)
    ensures IsLoaded(w, Follow(w, interval, h, ks))
    decreases |ks|
  {
    if ks != [] {
      var k := ks[0];
      StepKeepsLoaded(w, interval, h.state, h.reading, k, h.end);
      FollowKeepsLoaded(w, interval,
        Held(Step(w, interval, h.state, k), NextReading(w, interval, h.state, h.reading, k), k.readKey), ks[1..]);
    }
  }

  /** At every point of a run, what is served comes from one load. */
  lemma RunKeepsLoaded(w: World, interval: Time, s: State, r: Reading, ks: seq<Check>, from: Time) returns (last: Reading)
    requires LoadedBy(w, s, r, from) && OneAtATime(ks, from)
    ensures LoadedBy(w, After(w, interval, s, ks), last, EndOf(ks, from))
  {
    var h := Held(s, r, from);
    FollowRun(w, interval, h, ks);
    FollowKeepsLoaded(w, interval, h, ks);
    last := Follow(w, interval, h, ks).reading;
  }

  /** Whatever happens to the files, the pair served at any time was read from them and loaded. */
  lemma ServesOnlyLoadedPairs(w: World, interval: Time, boot: Check, started: Time, ks: seq<Check>)
    requires Started(w, boot, started, ks)
    ensures var pair := Now(w, interval, boot, started, ks).pair;
            && w.matches(pair.cert, pair.key)
            && exists readCert, readKey | readCert <= EndOf(ks, started) && readKey <= EndOf(ks, started) ::
                 ReadPair(w, readCert, readKey) == Some(pair)
  {
    var s0 := Boot(w, boot, started).value;
    var _ := RunKeepsLoaded(w, interval, s0, ReadingOf(boot), ks, started);
  }

  /** A stat that finds the stored stamp finds the contents being served. */
  lemma EqualStampServesCurrent(w: World, s: State, r: Reading, from: Time, statCert: Time, statKey: Time)
    requires StampsNeverReturn(w) && LoadedBy(w, s, r, from) && from <= statCert && from <= statKey
    requires FingerprintOf(StampOf(w.at(statCert).cert), StampOf(w.at(statKey).key)) == Some(s.stamp)
    ensures w.at(statCert).cert.value.content == s.pair.cert && w.at(statKey).key.value.content == s.pair.key
  {
    RenderInjective(w.at(r.statCert).cert.value.stamp, w.at(r.statKey).key.value.stamp,
                    w.at(statCert).cert.value.stamp, w.at(statKey).key.value.stamp);
    assert UntouchedAt(w, r.statCert, r.readCert, statCert) && UntouchedAt(w, r.statKey, r.readKey, statKey);
  }

  // ----- when a rotation arrives -----

  /** Stamps that never return are more than is needed. */
  lemma NeverReturningIsEnough(w: World, t: Time)
    requires StampsNeverReturn(w) && SettledAt(w, t)
    ensures NoStraddle(w, t)
  {
    forall r ensures !Straddles(w, t, r) {
      var end := if r.readKey > t then r.readKey else t;
      assert w.at(end) == w.at(t);
      assert UntouchedAt(w, r.statCert, r.readCert, end) && UntouchedAt(w, r.statKey, r.readKey, end);
    }
  }

  /** The first check that starts after the files settled serves the settled pair. */
  lemma CheckAfterSettling(w: World, interval: Time, s: State, r: Reading, from: Time, k: Check, t: Time)
    requires NoStraddle(w, t) && SettledAt(w, t) && LoadedBy(w, s, r, from) && InOrder(k, from)
    requires k.since - s.lastCheck >= interval && t <= k.mark
    ensures Some(Step(w, interval, s, k).pair) == ReadPair(w, t, t)
  {
    if FingerprintOf(StampOf(w.at(k.stat1).cert), StampOf(w.at(k.stat2).key)) == Some(s.stamp) {
      RenderInjective(w.at(r.statCert).cert.value.stamp, w.at(r.statKey).key.value.stamp,
                      w.at(k.stat1).cert.value.stamp, w.at(k.stat2).key.value.stamp);
      assert !Straddles(w, t, r);
    }
  }

  /** Every check made after the files settled, start-up's aside, has left the settled pair. */
  ghost predicate SettledPairOnce(w: World, s: State, t: Time, started: Time) {
    s.lastCheck >= t && s.lastCheck > started ==> Some(s.pair) == ReadPair(w, t, t)
  }

  lemma {:induction false} RunKeepsSettled(w: World, interval: Time, s: State, r: Reading, ks: seq<Check>, from: Time, t: Time,
                                           started: Time)
    requires NoStraddle(w, t) && SettledAt(w, t) && LoadedBy(w, s, r, from) && OneAtATime(ks, from)
    requires SettledPairOnce(w, s, t, started)
    ensures SettledPairOnce(w, After(w, interval, s, ks), t, started)
    decreases |ks|
  {
    if ks != [] {
      var s' := Step(w, interval, s, ks[0]);
      StepKeepsLoaded(w, interval, s, r, ks[0], from);
      if ks[0].since - s.lastCheck >= interval && t <= ks[0].mark {
        CheckAfterSettling(w, interval, s, r, from, ks[0], t);
      }
      RunKeepsSettled(w, interval, s', NextReading(w, interval, s, r, ks[0]), ks[1..], ks[0].readKey, t, started);
    }
  }

  lemma RunFacts(w: World, interval: Time, boot: Check, started: Time, ks: seq<Check>, t: Time) returns (r: Reading)
    requires NoStraddle(w, t) && SettledAt(w, t) && Started(w, boot, started, ks)
    ensures LoadedBy(w, Now(w, interval, boot, started, ks), r, EndOf(ks, started))
    ensures SettledPairOnce(w, Now(w, interval, boot, started, ks), t, started)
  {
    var s0 := Boot(w, boot, started).value;
    r := RunKeepsLoaded(w, interval, s0, ReadingOf(boot), ks, started);
    RunKeepsSettled(w, interval, s0, ReadingOf(boot), ks, started, t, started);
  }

  /** Under arbitrary rewrites before time t, a handshake at least one interval after both t and
      start-up serves the pair the files settled on.  It decides at `now` on the state it read under
      the read lock, after the refreshes ks ... */
  lemma HandshakeServesSettledPair(w: World, interval: Time, boot: Check, started: Time, ks: seq<Check>, now: Time, t: Time)
    requires NoStraddle(w, t) && SettledAt(w, t) && Started(w, boot, started, ks)
    requires now >= t + interval && now >= started + interval
    requires now - Now(w, interval, boot, started, ks).lastCheck < interval
    ensures Some(Now(w, interval, boot, started, ks).pair) == ReadPair(w, t, t)
  {
    var _ := RunFacts(w, interval, boot, started, ks, t);
  }

  /** ... and if it must refresh, its turn k comes after the refreshes ks, others' among them. */
  lemma RefreshServesSettledPair(w: World, interval: Time, boot: Check, started: Time, ks: seq<Check>, now: Time, k: Check, t: Time)
    requires NoStraddle(w, t) && SettledAt(w, t) && Started(w, boot, started, ks)
    requires now >= t + interval && now >= started + interval
    requires InOrder(k, EndOf(ks, started)) && now <= k.since && interval >= 0
    ensures Some(Step(w, interval, Now(w, interval, boot, started, ks), k).pair) == ReadPair(w, t, t)
  {
    var before := Now(w, interval, boot, started, ks);
    var r := RunFacts(w, interval, boot, started, ks, t);
    if k.since - before.lastCheck >= interval {
      CheckAfterSettling(w, interval, before, r, EndOf(ks, started), k, t);
    }
  }

  /** Once the files have settled on the stored stamp, no check ever changes what is served. */
  lemma {:induction false} SettledStampStays(w: World, interval: Time, s: State, ks: seq<Check>, from: Time, t: Time)
    requires SettledAt(w, t) && t <= from && OneAtATime(ks, from)
    requires FingerprintOf(StampOf(w.at(t).cert), StampOf(w.at(t).key)) == Some(s.stamp)
    ensures After(w, interval, s, ks).pair == s.pair
    decreases |ks|
  {
    if ks != [] {
      var s' := Step(w, interval, s, ks[0]);
      assert w.at(ks[0].stat1) == w.at(t) && w.at(ks[0].stat2) == w.at(t);
      SettledStampStays(w, interval, s', ks[1..], ks[0].readKey, t);
    }
  }

  /** A start-up that loads as in r. */
  function BootAt(r: Reading): Check {
    Check(r.statCert, r.statCert, r.statCert, r.statCert, r.statCert, r.statKey, r.readCert, r.readKey)
  }

  /** A start-up whose stats and reads straddle a change serves that other pair for good. */
  lemma StraddleIsNeverRepaired(w: World, interval: Time, t: Time, r: Reading, started: Time, ks: seq<Check>)
    requires SettledAt(w, t) && Straddles(w, t, r)
    requires r.readKey <= started && t <= started && OneAtATime(ks, started)
    ensures Started(w, BootAt(r), started, ks)
    ensures Some(Now(w, interval, BootAt(r), started, ks).pair) == ReadPair(w, r.readCert, r.readKey) != ReadPair(w, t, t)
  {
    SettledStampStays(w, interval, Boot(w, BootAt(r), started).value, ks, started, t);
  }

  /** A handshake at `now`, an interval after both t and start-up; k is its turn should it refresh. */
  ghost predicate LateHandshake(w: World, interval: Time, t: Time, boot: Check, started: Time, ks: seq<Check>, now: Time, k: Check) {
    && Started(w, boot, started, ks)
    && now >= t + interval && now >= started + interval
    && InOrder(k, EndOf(ks, started)) && now <= k.since
  }

  /** The handshake is given the pair of t, without and with a refresh. */
  ghost predicate GetsPairOf(w: World, interval: Time, t: Time, boot: Check, started: Time, ks: seq<Check>, now: Time, k: Check)
    requires Boot(w, boot, started).Some?
  {
    var s := Now(w, interval, boot, started, ks);
    && (now - s.lastCheck < interval ==> Some(s.pair) == ReadPair(w, t, t))
    && Some(Step(w, interval, s, k).pair) == ReadPair(w, t, t)
  }

  ghost predicate RotationArrives(w: World, interval: Time, t: Time) {
    forall boot, started, ks, now, k | LateHandshake(w, interval, t, boot, started, ks, now, k) ::
      GetsPairOf(w, interval, t, boot, started, ks, now, k)
  }

  /** Main result: once the files have settled, every handshake of every run that comes an interval
      later gets the settled pair, if and only if the stamps they settled on were never on them
      before another pair could be read. */
  lemma RotationArrivesExactly(w: World, interval: Time, t: Time)
    requires interval >= 0 && SettledAt(w, t)
    ensures RotationArrives(w, interval, t) <==> NoStraddle(w, t)
  {
    if NoStraddle(w, t) {
      forall boot, started, ks, now, k | LateHandshake(w, interval, t, boot, started, ks, now, k)
        ensures GetsPairOf(w, interval, t, boot, started, ks, now, k)
      {
        RefreshServesSettledPair(w, interval, boot, started, ks, now, k, t);
        if now - Now(w, interval, boot, started, ks).lastCheck < interval {
          HandshakeServesSettledPair(w, interval, boot, started, ks, now, t);
        }
      }
    } else {
      var r :| Straddles(w, t, r);
      var started := if r.readKey > t then r.readKey else t;
      var now := started + interval;
      var k := Check(now, now, now, now, now, now, now, now);
      StraddleIsNeverRepaired(w, interval, t, r, started, [k]);
      assert [k][1..] == [] && OneAtATime([k][1..], k.readKey);
      StraddleIsNeverRepaired(w, interval, t, r, started, []);
      assert LateHandshake(w, interval, t, BootAt(r), started, [], now, k);
    }
  }

  // ----- how often the files are checked -----

  /** The times of the checks a run really makes. */
  function Marks(w: World, interval: Time, s: State, ks: seq<Check>): seq<Time>
    decreases |ks|
  {
    if ks == [] then []
    else
      var rest := Marks(w, interval, Step(w, interval, s, ks[0]), ks[1..]);
      if ks[0].since - s.lastCheck < interval then rest else [ks[0].mark] + rest
  }

  /** However many handshakes race, the files are stat'ed at most once per interval. */
  lemma {:induction false} ChecksAreApart(w: World, interval: Time, s: State, ks: seq<Check>, from: Time)
    requires interval >= 0 && OneAtATime(ks, from)
    ensures forall m <- Marks(w, interval, s, ks) :: m >= s.lastCheck + interval
    ensures Apart(Marks(w, interval, s, ks), interval)
    decreases |ks|
  {
    if ks != [] {
      var s' := Step(w, interval, s, ks[0]);
      ChecksAreApart(w, interval, s', ks[1..], ks[0].readKey);
      if ks[0].since - s.lastCheck >= interval {
        var rest := Marks(w, interval, s', ks[1..]);
        assert s'.lastCheck == ks[0].mark;
        var ms := Marks(w, interval, s, ks);
        assert ms == [ks[0].mark] + rest;
        assert forall i | 0 < i < |ms| :: ms[i] == rest[i - 1] && rest[i - 1] in rest;
      }
    }
  }

  // ----- two ways to miss a change -----

  /** Contents 1 and 2 load with key 0; the certificate goes from 1 to 2 and back, old stamp included. */
  function RolledBack(): World {
    World((t: Time) => Files(if t == 1 then Some(File(Stamp(9, 2), 2)) else Some(File(Stamp(9, 1), 1)), Some(File(Stamp(5, 0), 0))),
          (c: Content, k: Content) => k == 0)
  }

  /** Stamps that only name contents are not enough: the read fell between a rewrite and its
      rollback, and no later check ever notices. */
  lemma RollbackIsMissed(interval: Time, ks: seq<Check>)
    requires OneAtATime(ks, 2)
    ensures StampsNameContents(RolledBack()) && SettledAt(RolledBack(), 2)
    ensures var boot := BootAt(Reading(0, 0, 1, 1));
            && Started(RolledBack(), boot, 2, ks)
            && Some(Now(RolledBack(), interval, boot, 2, ks).pair) != ReadPair(RolledBack(), 2, 2)
  {
    var r := Reading(0, 0, 1, 1);
    assert Straddles(RolledBack(), 2, r);
    StraddleIsNeverRepaired(RolledBack(), interval, 2, r, 2, ks);
  }

  /** A plain rotation of the certificate at time 2, with a new stamp. */
  function Rotated(): World {
    World((t: Time) => Files(if t < 2 then Some(File(Stamp(9, 1), 1)) else Some(File(Stamp(9, 2), 2)), Some(File(Stamp(5, 0), 0))),
          (c: Content, k: Content) => k == 0)
  }

  /** Had the pair been read before its stamp was taken, a plain rotation in between would go
      unnoticed by every later check. */
  lemma StampAfterLoadGoesStale(interval: Time, ks: seq<Check>)
    requires OneAtATime(ks, 2)
    ensures StampsNeverReturn(Rotated()) && SettledAt(Rotated(), 2)
    ensures var read, stamp := ReadPair(Rotated(), 1, 1), FingerprintOf(StampOf(Rotated().at(2).cert), StampOf(Rotated().at(2).key));
            && read.Some? && stamp.Some?
            && After(Rotated(), interval, State(read.value, stamp.value, 2), ks).pair != ReadPair(Rotated(), 2, 2).value
  {
    var read, stamp := ReadPair(Rotated(), 1, 1), FingerprintOf(StampOf(Rotated().at(2).cert), StampOf(Rotated().at(2).key));
    SettledStampStays(Rotated(), interval, State(read.value, stamp.value, 2), ks, 2, 2);
  }
}
