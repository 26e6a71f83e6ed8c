/** The anomaly detector on values: a failure counter per IP that starts over once its window has
    ended, a use counter per token, and the cleanup that drops what is out of date. */
module AnomalyDetection {
  import opened CounterWindows
  import opened Maps
  import opened Wrappers

  type IP = string
  type Hash = string

  const DAY: Time := 24 * HOUR

  datatype Config = Config(maxFailures: int, window: Time, replayDetection: bool, maxUses: int)

  datatype IpEntry = IpEntry(failures: nat, windowEnd: Time)

  datatype TokenEntry = TokenEntry(uses: nat, firstSeen: Time)

  datatype Tables = Tables(ips: map<IP, IpEntry>, tokens: map<Hash, TokenEntry>)

  function RecordFailure(c: Config, t: Tables, ip: IP, now: Time): (Tables, bool) {
    if ip !in t.ips || now > t.ips[ip].windowEnd then
      (t.(ips := t.ips[ip := IpEntry(1, now + c.window)]), false)
    else
      var failures := t.ips[ip].failures + 1;
      (t.(ips := t.ips[ip := IpEntry(failures, t.ips[ip].windowEnd)]), failures >= c.maxFailures)
  }

  function RecordTokenUse(c: Config, t: Tables, hash: Hash, now: Time): (Tables, bool) {
    if !c.replayDetection then (t, false)
    else if hash !in t.tokens then
      (t.(tokens := t.tokens[hash := TokenEntry(1, now)]), false)
    else
      var uses := t.tokens[hash].uses + 1;
      (t.(tokens := t.tokens[hash := TokenEntry(uses, t.tokens[hash].firstSeen)]), uses >= c.maxUses)
  }

  function Running(now: Time): IpEntry -> bool { (e: IpEntry) => now <= e.windowEnd }

  function SeenSince(cutoff: Time): TokenEntry -> bool { (e: TokenEntry) => e.firstSeen >= cutoff }

  function Cleanup(t: Tables, now: Time): Tables {
    Tables(Retain(t.ips, Running(now)), Retain(t.tokens, SeenSince(now - DAY)))
  }

  /** A cleanup drops exactly the failure counters whose window has ended and the tokens first seen
      more than a day ago, and changes no other. */
  lemma CleanupExactly(t: Tables, now: Time, ip: IP, hash: Hash)
    ensures var t' := Cleanup(t, now);
            && (ip in t'.ips <==> ip in t.ips && now <= t.ips[ip].windowEnd)
            && (ip in t'.ips ==> t'.ips[ip] == t.ips[ip])
            && (hash in t'.tokens <==> hash in t.tokens && now - t.tokens[hash].firstSeen <= 24 * HOUR)
            && (hash in t'.tokens ==> t'.tokens[hash] == t.tokens[hash])
  {
  }

  // ----- runs -----

  datatype Op = Failure(ip: IP, now: Time) | TokenUse(hash: Hash, now: Time) | CleanupOp(now: Time)

  /** The tables, the history of every IP's failures and every token's uses, and the last reading. */
  datatype State = State(tables: Tables, failures: map<IP, seq<Event>>, uses: map<Hash, seq<Event>>, clock: Time)

  function Init(clock: Time): State {
    State(Tables(map[], map[]), map[], map[], clock)
  }

  function History(m: map<string, seq<Event>>, key: string): seq<Event> {
    if key in m then m[key] else []
  }

  function Next(c: Config, s: State, op: Op): State {
    match op
    case Failure(ip, now) =>
      var (t, alert) := RecordFailure(c, s.tables, ip, now);
      var e := Event(now, t.ips[ip].windowEnd - c.window, t.ips[ip].failures, alert);
      s.(tables := t, failures := s.failures[ip := History(s.failures, ip) + [e]], clock := now)
    case TokenUse(hash, now) =>
      var (t, alert) := RecordTokenUse(c, s.tables, hash, now);
      if !c.replayDetection then s.(clock := now)
      else
        var e := Event(now, t.tokens[hash].firstSeen, t.tokens[hash].uses, alert);
        s.(tables := t, uses := s.uses[hash := History(s.uses, hash) + [e]], clock := now)
    case CleanupOp(now) => s.(tables := Cleanup(s.tables, now), clock := now)
  }

  predicate InTime(ops: seq<Op>, clock: Time) {
    ops == [] || (clock <= ops[0].now && InTime(ops[1..], ops[0].now))
  }

  function Exec(c: Config, s: State, ops: seq<Op>): State
    decreases |ops|
  {
    if ops == [] then s else Exec(c, Next(c, s, ops[0]), ops[1..])
  }

  /** A limit below two acts as two: the first failure, and the first use, never alerts. */
  function Threshold(limit: int): nat {
    if limit < 2 then 2 else limit
  }

  // ----- what every run keeps -----

  ghost predicate FailuresInv(c: Config, s: State, ip: IP) {
    var h, t := History(s.failures, ip), s.tables.ips;
    && Grouped(h, c.window, Threshold(c.maxFailures))
    && (forall i | 0 <= i < |h| :: h[i].index > 1 ==> h[i].at <= h[i].start + c.window)
    && (h != [] ==> h[|h| - 1].at <= s.clock)
    && (ip in t ==> h != [] && h[|h| - 1].index == t[ip].failures && h[|h| - 1].start + c.window == t[ip].windowEnd)
    && (ip !in t && h != [] ==> s.clock > h[|h| - 1].start + c.window)
  }

  ghost predicate UsesInv(c: Config, s: State, hash: Hash) {
    var h, t := History(s.uses, hash), s.tables.tokens;
    && Grouped(h, DAY, Threshold(c.maxUses))
    && (h != [] ==> h[|h| - 1].at <= s.clock)
    && (hash in t ==> h != [] && h[|h| - 1].index == t[hash].uses && h[|h| - 1].start == t[hash].firstSeen)
    && (hash !in t && h != [] ==> s.clock > h[|h| - 1].start + DAY)
  }

  ghost predicate Inv(c: Config, s: State) {
    && (forall ip :: FailuresInv(c, s, ip))
    && (forall hash :: UsesInv(c, s, hash))
  }

  lemma GroupedSnoc(h: seq<Event>, e: Event, window: Time, threshold: nat)
    requires Grouped(h, window, threshold) && Follows(h + [e], |h|, window, threshold)
    ensures Grouped(h + [e], window, threshold)
  {
    forall i | 0 <= i < |h| + 1 ensures Follows(h + [e], i, window, threshold) {
      assert i < |h| ==> Follows(h, i, window, threshold);
    }
  }

  lemma FailureKeepsInv(c: Config, s: State, ip: IP, now: Time)
    requires FailuresInv(c, s, ip) && s.clock <= now
    ensures FailuresInv(c, Next(c, s, Failure(ip, now)), ip)
  {
    var h, h' := History(s.failures, ip), History(Next(c, s, Failure(ip, now)).failures, ip);
    assert h' == h + [h'[|h|]];
    if ip in s.tables.ips {
      assert Follows(h, |h| - 1, c.window, Threshold(c.maxFailures));
    }
    GroupedSnoc(h, h'[|h|], c.window, Threshold(c.maxFailures));
  }

  lemma UseKeepsInv(c: Config, s: State, hash: Hash, now: Time)
    requires UsesInv(c, s, hash) && s.clock <= now
    ensures UsesInv(c, Next(c, s, TokenUse(hash, now)), hash)
  {
    if c.replayDetection {
      var h, h' := History(s.uses, hash), History(Next(c, s, TokenUse(hash, now)).uses, hash);
      assert h' == h + [h'[|h|]];
      if hash in s.tables.tokens {
        assert Follows(h, |h| - 1, DAY, Threshold(c.maxUses));
      }
      GroupedSnoc(h, h'[|h|], DAY, Threshold(c.maxUses));
    }
  }

  lemma StepKeepsInv(c: Config, s: State, op: Op)
    requires Inv(c, s) && s.clock <= op.now
    ensures Inv(c, Next(c, s, op))
  {
    var s' := Next(c, s, op);
    forall ip ensures FailuresInv(c, s', ip) {
      assert FailuresInv(c, s, ip);
      if op.Failure? && op.ip == ip {
        FailureKeepsInv(c, s, ip, op.now);
      } else {
        assert History(s'.failures, ip) == History(s.failures, ip);
      }
    }
    forall hash ensures UsesInv(c, s', hash) {
      assert UsesInv(c, s, hash);
      if op.TokenUse? && op.hash == hash {
        UseKeepsInv(c, s, hash, op.now);
      } else {
        assert History(s'.uses, hash) == History(s.uses, hash);
      }
    }
  }

  lemma {:induction false} RunKeepsInv(c: Config, s: State, ops: seq<Op>)
    requires Inv(c, s) && InTime(ops, s.clock)
    ensures Inv(c, Exec(c, s, ops))
    decreases |ops|
  {
    if ops != [] {
      StepKeepsInv(c, s, ops[0]);
      RunKeepsInv(c, Next(c, s, ops[0]), ops[1..]);
    }
  }

  lemma ReachedInv(c: Config, clock: Time, ops: seq<Op>)
    requires InTime(ops, clock)
    ensures Inv(c, Exec(c, Init(clock), ops))
  {
    RunKeepsInv(c, Init(clock), ops);
  }
}
