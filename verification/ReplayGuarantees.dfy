/** What replay detection guarantees about the uses of a token, and what cleanups take from it. */
module ReplayGuarantees {
  import opened AnomalyDetection
  import opened AnomalyGuarantees
  import opened CounterWindows
  import opened Wrappers

  /** The uses of a token in a run, in order. */
  function UsesOf(c: Config, clock: Time, ops: seq<Op>, hash: Hash): seq<Event> {
    History(Exec(c, Init(clock), ops).uses, hash)
  }

  /** Uses i to j of a run, all of one token and within one day. */
  ghost predicate InOneDay(c: Config, clock: Time, ops: seq<Op>, hash: Hash, i: nat, j: nat) {
    && InTime(ops, clock)
    && var h := UsesOf(c, clock, ops, hash); i <= j < |h| && h[j].at - h[i].at <= 24 * HOUR
  }

  ghost predicate SomeReplayAlert(c: Config, clock: Time, ops: seq<Op>, hash: Hash, i: nat, j: nat) {
    exists m :: i <= m <= j && m < |UsesOf(c, clock, ops, hash)| && UsesOf(c, clock, ops, hash)[m].alert
  }

  /** In every run, any n uses of a token within one day include one that alerts. */
  ghost predicate CatchesReplays(c: Config, n: nat) {
    forall clock, ops, hash, i: nat, j: nat | InOneDay(c, clock, ops, hash, i, j) && j - i + 1 >= n ::
      SomeReplayAlert(c, clock, ops, hash, i, j)
  }

  /** The same arithmetic as for failures, with a day for the window. */
  lemma EnoughUsesAlert(c: Config, clock: Time, ops: seq<Op>, hash: Hash, i: nat, j: nat)
    requires InOneDay(c, clock, ops, hash, i, j) && j - i + 1 >= 2 * Threshold(c.maxUses) - 2
    ensures SomeReplayAlert(c, clock, ops, hash, i, j)
  {
    var h := UsesOf(c, clock, ops, hash);
    ReachedInv(c, clock, ops);
    assert UsesInv(c, Exec(c, Init(clock), ops), hash);
    if forall m | i <= m <= j :: !h[m].alert {
      QuietEvents(h, DAY, Threshold(c.maxUses), i, j);
    }
  }

  // ----- one fewer can go unnoticed -----

  /** n more uses of a token that is still short of the threshold. */
  lemma {:induction false} UsesRun(c: Config, s: State, hash: Hash, n: nat, now: Time)
    requires c.replayDetection && hash in s.tables.tokens
    requires s.tables.tokens[hash].uses >= 1 && s.tables.tokens[hash].uses + n < Threshold(c.maxUses)
    ensures var s', h := Exec(c, s, Repeat(TokenUse(hash, now), n)), History(s.uses, hash);
            && s'.tables.tokens == s.tables.tokens[hash := s.tables.tokens[hash].(uses := s.tables.tokens[hash].uses + n)]
            && |History(s'.uses, hash)| == |h| + n && History(s'.uses, hash)[..|h|] == h
            && forall m | |h| <= m < |h| + n :: History(s'.uses, hash)[m].at == now && !History(s'.uses, hash)[m].alert
    decreases n
  {
    if n > 0 {
      var s1 := Next(c, s, TokenUse(hash, now));
      var h, h1 := History(s.uses, hash), History(s1.uses, hash);
      assert Repeat(TokenUse(hash, now), n)[1..] == Repeat(TokenUse(hash, now), n - 1);
      UsesRun(c, s1, hash, n - 1, now);
      var h' := History(Exec(c, s, Repeat(TokenUse(hash, now), n)).uses, hash);
      assert h1 == h + [h1[|h|]] && h'[..|h1|] == h1;
      assert h'[..|h|] == h'[..|h1|][..|h|] == h;
      assert h'[|h|] == h1[|h|];
    } else {
      assert Repeat(TokenUse(hash, now), 0) == [];
      assert s.tables.tokens[hash := s.tables.tokens[hash]] == s.tables.tokens;
    }
  }

  /** A token used up to one short of the threshold, forgotten, and used as often again. */
  function Replays(c: Config, hash: Hash): seq<Op> {
    var room := Threshold(c.maxUses) - 2;
    Repeat(TokenUse(hash, 0), 1) + (Repeat(TokenUse(hash, DAY), room) + (Repeat(CleanupOp(DAY + 1), 1) +
      (Repeat(TokenUse(hash, DAY + 1), 1) + Repeat(TokenUse(hash, DAY + 1), room))))
  }

  lemma ReplaysInTime(c: Config, hash: Hash)
    ensures InTime(Replays(c, hash), 0)
  {
    var room := Threshold(c.maxUses) - 2;
    var b, d := Repeat(TokenUse(hash, DAY), room), Repeat(CleanupOp(DAY + 1), 1);
    var e, f := Repeat(TokenUse(hash, DAY + 1), 1), Repeat(TokenUse(hash, DAY + 1), room);
    assert f + [] == f;
    RepeatInTime(TokenUse(hash, DAY + 1), room, DAY + 1, []);
    RepeatInTime(TokenUse(hash, DAY + 1), 1, DAY + 1, f);
    RepeatInTime(CleanupOp(DAY + 1), 1, DAY, e + f);
    RepeatInTime(TokenUse(hash, DAY), room, 0, d + (e + f));
    RepeatInTime(TokenUse(hash, 0), 1, 0, b + (d + (e + f)));
  }

  /** The first T - 1 uses, and the cleanup that forgets them. */
  lemma ReplaysHalf(c: Config, hash: Hash) returns (s: State)
    requires c.replayDetection
    ensures hash !in s.tables.tokens
    ensures var h, t := History(s.uses, hash), Threshold(c.maxUses);
            |h| == t - 1 && forall m | 1 <= m < t - 1 :: h[m].at == DAY && !h[m].alert
    ensures var again := Repeat(TokenUse(hash, DAY + 1), 1) + Repeat(TokenUse(hash, DAY + 1), Threshold(c.maxUses) - 2);
            Exec(c, Init(0), Replays(c, hash)) == Exec(c, s, again)
  {
    var room := Threshold(c.maxUses) - 2;
    var b, d := Repeat(TokenUse(hash, DAY), room), Repeat(CleanupOp(DAY + 1), 1);
    var rest := Repeat(TokenUse(hash, DAY + 1), 1) + Repeat(TokenUse(hash, DAY + 1), room);
    ExecConcat(c, Init(0), Repeat(TokenUse(hash, 0), 1), b + (d + rest));
    OneOp(c, Init(0), TokenUse(hash, 0));
    var s1 := Next(c, Init(0), TokenUse(hash, 0));
    ExecConcat(c, s1, b, d + rest);
    UsesRun(c, s1, hash, room, DAY);
    var s2 := Exec(c, s1, b);
    ExecConcat(c, s2, d, rest);
    OneOp(c, s2, CleanupOp(DAY + 1));
    s := Next(c, s2, CleanupOp(DAY + 1));
  }

  lemma ReplaysUnnoticed(c: Config, hash: Hash)
    requires c.replayDetection
    ensures var h, t := UsesOf(c, 0, Replays(c, hash), hash), Threshold(c.maxUses);
            && |h| == 2 * t - 2
            && forall m | 1 <= m < |h| :: DAY <= h[m].at <= DAY + 1 && !h[m].alert
  {
    var room := Threshold(c.maxUses) - 2;
    var s := ReplaysHalf(c, hash);
    ExecConcat(c, s, Repeat(TokenUse(hash, DAY + 1), 1), Repeat(TokenUse(hash, DAY + 1), room));
    OneOp(c, s, TokenUse(hash, DAY + 1));
    var s1 := Next(c, s, TokenUse(hash, DAY + 1));
    UsesRun(c, s1, hash, room, DAY + 1);
    var half, more, h := History(s.uses, hash), History(s1.uses, hash), UsesOf(c, 0, Replays(c, hash), hash);
    assert more == half + [more[|half|]];
    forall m | 1 <= m < |h| ensures DAY <= h[m].at <= DAY + 1 && !h[m].alert {
      assert m < |more| ==> h[m] == h[..|more|][m] == more[m];
    }
  }

  /** Main result: with cleanups at any time, every burst of n uses of a token within a day alerts if
      and only if n is at least twice the threshold less two. */
  lemma CatchesReplaysExactly(c: Config, n: nat)
    requires c.replayDetection && n >= 1
    ensures CatchesReplays(c, n) <==> n >= if c.maxUses < 2 then 2 else 2 * c.maxUses - 2
  {
    if n >= 2 * Threshold(c.maxUses) - 2 {
      forall clock, ops, hash, i: nat, j: nat | InOneDay(c, clock, ops, hash, i, j) && j - i + 1 >= n
        ensures SomeReplayAlert(c, clock, ops, hash, i, j)
      {
        EnoughUsesAlert(c, clock, ops, hash, i, j);
      }
    } else {
      ReplaysInTime(c, "");
      ReplaysUnnoticed(c, "");
      assert InOneDay(c, 0, Replays(c, ""), "", 1, n);
      assert !SomeReplayAlert(c, 0, Replays(c, ""), "", 1, n);
    }
  }

  // ----- what cleanups take away -----

  /** Of the alerts that would come right after it, a cleanup takes away exactly those of tokens first
      seen more than a day ago. */
  lemma CleanupForgetsTokens(c: Config, t: Tables, hash: Hash, now: Time)
    ensures RecordTokenUse(c, Cleanup(t, now), hash, now).1 <==>
              RecordTokenUse(c, t, hash, now).1 && t.tokens[hash].firstSeen >= now - DAY
  {
  }

  /** Without cleanups a token's counter never starts over. */
  ghost predicate CountsAll(c: Config, s: State, hash: Hash) {
    var h := History(s.uses, hash);
    && (hash in s.tables.tokens <==> h != [])
    && (h != [] ==> s.tables.tokens[hash].uses == |h|)
    && forall i | 0 <= i < |h| :: h[i].alert <==> i + 1 >= Threshold(c.maxUses)
  }

  /** Two histories of the same uses. */
  ghost predicate SameUses(h: seq<Event>, h': seq<Event>) {
    |h| == |h'| && forall i | 0 <= i < |h| :: h[i].at == h'[i].at
  }

  lemma {:induction false} StrippedCountsAll(c: Config, a: State, b: State, ops: seq<Op>, hash: Hash)
    requires c.replayDetection
    requires SameUses(History(a.uses, hash), History(b.uses, hash)) && CountsAll(c, b, hash)
    ensures SameUses(History(Exec(c, a, ops).uses, hash), History(Exec(c, b, StripCleanups(ops)).uses, hash))
    ensures CountsAll(c, Exec(c, b, StripCleanups(ops)), hash)
    decreases |ops|
  {
    if ops != [] {
      var rest := StripCleanups(ops[1..]);
      if ops[0].CleanupOp? {
        assert StripCleanups(ops) == rest;
        StrippedCountsAll(c, Next(c, a, ops[0]), b, ops[1..], hash);
      } else {
        assert StripCleanups(ops)[0] == ops[0] && StripCleanups(ops)[1..] == rest;
        StepCountsAll(c, a, b, ops[0], hash);
        StrippedCountsAll(c, Next(c, a, ops[0]), Next(c, b, ops[0]), ops[1..], hash);
      }
    }
  }

  lemma StepCountsAll(c: Config, a: State, b: State, op: Op, hash: Hash)
    requires c.replayDetection && !op.CleanupOp?
    requires SameUses(History(a.uses, hash), History(b.uses, hash)) && CountsAll(c, b, hash)
    ensures SameUses(History(Next(c, a, op).uses, hash), History(Next(c, b, op).uses, hash))
    ensures CountsAll(c, Next(c, b, op), hash)
  {
    if !op.TokenUse? || op.hash != hash {
      assert History(Next(c, a, op).uses, hash) == History(a.uses, hash);
      assert History(Next(c, b, op).uses, hash) == History(b.uses, hash);
    }
  }

  /** Main result: compared with the same run without cleanups, in which exactly the uses from the
      T-th on alert, cleanups add no alert, and take one away only when the counter it was left with
      started more than a day after the token's first use. */
  lemma CleanupOnlyForgets(c: Config, clock: Time, ops: seq<Op>, hash: Hash, i: nat)
    requires c.replayDetection && InTime(ops, clock) && i < |UsesOf(c, clock, ops, hash)|
    ensures var h, h' := UsesOf(c, clock, ops, hash), UsesOf(c, clock, StripCleanups(ops), hash);
            && SameUses(h, h')
            && (h'[i].alert <==> i + 1 >= if c.maxUses < 2 then 2 else c.maxUses)
            && (h[i].alert ==> h'[i].alert)
            && (h'[i].alert && !h[i].alert ==> h[i].start > h[0].at + 24 * HOUR)
  {
    var h, t := UsesOf(c, clock, ops, hash), Threshold(c.maxUses);
    StrippedCountsAll(c, Init(clock), Init(clock), ops, hash);
    ReachedInv(c, clock, ops);
    assert UsesInv(c, Exec(c, Init(clock), ops), hash);
    assert Follows(h, i, DAY, t);
    StartedOver(h, DAY, t, i);
  }
}
