/** The tracker object, whose record slice is compacted in place, and the audit logger that feeds
    its listeners under one lock. */
module AdminTracker {
  import opened GoSlice
  import opened Tracking
  import opened Wrappers

  class Tracker {
    const startedAt: Time
    var certs: array<CertRecord>
    var len: nat
    var counters: Counters
    ghost var Value: Tracked

    ghost predicate Valid()
      reads this, certs
    {
      len <= certs.Length && Value == Tracked(certs[..len], counters)
    }

    constructor (now: Time)
      ensures Valid() && Value == FRESH && fresh(certs) && startedAt == now
    {
      startedAt := now;
      certs, len, counters, Value := new CertRecord[0], 0, Counters(0, 0, 0, 0), FRESH;
    }

    method HandleEvent(e: Event)
      requires Valid()
      modifies this, certs
      ensures Valid() && Value == Handle(old(Value), e)
      ensures certs == old(certs) || fresh(certs)
    {
      match e.kind {
        case CertIssued =>
          counters := counters.(issued := counters.issued + 1);
          certs := Append(certs, len, RecordOf(e));
          len := len + 1;
        case AuthSuccess => counters := counters.(authSuccess := counters.authSuccess + 1);
        case AuthFailure => counters := counters.(authFailure := counters.authFailure + 1);
        case CertError => counters := counters.(certErrors := counters.certErrors + 1);
      }
      Value := Tracked(certs[..len], counters);
    }

    method PruneExpired(now: Time)
      requires Valid()
      modifies this`len, this`Value, certs
      ensures Valid() && Value == Prune(old(Value), now)
    {
      len := CompactInPlace(certs, len, Unexpired(now));
      Value := Tracked(certs[..len], counters);
    }

    /** The list handed out is a copy: a fresh array that nothing here keeps or writes again. */
    method ActiveCerts(now: Time) returns (result: array<CertRecord>)
      requires Valid()
      modifies this`len, this`Value, certs
      ensures Valid() && Value == Prune(old(Value), now)
      ensures fresh(result) && result[..] == Prune(old(Value), now).certs
      ensures certs == old(certs)
    {
      PruneExpired(now);
      result := new CertRecord[len](i requires 0 <= i < len && len <= certs.Length reads this, certs => certs[i]);
      assert result[..] == certs[..len];
    }

    /** `read` is the clock when the uptime is worked out, `now` when the records are pruned. */
    method GetStats(read: Time, now: Time) returns (started: Time, uptime: Time, stats: Counters, active: nat)
      requires Valid()
      modifies this`len, this`Value, certs
      ensures Valid() && Value == Prune(old(Value), now)
      ensures started == startedAt && uptime == Rounded(read - startedAt)
      ensures stats == old(Value).counters && active == |Prune(old(Value), now).certs|
      ensures certs == old(certs)
    {
      PruneExpired(now);
      return startedAt, Rounded(read - startedAt), counters, len;
    }
  }

  /** Through any events and requests, every list handed out stays as it was: at the end all of them
      still hold what was answered. */
  method ListsAreKept(t: Tracker, ops: seq<Op>) returns (lists: seq<array<CertRecord>>)
    requires t.Valid()
    modifies t, t.certs
    ensures t.Valid()
    ensures |lists| == |ListsIn(Run(old(t.Value), ops))|
    ensures forall i | 0 <= i < |lists| :: lists[i][..] == ListsIn(Run(old(t.Value), ops))[i]
  {
    lists := [];
    ghost var given, all := [], ListsOf(t.Value, ops);
    ListsOfAnswers(t.Value, ops);
    assert ops[0..] == ops;
    for i := 0 to |ops|
      invariant t.Valid() && (t.certs == old(t.certs) || fresh(t.certs))
      invariant all == given + ListsOf(t.Value, ops[i..])
      invariant |lists| == |given|
      invariant forall j | 0 <= j < |lists| :: fresh(lists[j]) && lists[j] != t.certs && lists[j][..] == given[j]
    {
      ListsTurn(t.Value, ops, i, given);
      match ops[i] {
        case Notify(e) => t.HandleEvent(e);
        case ActiveCerts(now) =>
          given := given + [Prune(t.Value, now).certs];
          var list := t.ActiveCerts(now);
          lists := lists + [list];
        case GetStats(now) =>
          var _, _, _, _ := t.GetStats(now, now);
      }
    }
  }

  class Logger {
    var written: seq<Event>              // the log file
    var listeners: seq<Tracker>
    ghost var Owner: map<object, nat>    // which listener each object belongs to
    ghost var Values: seq<Tracked>       // the listeners' values

    ghost predicate Holds(i: nat)
      requires i < |listeners|
      reads this, Owner.Keys
    {
      var t := listeners[i];
      && t in Owner && Owner[t] == i && t.certs in Owner && Owner[t.certs] == i
      && i < |Values| && t.Valid() && t.Value == Values[i]
    }

    ghost predicate Valid()
      reads this, Owner.Keys
    {
      && this !in Owner && |Values| == |listeners|
      && forall i | 0 <= i < |listeners| :: Holds(i)
    }

    constructor ()
      ensures Valid() && written == [] && listeners == [] && Owner == map[]
    {
      written, listeners, Owner, Values := [], [], map[], [];
    }

    /** NewTracker: a tracker registered as a listener. */
    method AddTracker(now: Time) returns (t: Tracker)
      requires Valid()
      modifies this
      ensures Valid() && written == old(written)
      ensures t.startedAt == now && listeners == old(listeners) + [t] && Values == old(Values) + [FRESH]
    {
      t := new Tracker(now);
      Owner := Owner[t := |listeners|][t.certs := |listeners|];
      listeners, Values := listeners + [t], Values + [FRESH];
      assert Holds(|listeners| - 1);
      forall i | 0 <= i < |listeners| - 1 ensures Holds(i) {
        assert old(Holds(i));
      }
    }

    method Notify(i: nat, e: Event)
      requires Valid() && i < |listeners|
      modifies this`Owner, this`Values, listeners[i], listeners[i].certs
      ensures Valid() && Values == old(Values)[i := Handle(old(Values)[i], e)]
      ensures forall o <- Owner :: o in old(Owner) || fresh(o)
    {
      assert Holds(i);
      var t := listeners[i];
      t.HandleEvent(e);
      Owner := Owner[t.certs := i];
      Values := Values[i := t.Value];
      assert Holds(i);
      forall j | 0 <= j < |listeners| && j != i ensures Holds(j) {
        assert old(Holds(j));
      }
    }

    method NotifyAll(e: Event)
      requires Valid()
      modifies this`Owner, this`Values, Owner.Keys
      ensures Valid() && Values == HandleAll(old(Values), e)
      ensures forall o <- Owner :: o in old(Owner) || fresh(o)
    {
      ghost var before := Values;
      HandledEnds(before, e);
      for i := 0 to |listeners|
        invariant Valid() && Values == HandledUpTo(before, i, e)
        invariant forall o <- Owner :: o in old(Owner) || fresh(o)
      {
        assert Holds(i);
        HandledStep(before, i, e);
        Notify(i, e);
      }
    }

    /** Writes the event and hands it to every listener; an event that cannot be encoded goes nowhere. */
    method Log(e: Event, now: Time, encodes: bool)
      requires Valid()
      modifies this, Owner.Keys
      ensures Valid() && listeners == old(listeners)
      ensures forall o <- Owner :: o in old(Owner) || fresh(o)
      ensures var stamped := if e.timestamp == ZERO_TIME then e.(timestamp := now) else e;
              if encodes then written == old(written) + [stamped] && Values == HandleAll(old(Values), stamped)
              else written == old(written) && Values == old(Values)
    {
      var event := e;
      if event.timestamp == ZERO_TIME {
        event := event.(timestamp := now);
      }
      if !encodes {
        return;
      }
      written := written + [event];
      assert forall i | 0 <= i < |listeners| :: old(Holds(i)) ==> Holds(i);
      NotifyAll(event);
    }
  }

  function HandleAll(ts: seq<Tracked>, e: Event): seq<Tracked> {
    seq(|ts|, i requires 0 <= i < |ts| => Handle(ts[i], e))
  }

  /** The listeners' values when the first i have been notified. */
  ghost function HandledUpTo(ts: seq<Tracked>, i: nat, e: Event): seq<Tracked>
    requires i <= |ts|
  {
    HandleAll(ts[..i], e) + ts[i..]
  }

  lemma HandledEnds(ts: seq<Tracked>, e: Event)
    ensures HandledUpTo(ts, 0, e) == ts && HandledUpTo(ts, |ts|, e) == HandleAll(ts, e)
  {
  }

  lemma HandledStep(ts: seq<Tracked>, i: nat, e: Event)
    requires i < |ts|
    ensures HandledUpTo(ts, i, e)[i] == ts[i]
    ensures HandledUpTo(ts, i + 1, e) == HandledUpTo(ts, i, e)[i := Handle(ts[i], e)]
  {
  }
}
