/** The limiter as the program keeps it: a map of client objects, each with a slice of
    timestamps that is compacted in place.  The methods are the bodies of the critical
    sections; the clock reading is an argument. */
module RateLimiter {
  import opened GoSlice
  import opened Maps
  import opened SlidingWindow
  import opened Wrappers

  class Client {
    var timestamps: array<Time>
    var len: nat
    ghost var Contents: seq<Time>

    ghost predicate Valid()
      reads this, timestamps
    {
      len <= timestamps.Length && Contents == timestamps[..len]
    }

    constructor ()
      ensures Valid() && Contents == [] && fresh(timestamps)
    {
      timestamps, len, Contents := new Time[0], 0, [];
    }

    method Prune(cutoff: Time)
      requires Valid()
      modifies this`len, this`Contents, timestamps
      ensures Valid() && Contents == Filter(old(Contents), Newer(cutoff))
    {
      len := CompactInPlace(timestamps, len, Newer(cutoff));
      Contents := timestamps[..len];
    }

    /** The section under c.mu: prune, then refuse or record this request. */
    method Decide(c: Config, now: Time) returns (ok: bool)
      requires Valid()
      modifies this, timestamps
      ensures Valid() && (timestamps == old(timestamps) || fresh(timestamps))
      ensures (Contents, ok) == SlidingWindow.Decide(c, old(Contents), now)
    {
      Prune(now - c.window);
      if len >= c.requests {
        return false;
      }
      timestamps := Append(timestamps, len, now);
      len := len + 1;
      Contents := timestamps[..len];
      return true;
    }
  }

  class Limiter {
    const requests: int
    const window: Time
    var clients: map<IP, Client>
    ghost var Windows: Windows        // every client's timestamps, as values
    ghost var Owner: map<object, IP>  // whose each client object and each backing array is

    /** The client of ip is ip's alone, and holds what Windows says. */
    ghost predicate Holds(ip: IP)
      requires ip in clients
      reads this, Owner.Keys
    {
      var c := clients[ip];
      && c in Owner && Owner[c] == ip
      && c.timestamps in Owner && Owner[c.timestamps] == ip
      && ip in Windows && c.Valid() && c.Contents == Windows[ip]
    }

    ghost predicate Valid()
      reads this, Owner.Keys
    {
      && clients.Keys == Windows.Keys
      && forall ip <- clients :: Holds(ip)
    }

    function Settings(): Config {
      Config(requests, window)
    }

    constructor (requests: int, window: Time)
      ensures Valid() && Owner == map[] && Windows == map[]
      ensures Settings() == New(requests, window)
    {
      this.requests := requests;
      this.window := if window <= 0 then MINUTE else window;
      clients, Windows, Owner := map[], map[], map[];
    }

    /** A client for an IP that has none yet. */
    method Create(ip: IP) returns (c: Client)
      requires Valid() && ip !in clients
      modifies this
      ensures Valid() && forall o <- Owner :: o in old(Owner) || fresh(o)
      ensures ip in clients && clients[ip] == c
      ensures Windows == old(Windows)[ip := []]
    {
      c := new Client();
      clients, Windows := clients[ip := c], Windows[ip := []];
      Owner := Owner[c := ip][c.timestamps := ip];
      assert Holds(ip);
      forall other | other in clients && other != ip ensures Holds(other) {
        assert old(Holds(other));
      }
    }

    /** The section under l.mu: find the client, or create it. */
    method Lookup(ip: IP) returns (c: Client)
      requires Valid()
      modifies this
      ensures Valid() && forall o <- Owner :: o in old(Owner) || fresh(o)
      ensures ip in clients && clients[ip] == c
      ensures Windows == old(Windows)[ip := Kept(old(Windows), ip)]
    {
      if ip in clients {
        assert Windows[ip := Windows[ip]] == Windows;
        return clients[ip];
      }
      c := Create(ip);
    }

    /** The section under the client's lock. */
    method Decide(ip: IP, now: Time) returns (ok: bool)
      requires Valid() && ip in clients
      modifies this`Owner, this`Windows, clients[ip], clients[ip].timestamps
      ensures Valid() && forall o <- Owner :: o in old(Owner) || fresh(o)
      ensures var (kept, answer) := SlidingWindow.Decide(Settings(), old(Windows)[ip], now);
              ok == answer && Windows == old(Windows)[ip := kept]
    {
      var c := clients[ip];
      ok := c.Decide(Settings(), now);
      Owner := Owner[c.timestamps := ip];
      Windows := Windows[ip := c.Contents];
      assert Holds(ip);
      forall other | other in clients && other != ip ensures Holds(other) {
        assert old(Holds(other));
      }
    }

    /** Whether a request from ip at time now is within the limit. */
    method Allow(ip: IP, now: Time) returns (ok: bool)
      requires Valid()
      modifies this, Owner.Keys
      ensures Valid() && forall o <- Owner :: o in old(Owner) || fresh(o)
      ensures ok == SlidingWindow.Allow(Settings(), old(Windows), ip, now).1
      ensures Windows == SlidingWindow.Allow(Settings(), old(Windows), ip, now).0
    {
      if requests <= 0 {
        return true;
      }
      ghost var before := Kept(Windows, ip);
      UpdateTwice(old(Windows), ip, before, SlidingWindow.Decide(Settings(), before, now).0);
      var c := Lookup(ip);
      ok := Decide(ip, now);
    }

    /** Drops the timestamps of one client that have left the window. */
    method Prune(ip: IP, now: Time)
      requires Valid() && ip in clients
      modifies this`Windows, clients[ip], clients[ip].timestamps
      ensures Valid() && Windows == old(Windows)[ip := Filter(old(Windows)[ip], Newer(now - window))]
    {
      var c := clients[ip];
      c.Prune(now - window);
      Windows := Windows[ip := c.Contents];
      assert Holds(ip);
      forall other | other in clients && other != ip ensures Holds(other) {
        assert old(Holds(other));
      }
    }

    method Remove(ip: IP)
      requires Valid()
      modifies this`clients, this`Windows
      ensures Valid() && Windows == old(Windows) - {ip}
    {
      clients, Windows := clients - {ip}, Windows - {ip};
      assert forall other <- clients :: old(Holds(other));
    }

    /** Prunes one client and deletes it if that leaves it empty. */
    method Sweep(ip: IP, now: Time)
      requires Valid() && ip in clients
      modifies this`clients, this`Windows, clients[ip], clients[ip].timestamps
      ensures Valid()
      ensures Windows == SweepStep(Settings(), old(Windows), now, ip)
    {
      RemoveUpdated(Windows, ip, Filter(Windows[ip], Newer(now - window)));
      Prune(ip, now);
      if clients[ip].len == 0 {
        Remove(ip);
      }
    }

    /** Prunes every client and deletes the ones left empty. */
    method Cleanup(now: Time)
      requires Valid()
      modifies this, Owner.Keys
      ensures Valid() && Owner == old(Owner)
      ensures Windows == SlidingWindow.Cleanup(Settings(), old(Windows), now)
    {
      if requests <= 0 {
        return;
      }
      ghost var before := Windows;
      var todo := clients.Keys;
      SweepEnds(Settings(), before, now);
      while todo != {}
        invariant Valid() && Owner == old(Owner) && todo <= clients.Keys
        invariant Windows == SweptExcept(Settings(), before, now, todo)
        decreases todo
      {
        var ip :| ip in todo;
        SweepOne(Settings(), before, now, todo, ip);
        Sweep(ip, now);
        todo := todo - {ip};
      }
    }
  }

  /** One client of the cleanup loop. */
  ghost function SweepStep(c: Config, w: Windows, now: Time, ip: IP): Windows
    requires ip in w
  {
    var valid := Filter(w[ip], Newer(now - c.window));
    if valid == [] then w - {ip} else w[ip := valid]
  }

  /** Cleanup when the clients in todo are still to be visited. */
  ghost function SweptExcept(c: Config, w: Windows, now: Time, todo: set<IP>): Windows {
    map ip | ip in w && (ip in todo || Filter(w[ip], Newer(now - c.window)) != []) ::
      if ip in todo then w[ip] else Filter(w[ip], Newer(now - c.window))
  }

  lemma SweepEnds(c: Config, w: Windows, now: Time)
    requires c.requests > 0
    ensures SweptExcept(c, w, now, w.Keys) == w
    ensures SweptExcept(c, w, now, {}) == SlidingWindow.Cleanup(c, w, now)
  {
  }

  lemma SweepOne(c: Config, w: Windows, now: Time, todo: set<IP>, ip: IP)
    requires ip in todo && ip in w
    ensures ip in SweptExcept(c, w, now, todo)
    ensures SweptExcept(c, w, now, todo - {ip}) == SweepStep(c, SweptExcept(c, w, now, todo), now, ip)
  {
  }
}
