/** The reloader object: what it keeps, and its two methods, with the clock readings and the
    operating system's answers as arguments. */
module CertReloader {
  import opened CertReloading
  import opened Fingerprint
  import opened Wrappers

  class Reloader {
    const interval: Time
    var pair: Pair
    var stamp: string
    var lastCheck: Time

    function Value(): State
      reads this
    {
      State(pair, stamp, lastCheck)
    }

    /** newCertReloader after a successful load. */
    constructor (interval: Time, loaded: (Pair, string), now: Time)
      ensures this.interval == interval && Value() == State(loaded.0, loaded.1, now)
    {
      this.interval := interval;
      pair, stamp, lastCheck := loaded.0, loaded.1, now;
    }

    method Refresh(since: Time, mark: Time, a: Answers) returns (served: Pair)
      modifies this
      ensures Value() == CertReloading.Refresh(interval, old(Value()), since, mark, a)
      ensures served == pair
    {
      if since - lastCheck < interval {
        return pair;
      }
      lastCheck := mark;
      var seen := FingerprintOf(a.stat1, a.stat2);
      if seen.None? || seen.value == stamp {
        return pair;
      }
      var loaded := Load(a);
      if loaded.None? {
        return pair;
      }
      pair, stamp := loaded.value.0, loaded.value.1;
      return pair;
    }

    /** GetCertificate: what was read under the read lock decides whether to refresh. */
    method GetCertificate(now: Time, since: Time, mark: Time, a: Answers) returns (served: Pair)
      modifies this
      ensures Value() == if now - old(lastCheck) < interval then old(Value())
                         else CertReloading.Refresh(interval, old(Value()), since, mark, a)
      ensures served == pair
    {
      if now - lastCheck < interval {
        return pair;
      }
      served := Refresh(since, mark, a);
    }
  }
}
