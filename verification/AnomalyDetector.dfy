/** The detector object: its maps of counters, and its three methods under one lock. */
module AnomalyDetector {
  import opened AnomalyDetection
  import opened CounterWindows
  import opened Maps
  import opened Wrappers

  class FailureCounter {
    ghost const ip: IP
    var failures: nat
    var windowEnd: Time

    constructor (ghost ip: IP, windowEnd: Time)
      ensures this.ip == ip && failures == 1 && this.windowEnd == windowEnd
    {
      this.ip := ip;
      failures, this.windowEnd := 1, windowEnd;
    }
  }

  class UseCounter {
    ghost const hash: Hash
    var uses: nat
    var firstSeen: Time

    constructor (ghost hash: Hash, now: Time)
      ensures this.hash == hash && uses == 1 && firstSeen == now
    {
      this.hash := hash;
      uses, firstSeen := 1, now;
    }
  }

  class Detector {
    const cfg: Config
    var ipMap: map<IP, FailureCounter>
    var tokens: map<Hash, UseCounter>
    ghost var Ips: map<IP, IpEntry>        // both maps, as values
    ghost var Tokens: map<Hash, TokenEntry>

    ghost predicate ValidIps()
      reads this, ipMap.Values
    {
      && ipMap.Keys == Ips.Keys
      && forall ip <- ipMap :: ipMap[ip].ip == ip && Ips[ip] == IpEntry(ipMap[ip].failures, ipMap[ip].windowEnd)
    }

    ghost predicate ValidTokens()
      reads this, tokens.Values
    {
      && tokens.Keys == Tokens.Keys
      && forall h <- tokens :: tokens[h].hash == h && Tokens[h] == TokenEntry(tokens[h].uses, tokens[h].firstSeen)
    }

    ghost predicate Valid()
      reads this, ipMap.Values, tokens.Values
    {
      ValidIps() && ValidTokens()
    }

    ghost function Value(): Tables
      reads this
    {
      Tables(Ips, Tokens)
    }

    constructor (cfg: Config)
      ensures Valid() && this.cfg == cfg && Value() == Tables(map[], map[])
    {
      this.cfg := cfg;
      ipMap, tokens, Ips, Tokens := map[], map[], map[], map[];
    }

    method RecordFailure(ip: IP, now: Time) returns (alert: bool)
      requires Valid()
      modifies this, ipMap.Values
      ensures Valid() && (Value(), alert) == AnomalyDetection.RecordFailure(cfg, old(Value()), ip, now)
      ensures tokens == old(tokens) && forall e <- ipMap.Values :: e in old(ipMap.Values) || fresh(e)
    {
      if ip !in ipMap || now > ipMap[ip].windowEnd {
        var entry := new FailureCounter(ip, now + cfg.window);
        ipMap := ipMap[ip := entry];
        Ips := Ips[ip := IpEntry(1, now + cfg.window)];
        return false;
      }
      var entry := ipMap[ip];
      entry.failures := entry.failures + 1;
      Ips := Ips[ip := IpEntry(entry.failures, entry.windowEnd)];
      return entry.failures >= cfg.maxFailures;
    }

    method RecordTokenUse(hash: Hash, now: Time) returns (alert: bool)
      requires Valid()
      modifies this, tokens.Values
      ensures Valid() && (Value(), alert) == AnomalyDetection.RecordTokenUse(cfg, old(Value()), hash, now)
      ensures ipMap == old(ipMap) && forall e <- tokens.Values :: e in old(tokens.Values) || fresh(e)
    {
      if !cfg.replayDetection {
        return false;
      }
      if hash !in tokens {
        var entry := new UseCounter(hash, now);
        tokens := tokens[hash := entry];
        Tokens := Tokens[hash := TokenEntry(1, now)];
        return false;
      }
      var entry := tokens[hash];
      entry.uses := entry.uses + 1;
      Tokens := Tokens[hash := TokenEntry(entry.uses, entry.firstSeen)];
      return entry.uses >= cfg.maxUses;
    }

    method Cleanup(now: Time)
      requires Valid()
      modifies this
      ensures Valid() && Value() == AnomalyDetection.Cleanup(old(Value()), now)
    {
      CleanupFailures(now);
      CleanupTokens(now - DAY);
    }

    method CleanupFailures(now: Time)
      requires Valid()
      modifies this`ipMap, this`Ips
      ensures Valid() && Ips == Retain(old(Ips), Running(now))
    {
      ghost var before := Ips;
      SweptEnds(before, Running(now));
      var todo := ipMap.Keys;
      while todo != {}
        invariant ValidIps() && todo <= ipMap.Keys
        invariant Ips == Swept(before, Running(now), todo)
        decreases todo
      {
        var ip :| ip in todo;
        SweptStep(before, Running(now), todo, ip);
        if now > ipMap[ip].windowEnd {
          ipMap := ipMap - {ip};
          Ips := Ips - {ip};
        }
        todo := todo - {ip};
      }
    }

    method CleanupTokens(cutoff: Time)
      requires Valid()
      modifies this`tokens, this`Tokens
      ensures Valid() && Tokens == Retain(old(Tokens), SeenSince(cutoff))
    {
      ghost var before := Tokens;
      SweptEnds(before, SeenSince(cutoff));
      var todo := tokens.Keys;
      while todo != {}
        invariant ValidTokens() && todo <= tokens.Keys
        invariant Tokens == Swept(before, SeenSince(cutoff), todo)
        decreases todo
      {
        var h :| h in todo;
        SweptStep(before, SeenSince(cutoff), todo, h);
        if tokens[h].firstSeen < cutoff {
          tokens := tokens - {h};
          Tokens := Tokens - {h};
        }
        todo := todo - {h};
      }
    }
  }
}
