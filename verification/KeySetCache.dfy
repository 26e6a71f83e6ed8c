/** The cache object and its Get, with clock readings and the fetch's outcome as arguments, and the
    server's field that holds one cache once discovery has succeeded. */
module KeySetCache {
  import opened KeySetCaching
  import opened Wrappers

  class Cache {
    const ttl: Time
    var keys: Option<KeySet>
    var fetchedAt: Time

    function Value(): State
      reads this
    {
      State(keys, fetchedAt)
    }

    constructor (ttl: Time)
      ensures this.ttl == (if ttl <= 0 then 300 * SECOND else ttl) && Value() == EMPTY
    {
      this.ttl := if ttl <= 0 then 5 * MINUTE else ttl;
      keys, fetchedAt := None, 0;
    }

    /** `now` and `later` are read under the read and the write lock, `done` after the fetch. */
    method Get(now: Time, later: Time, fetched: Option<KeySet>, done: Time) returns (got: Option<KeySet>)
      modifies this
      ensures (Value(), got) == if KeySetCaching.Valid(ttl, old(Value()), now) then (old(Value()), old(keys))
                                else Slow(ttl, old(Value()), later, fetched, done)
    {
      if keys.Some? && now - fetchedAt < ttl {
        return keys;
      }
      if keys.Some? && later - fetchedAt < ttl {
        return keys;
      }
      if fetched.None? {
        if keys.Some? {
          return keys;
        }
        return None;
      }
      keys := fetched;
      fetchedAt := done;
      return fetched;
    }
  }

  class Issuer {
    var cache: Cache?

    constructor ()
      ensures cache == null
    {
      cache := null;
    }

    /** Discovery runs until it first succeeds; its failures are not remembered, and the cache made
        then is the only one for good. */
    method CacheForIssuer(discovered: bool) returns (c: Cache?)
      modifies this
      ensures c == cache
      ensures old(cache) != null ==> cache == old(cache)
      ensures old(cache) == null && !discovered ==> cache == null
      ensures old(cache) == null && discovered ==> cache != null && fresh(cache) && cache.ttl == 5 * MINUTE && cache.Value() == EMPTY
    {
      if cache != null {
        return cache;
      }
      if !discovered {
        return null;
      }
      cache := new Cache(5 * MINUTE);
      return cache;
    }
  }
}
