/**
 * app/cache/cache_manager.py: the process-wide in-memory cache of the API's computed responses,
 * a time-to-live cache whose entries live twelve hours from when they were set, and the time
 * of its last update.
 *
 * `now` is the cache timer's reading in seconds (it never goes backwards) and `stamp` the ISO
 * text of the wall-clock time of the call.
 */
module CacheManager {
  import opened Wrappers

  /** Every entry lives this many seconds after it is set. */
  const Ttl := 12 * 60 * 60

  /** A stored value (`None` is Python's `None`, which can be stored like any other) and when it expires. */
  datatype Entry<V> = Entry(value: Option<V>, expires: int)

  /** The entries that have not expired at time `now`: an entry lives while `now < expires`. */
  function Live<V>(items: map<string, Entry<V>>, now: int): (live: map<string, Option<V>>)
    ensures forall k :: k in live <==> k in items && now < items[k].expires
    ensures forall k :: k in live ==> live[k] == items[k].value
  {
    map k | k in items && now < items[k].expires :: items[k].value
  }

  /** `_cache.get(key, default)` */
  function Lookup<V>(items: map<string, Entry<V>>, key: string, default: Option<V>, now: int): (r: Option<V>)
    ensures key in Live(items, now) ==> r == Live(items, now)[key]
    ensures key !in Live(items, now) ==> r == default
  {
    if key in items && now < items[key].expires then items[key].value else default
  }

  class Cache<V> {
    var items: map<string, Entry<V>>
    var lastUpdate: Option<string>

    /** The module's import: an empty cache, its update time the time of the import. */
    constructor(stamp: string)
      ensures items == map[] && lastUpdate == Some(stamp)
    {
      items := map[];
      lastUpdate := Some(stamp);
    }

    /** `get_cache()`: the live entries. */
    function GetCache(now: int): map<string, Option<V>>
      reads this
    {
      Live(items, now)
    }

    /** `get_cache_item(key, default)` */
    function GetCacheItem(key: string, default: Option<V>, now: int): Option<V>
      reads this
    {
      Lookup(items, key, default, now)
    }

    /** `get_last_cache_update_time()` */
    function GetLastCacheUpdateTime(): Option<string>
      reads this
    {
      lastUpdate
    }

    /** `set_cache_item(key, value, ttl)`: the entry lives `Ttl` seconds whatever `ttl` says. */
    method SetCacheItem(key: string, value: Option<V>, ttl: Option<int>, now: int, stamp: string)
      modifies this
      ensures items == old(items)[key := Entry(value, now + Ttl)]
      ensures lastUpdate == Some(stamp)
    {
      items := items[key := Entry(value, now + Ttl)];
      lastUpdate := Some(stamp);
    }

    /** `delete_cache_item(key)`: removes a live entry; any other key, or an expired one, stays as it was. */
    method DeleteCacheItem(key: string, now: int)
      modifies this
      ensures items == if key in Live(old(items), now) then old(items) - {key} else old(items)
      ensures lastUpdate == old(lastUpdate)
    {
      if key in items && now < items[key].expires {
        items := items - {key};
      }
    }

    /** `clear_cache()` */
    method ClearCache(stamp: string)
      modifies this
      ensures items == map[] && lastUpdate == Some(stamp)
    {
      items := map[];
      lastUpdate := Some(stamp);
    }

    /**
     * A call of a function decorated with `cached(key, ttl)`: a live value other than `None` is
     * returned without calling the function; otherwise the function is called once (`compute`
     * is what it returns) and its result stored under `key`, `None` included.
     */
    method Cached(key: string, ttl: Option<int>, compute: () -> Option<V>, now: int, stamp: string)
      returns (r: Option<V>, called: bool)
      modifies this
      ensures var hit := Lookup(old(items), key, None, now);
        if hit.Some? then r == hit && !called && items == old(items) && lastUpdate == old(lastUpdate)
        else r == compute() && called && items == old(items)[key := Entry(r, now + Ttl)] && lastUpdate == Some(stamp)
    {
      var hit := GetCacheItem(key, None, now);
      if hit.Some? {
        return hit, false;
      }
      r := compute();
      called := true;
      SetCacheItem(key, r, ttl, now, stamp);
    }
  }

  // ---------------------------------------------------------------- properties

  /** After `set(k, v)`, `get(k)` returns `v` until the entry expires, and every other key reads as before. */
  lemma SetThenGet<V>(items: map<string, Entry<V>>, key: string, value: Option<V>, t: int, later: int, other: string, default: Option<V>)
    requires t <= later < t + Ttl
    ensures Lookup(items[key := Entry(value, t + Ttl)], key, default, later) == value
    ensures other != key ==> Lookup(items[key := Entry(value, t + Ttl)], other, default, later) == Lookup(items, other, default, later)
  {
  }

  /** An entry is gone once `Ttl` seconds have passed since it was set, and `get` answers the default. */
  lemma SetExpires<V>(items: map<string, Entry<V>>, key: string, value: Option<V>, t: int, later: int, default: Option<V>)
    requires later >= t + Ttl
    ensures key !in Live(items[key := Entry(value, t + Ttl)], later)
    ensures Lookup(items[key := Entry(value, t + Ttl)], key, default, later) == default
  {
  }

  /** Deleting a key leaves every other key reading as it did. */
  lemma DeleteOnlyThatKey<V>(items: map<string, Entry<V>>, key: string, now: int, other: string, default: Option<V>)
    requires other != key
    ensures Lookup(items - {key}, other, default, now) == Lookup(items, other, default, now)
    ensures Lookup(items - {key}, key, default, now) == default
  {
  }

  /**
   * Seen from `get_cache()`: setting adds the key with its value, deleting removes it, clearing
   * empties the cache.
   */
  lemma LiveAfterUpdates<V>(items: map<string, Entry<V>>, key: string, value: Option<V>, now: int)
    ensures Live(items[key := Entry(value, now + Ttl)], now) == Live(items, now)[key := value]
    ensures Live(items - {key}, now) == Live(items, now) - {key}
    ensures Live<V>(map[], now) == map[]
  {
  }

  /** A stored `None` is never served: the next decorated call computes again. */
  lemma NoneNeverServed<V>(items: map<string, Entry<V>>, key: string, now: int, later: int)
    requires now <= later < now + Ttl
    ensures Lookup(items[key := Entry(None, now + Ttl)], key, None, later).None?
  {
  }
}
