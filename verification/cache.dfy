/**
 * `CacheService`: an in-memory map from string keys to values with an
 * absolute expiry time, an enable switch and a default time-to-live. Expired
 * entries are removed only when a `get` reads them. The clock is the explicit
 * `now` argument (whole seconds); the lock is left to the sequential model.
 */
module Cache {
  import opened Wrappers

  /** `settings.cache_ttl` and `settings.enable_cache`. */
  const CacheTtl: int := 3600
  const EnableCache: bool := true

  datatype Entry<V> = Entry(value: V, expiresAt: int)

  datatype CacheService<V> = CacheService(entries: map<string, Entry<V>>, enabled: bool, defaultTtl: int)

  /** The service as constructed from the settings. */
  function NewCacheService<V>(): CacheService<V> {
    CacheService(map[], EnableCache, CacheTtl)
  }

  /** An entry is expired strictly after its expiry time; at that instant it is still served. */
  predicate Expired<V>(e: Entry<V>, now: int) {
    now > e.expiresAt
  }

  /** What `get` returns together with the cache it leaves behind. */
  datatype Lookup<V> = Lookup(cache: CacheService<V>, value: Option<V>)

  /**
   * `get`: the stored value when the cache is enabled and the entry has not
   * expired; an expired entry is removed as it is read. No entry is ever added
   * or changed.
   */
  function Get<V>(c: CacheService<V>, key: string, now: int): (r: Lookup<V>)
    ensures r.value.Some? <==> c.enabled && key in c.entries && !Expired(c.entries[key], now)
    ensures r.value.Some? ==> r.value.value == c.entries[key].value
    ensures r.cache.enabled == c.enabled && r.cache.defaultTtl == c.defaultTtl
    ensures key in c.entries && key !in r.cache.entries <==> c.enabled && key in c.entries && Expired(c.entries[key], now)
    ensures forall k :: k != key ==> (k in r.cache.entries <==> k in c.entries)
    ensures forall k :: k in r.cache.entries ==> k in c.entries && r.cache.entries[k] == c.entries[k]
  {
    if !c.enabled then Lookup(c, None)
    else if key !in c.entries then Lookup(c, None)
    else if Expired(c.entries[key], now) then Lookup(c.(entries := c.entries - {key}), None)
    else Lookup(c, Some(c.entries[key].value))
  }

  /** `ttl or self.default_ttl`: a missing or zero ttl means the default. */
  function EffectiveTtl<V>(c: CacheService<V>, ttl: Option<int>): int {
    if ttl.None? || ttl.value == 0 then c.defaultTtl else ttl.value
  }

  /**
   * `set`: when enabled, store `value` under `key` expiring `now` plus the
   * effective ttl, replacing any previous entry; no other key changes. When
   * disabled, nothing changes.
   */
  function Set<V>(c: CacheService<V>, key: string, value: V, ttl: Option<int>, now: int): (r: CacheService<V>)
    ensures r.enabled == c.enabled && r.defaultTtl == c.defaultTtl
    ensures !c.enabled ==> r == c
    ensures c.enabled ==> key in r.entries && r.entries[key] == Entry(value, now + EffectiveTtl(c, ttl))
    ensures forall k :: k != key ==> (k in r.entries <==> k in c.entries)
    ensures forall k :: k != key && k in c.entries ==> r.entries[k] == c.entries[k]
  {
    if !c.enabled then c
    else c.(entries := c.entries[key := Entry(value, now + EffectiveTtl(c, ttl))])
  }

  /**
   * `delete`: true exactly when `key` had an entry, expired or not; afterwards
   * it has none and every other entry is as before. The enable switch is not
   * consulted.
   */
  function Delete<V>(c: CacheService<V>, key: string): (r: (CacheService<V>, bool))
    ensures r.1 <==> key in c.entries
    ensures r.0.entries.Keys == c.entries.Keys - {key}
    ensures forall k :: k in r.0.entries ==> r.0.entries[k] == c.entries[k]
    ensures r.0.enabled == c.enabled && r.0.defaultTtl == c.defaultTtl
  {
    if key in c.entries then (c.(entries := c.entries - {key}), true)
    else (c, false)
  }

  /** `clear`: no entries remain; the switch and the default ttl are kept. */
  function Clear<V>(c: CacheService<V>): (r: CacheService<V>)
    ensures |r.entries| == 0
    ensures r.enabled == c.enabled && r.defaultTtl == c.defaultTtl
  {
    c.(entries := map[])
  }

  datatype CacheStats = CacheStats(totalEntries: nat, expiredEntries: nat, activeEntries: int, enabled: bool)

  function ExpiredKeys<V>(c: CacheService<V>, now: int): set<string> {
    set k | k in c.entries && Expired(c.entries[k], now)
  }

  function LiveKeys<V>(c: CacheService<V>, now: int): set<string> {
    set k | k in c.entries && !Expired(c.entries[k], now)
  }

  /**
   * `get_stats`: the number of entries, how many of them are expired at `now`,
   * and the difference, which is the number of entries a `get` would serve.
   */
  function GetStats<V>(c: CacheService<V>, now: int): (s: CacheStats)
    ensures s.totalEntries == |c.entries|
    ensures s.expiredEntries == |ExpiredKeys(c, now)|
    ensures s.activeEntries == |LiveKeys(c, now)|
    ensures 0 <= s.activeEntries <= s.totalEntries
    ensures s.activeEntries + s.expiredEntries == s.totalEntries
    ensures s.enabled == c.enabled
  {
    var expired, live := ExpiredKeys(c, now), LiveKeys(c, now);
    assert c.entries.Keys == expired + live && expired * live == {};
    CacheStats(|c.entries|, |expired|, |c.entries| - |expired|, c.enabled)
  }

  // --------------------------------------------------------------- properties

  /** A service fresh from the settings is enabled, uses the default ttl, holds nothing and serves nothing. */
  lemma NewCacheServesNothing<V>(key: string, now: int)
    ensures NewCacheService<V>().enabled && NewCacheService<V>().defaultTtl == 3600
    ensures Get(NewCacheService<V>(), key, now) == Lookup(NewCacheService<V>(), None)
    ensures GetStats(NewCacheService<V>(), now) == CacheStats(0, 0, 0, true)
  {
  }

  /**
   * A value set while enabled is served until its expiry time and, once that
   * has passed, is removed by the next read.
   */
  lemma SetThenGet<V>(c: CacheService<V>, key: string, value: V, ttl: Option<int>, now: int, later: int)
    requires c.enabled
    ensures var s := Set(c, key, value, ttl, now);
      later <= now + EffectiveTtl(c, ttl) ==> Get(s, key, later) == Lookup(s, Some(value))
    ensures var s := Set(c, key, value, ttl, now);
      later > now + EffectiveTtl(c, ttl) ==>
        Get(s, key, later).value == None && key !in Get(s, key, later).cache.entries
  {
  }

  /** With a non-negative effective ttl, reading back at the same instant is a hit. */
  lemma SetThenGetNow<V>(c: CacheService<V>, key: string, value: V, ttl: Option<int>, now: int)
    requires c.enabled && EffectiveTtl(c, ttl) >= 0
    ensures Get(Set(c, key, value, ttl, now), key, now).value == Some(value)
  {
    SetThenGet(c, key, value, ttl, now, now);
  }

  /** A zero ttl is the default ttl, not immediate expiry. */
  lemma ZeroTtlIsDefault<V>(c: CacheService<V>, key: string, value: V, now: int)
    ensures Set(c, key, value, Some(0), now) == Set(c, key, value, None, now)
  {
  }

  /** A negative ttl stores an entry that is already expired. */
  lemma NegativeTtlExpires<V>(c: CacheService<V>, key: string, value: V, ttl: int, now: int)
    requires c.enabled && ttl < 0
    ensures Get(Set(c, key, value, Some(ttl), now), key, now).value == None
  {
  }

  /** A disabled cache stores nothing and serves nothing. */
  lemma DisabledCacheIsInert<V>(c: CacheService<V>, key: string, value: V, ttl: Option<int>, now: int)
    requires !c.enabled
    ensures Set(c, key, value, ttl, now) == c
    ensures Get(c, key, now) == Lookup(c, None)
  {
  }

  /** After `delete` the key is a miss; deleting also reports an expired entry not yet evicted. */
  lemma DeleteThenGet<V>(c: CacheService<V>, key: string, now: int)
    ensures Get(Delete(c, key).0, key, now).value == None
    ensures key in c.entries && Expired(c.entries[key], now) ==> Delete(c, key).1
  {
  }

  /** After `clear` every key is a miss and the statistics count nothing. */
  lemma ClearThenGet<V>(c: CacheService<V>, key: string, now: int)
    ensures Get(Clear(c), key, now).value == None
    ensures GetStats(Clear(c), now) == CacheStats(0, 0, 0, c.enabled)
  {
  }

  /** Reading twice at the same instant gives the same answer and the same cache as reading once. */
  lemma GetIsIdempotent<V>(c: CacheService<V>, key: string, now: int)
    ensures var first := Get(c, key, now);
      Get(first.cache, key, now) == Lookup(first.cache, first.value)
  {
  }

  /**
   * Lazy eviction is invisible in the active count: a `get` may drop an
   * expired entry, which lowers the total and the expired count alike.
   */
  lemma GetKeepsActiveEntries<V>(c: CacheService<V>, key: string, now: int)
    ensures GetStats(Get(c, key, now).cache, now).activeEntries == GetStats(c, now).activeEntries
    ensures GetStats(Get(c, key, now).cache, now).totalEntries <= GetStats(c, now).totalEntries
  {
    var d := Get(c, key, now).cache;
    assert LiveKeys(d, now) == LiveKeys(c, now);
  }
}
