/**
 * The per-device state cache (src/platform.ts): one entry per device id with
 * the last known mode and the time it was stored, and the 60 s freshness rule
 * that decides whether a non-forced update may overwrite it.
 */
module StateCache {
  import opened Wrappers

  datatype CacheEntry = CacheEntry(state: string, timestamp: int)

  /** An entry younger than this many milliseconds is protected from non-forced updates. */
  const FreshnessThreshold: int := 60000

  /** `!cachedState || forceUpdate || cachedState.timestamp < Date.now() - 60000`. */
  predicate ShouldWrite(cache: map<string, CacheEntry>, did: string, force: bool, now: int) {
    did !in cache || force || cache[did].timestamp < now - FreshnessThreshold
  }

  /** `getDeviceState`: the cached mode of a device, `None` (null) without an entry. */
  function Lookup(cache: map<string, CacheEntry>, did: string): (r: Option<string>)
    ensures r.Some? <==> did in cache
    ensures r.Some? ==> r.value == cache[did].state
  {
    if did in cache then Some(cache[did].state) else None
  }

  /** A non-forced update of an existing entry lands exactly when the entry is more than 60 s old. */
  lemma FreshEntryIsProtected(cache: map<string, CacheEntry>, did: string, now: int)
    requires did in cache
    ensures ShouldWrite(cache, did, false, now) <==> now - cache[did].timestamp > FreshnessThreshold
  {
  }

  /** A forced update, or one for a device without an entry, always lands. */
  lemma ForcedOrFirstWriteLands(cache: map<string, CacheEntry>, did: string, force: bool, now: int)
    requires force || did !in cache
    ensures ShouldWrite(cache, did, force, now)
  {
  }

  /** An entry just stored at `now` blocks every non-forced update for the next 60 s. */
  lemma StoredEntryBlocksForOneMinute(cache: map<string, CacheEntry>, did: string, mode: string, now: int, later: int)
    requires now <= later <= now + FreshnessThreshold
    ensures !ShouldWrite(cache[did := CacheEntry(mode, now)], did, false, later)
    ensures Lookup(cache[did := CacheEntry(mode, now)], did) == Some(mode)
  {
  }
}
