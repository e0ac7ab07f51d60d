/** When a cached product row must be refreshed. Timestamps are integer
    milliseconds on one time line (the server's clock and the database's
    dates read the same way). */
module CachePolicy {

  /** `CACHE_HOURS` of the products route. */
  const CACHE_HOURS: nat := 24
  const HOUR_MS: nat := 60 * 60 * 1000
  const TTL_MS: nat := CACHE_HOURS * HOUR_MS

  /** The `cached_at` a newly inserted row gets: midnight of 1990-10-10
      (UTC), in milliseconds since the epoch. */
  const NEVER_CACHED: int := 655516800000

  /** `dayjs().isAfter(dayjs(cached_at).add(CACHE_HOURS, "hours"))`: the row
      is stale when the clock is STRICTLY past the cache time plus the TTL. */
  predicate IsStale(cachedAt: int, now: int) {
    now > cachedAt + TTL_MS
  }

  /** Exactly at the end of the TTL a row still counts as fresh, one
      millisecond later it is stale, and staleness never goes away as the
      clock advances. */
  lemma StaleBoundary(cachedAt: int, now: int, later: int)
    requires now <= later
    ensures !IsStale(cachedAt, cachedAt + 24 * 3600000)
    ensures IsStale(cachedAt, cachedAt + 24 * 3600000 + 1)
    ensures IsStale(cachedAt, now) ==> IsStale(cachedAt, later)
  {
  }

  /** A row that was never refreshed is stale at any time later than 24
      hours after midnight of October 10, 1990. */
  lemma NeverCachedIsStale(now: int)
    requires now > NEVER_CACHED + 24 * 3600000
    ensures IsStale(NEVER_CACHED, now)
  {
  }
}
