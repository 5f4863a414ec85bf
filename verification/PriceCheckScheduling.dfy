/** The scheduled job: one check under a lock whose lease may run out before the check does. */
module PriceCheckScheduling {
  import opened Options
  import opened RedisStore
  import RedisLock
  import opened PriceAlerts
  import opened AlertVerdicts
  import opened PriceSweep

  const PRICE_CHECK_LOCK := "coin-tracker:price-check:lock:minute"
  const PRICE_CHECK_LOCK_TTL_SECONDS := 5 * 60

  type Store = map<string, Entry<nat>>

  function Leased(entries: Store, now: int, token: nat): Store {
    entries[PRICE_CHECK_LOCK := Entry(token, now + PRICE_CHECK_LOCK_TTL_SECONDS * MS_PER_SECOND)]
  }

  /** The store without this job's entry, if that entry is still its own. */
  function Unlocked(entries: Store, now: int, token: nat): Store {
    if Lookup(entries, now, PRICE_CHECK_LOCK) == Some(token) then entries - {PRICE_CHECK_LOCK} else entries
  }

  class PriceCheckScheduler {
    const redis: RedisService<string, nat>
    const locks: RedisLock.RedisLockService<string, nat>
    const priceCheckService: PriceCheckService

    constructor (redis: RedisService<string, nat>, service: PriceCheckService)
      ensures this.redis == redis && priceCheckService == service && locks.redis == redis
    {
      this.redis := redis;
      this.locks := new RedisLock.RedisLockService(redis);
      this.priceCheckService := service;
    }

    /**
     * `others` is what the rest of the system has made of the store by the time
     * the check, which takes `elapsed` milliseconds, is over. Without the lock
     * nothing is touched; with it, the whole check is done on the alert table,
     * a failed price fetch ending it quietly, and the final release removes
     * this job's own unexpired entry and no other.
     */
    method HandleCheck(token: nat, elapsed: nat, others: Store -> Store, now: int, coinIds: seq<string>, client: Client,
                       environment: Environment, around: nat -> Circumstances, universe: set<string>)
      returns (ran: bool, counts: Option<Counts>, ghost trace: seq<Touch>)
      requires locks.redis == redis
      requires "" !in universe && priceCheckService.alerts.rows.Keys <= universe && Within(environment, universe)
      modifies redis, priceCheckService.alerts
      ensures ran <==> Lookup(old(redis.entries), old(redis.now), PRICE_CHECK_LOCK).None?
      ensures !ran ==>
                && counts == None && trace == []
                && priceCheckService.alerts.rows == old(priceCheckService.alerts.rows)
                && redis.entries == old(redis.entries) && redis.now == old(redis.now)
      ensures ran ==>
                && Checked(old(priceCheckService.alerts.rows), now, coinIds, client, universe, environment, around,
                           counts, trace, priceCheckService.alerts.rows)
                && redis.now == old(redis.now) + elapsed
                && redis.entries == Unlocked(others(Leased(old(redis.entries), old(redis.now), token)), redis.now, token)
    {
      hide Checked, Within;
      trace := [];
      var lockToken := locks.Acquire(PRICE_CHECK_LOCK, token, PRICE_CHECK_LOCK_TTL_SECONDS);
      if lockToken.None? {
        return false, None, [];
      }
      counts, trace := priceCheckService.ExecuteCheck(now, coinIds, client, environment, around, universe);
      redis.entries, redis.now := others(redis.entries), redis.now + elapsed;
      var _ := locks.Release(PRICE_CHECK_LOCK, token);
      ran := true;
    }
  }
}
