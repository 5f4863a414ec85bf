/**
 * The Redis commands the services use, over an abstract key store with expiry.
 * Times are milliseconds on the server's clock.
 */
module RedisStore {
  import opened Options

  const MS_PER_SECOND := 1000

  datatype Entry<+V> = Entry(value: V, expiresAt: int)

  /** `GET`: an entry is visible strictly before its expiry. */
  function Lookup<K, V>(entries: map<K, Entry<V>>, now: int, key: K): Option<V> {
    if key in entries && now < entries[key].expiresAt then Some(entries[key].value) else None
  }

  /** `SET key value EX seconds`. */
  function SetWithExpiry<K, V>(entries: map<K, Entry<V>>, now: int, key: K, value: V, ttlSeconds: int)
    : map<K, Entry<V>>
  {
    entries[key := Entry(value, now + ttlSeconds * MS_PER_SECOND)]
  }

  /** `SET key value EX seconds NX`: writes only over nothing or an expired entry. */
  function SetIfNotExists<K, V>(entries: map<K, Entry<V>>, now: int, key: K, value: V, ttlSeconds: int)
    : (map<K, Entry<V>>, bool)
  {
    if Lookup(entries, now, key).None? then (SetWithExpiry(entries, now, key, value, ttlSeconds), true)
    else (entries, false)
  }

  /** The compare-and-delete script. */
  function CompareAndDelete<K, V(==)>(entries: map<K, Entry<V>>, now: int, key: K, value: V)
    : (map<K, Entry<V>>, bool)
  {
    if Lookup(entries, now, key) == Some(value) then (entries - {key}, true) else (entries, false)
  }

  class RedisService<K(==), V(==)> {
    var entries: map<K, Entry<V>>
    var now: int

    constructor (now: int)
      ensures entries == map[] && this.now == now
    {
      this.entries := map[];
      this.now := now;
    }

    method Get(key: K) returns (value: Option<V>)
      ensures value == Lookup(entries, now, key)
    {
      if key in entries && now < entries[key].expiresAt {
        return Some(entries[key].value);
      }
      return None;
    }

    method StoreWithExpiry(key: K, value: V, ttlSeconds: int)
      modifies this`entries
      ensures entries == SetWithExpiry(old(entries), now, key, value, ttlSeconds)
    {
      entries := entries[key := Entry(value, now + ttlSeconds * MS_PER_SECOND)];
    }

    method StoreIfNotExists(key: K, value: V, ttlSeconds: int) returns (stored: bool)
      modifies this`entries
      ensures (entries, stored) == SetIfNotExists(old(entries), now, key, value, ttlSeconds)
    {
      var present := Get(key);
      if present.Some? {
        return false;
      }
      StoreWithExpiry(key, value, ttlSeconds);
      return true;
    }

    method DeleteIfEqual(key: K, value: V) returns (deleted: bool)
      modifies this`entries
      ensures (entries, deleted) == CompareAndDelete(old(entries), now, key, value)
    {
      var present := Get(key);
      if present != Some(value) {
        return false;
      }
      entries := entries - {key};
      return true;
    }
  }
}
