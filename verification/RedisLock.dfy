/**
 * The lock service as a machine: any interleaving of acquisitions, releases and
 * the passing of time, over any number of keys. Every acquisition draws a token
 * never used before, as `randomUUID` is taken to do.
 */
module RedisLock {
  import opened Options
  import opened RedisStore

  /** Locks over a shared store; `token` is the caller's fresh random identifier. */
  class RedisLockService<K(==), V(==)> {
    const redis: RedisService<K, V>

    constructor (redis: RedisService<K, V>)
      ensures this.redis == redis
    {
      this.redis := redis;
    }

    method Acquire(key: K, token: V, ttlSeconds: int) returns (held: Option<V>)
      modifies redis`entries
      ensures var (entries, ok) := SetIfNotExists(old(redis.entries), redis.now, key, token, ttlSeconds);
              redis.entries == entries && held == (if ok then Some(token) else None)
    {
      var stored := redis.StoreIfNotExists(key, token, ttlSeconds);
      return if stored then Some(token) else None;
    }

    method Release(key: K, token: V) returns (released: bool)
      modifies redis`entries
      ensures (redis.entries, released) == CompareAndDelete(old(redis.entries), redis.now, key, token)
    {
      released := redis.DeleteIfEqual(key, token);
    }
  }

  type Key = string
  type Token = nat

  /** A granted lock: which key, until when, and whether its holder has given it back. */
  datatype Lease = Lease(key: Key, until: int, released: bool)

  datatype State = State(
    now: int,
    entries: map<Key, Entry<Token>>,
    nextToken: Token,
    leases: map<Token, Lease>)

  datatype Event =
    | Tick(elapsed: nat)
    | Acquire(key: Key, ttlSeconds: nat)
    | Release(key: Key, token: Token)

  predicate Initial(s: State) {
    s.entries == map[] && s.leases == map[]
  }

  function AcquireLock(s: State, key: Key, ttlSeconds: nat): State {
    var token := s.nextToken;
    var (entries, ok) := SetIfNotExists(s.entries, s.now, key, token, ttlSeconds);
    var granted := Lease(key, s.now + ttlSeconds * MS_PER_SECOND, false);
    s.(entries := entries,
       nextToken := token + 1,
       leases := if ok then s.leases[token := granted] else s.leases)
  }

  function ReleaseLock(s: State, key: Key, token: Token): State {
    var (entries, deleted) := CompareAndDelete(s.entries, s.now, key, token);
    var mine := token in s.leases && s.leases[token].key == key;
    s.(entries := entries,
       leases := if mine then s.leases[token := s.leases[token].(released := true)] else s.leases)
  }

  function Next(s: State, e: Event): State {
    match e
    case Tick(elapsed) => s.(now := s.now + elapsed)
    case Acquire(key, ttl) => AcquireLock(s, key, ttl)
    case Release(key, token) => ReleaseLock(s, key, token)
  }

  function Run(s: State, events: seq<Event>): State {
    if events == [] then s
    else Next(Run(s, events[..|events| - 1]), events[|events| - 1])
  }

  /** The holder of `token` may still believe it holds its lock. */
  predicate Live(s: State, token: Token) {
    token in s.leases && !s.leases[token].released && s.now < s.leases[token].until
  }

  /** Every live lease is the entry stored under its key. */
  ghost predicate Consistent(s: State) {
    && (forall t :: t in s.leases ==> t < s.nextToken)
    && (forall k :: k in s.entries ==> s.entries[k].value < s.nextToken)
    && (forall t :: Live(s, t) ==>
          s.leases[t].key in s.entries && s.entries[s.leases[t].key] == Entry(t, s.leases[t].until))
  }

  lemma NextConsistent(s: State, e: Event)
    requires Consistent(s)
    ensures Consistent(Next(s, e))
  {
    var s' := Next(s, e);
    forall t | Live(s', t)
      ensures s'.leases[t].key in s'.entries && s'.entries[s'.leases[t].key] == Entry(t, s'.leases[t].until)
    {
      assert Live(s, t) || t == s.nextToken;
    }
  }

  lemma {:induction false} RunConsistent(s: State, events: seq<Event>)
    requires Initial(s)
    ensures Consistent(Run(s, events))
  {
    if events != [] {
      RunConsistent(s, events[..|events| - 1]);
      NextConsistent(Run(s, events[..|events| - 1]), events[|events| - 1]);
    }
  }

  /** In every run at most one unexpired, unreleased token holds a key. */
  lemma AtMostOneHolder(s: State, events: seq<Event>, t: Token, u: Token)
    requires Initial(s)
    requires var end := Run(s, events); Live(end, t) && Live(end, u) && end.leases[t].key == end.leases[u].key
    ensures t == u
  {
    RunConsistent(s, events);
  }

  /**
   * A release, by anyone and however late, leaves every other live holder in
   * place; and it frees the key of its own live lease.
   */
  lemma ReleaseOnlyFreesOwnLock(s: State, events: seq<Event>, key: Key, token: Token, other: Token)
    requires Initial(s)
    requires Live(Run(s, events), other)
    ensures var before := Run(s, events);
            var after := Next(before, Release(key, token));
            && (other != token ==>
                  Live(after, other) && Lookup(after.entries, after.now, after.leases[other].key) == Some(other))
            && (other == token && key == before.leases[token].key ==>
                  Lookup(after.entries, after.now, key) == None)
  {
    RunConsistent(s, events);
    NextConsistent(Run(s, events), Release(key, token));
  }

  /** An acquisition succeeds exactly when no unexpired entry is stored under the key. */
  lemma AcquireSucceedsIffFree(s: State, events: seq<Event>, key: Key, ttlSeconds: nat)
    requires Initial(s) && ttlSeconds > 0
    ensures var before := Run(s, events);
            var after := Next(before, Acquire(key, ttlSeconds));
            && (Live(after, before.nextToken) <==> Lookup(before.entries, before.now, key) == None)
            && (Live(after, before.nextToken) ==>
                  forall t :: Live(before, t) ==> before.leases[t].key != key)
  {
    RunConsistent(s, events);
    NextConsistent(Run(s, events), Acquire(key, ttlSeconds));
  }
}
