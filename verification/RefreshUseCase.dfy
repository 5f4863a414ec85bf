/**
 * The refresh use case as the code runs it: statements over the shared Redis
 * store and session row. Run without interference it performs exactly the
 * steps of one request of the protocol machine.
 */
module RefreshUseCase {
  import opened Options
  import opened RedisStore
  import RedisLock
  import opened RefreshProtocol
  import opened RefreshAlone

  /** The session row behind the query, rotation and revocation services. */
  class SessionStore {
    var session: Session

    constructor (session: Session)
      ensures this.session == session
    {
      this.session := session;
    }

    method FindActive() returns (found: Option<Session>)
      ensures found == if session.active then Some(session) else None
    {
      return if session.active then Some(session) else None;
    }

    method Rotate(version: int, hash: Digest, newHash: Digest) returns (ok: bool)
      modifies this
      ensures ok <==> old(session).version == version && old(session).hash == hash
      ensures session == if ok then old(session).(version := version + 1, hash := newHash) else old(session)
    {
      ok := session.version == version && session.hash == hash;
      if ok {
        session := session.(version := version + 1, hash := newHash);
      }
    }

    method Revoke()
      modifies this
      ensures session == old(session).(active := false)
    {
      session := session.(active := false);
    }
  }

  class RefreshReplayService {
    const redis: RedisService<Key, Stored>

    constructor (redis: RedisService<Key, Stored>)
      ensures this.redis == redis
    {
      this.redis := redis;
    }

    method RememberPair(consumed: Digest, version: int, pair: Pair)
      modifies redis`entries
      ensures redis.entries == Remember(old(redis.entries), redis.now, consumed, version, pair)
    {
      redis.StoreWithExpiry(RefreshReplay(consumed), ReplayRecord(pair, version), GRACE_SECONDS);
    }

    method Find(presented: Digest, currentVersion: int) returns (pair: Option<Pair>)
      ensures pair == FindRaced(redis.entries, redis.now, presented, currentVersion)
    {
      var raw := redis.Get(RefreshReplay(presented));
      if raw.None? || !raw.value.ReplayRecord? {
        return None;
      }
      if raw.value.version != currentVersion - 1 {
        return None;
      }
      return Some(raw.value.pair);
    }
  }

  class Refresh {
    const redis: RedisService<Key, Stored>
    const sessions: SessionStore
    const locks: RedisLock.RedisLockService<Key, Stored>
    const replays: RefreshReplayService
    var nextSerial: nat

    constructor (redis: RedisService<Key, Stored>, sessions: SessionStore, nextSerial: nat)
      ensures this.redis == redis && this.sessions == sessions && this.nextSerial == nextSerial
      ensures Wired()
    {
      this.redis := redis;
      this.sessions := sessions;
      this.nextSerial := nextSerial;
      this.locks := new RedisLock.RedisLockService(redis);
      this.replays := new RefreshReplayService(redis);
    }

    ghost predicate Wired() {
      locks.redis == redis && replays.redis == redis
    }

    ghost function View(): Shared
      reads this, redis, sessions
    {
      Shared(redis.now, sessions.session, redis.entries, nextSerial)
    }

    method IssuePair() returns (pair: Pair)
      modifies this`nextSerial
      ensures pair == Pair(old(nextSerial), Token(old(nextSerial))) && nextSerial == old(nextSerial) + 1
    {
      pair := Pair(nextSerial, Token(nextSerial));
      nextSerial := nextSerial + 1;
    }

    /** The body between taking the lock and giving it back. */
    method Guarded(presented: Token, ghost r: Request) returns (outcome: Outcome)
      requires Wired() && r.presented == presented && r.phase == Locked
      modifies redis`entries, sessions, this`nextSerial
      ensures exists n :: 1 <= n <= 5 && Alone(old(View()), r, n) == (View(), r.(phase := Leaving(outcome)))
    {
      ghost var start := View();
      var session := sessions.FindActive();
      if session.None? {
        outcome := SessionExpired;
        assert Alone(start, r, 0) == (start, r);
        assert Alone(start, r, 1) == (View(), r.(phase := Leaving(outcome)));
        return;
      }
      var seen := session.value;
      var presentedHash := Sha256(presented);
      assert Alone(start, r, 0) == (start, r);

      if presentedHash != seen.hash {
        assert Alone(start, r, 1) == (start, r.(phase := Mismatched(seen)));
        var raced := replays.Find(presentedHash, seen.version);
        if raced.Some? {
          outcome := Raced(seen, raced.value);
          assert Alone(start, r, 2) == (View(), r.(phase := Leaving(outcome)));
          return;
        }
        assert Alone(start, r, 2) == (start, r.(phase := Revoking(seen)));
        sessions.Revoke();
        outcome := ReuseDetected(seen);
        assert Alone(start, r, 3) == (View(), r.(phase := Leaving(outcome)));
        return;
      }

      assert Alone(start, r, 1) == (start, r.(phase := Matched(seen)));
      var pair := IssuePair();
      assert Alone(start, r, 2) == (View(), r.(phase := Issued(seen, pair)));
      var ok := sessions.Rotate(seen.version, seen.hash, Sha256(pair.refresh));
      if !ok {
        outcome := Conflict(seen);
        assert false; // nobody else has moved the session
        return;
      }
      assert Alone(start, r, 3) == (View(), r.(phase := Committed(seen, pair)));
      replays.RememberPair(presentedHash, seen.version, pair);
      outcome := Rotated(pair);
      assert Alone(start, r, 4) == (View(), r.(phase := Leaving(outcome)));
    }

    /** Refreshing alone leaves the shared state and the caller where the protocol's steps do. */
    method Execute(id: nat, presented: Token) returns (outcome: Outcome)
      requires Wired()
      modifies redis`entries, sessions, this`nextSerial
      ensures var (sh, r) := Alone(old(View()), Request(id, presented, Arrived, 0), STEPS);
              View() == sh && r.phase == Done(outcome)
      ensures EndsRight(old(View()), presented, View(), outcome)
    {
      hide Alone, Advance, EndsRight;
      ghost var start, r0 := View(), Request(id, presented, Arrived, 0);
      UndisturbedCall(start, id, presented);
      FirstStep(start, id, presented);
      var lockToken := locks.Acquire(RefreshLock, LockToken(id), LOCK_SECONDS);
      if lockToken.None? {
        DoneStays(start, r0, 1, STEPS);
        return RateLimited;
      }
      ghost var locked := Request(id, presented, Locked, redis.now + LOCK_SECONDS * MS_PER_SECOND);
      ghost var inside := View();
      assert Alone(start, r0, 1) == (inside, locked);
      outcome := Guarded(presented, locked);
      ghost var n :| 1 <= n <= 5 && Alone(inside, locked, n) == (View(), locked.(phase := Leaving(outcome)));
      AloneConcat(start, r0, 1, n);
      ghost var leaving := View();
      LastStep(start, r0, 1 + n, leaving, locked.(phase := Leaving(outcome)), outcome);
      var released := locks.Release(RefreshLock, LockToken(id));
      assert Alone(start, r0, 2 + n) == (View(), locked.(phase := Done(outcome)));
      DoneStays(start, r0, 2 + n, STEPS);
    }
  }
}
