/** One refresh request with nobody else stepping: how it ends, and that it is a run of the protocol machine. */
module RefreshAlone {
  import opened Options
  import opened RedisStore
  import opened RefreshProtocol

  /** `n` steps of one request, every call working and nobody else stepping. */
  function Alone(sh: Shared, r: Request, n: nat): (Shared, Request)
    decreases n
  {
    if n == 0 then (sh, r)
    else
      var (sh', r') := Alone(sh, r, n - 1);
      Advance(sh', r', Works)
  }

  const STEPS := 7

  predicate LockHeld(sh: Shared) {
    RefreshLock in sh.entries && sh.now < sh.entries[RefreshLock].expiresAt
  }

  /** A live record says the presented token became this pair one version ago. */
  predicate Replayable(sh: Shared, presented: Token, pair: Pair) {
    var key := RefreshReplay(Sha256(presented));
    && key in sh.entries && sh.now < sh.entries[key].expiresAt
    && sh.entries[key].value == ReplayRecord(pair, sh.session.version - 1)
  }

  /**
   * How an undisturbed call must end, by what it found: the answer, the session
   * row, and what is left in the store.
   */
  ghost predicate EndsRight(sh: Shared, presented: Token, end: Shared, outcome: Outcome) {
    var session := sh.session;
    if LockHeld(sh) then outcome == RateLimited && end == sh
    else if !session.active then outcome == SessionExpired && end == sh.(entries := sh.entries - {RefreshLock})
    else if Sha256(presented) == session.hash then
      var pair := Pair(sh.nextSerial, Token(sh.nextSerial));
      var record := Entry(ReplayRecord(pair, session.version), sh.now + 10 * 1000);
      && outcome == Rotated(pair)
      && end.session == Session(session.version + 1, Sha256(pair.refresh), true)
      && end.entries == sh.entries[RefreshReplay(Sha256(presented)) := record] - {RefreshLock}
      && end.nextSerial == sh.nextSerial + 1 && end.now == sh.now
    else if exists pair :: Replayable(sh, presented, pair) then
      && outcome.Raced? && outcome.seen == session && Replayable(sh, presented, outcome.pair)
      && end == sh.(entries := sh.entries - {RefreshLock})
    else
      && outcome == ReuseDetected(session)
      && end == sh.(session := Session(session.version, session.hash, false), entries := sh.entries - {RefreshLock})
  }

  lemma FirstStep(sh: Shared, id: nat, presented: Token)
    ensures var (entries, ok) := SetIfNotExists(sh.entries, sh.now, RefreshLock, LockToken(id), LOCK_SECONDS);
            Alone(sh, Request(id, presented, Arrived, 0), 1) ==
              (sh.(entries := entries),
               if ok then Request(id, presented, Locked, sh.now + LOCK_SECONDS * MS_PER_SECOND)
               else Request(id, presented, Done(RateLimited), 0))
  {
    assert Alone(sh, Request(id, presented, Arrived, 0), 0) == (sh, Request(id, presented, Arrived, 0));
  }

  lemma LastStep(sh: Shared, r: Request, n: nat, leaving: Shared, last: Request, outcome: Outcome)
    requires Alone(sh, r, n) == (leaving, last) && last.phase == Leaving(outcome)
    ensures Alone(sh, r, n + 1) ==
              (leaving.(entries := CompareAndDelete(leaving.entries, leaving.now, RefreshLock, LockToken(last.id)).0),
               last.(phase := Done(outcome)))
  {
  }

  lemma {:induction false} AloneConcat(sh: Shared, r: Request, m: nat, n: nat)
    ensures Alone(sh, r, m + n) == Alone(Alone(sh, r, m).0, Alone(sh, r, m).1, n)
  {
    hide Advance;
    if n > 0 {
      AloneConcat(sh, r, m, n - 1);
    }
  }

  lemma AdvanceDone(sh: Shared, r: Request)
    requires r.phase.Done?
    ensures Advance(sh, r, Works) == (sh, r)
  {
  }

  lemma {:induction false} DoneStays(sh: Shared, r: Request, m: nat, n: nat)
    requires m <= n && Alone(sh, r, m).1.phase.Done?
    ensures Alone(sh, r, n) == Alone(sh, r, m)
  {
    if m < n {
      DoneStays(sh, r, m, n - 1);
      AdvanceDone(Alone(sh, r, m).0, Alone(sh, r, m).1);
      hide Advance;
    }
  }

  /** Seven steps are always enough: every request ends. */
  lemma AlwaysEnds(sh: Shared, id: nat, presented: Token)
    ensures Alone(sh, Request(id, presented, Arrived, 0), STEPS).1.phase.Done?
  {
    var r0 := Request(id, presented, Arrived, 0);
    hide Advance;
    for n := 0 to STEPS
      invariant Distance(Alone(sh, r0, n).1.phase) <= STEPS - n
    {
      StepsCloser(Alone(sh, r0, n).0, Alone(sh, r0, n).1);
    }
  }

  lemma StepsCloser(sh: Shared, r: Request)
    ensures var next := Advance(sh, r, Works).1.phase;
            r.phase.Done? || Distance(next) < Distance(r.phase)
    ensures r.phase.Done? ==> Advance(sh, r, Works).1.phase == r.phase
  {
  }

  function Distance(phase: Phase): nat {
    match phase
    case Arrived => 7
    case Locked => 6
    case Matched(_) => 5
    case Mismatched(_) => 5
    case Issued(_, _) => 4
    case Committed(_, _) => 3
    case Revoking(_) => 3
    case Leaving(_) => 2
    case Done(_) => 0
  }

  function Steps(id: nat, n: nat): seq<Event> {
    seq(n, _ => Step(id, Works))
  }

  /** The undisturbed request is one of the machine's runs. */
  lemma {:induction false} AloneIsARun(s: State, id: nat, n: nat)
    requires id in s.requests
    ensures var end := Run(s, Steps(id, n));
            id in end.requests && (end.sh, end.requests[id]) == Alone(s.sh, s.requests[id], n)
  {
    hide Next, Advance;
    if n > 0 {
      AloneIsARun(s, id, n - 1);
      assert Steps(id, n)[..n - 1] == Steps(id, n - 1);
      NextAdvances(Run(s, Steps(id, n - 1)), id);
    }
  }

  lemma NextAdvances(s: State, id: nat)
    requires id in s.requests
    ensures var end := Next(s, Step(id, Works));
            id in end.requests && (end.sh, end.requests[id]) == Advance(s.sh, s.requests[id], Works)
  {
    hide Advance;
  }

  // ---------------------------------------------------------- how it ends

  lemma OneMore(sh: Shared, r: Request, n: nat)
    ensures Alone(sh, r, 0) == (sh, r)
    ensures Alone(sh, r, n + 1) == Advance(Alone(sh, r, n).0, Alone(sh, r, n).1, Works)
  {
    hide Advance;
  }

  lemma Locks(sh: Shared, id: nat, presented: Token)
    ensures var (end, r) := Advance(sh, Request(id, presented, Arrived, 0), Works);
            if LockHeld(sh) then end == sh && r.phase == Done(RateLimited)
            else
              && end == sh.(entries := sh.entries[RefreshLock := Entry(LockToken(id), sh.now + 5 * 1000)])
              && r == Request(id, presented, Locked, sh.now + 5 * 1000)
  {
  }

  lemma Reads(sh: Shared, r: Request)
    requires r.phase == Locked
    ensures Advance(sh, r, Works) ==
              (sh, r.(phase := if !sh.session.active then Leaving(SessionExpired)
                               else if Sha256(r.presented) == sh.session.hash then Matched(sh.session)
                               else Mismatched(sh.session)))
  {
  }

  lemma LooksUp(sh: Shared, r: Request)
    requires r.phase == Mismatched(sh.session)
    ensures forall pair :: Replayable(sh, r.presented, pair) ==>
              Advance(sh, r, Works) == (sh, r.(phase := Leaving(Raced(sh.session, pair))))
    ensures (forall pair :: !Replayable(sh, r.presented, pair)) ==>
              Advance(sh, r, Works) == (sh, r.(phase := Revoking(sh.session)))
  {
    var key := RefreshReplay(Sha256(r.presented));
    if key in sh.entries && sh.now < sh.entries[key].expiresAt && sh.entries[key].value.ReplayRecord? {
      var found := sh.entries[key].value;
      assert found.version == sh.session.version - 1 ==> Replayable(sh, r.presented, found.pair);
    }
  }

  lemma Revokes(sh: Shared, r: Request)
    requires r.phase == Revoking(sh.session)
    ensures Advance(sh, r, Works) ==
              (sh.(session := sh.session.(active := false)), r.(phase := Leaving(ReuseDetected(sh.session))))
  {
  }

  lemma Leaves(sh: Shared, r: Request, before: map<Key, Entry<Stored>>)
    requires r.phase.Leaving?
    requires RefreshLock in sh.entries && sh.entries[RefreshLock].value == LockToken(r.id)
    requires sh.now < sh.entries[RefreshLock].expiresAt
    requires sh.entries - {RefreshLock} == before - {RefreshLock}
    ensures Advance(sh, r, Works) ==
              (sh.(entries := before - {RefreshLock}), r.(phase := Done(r.phase.outcome)))
  {
  }

  lemma Rotates(sh: Shared, r: Request)
    requires r.phase == Matched(sh.session)
    ensures var pair := Pair(sh.nextSerial, Token(sh.nextSerial));
            var rotated := Session(sh.session.version + 1, Sha256(pair.refresh), sh.session.active);
            var record := Entry(ReplayRecord(pair, sh.session.version), sh.now + 10 * 1000);
            Alone(sh, r, 3) ==
              (sh.(session := rotated, nextSerial := sh.nextSerial + 1,
                   entries := sh.entries[RefreshReplay(Sha256(r.presented)) := record]),
               r.(phase := Leaving(Rotated(pair))))
  {
    OneMore(sh, r, 0);
    OneMore(sh, r, 1);
    OneMore(sh, r, 2);
    hide Alone;
    var pair := Pair(sh.nextSerial, Token(sh.nextSerial));
    var issued := Alone(sh, r, 1);
    assert issued == (sh.(nextSerial := sh.nextSerial + 1), r.(phase := Issued(sh.session, pair)));
    var swapped := Alone(sh, r, 2);
    assert swapped.1 == r.(phase := Committed(sh.session, pair));
  }

  /** An undisturbed call ends as the session row and the stored records say. */
  lemma UndisturbedCall(sh: Shared, id: nat, presented: Token)
    ensures var (end, r) := Alone(sh, Request(id, presented, Arrived, 0), STEPS);
            r.phase.Done? && EndsRight(sh, presented, end, r.phase.outcome)
  {
    hide Advance, Alone, EndsRight;
    var r0 := Request(id, presented, Arrived, 0);
    OneMore(sh, r0, 0);
    Locks(sh, id, presented);
    if LockHeld(sh) {
      DoneStays(sh, r0, 1, STEPS);
      RefusedRight(sh, presented);
    } else {
      var (inside, locked) := Alone(sh, r0, 1);
      OneMore(sh, r0, 1);
      Reads(inside, locked);
      if sh.session.active && Sha256(presented) == sh.session.hash {
        Wins(sh, id, presented);
      } else {
        Loses(sh, id, presented);
      }
    }
  }

  lemma RefusedRight(sh: Shared, presented: Token)
    requires LockHeld(sh)
    ensures EndsRight(sh, presented, sh, RateLimited)
  {
  }

  /** The state and the request once the lock is taken. */
  function Inside(sh: Shared, id: nat): Shared {
    sh.(entries := sh.entries[RefreshLock := Entry(LockToken(id), sh.now + 5 * 1000)])
  }

  function Holding(sh: Shared, id: nat, presented: Token): Request {
    Request(id, presented, Locked, sh.now + 5 * 1000)
  }

  lemma Wins(sh: Shared, id: nat, presented: Token)
    requires !LockHeld(sh) && sh.session.active && Sha256(presented) == sh.session.hash
    ensures var (end, r) := Alone(sh, Request(id, presented, Arrived, 0), STEPS);
            r.phase.Done? && EndsRight(sh, presented, end, r.phase.outcome)
  {
    hide Advance, Alone, EndsRight;
    var r0, inside, locked := Request(id, presented, Arrived, 0), Inside(sh, id), Holding(sh, id, presented);
    Locks(sh, id, presented);
    OneMore(sh, r0, 0);
    Reads(inside, locked);
    OneMore(sh, r0, 1);
    var matched := locked.(phase := Matched(sh.session));
    assert Alone(sh, r0, 2) == (inside, matched);
    Rotates(inside, matched);
    AloneConcat(sh, r0, 2, 3);
    var (swapped, leaving) := Alone(sh, r0, 5);
    var pair := Pair(sh.nextSerial, Token(sh.nextSerial));
    var record := Entry(ReplayRecord(pair, sh.session.version), sh.now + 10 * 1000);
    var kept := sh.entries[RefreshReplay(Sha256(presented)) := record];
    assert swapped.entries - {RefreshLock} == kept - {RefreshLock};
    Leaves(swapped, leaving, kept);
    OneMore(sh, r0, 5);
    DoneStays(sh, r0, 6, STEPS);
    WonRight(sh, presented, Alone(sh, r0, STEPS).0);
  }

  lemma WonRight(sh: Shared, presented: Token, end: Shared)
    requires !LockHeld(sh) && sh.session.active && Sha256(presented) == sh.session.hash
    requires var pair := Pair(sh.nextSerial, Token(sh.nextSerial));
             var record := Entry(ReplayRecord(pair, sh.session.version), sh.now + 10 * 1000);
             && end.session == Session(sh.session.version + 1, Sha256(pair.refresh), true)
             && end.entries == sh.entries[RefreshReplay(Sha256(presented)) := record] - {RefreshLock}
             && end.nextSerial == sh.nextSerial + 1 && end.now == sh.now
    ensures EndsRight(sh, presented, end, Rotated(Pair(sh.nextSerial, Token(sh.nextSerial))))
  {
  }

  lemma Loses(sh: Shared, id: nat, presented: Token)
    requires !LockHeld(sh) && !(sh.session.active && Sha256(presented) == sh.session.hash)
    ensures var (end, r) := Alone(sh, Request(id, presented, Arrived, 0), STEPS);
            r.phase.Done? && EndsRight(sh, presented, end, r.phase.outcome)
  {
    hide Advance, Alone;
    var r0, inside, locked := Request(id, presented, Arrived, 0), Inside(sh, id), Holding(sh, id, presented);
    Locks(sh, id, presented);
    OneMore(sh, r0, 0);
    Reads(inside, locked);
    OneMore(sh, r0, 1);
    assert inside.entries - {RefreshLock} == sh.entries - {RefreshLock};
    if !sh.session.active {
      Departs(sh, id, presented, 2, inside, locked.(phase := Leaving(SessionExpired)), SessionExpired);
    } else {
      var r := locked.(phase := Mismatched(sh.session));
      LooksUp(inside, r);
      SameRecords(sh, id, presented);
      OneMore(sh, r0, 2);
      if pair :| Replayable(sh, presented, pair) {
        assert Replayable(inside, presented, pair);
        Departs(sh, id, presented, 3, inside, r.(phase := Leaving(Raced(sh.session, pair))), Raced(sh.session, pair));
      } else {
        Revokes(inside, r.(phase := Revoking(sh.session)));
        OneMore(sh, r0, 3);
        Departs(sh, id, presented, 4, inside.(session := sh.session.(active := false)),
                r.(phase := Leaving(ReuseDetected(sh.session))), ReuseDetected(sh.session));
      }
    }
  }

  lemma SameRecords(sh: Shared, id: nat, presented: Token)
    ensures forall pair :: Replayable(Inside(sh, id), presented, pair) <==> Replayable(sh, presented, pair)
  {
  }

  /** Releasing the lock, and nothing else, after a call that did not rotate. */
  lemma Departs(sh: Shared, id: nat, presented: Token, n: nat, last: Shared, leaving: Request, outcome: Outcome)
    requires !LockHeld(sh) && n < STEPS
    requires Alone(sh, Request(id, presented, Arrived, 0), n) == (last, leaving)
    requires leaving == Holding(sh, id, presented).(phase := Leaving(outcome))
    requires last == Inside(sh, id).(session := last.session)
    requires EndsRight(sh, presented, last.(entries := sh.entries - {RefreshLock}), outcome)
    ensures var (end, r) := Alone(sh, Request(id, presented, Arrived, 0), STEPS);
            r.phase.Done? && EndsRight(sh, presented, end, r.phase.outcome)
  {
    hide Advance, Alone, EndsRight;
    assert last.entries - {RefreshLock} == sh.entries - {RefreshLock};
    Leaves(last, leaving, sh.entries);
    OneMore(sh, Request(id, presented, Arrived, 0), n);
    DoneStays(sh, Request(id, presented, Arrived, 0), n + 1, STEPS);
  }
}
