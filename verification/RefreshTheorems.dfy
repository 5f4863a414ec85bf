/** The promises of refresh-token rotation, over every run. */
module RefreshTheorems {
  import opened Options
  import opened RedisStore
  import opened RefreshProtocol
  import opened RefreshSafety

  // ---------------------------------------------------------- single lineage

  /** The version moves only at a committed swap, by exactly one, and the log gains exactly that rotation. */
  lemma VersionMovesByOne(s: State, e: Event)
    ensures var s' := Next(s, e);
            var commits := e.Step? && e.id in s.requests && Swaps(s.sh, s.requests[e.id], e.effect);
            && s'.sh.session.version == s.sh.session.version + (if commits then 1 else 0)
            && s'.rotations == s.rotations +
                 (if commits
                  then [Rotation(Sha256(s.requests[e.id].presented), s.requests[e.id].phase.pair, e.id)] else [])
            && (commits ==> s.requests[e.id].phase.seen.version == s.sh.session.version)
            && (s'.sh.session.hash != s.sh.session.hash ==> commits)
  {
    if e.Step? && e.id in s.requests {
      StepHistory(s, e.id, e.effect);
      hide StepRequest;
    } else if !e.Step? {
      QuietExtends(s, e);
    }
  }

  /**
   * In every interleaving, lapsed locks and lost replies included: the version
   * counts the committed rotations; no token is consumed by two of them; no
   * request commits two; and each rotation consumes what the one before it
   * installed, the last one's token being the session's.
   */
  lemma SingleLineage(s: State, events: seq<Event>)
    requires Initial(s)
    ensures var end := Run(s, events);
            && end.sh.session.version == s.sh.session.version + |end.rotations|
            && (forall i, j :: 0 <= i < j < |end.rotations| ==>
                  && end.rotations[i].consumed != end.rotations[j].consumed
                  && end.rotations[i].request != end.rotations[j].request)
            && (forall i :: 0 <= i < |end.rotations| ==>
                  end.rotations[i].consumed ==
                    if i == 0 then s.sh.session.hash else Sha256(end.rotations[i - 1].pair.refresh))
            && end.sh.session.hash ==
                 (if end.rotations == [] then s.sh.session.hash
                  else Sha256(end.rotations[|end.rotations| - 1].pair.refresh))
  {
    RunInv(s, events);
    RunStart(s, events);
    var end := Run(s, events);
    hide Run, RequestInv, LeaseInv, RecordsInv, RevocationInv;
    forall i, j | 0 <= i < j < |end.rotations|
      ensures end.rotations[i].consumed != end.rotations[j].consumed
    {
      assert end.lineage[i] != end.lineage[j];
    }
  }

  lemma {:induction false} RunStart(s: State, events: seq<Event>)
    requires Initial(s)
    ensures Run(s, events).base == s.sh.session.version
    ensures |Run(s, events).lineage| > 0 && Run(s, events).lineage[0] == s.sh.session.hash
  {
    if events != [] {
      var before := events[..|events| - 1];
      RunStart(s, before);
      RunInv(s, before);
      NextInv(Run(s, before), events[|events| - 1]);
      hide Next, Inv;
    }
  }

  /** What a run guarantees about one request. */
  lemma RunFacts(s: State, events: seq<Event>, id: nat)
    requires Initial(s) && id in Run(s, events).requests
    ensures Inv(Run(s, events)) && RequestInv(Run(s, events), Run(s, events).requests[id])
  {
    RunInv(s, events);
    hide Run, LineageInv, RecordsInv, RevocationInv, RequestInv, LeaseInv;
  }

  lemma EndedInv(s: State, r: Request, outcome: Outcome)
    requires RequestInv(s, r) && Ended(r, outcome)
    ensures OutcomeInv(s, r, outcome)
  {
    hide OutcomeInv;
  }

  predicate Ended(r: Request, outcome: Outcome) {
    r.phase == Leaving(outcome) || r.phase == Done(outcome)
  }

  /** A caller told its tokens rotated holds the pair of a committed rotation that consumed what it presented. */
  lemma RotatedMeansCommitted(s: State, events: seq<Event>, id: nat, pair: Pair)
    requires Initial(s)
    requires var end := Run(s, events); id in end.requests && Ended(end.requests[id], Rotated(pair))
    ensures var end := Run(s, events); Rotation(Sha256(end.requests[id].presented), pair, id) in end.rotations
  {
    hide Run, RequestInv, Inv, Initial;
    RunFacts(s, events, id);
    EndedInv(Run(s, events), Run(s, events).requests[id], Rotated(pair));
    RotatedRequest(s, events, id);
  }

  lemma RotatedRequest(s: State, events: seq<Event>, id: nat)
    requires Initial(s) && id in Run(s, events).requests
    ensures Run(s, events).requests[id].id == id
  {
    RunInv(s, events);
    hide Run, LineageInv, RecordsInv, RevocationInv, RequestInv, LeaseInv;
  }

  // ------------------------------------------------------------ grace window

  /**
   * A pair served from the grace window is exactly the pair of the rotation
   * that consumed the presented token; that rotation produced the very version
   * the request read, so the served refresh token is the one the session held
   * at that read; and no older rotation consumed the presented token.
   */
  lemma GraceIsFaithfulAndOneDeep(s: State, events: seq<Event>, id: nat, seen: Session, pair: Pair)
    requires Initial(s)
    requires var end := Run(s, events); id in end.requests && Ended(end.requests[id], Raced(seen, pair))
    ensures var end := Run(s, events);
            var i := seen.version - end.base;
            && 1 <= i <= |end.rotations|
            && end.rotations[i - 1].consumed == Sha256(end.requests[id].presented)
            && end.rotations[i - 1].pair == pair
            && Sha256(pair.refresh) == seen.hash
            && forall j :: 0 <= j < |end.rotations| && j != i - 1 ==>
                 end.rotations[j].consumed != Sha256(end.requests[id].presented)
  {
    hide Run, Next, RequestInv, LineageInv, RecordsInv, RequestsInv, RevocationInv, Ended, OutcomeInv, Initial;
    RunFacts(s, events, id);
    var end := Run(s, events);
    EndedInv(end, end.requests[id], Raced(seen, pair));
    ServedAt(end, end.requests[id], seen, pair);
  }

  lemma ServedAt(s: State, r: Request, seen: Session, pair: Pair)
    requires LineageInv(s) && OutcomeInv(s, r, Raced(seen, pair))
    ensures var i := seen.version - s.base;
            && 1 <= i <= |s.rotations|
            && s.rotations[i - 1].consumed == Sha256(r.presented)
            && s.rotations[i - 1].pair == pair
            && Sha256(pair.refresh) == seen.hash
            && forall j :: 0 <= j < |s.rotations| && j != i - 1 ==> s.rotations[j].consumed != Sha256(r.presented)
  {
    var i := seen.version - s.base;
    forall j | 0 <= j < |s.rotations| && j != i - 1
      ensures s.rotations[j].consumed != Sha256(r.presented)
    {
      ConsumedApart(s, j, i - 1);
    }
  }

  /**
   * The window is one deep at the read, not at the serve. When a request is
   * served, the pair is still current exactly when the session has not moved
   * since that request read it.
   */
  lemma ServedPairIsCurrentIff(s: State, events: seq<Event>, id: nat)
    requires Initial(s)
    requires var end := Run(s, events);
             && id in end.requests && end.requests[id].phase.Mismatched?
             && Next(end, Step(id, Works)).requests[id].phase.Leaving?
    ensures var end := Run(s, events);
            var seen := end.requests[id].phase.seen;
            var outcome := Next(end, Step(id, Works)).requests[id].phase.outcome;
            && outcome.Raced?
            && (Sha256(outcome.pair.refresh) == end.sh.session.hash <==> end.sh.session.version == seen.version)
  {
    hide Run, Next, Initial, LineageInv, RecordsInv, RequestsInv, RevocationInv, RequestInv;
    RunFacts(s, events, id);
    ServedIsCurrentIff(Run(s, events), id);
  }

  lemma ServedIsCurrentIff(s: State, id: nat)
    requires LineageInv(s) && RecordsInv(s)
    requires id in s.requests && RequestInv(s, s.requests[id]) && s.requests[id].phase.Mismatched?
    requires Next(s, Step(id, Works)).requests[id].phase.Leaving?
    ensures var seen := s.requests[id].phase.seen;
            var outcome := Next(s, Step(id, Works)).requests[id].phase.outcome;
            && outcome.Raced?
            && (Sha256(outcome.pair.refresh) == s.sh.session.hash <==> s.sh.session.version == seen.version)
  {
    hide Next, LineageInv, RecordsInv, FindRaced;
    var r := s.requests[id];
    ServeStep(s, id);
    LineageLength(s);
    FoundRecord(s, Sha256(r.presented), r.phase.seen);
    CurrentIff(s, r.phase.seen.version - s.base);
  }

  lemma ServeStep(s: State, id: nat)
    requires id in s.requests && s.requests[id].phase.Mismatched?
    requires Next(s, Step(id, Works)).requests[id].phase.Leaving?
    ensures var r := s.requests[id];
            var found := FindRaced(s.sh.entries, s.sh.now, Sha256(r.presented), r.phase.seen.version);
            && found.Some?
            && Next(s, Step(id, Works)).requests[id].phase.outcome == Raced(r.phase.seen, found.value)
  {
  }

  lemma CurrentIff(s: State, i: int)
    requires LineageInv(s) && 1 <= i <= |s.rotations|
    ensures Sha256(s.rotations[i - 1].pair.refresh) == s.sh.session.hash <==> s.sh.session.version == s.base + i
  {
    assert Sha256(s.rotations[i - 1].pair.refresh) == s.lineage[i];
    assert i < |s.rotations| ==> s.lineage[i] != s.lineage[|s.rotations|];
  }

  // ---- a lapsed lock lets a request be served a token the session has already left

  const START := State(
    Shared(0, Session(0, Sha256(Token(0)), true), map[], 1),
    map[], 0, [Sha256(Token(0))], [], map[], map[])

  /** Request 1 rotates; request 2 reads and stalls past its lock; request 3 rotates again; request 2 looks up. */
  const LAPSE_EVENTS: seq<Event> := [
    Arrive(1, Token(0)), Step(1, Works), Step(1, Works), Step(1, Works), Step(1, Works), Step(1, Works), Step(1, Works),
    Arrive(2, Token(0)), Step(2, Works), Step(2, Works),
    Tick(6000),
    Arrive(3, Token(1)), Step(3, Works), Step(3, Works), Step(3, Works), Step(3, Works),
    Step(2, Works)]

  lemma RunPrefix(s: State, events: seq<Event>, k: nat)
    requires k < |events|
    ensures Run(s, events[..k + 1]) == Next(Run(s, events[..k]), events[k])
  {
    assert events[..k + 1][..k] == events[..k];
  }

  lemma EmptyRun(s: State)
    ensures Run(s, []) == s
  {
  }

  /** The first request, event by event, up to its release. */
  predicate Stage(s: State, k: nat) {
    && s.sh.now == 0 && s.base == 0
    && (k == 0 ==> s == START)
    && (k >= 1 ==> s.requests.Keys == {1} && s.requests[1].id == 1 && s.requests[1].presented == Token(0))
    && (k == 1 ==> s.requests[1].phase == Arrived)
    && (k == 2 ==> s.requests[1].phase == Locked)
    && (k == 3 ==> s.requests[1].phase == Matched(START.sh.session))
    && (k == 4 ==> s.requests[1].phase == Issued(START.sh.session, Pair(1, Token(1))))
    && (k == 5 ==> s.requests[1].phase == Committed(START.sh.session, Pair(1, Token(1))))
    && (k == 6 ==> s.requests[1].phase == Leaving(Rotated(Pair(1, Token(1)))))
    && s.sh.nextSerial == (if k < 4 then 1 else 2)
    && s.sh.session == (if k < 5 then START.sh.session else Session(1, Sha256(Token(1)), true))
    && (k <= 1 ==> s.sh.entries == map[])
    && (2 <= k <= 5 ==> s.sh.entries == map[RefreshLock := Entry(LockToken(1), 5000)])
    && (k == 6 ==> s.sh.entries == map[
          RefreshLock := Entry(LockToken(1), 5000),
          RefreshReplay(Sha256(Token(0))) := Entry(ReplayRecord(Pair(1, Token(1)), 0), 10000)])
    && (k == 7 ==> s.sh.entries == map[
          RefreshReplay(Sha256(Token(0))) := Entry(ReplayRecord(Pair(1, Token(1)), 0), 10000)])
  }

  lemma StageReads(s: State, k: nat)
    requires k < 4 && Stage(s, k)
    ensures Stage(Next(s, LAPSE_EVENTS[k]), k + 1)
  {
  }

  lemma StageWrites(s: State, k: nat)
    requires 4 <= k < 7 && Stage(s, k)
    ensures Stage(Next(s, LAPSE_EVENTS[k]), k + 1)
  {
  }

  lemma AfterFirstRotation() returns (s: State)
    ensures s == Run(START, LAPSE_EVENTS[..7])
    ensures s.sh.now == 0 && s.sh.session == Session(1, Sha256(Token(1)), true) && s.sh.nextSerial == 2
    ensures s.sh.entries == map[RefreshReplay(Sha256(Token(0))) := Entry(ReplayRecord(Pair(1, Token(1)), 0), 10000)]
    ensures s.requests.Keys == {1} && s.base == 0
  {
    s := START;
    EmptyRun(START);
    assert LAPSE_EVENTS[..0] == [];
    hide Run, Next;
    for k := 0 to 7
      invariant s == Run(START, LAPSE_EVENTS[..k]) && Stage(s, k)
    {
      hide Stage;
      RunPrefix(START, LAPSE_EVENTS, k);
      if k < 4 { StageReads(s, k); } else { StageWrites(s, k); }
      s := Next(s, LAPSE_EVENTS[k]);
    }
  }

  const ONE := Session(1, Sha256(Token(1)), true)

  /** Request 2 has read version 1 with the consumed token, and its lock has lapsed. */
  lemma AfterStall() returns (s: State)
    ensures s == Run(START, LAPSE_EVENTS[..11])
    ensures s.sh.now == 6000 && s.sh.session == ONE && s.sh.nextSerial == 2
    ensures s.requests.Keys == {1, 2}
    ensures s.requests[2] == Request(2, Token(0), Mismatched(ONE), 5000)
    ensures s.sh.entries == map[
        RefreshReplay(Sha256(Token(0))) := Entry(ReplayRecord(Pair(1, Token(1)), 0), 10000),
        RefreshLock := Entry(LockToken(2), 5000)]
  {
    hide Run;
    s := AfterFirstRotation();
    var record := map[RefreshReplay(Sha256(Token(0))) := Entry(ReplayRecord(Pair(1, Token(1)), 0), 10000)];
    for k := 7 to 11
      invariant s == Run(START, LAPSE_EVENTS[..k])
      invariant s.requests.Keys == if k == 7 then {1} else {1, 2}
      invariant k == 8 ==> s.requests[2] == Request(2, Token(0), Arrived, 0)
      invariant k == 9 ==> s.requests[2] == Request(2, Token(0), Locked, 5000)
      invariant k >= 10 ==> s.requests[2] == Request(2, Token(0), Mismatched(ONE), 5000)
      invariant s.sh.now == if k <= 10 then 0 else 6000
      invariant s.sh.nextSerial == 2 && s.sh.session == ONE
      invariant s.sh.entries == if k <= 8 then record else record[RefreshLock := Entry(LockToken(2), 5000)]
    {
      RunPrefix(START, LAPSE_EVENTS, k);
      s := Next(s, LAPSE_EVENTS[k]);
    }
  }

  /** A concrete run in which the pair served is one rotation behind the session, which is not revoked. */
  lemma LapsedLockServesAnOlderPair()
    ensures Initial(START)
    ensures var end := Run(START, LAPSE_EVENTS);
            && 2 in end.requests && end.requests[2].phase.Leaving?
            && end.requests[2].phase.outcome == Raced(ONE, Pair(1, Token(1)))
            && end.sh.session == Session(2, Sha256(Token(2)), true)
  {
    hide Run;
    var s := AfterStall();
    var key := RefreshReplay(Sha256(Token(0)));
    for k := 11 to 16
      invariant s == Run(START, LAPSE_EVENTS[..k])
      invariant 2 in s.requests && s.requests[2] == Request(2, Token(0), Mismatched(ONE), 5000)
      invariant k <= 11 ==> 3 !in s.requests
      invariant k > 11 ==> 3 in s.requests && s.requests[3].id == 3
      invariant k == 12 ==> s.requests[3].presented == Token(1) && s.requests[3].phase == Arrived
      invariant k == 13 ==> s.requests[3].presented == Token(1) && s.requests[3].phase == Locked
      invariant k == 14 ==> s.requests[3].phase == Matched(ONE)
      invariant k == 15 ==> s.requests[3].phase == Issued(ONE, Pair(2, Token(2)))
      invariant s.sh.now == 6000
      invariant k < 15 ==> s.sh.nextSerial == 2
      invariant s.sh.session == if k < 16 then ONE else Session(2, Sha256(Token(2)), true)
      invariant key in s.sh.entries && s.sh.entries[key] == Entry(ReplayRecord(Pair(1, Token(1)), 0), 10000)
      invariant k <= 12 ==> RefreshLock in s.sh.entries && s.sh.entries[RefreshLock].expiresAt == 5000
    {
      RunPrefix(START, LAPSE_EVENTS, k);
      s := Next(s, LAPSE_EVENTS[k]);
    }
    RunPrefix(START, LAPSE_EVENTS, 16);
    assert LAPSE_EVENTS[..17] == LAPSE_EVENTS;
  }

  // -------------------------------------------------------------- revocation

  /**
   * Whoever revoked the session had presented a token that did not match the
   * session it read; losing the swap never revokes.
   */
  lemma RevocationNeedsMismatch(s: State, events: seq<Event>)
    requires Initial(s)
    ensures var end := Run(s, events);
            && (!end.sh.session.active ==> end.revocations != map[])
            && (forall id :: id in end.revocations ==>
                  id in end.requests && Sha256(end.requests[id].presented) != end.revocations[id].hash)
            && (forall id :: id in end.requests && LostTheSwap(end.requests[id]) ==> id !in end.revocations)
  {
    RunInv(s, events);
    RevokersNeverConflict(s, events);
    hide Run, LineageInv, RecordsInv, RequestsInv;
  }

  /** The request was told that its swap lost. */
  predicate LostTheSwap(r: Request) {
    match r.phase
    case Leaving(outcome) => outcome.Conflict?
    case Done(outcome) => outcome.Conflict?
    case _ => false
  }

  /** Only a request whose token matched at its read is told that it lost. */
  lemma ConflictMeansMatched(s: State, events: seq<Event>, id: nat, seen: Session)
    requires Initial(s)
    requires var end := Run(s, events); id in end.requests && Ended(end.requests[id], Conflict(seen))
    ensures Sha256(Run(s, events).requests[id].presented) == seen.hash
  {
    hide Run, RequestInv, Inv, Initial;
    RunFacts(s, events, id);
    EndedInv(Run(s, events), Run(s, events).requests[id], Conflict(seen));
  }

  /** A request that has revoked is on its way out with that verdict, or failed. */
  predicate AfterRevoking(r: Request) {
    match r.phase
    case Leaving(outcome) => outcome.ReuseDetected? || outcome.Failed?
    case Done(outcome) => outcome.ReuseDetected? || outcome.Failed?
    case _ => false
  }

  ghost predicate RevokersDone(s: State) {
    forall id :: id in s.revocations ==> id in s.requests && AfterRevoking(s.requests[id])
  }

  lemma {:induction false} RevokersNeverConflict(s: State, events: seq<Event>)
    requires Initial(s)
    ensures RevokersDone(Run(s, events))
  {
    if events != [] {
      var before := events[..|events| - 1];
      RevokersNeverConflict(s, before);
      RevokersStep(Run(s, before), events[|events| - 1]);
      hide Next, RevokersDone;
    }
  }

  lemma RevokersStep(s: State, e: Event)
    requires RevokersDone(s)
    ensures RevokersDone(Next(s, e))
  {
  }

  // ------------------------------------------------------------ orderly runs

  /** Two requests inside the critical section on unexpired leases are the same request. */
  lemma MutualExclusion(s: State, events: seq<Event>, x: nat, y: nat)
    requires Initial(s)
    requires var end := Run(s, events);
             && x in end.requests && Critical(end.requests[x]) && end.sh.now < end.requests[x].leaseEnd
             && y in end.requests && Critical(end.requests[y]) && end.sh.now < end.requests[y].leaseEnd
    ensures x == y
  {
    RunInv(s, events);
    OneHolder(Run(s, events), x, y);
  }

  lemma OneHolder(s: State, x: nat, y: nat)
    requires RequestsInv(s) && x in s.requests && y in s.requests
    requires Critical(s.requests[x]) && s.sh.now < s.requests[x].leaseEnd
    requires Critical(s.requests[y]) && s.sh.now < s.requests[y].leaseEnd
    ensures x == y
  {
    assert LeaseInv(s, s.requests[x]) && LeaseInv(s, s.requests[y]);
  }

  /**
   * No critical section has outlived its lock, and every rotation's record has
   * been written unless its request is about to write it.
   */
  ghost predicate Orderly(s: State) {
    && (forall id :: id in s.requests && Critical(s.requests[id]) ==> s.sh.now < s.requests[id].leaseEnd)
    && (forall i :: 0 <= i < |s.rotations| ==>
          || i in s.remembered
          || (s.rotations[i].request in s.requests && s.requests[s.rotations[i].request].phase.Committed?))
  }

  ghost predicate OrderlyRun(s: State, events: seq<Event>) {
    forall k :: 0 <= k <= |events| ==> Orderly(Run(s, events[..k]))
  }

  /** The request presents the token consumed by the rotation that led to the version it read. */
  ghost predicate PresentsPrevious(s: State, r: Request, seen: Session) {
    var i := seen.version - s.base;
    1 <= i <= |s.rotations| && s.rotations[i - 1].consumed == Sha256(r.presented)
  }

  ghost function RecordExpiry(s: State, seen: Session): int
    requires seen.version - s.base - 1 in s.remembered
  {
    s.remembered[seen.version - s.base - 1] + GRACE_SECONDS * MS_PER_SECOND
  }

  /** The record of the rotation before the version read was written at least ten seconds ago. */
  ghost predicate WindowOver(s: State, seen: Session) {
    seen.version - s.base - 1 in s.remembered && RecordExpiry(s, seen) <= s.sh.now
  }

  /** While one request is critical, the rotation behind any other has been remembered. */
  lemma PreviousIsRemembered(s: State, id: nat, seen: Session)
    requires RequestsInv(s) && Orderly(s) && id in s.requests
    requires Critical(s.requests[id]) && !s.requests[id].phase.Committed?
    requires PresentsPrevious(s, s.requests[id], seen)
    ensures seen.version - s.base - 1 in s.remembered
  {
    var i := seen.version - s.base - 1;
    var winner := s.rotations[i].request;
    if i !in s.remembered {
      OneHolder(s, id, winner);
    }
  }

  /**
   * In an orderly run, a request presenting the immediately previous token
   * within the record's lifetime is served the winner's pair.
   */
  lemma PreviousTokenIsServed(s: State, events: seq<Event>, id: nat, seen: Session)
    requires Initial(s) && Orderly(Run(s, events))
    requires var end := Run(s, events);
             && id in end.requests && end.requests[id].phase == Mismatched(seen)
             && PresentsPrevious(end, end.requests[id], seen)
    ensures seen.version - Run(s, events).base - 1 in Run(s, events).remembered
    ensures var end := Run(s, events);
            end.sh.now < RecordExpiry(end, seen) ==>
              Next(end, Step(id, Works)).requests[id].phase
                == Leaving(Raced(seen, end.rotations[seen.version - end.base - 1].pair))
  {
    hide Run, LineageInv, RevocationInv, RecordsInv, RequestsInv, Orderly, PresentsPrevious, Next, Initial;
    RunInv(s, events);
    PreviousIsServedAt(Run(s, events), id, seen);
  }

  lemma PreviousIsServedAt(s: State, id: nat, seen: Session)
    requires RecordsInv(s) && RequestsInv(s) && Orderly(s)
    requires id in s.requests && s.requests[id].phase == Mismatched(seen)
    requires PresentsPrevious(s, s.requests[id], seen)
    ensures seen.version - s.base - 1 in s.remembered
    ensures id in Next(s, Step(id, Works)).requests
    ensures s.sh.now < RecordExpiry(s, seen) ==>
              Next(s, Step(id, Works)).requests[id].phase
                == Leaving(Raced(seen, s.rotations[seen.version - s.base - 1].pair))
  {
    hide Next, FindRaced, RememberedAt, RequestsInv, Orderly;
    FindPhase(s, id, seen);
    PreviousIsRemembered(s, id, seen);
    assert RememberedAt(s, seen.version - s.base - 1);
    hide RecordsInv;
    RecordIsFound(s, s.requests[id], seen);
  }

  lemma FindPhase(s: State, id: nat, seen: Session)
    requires id in s.requests && s.requests[id].phase == Mismatched(seen)
    ensures var found := FindRaced(s.sh.entries, s.sh.now, Sha256(s.requests[id].presented), seen.version);
            id in Next(s, Step(id, Works)).requests &&
            Next(s, Step(id, Works)).requests[id].phase ==
              if found.Some? then Leaving(Raced(seen, found.value)) else Revoking(seen)
  {
  }

  /** A remembered, unexpired record is what the previous token's lookup finds; an expired one is not found. */
  lemma RecordIsFound(s: State, r: Request, seen: Session)
    requires PresentsPrevious(s, r, seen)
    requires var i := seen.version - s.base - 1; i in s.remembered && RememberedAt(s, i)
    ensures FindRaced(s.sh.entries, s.sh.now, Sha256(r.presented), seen.version)
         == if s.sh.now < RecordExpiry(s, seen) then Some(s.rotations[seen.version - s.base - 1].pair) else None
  {
  }

  /**
   * In an orderly run, a request about to revoke never presents the
   * immediately previous token inside the record's lifetime.
   */
  lemma {:induction false} RevokesOnlyOutsideTheWindow(s: State, events: seq<Event>, id: nat, seen: Session)
    requires Initial(s) && OrderlyRun(s, events)
    requires var end := Run(s, events);
             && id in end.requests && end.requests[id].phase == Revoking(seen)
             && PresentsPrevious(end, end.requests[id], seen)
    ensures WindowOver(Run(s, events), seen)
  {
    assert events != [];
    var before, e := events[..|events| - 1], events[|events| - 1];
    RunInv(s, before);
    OrderlyBefore(s, events);
    var s0 := Run(s, before);
    assert Run(s, events) == Next(s0, e);
    hide Run;
    BeforeRevoking(s0, e, id, seen);
    hide OrderlyRun, Orderly, Inv, PresentsPrevious, Next, WindowOver;
    if s0.requests[id].phase == Revoking(seen) {
      RevokesOnlyOutsideTheWindow(s, before, id, seen);
      WaitingToRevoke(s0, e, id, seen);
    } else {
      NothingFound(s0, id, seen);
      FindKeepsWindow(s0, id, seen);
    }
  }

  lemma OrderlyBefore(s: State, events: seq<Event>)
    requires OrderlyRun(s, events) && events != []
    ensures var before := events[..|events| - 1]; OrderlyRun(s, before) && Orderly(Run(s, before))
  {
    hide Orderly, Run;
    var before := events[..|events| - 1];
    forall k | 0 <= k <= |before|
      ensures Orderly(Run(s, before[..k]))
    {
      assert before[..k] == events[..k];
    }
    assert before[..|before|] == before;
  }

  /** A request that stands at revoking was there already, or has just found no record. */
  lemma BeforeRevoking(s: State, e: Event, id: nat, seen: Session)
    requires Inv(s) && id in Next(s, e).requests && Next(s, e).requests[id].phase == Revoking(seen)
    requires PresentsPrevious(Next(s, e), Next(s, e).requests[id], seen)
    ensures id in s.requests && PresentsPrevious(s, s.requests[id], seen)
    ensures s.requests[id].phase == Revoking(seen) || JustFoundNothing(s, e, id, seen)
  {
    hide Next, Inv, Swaps;
    BeforeRevokingPhase(s, e, id, seen);
    VersionMovesByOne(s, e);
    SameBase(s, e);
    SeenInRange(s, id, seen);
  }

  lemma SeenInRange(s: State, id: nat, seen: Session)
    requires Inv(s) && id in s.requests
    requires s.requests[id].phase == Revoking(seen) || s.requests[id].phase == Mismatched(seen)
    ensures 0 <= seen.version - s.base <= |s.rotations|
  {
    assert RequestInv(s, s.requests[id]);
    hide RequestsInv, RecordsInv, RevocationInv;
  }

  ghost predicate JustFoundNothing(s: State, e: Event, id: nat, seen: Session)
    requires id in s.requests
  {
    && e == Step(id, Works)
    && s.requests[id].phase == Mismatched(seen)
    && FindRaced(s.sh.entries, s.sh.now, Sha256(s.requests[id].presented), seen.version).None?
  }

  lemma SameBase(s: State, e: Event)
    ensures Next(s, e).base == s.base
  {
  }

  lemma BeforeRevokingPhase(s: State, e: Event, id: nat, seen: Session)
    requires id in Next(s, e).requests && Next(s, e).requests[id].phase == Revoking(seen)
    ensures id in s.requests && s.requests[id].presented == Next(s, e).requests[id].presented
    ensures s.requests[id].phase == Revoking(seen) || JustFoundNothing(s, e, id, seen)
  {
  }

  /** Only a committed request writes a record. */
  lemma RememberedStays(s: State, e: Event, i: int)
    requires i in s.remembered
    requires e.Step? && e.id in s.requests ==> !s.requests[e.id].phase.Committed?
    ensures Next(s, e).base == s.base && s.sh.now <= Next(s, e).sh.now
    ensures i in Next(s, e).remembered && Next(s, e).remembered[i] == s.remembered[i]
  {
  }

  lemma WaitingToRevoke(s: State, e: Event, id: nat, seen: Session)
    requires Inv(s) && Orderly(s) && id in s.requests && s.requests[id].phase == Revoking(seen)
    requires WindowOver(s, seen)
    ensures WindowOver(Next(s, e), seen)
  {
    hide LineageInv, RecordsInv, RevocationInv, Next;
    if e.Step? && e.id in s.requests && s.requests[e.id].phase.Committed? {
      OneHolder(s, id, e.id);
      assert false;
    }
    RememberedStays(s, e, seen.version - s.base - 1);
  }

  lemma NothingFound(s: State, id: nat, seen: Session)
    requires Inv(s) && Orderly(s) && id in s.requests && s.requests[id].phase == Mismatched(seen)
    requires FindRaced(s.sh.entries, s.sh.now, Sha256(s.requests[id].presented), seen.version).None?
    requires PresentsPrevious(s, s.requests[id], seen)
    ensures WindowOver(s, seen)
  {
    hide LineageInv, RevocationInv, FindRaced;
    hide Orderly, RequestsInv, PresentsPrevious, WindowOver;
    PreviousIsRemembered(s, id, seen);
    RememberedIsKept(s, seen.version - s.base - 1);
    hide *;
    RecordIsFound(s, s.requests[id], seen);
    WindowOverIff(s, seen);
  }

  lemma RememberedIsKept(s: State, i: int)
    requires RecordsInv(s) && i in s.remembered
    ensures RememberedAt(s, i)
  {
  }

  lemma WindowOverIff(s: State, seen: Session)
    requires seen.version - s.base - 1 in s.remembered
    ensures WindowOver(s, seen) <==> RecordExpiry(s, seen) <= s.sh.now
  {
  }

  lemma FindKeepsWindow(s: State, id: nat, seen: Session)
    requires id in s.requests && s.requests[id].phase == Mismatched(seen) && WindowOver(s, seen)
    ensures WindowOver(Next(s, Step(id, Works)), seen)
  {
    RememberedStays(s, Step(id, Works), seen.version - s.base - 1);
    hide Next;
  }

  // ------------------------------------------------- reads in an orderly run

  /** The request acts on a session it has read and not yet moved. */
  predicate Reading(r: Request) {
    r.phase.Matched? || r.phase.Mismatched? || r.phase.Issued? || r.phase.Revoking?
  }

  ghost predicate ReadsCurrent(s: State) {
    forall id :: id in s.requests && Reading(s.requests[id]) ==>
      s.requests[id].phase.seen.version == s.sh.session.version
  }

  /** A reading request was so before with the same session, or has just read it; it did not swap itself. */
  lemma BeforeReading(s: State, e: Event, id: nat)
    requires id in Next(s, e).requests && Reading(Next(s, e).requests[id])
    ensures id in s.requests
    ensures var r, r' := s.requests[id], Next(s, e).requests[id];
            || (Reading(r) && r'.phase.seen == r.phase.seen && Critical(r)
                && !(e.Step? && e.id == id && Swaps(s.sh, r, e.effect)))
            || (e.Step? && e.id == id && r.phase.Locked? && r'.phase.seen == s.sh.session)
  {
    hide FindRaced, Remember, SetIfNotExists, CompareAndDelete, Remembers;
  }

  lemma ReadsCurrentStep(s: State, e: Event)
    requires RequestsInv(s) && Orderly(s) && ReadsCurrent(s)
    ensures ReadsCurrent(Next(s, e))
  {
    hide Next, RequestsInv, Orderly;
    VersionMovesByOne(s, e);
    var end := Next(s, e);
    forall id | id in end.requests && Reading(end.requests[id])
      ensures end.requests[id].phase.seen.version == end.sh.session.version
    {
      BeforeReading(s, e, id);
      if e.Step? && e.id in s.requests && Swaps(s.sh, s.requests[e.id], e.effect) {
        SwapperIsAlone(s, id, e.id);
      }
    }
  }

  lemma SwapperIsAlone(s: State, id: nat, swapper: nat)
    requires RequestsInv(s) && Orderly(s) && id in s.requests && swapper in s.requests
    requires Critical(s.requests[id]) && s.requests[swapper].phase.Issued?
    ensures id == swapper
  {
    OneHolder(s, id, swapper);
  }

  lemma {:induction false} OrderlyReads(s: State, events: seq<Event>)
    requires Initial(s) && OrderlyRun(s, events)
    ensures ReadsCurrent(Run(s, events))
  {
    if events != [] {
      hide Next, Orderly, ReadsCurrent, LineageInv, RecordsInv, RequestsInv, RevocationInv;
      var before := events[..|events| - 1];
      OrderlyBefore(s, events);
      OrderlyReads(s, before);
      RunInv(s, before);
      ReadsCurrentStep(Run(s, before), events[|events| - 1]);
    }
  }

  /**
   * While no critical section outlives its lock, a request between its read and
   * its next effect on the session holds the session's current version: its
   * swap cannot be lost, and a pair served to it is the current one.
   */
  lemma OrderlyReadsAreCurrent(s: State, events: seq<Event>, id: nat)
    requires Initial(s) && OrderlyRun(s, events)
    requires id in Run(s, events).requests && Reading(Run(s, events).requests[id])
    ensures var end := Run(s, events);
            var r := end.requests[id];
            && r.phase.seen.version == end.sh.session.version
            && (r.phase.Issued? ==>
                  Next(end, Step(id, Works)).requests[id].phase == Committed(r.phase.seen, r.phase.pair))
            && (r.phase.Mismatched? && Next(end, Step(id, Works)).requests[id].phase.Leaving? ==>
                  && Next(end, Step(id, Works)).requests[id].phase.outcome.Raced?
                  && Sha256(Next(end, Step(id, Works)).requests[id].phase.outcome.pair.refresh) == end.sh.session.hash)
  {
    hide Run, Next, Initial, OrderlyRun, LineageInv, RecordsInv, RequestsInv, RevocationInv, RequestInv, Swaps;
    OrderlyReads(s, events);
    RunFacts(s, events, id);
    var end := Run(s, events);
    StepKeepsRequest(end, id);
    if end.requests[id].phase.Issued? {
      CurrentSwapCommits(end, id);
    } else if end.requests[id].phase.Mismatched? && Next(end, Step(id, Works)).requests[id].phase.Leaving? {
      ServedIsCurrentIff(end, id);
    }
  }

  /**
   * In every run a request holding its new pair commits exactly if the session
   * has not moved since it read it; otherwise it is told of the conflict, and
   * the session is left as it was.
   */
  lemma SwapWinsIff(s: State, events: seq<Event>, id: nat)
    requires Initial(s) && id in Run(s, events).requests && Run(s, events).requests[id].phase.Issued?
    ensures var end := Run(s, events);
            var Issued(seen, pair) := end.requests[id].phase;
            var after := Next(end, Step(id, Works));
            && id in after.requests
            && (if seen.version == end.sh.session.version
                then
                  && after.requests[id].phase == Committed(seen, pair)
                  && after.sh.session == Session(seen.version + 1, Sha256(pair.refresh), end.sh.session.active)
                else
                  && after.requests[id].phase == Leaving(Conflict(seen))
                  && after.sh.session == end.sh.session)
  {
    hide Run, LineageInv, RequestInv, RecordsInv, RequestsInv, RevocationInv;
    RunFacts(s, events, id);
    SwapStepIff(Run(s, events), id);
  }

  lemma SwapStepIff(s: State, id: nat)
    requires LineageInv(s) && id in s.requests && RequestInv(s, s.requests[id]) && s.requests[id].phase.Issued?
    ensures var Issued(seen, pair) := s.requests[id].phase;
            var after := Next(s, Step(id, Works));
            && id in after.requests
            && (if seen.version == s.sh.session.version
                then
                  && after.requests[id].phase == Committed(seen, pair)
                  && after.sh.session == Session(seen.version + 1, Sha256(pair.refresh), s.sh.session.active)
                else
                  && after.requests[id].phase == Leaving(Conflict(seen))
                  && after.sh.session == s.sh.session)
  {
    var seen := s.requests[id].phase.seen;
    assert seen.version == s.sh.session.version ==> seen.hash == s.sh.session.hash;
    hide LineageInv, RequestInv;
  }

  lemma StepKeepsRequest(s: State, id: nat)
    requires id in s.requests
    ensures id in Next(s, Step(id, Works)).requests
  {
  }

  lemma CurrentSwapCommits(s: State, id: nat)
    requires LineageInv(s) && id in s.requests && RequestInv(s, s.requests[id])
    requires s.requests[id].phase.Issued? && s.requests[id].phase.seen.version == s.sh.session.version
    ensures id in Next(s, Step(id, Works)).requests
    ensures var r := s.requests[id];
            Next(s, Step(id, Works)).requests[id].phase == Committed(r.phase.seen, r.phase.pair)
  {
    assert s.requests[id].phase.seen.hash == s.sh.session.hash;
    hide LineageInv, RequestInv;
  }
}
