/** What every interleaving of refresh requests keeps, and what follows from it. */
module RefreshSafety {
  import opened Options
  import opened RedisStore
  import opened RefreshProtocol

  // ------------------------------------------------------------ preservation

  lemma InitialInv(s: State)
    requires Initial(s)
    ensures Inv(s)
  {
  }

  /** History only grows. */
  ghost predicate Extends(s: State, s': State) {
    && s'.base == s.base
    && s.lineage <= s'.lineage
    && s.rotations <= s'.rotations
    && s.sh.session.version <= s'.sh.session.version
    && s.sh.nextSerial <= s'.sh.nextSerial
    && s.sh.now <= s'.sh.now
  }

  lemma SawLater(s: State, s': State, seen: Session)
    requires Saw(s, seen) && Extends(s, s')
    ensures Saw(s', seen)
  {
  }

  lemma OutcomeLater(s: State, s': State, r: Request, outcome: Outcome)
    requires OutcomeInv(s, r, outcome) && Extends(s, s')
    ensures OutcomeInv(s', r, outcome)
  {
    hide Extends;
    assert s.rotations <= s'.rotations && s'.base == s.base by { OnlyGrows(s, s'); }
    match outcome
    case Raced(seen, _) => SawLater(s, s', seen);
    case ReuseDetected(seen) => SawLater(s, s', seen);
    case Conflict(seen) => SawLater(s, s', seen);
    case Rotated(pair) =>
      var i :| 0 <= i < |s.rotations| && s.rotations[i] == Rotation(Sha256(r.presented), pair, r.id);
      assert s'.rotations[i] == s.rotations[i];
    case _ =>
  }

  lemma OnlyGrows(s: State, s': State)
    requires Extends(s, s')
    ensures s.rotations <= s'.rotations && s'.base == s.base && s.sh.nextSerial <= s'.sh.nextSerial
  {
  }

  /** A request that did not move keeps its invariant while the history grows around it. */
  lemma RequestLater(s: State, s': State, r: Request)
    requires RequestInv(s, r) && Extends(s, s')
    requires r.phase.Issued? ==> Sha256(r.phase.pair.refresh) !in s'.lineage
    ensures RequestInv(s', r)
  {
    hide Extends, Saw, OutcomeInv;
    OnlyGrows(s, s');
    match r.phase
    case Matched(seen) => SawLater(s, s', seen);
    case Mismatched(seen) => SawLater(s, s', seen);
    case Revoking(seen) => SawLater(s, s', seen);
    case Issued(seen, _) => SawLater(s, s', seen);
    case Committed(seen, _) => SawLater(s, s', seen);
    case Leaving(outcome) => OutcomeLater(s, s', r, outcome);
    case Done(outcome) => OutcomeLater(s, s', r, outcome);
    case _ =>
  }

  // ---- events other than a request's step

  lemma QuietExtends(s: State, e: Event)
    requires !e.Step?
    ensures Extends(s, Next(s, e))
    ensures Next(s, e).rotations == s.rotations && Next(s, e).lineage == s.lineage
    ensures Next(s, e).sh.entries == s.sh.entries && Next(s, e).sh.session == s.sh.session
    ensures Next(s, e).remembered == s.remembered && Next(s, e).revocations == s.revocations
    ensures Next(s, e).sh.nextSerial == s.sh.nextSerial
  {
  }

  lemma QuietRequest(s: State, e: Event, id: nat)
    requires RequestsInv(s) && !e.Step? && id in Next(s, e).requests
    ensures var s' := Next(s, e);
            s'.requests[id].id == id && RequestInv(s', s'.requests[id]) && LeaseInv(s', s'.requests[id])
  {
    var s' := Next(s, e);
    QuietExtends(s, e);
    if id in s.requests {
      assert RequestInv(s, s.requests[id]) && LeaseInv(s, s.requests[id]);
      if s'.requests[id] == s.requests[id] {
        hide RequestInv;
        RequestLater(s, s', s.requests[id]);
      }
    }
  }

  lemma QuietRequests(s: State, e: Event)
    requires RequestsInv(s) && !e.Step?
    ensures RequestsInv(Next(s, e))
  {
    var s' := Next(s, e);
    hide RequestInv, LeaseInv;
    QuietExtends(s, e);
    forall id | id in s'.requests
      ensures s'.requests[id].id == id && RequestInv(s', s'.requests[id]) && LeaseInv(s', s'.requests[id])
    {
      QuietRequest(s, e, id);
    }
    assert forall id :: id in s'.requests && s'.requests[id].phase.Issued? ==>
             id in s.requests && s'.requests[id] == s.requests[id];
    assert forall id :: id in s.requests ==>
             id in s'.requests && (HasCommitted(s.requests[id]) ==> HasCommitted(s'.requests[id]));
    hide Next;
  }

  lemma QuietRevocations(s: State, e: Event)
    requires RevocationInv(s) && !e.Step?
    ensures RevocationInv(Next(s, e))
  {
    var s' := Next(s, e);
    QuietExtends(s, e);
    assert forall id :: id in s.requests ==> id in s'.requests && s'.requests[id].presented == s.requests[id].presented;
    forall id | id in s.revocations
      ensures Saw(s', s.revocations[id])
    {
      SawLater(s, s', s.revocations[id]);
    }
    hide Next, Saw;
  }

  lemma QuietLineage(s: State, e: Event)
    requires LineageInv(s) && !e.Step?
    ensures LineageInv(Next(s, e))
  {
    QuietExtends(s, e);
    hide Next;
  }

  lemma QuietRecords(s: State, e: Event)
    requires RecordsInv(s) && !e.Step?
    ensures RecordsInv(Next(s, e))
  {
    QuietExtends(s, e);
    hide Next, Extends, RememberedAt, RecordOf;
    assert RefreshLock in s.sh.entries ==> s.sh.entries[RefreshLock].value.LockToken?;
    hide RecordsInv;
    RecordsLater(s, Next(s, e));
  }

  lemma QuietInv(s: State, e: Event)
    requires Inv(s) && !e.Step?
    ensures Inv(Next(s, e))
  {
    hide LineageInv, RecordsInv, RequestsInv, RevocationInv, Next;
    QuietLineage(s, e);
    QuietRecords(s, e);
    QuietRequests(s, e);
    QuietRevocations(s, e);
  }

  // ---- a request's step

  /** What a step does to the session row and its history: one swap, or nothing. */
  lemma StepHistory(s: State, id: nat, effect: Effect)
    requires id in s.requests
    ensures var s' := StepRequest(s, id, effect);
            var r := s.requests[id];
            && s'.base == s.base && s'.sh.now == s.sh.now
            && s.sh.nextSerial <= s'.sh.nextSerial
            && (Swaps(s.sh, r, effect) ==>
                  && s'.sh.session.version == s.sh.session.version + 1
                  && s'.sh.session.hash == Sha256(r.phase.pair.refresh)
                  && s'.lineage == s.lineage + [Sha256(r.phase.pair.refresh)]
                  && s'.rotations == s.rotations + [Rotation(Sha256(r.presented), r.phase.pair, id)])
            && (!Swaps(s.sh, r, effect) ==>
                  && s'.sh.session.version == s.sh.session.version && s'.sh.session.hash == s.sh.session.hash
                  && s'.lineage == s.lineage && s'.rotations == s.rotations)
  {
  }

  lemma StepExtends(s: State, id: nat, effect: Effect)
    requires id in s.requests
    ensures Extends(s, StepRequest(s, id, effect))
  {
    StepHistory(s, id, effect);
    hide StepRequest;
  }

  lemma StepLineage(s: State, id: nat, effect: Effect)
    requires LineageInv(s) && id in s.requests && RequestInv(s, s.requests[id])
    ensures LineageInv(StepRequest(s, id, effect))
  {
    StepHistory(s, id, effect);
    hide StepRequest;
  }

  /** Steps that leave the replay records alone keep the records' invariant. */
  lemma RecordsLater(s: State, s': State)
    requires RecordsInv(s) && Extends(s, s')
    requires s'.remembered == s.remembered
    requires RefreshLock in s'.sh.entries ==> s'.sh.entries[RefreshLock].value.LockToken?
    requires forall d :: RefreshReplay(d) in s.sh.entries <==> RefreshReplay(d) in s'.sh.entries
    requires forall d :: RefreshReplay(d) in s.sh.entries ==>
               s'.sh.entries[RefreshReplay(d)] == s.sh.entries[RefreshReplay(d)]
    ensures RecordsInv(s')
  {
    forall i | i in s'.remembered
      ensures RememberedAt(s', i)
    {
      assert RememberedAt(s, i);
      assert s'.rotations[i] == s.rotations[i];
    }
    forall d | RefreshReplay(d) in s'.sh.entries
      ensures RecordOf(s', d)
    {
      assert RecordOf(s, d);
      var i := s.sh.entries[RefreshReplay(d)].value.version - s.base;
      assert s'.rotations[i] == s.rotations[i];
    }
  }

  lemma RecordsWith(s: State, s': State, k: int, record: Entry<Stored>)
    requires RecordsInv(s) && 0 <= k < |s.rotations|
    requires forall i :: 0 <= i < |s.rotations| && i != k ==> s.rotations[i].consumed != s.rotations[k].consumed
    requires s'.base == s.base && s'.rotations == s.rotations
    requires s'.remembered == s.remembered[k := s.sh.now]
    requires record == Entry(ReplayRecord(s.rotations[k].pair, s.base + k), s.sh.now + GRACE_SECONDS * MS_PER_SECOND)
    requires s'.sh.entries == s.sh.entries[RefreshReplay(s.rotations[k].consumed) := record]
    ensures RecordsInv(s')
  {
    forall i | i in s'.remembered
      ensures RememberedAt(s', i)
    {
      if i != k {
        assert RememberedAt(s, i);
      }
    }
    forall d | RefreshReplay(d) in s'.sh.entries
      ensures RecordOf(s', d)
    {
      if d != s.rotations[k].consumed {
        assert RecordOf(s, d);
      }
    }
  }

  lemma RememberRecords(s: State, id: nat, effect: Effect)
    requires LineageInv(s) && RecordsInv(s)
    requires id in s.requests && RequestInv(s, s.requests[id]) && Remembers(s.requests[id], effect)
    ensures RecordsInv(StepRequest(s, id, effect))
  {
    hide LineageInv, RecordsInv, StepRequest, RequestInv;
    var r := s.requests[id];
    RememberShape(s, id, effect);
    CommittedRotation(s, r);
    forall i | 0 <= i < |s.rotations| && i != r.phase.seen.version - s.base
      ensures s.rotations[i].consumed != s.rotations[r.phase.seen.version - s.base].consumed
    {
      ConsumedApart(s, i, r.phase.seen.version - s.base);
    }
    RecordsWith(s, StepRequest(s, id, effect), r.phase.seen.version - s.base,
      Entry(ReplayRecord(r.phase.pair, r.phase.seen.version), s.sh.now + GRACE_SECONDS * MS_PER_SECOND));
  }

  lemma RememberShape(s: State, id: nat, effect: Effect)
    requires id in s.requests && Remembers(s.requests[id], effect)
    ensures var s' := StepRequest(s, id, effect);
            var r := s.requests[id];
            && s'.base == s.base && s'.rotations == s.rotations
            && s'.remembered == s.remembered[r.phase.seen.version - s.base := s.sh.now]
            && s'.sh.entries == s.sh.entries[RefreshReplay(Sha256(r.presented)) :=
                 Entry(ReplayRecord(r.phase.pair, r.phase.seen.version), s.sh.now + GRACE_SECONDS * MS_PER_SECOND)]
  {
  }

  lemma CommittedRotation(s: State, r: Request)
    requires r.phase.Committed? && RequestInv(s, r)
    ensures var k := r.phase.seen.version - s.base;
            && 0 <= k < |s.rotations|
            && s.rotations[k].consumed == Sha256(r.presented) && s.rotations[k].pair == r.phase.pair
  {
  }

  lemma ConsumedApart(s: State, i: int, k: int)
    requires LineageInv(s) && 0 <= i < |s.rotations| && 0 <= k < |s.rotations| && i != k
    ensures s.rotations[i].consumed != s.rotations[k].consumed
  {
    assert s.lineage[i] != s.lineage[k];
  }

  lemma StepRecords(s: State, id: nat, effect: Effect)
    requires LineageInv(s) && RecordsInv(s)
    requires id in s.requests && RequestInv(s, s.requests[id])
    ensures RecordsInv(StepRequest(s, id, effect))
  {
    hide RequestInv, LineageInv, StepRequest, Extends;
    if Remembers(s.requests[id], effect) {
      RememberRecords(s, id, effect);
    } else {
      StepExtends(s, id, effect);
      StepLeavesRecords(s, id, effect);
      hide RecordsInv;
      RecordsLater(s, StepRequest(s, id, effect));
    }
  }

  lemma StepLeavesRecords(s: State, id: nat, effect: Effect)
    requires id in s.requests && !Remembers(s.requests[id], effect)
    requires RefreshLock in s.sh.entries ==> s.sh.entries[RefreshLock].value.LockToken?
    ensures var s' := StepRequest(s, id, effect);
            && s'.remembered == s.remembered
            && (RefreshLock in s'.sh.entries ==> s'.sh.entries[RefreshLock].value.LockToken?)
            && (forall d :: RefreshReplay(d) in s.sh.entries <==> RefreshReplay(d) in s'.sh.entries)
            && (forall d :: RefreshReplay(d) in s.sh.entries ==>
                  s'.sh.entries[RefreshReplay(d)] == s.sh.entries[RefreshReplay(d)])
  {
  }

  /** The record found for a presented digest is that of the rotation one step before what was read. */
  lemma LineageLength(s: State)
    requires LineageInv(s)
    ensures |s.lineage| == |s.rotations| + 1
  {
  }

  lemma FoundRecord(s: State, presented: Digest, seen: Session)
    requires |s.lineage| == |s.rotations| + 1 && RecordsInv(s) && Saw(s, seen)
    requires FindRaced(s.sh.entries, s.sh.now, presented, seen.version).Some?
    ensures var i := seen.version - s.base;
            && 1 <= i <= |s.rotations|
            && s.rotations[i - 1].consumed == presented
            && FindRaced(s.sh.entries, s.sh.now, presented, seen.version).value == s.rotations[i - 1].pair
  {
  }

  lemma StepSelf(s: State, id: nat, effect: Effect)
    requires LineageInv(s) && RecordsInv(s) && id in s.requests && s.requests[id].id == id
    requires RequestInv(s, s.requests[id])
    ensures var s' := StepRequest(s, id, effect); RequestInv(s', s'.requests[id])
  {
    var r := s.requests[id];
    match r.phase
    case Arrived =>
    case Locked => SelfRead(s, id, effect);
    case Matched(_) => SelfIssue(s, id, effect);
    case Mismatched(_) => SelfFind(s, id, effect);
    case Issued(_, _) => SelfSwap(s, id, effect);
    case Committed(_, _) => SelfRemember(s, id, effect);
    case Revoking(_) => SelfRevoke(s, id, effect);
    case Leaving(_) => SelfRelease(s, id, effect);
    case Done(_) => SelfRelease(s, id, effect);
  }

  lemma SelfRead(s: State, id: nat, effect: Effect)
    requires LineageInv(s) && id in s.requests && s.requests[id].phase.Locked?
    ensures var s' := StepRequest(s, id, effect); RequestInv(s', s'.requests[id])
  {
    StepHistory(s, id, effect);
  }

  lemma SelfFind(s: State, id: nat, effect: Effect)
    requires LineageInv(s) && RecordsInv(s) && id in s.requests && s.requests[id].phase.Mismatched?
    requires RequestInv(s, s.requests[id])
    ensures var s' := StepRequest(s, id, effect); RequestInv(s', s'.requests[id])
  {
    var r := s.requests[id];
    FindOutcome(s, r, effect);
    StepExtends(s, id, effect);
    assert StepRequest(s, id, effect).requests[id] == FindStep(s.sh, r, effect);
    hide RecordsInv, LineageInv, StepRequest, RequestInv, Extends;
    RequestLater(s, StepRequest(s, id, effect), FindStep(s.sh, r, effect));
  }

  lemma FindOutcome(s: State, r: Request, effect: Effect)
    requires LineageInv(s) && RecordsInv(s) && r.phase.Mismatched? && RequestInv(s, r)
    ensures RequestInv(s, FindStep(s.sh, r, effect)) && !FindStep(s.sh, r, effect).phase.Issued?
  {
    hide RecordsInv, LineageInv, FindRaced, Saw;
    var seen := r.phase.seen;
    assert Saw(s, seen) && Sha256(r.presented) != seen.hash;
    var found := FindRaced(s.sh.entries, s.sh.now, Sha256(r.presented), seen.version);
    LineageLength(s);
    if effect == Works && found.Some? {
      FoundRecord(s, Sha256(r.presented), seen);
      assert FindStep(s.sh, r, effect) == r.(phase := Leaving(Raced(seen, found.value)));
      assert OutcomeInv(s, FindStep(s.sh, r, effect), Raced(seen, found.value));
    }
  }

  lemma SelfIssue(s: State, id: nat, effect: Effect)
    requires LineageInv(s) && id in s.requests && s.requests[id].phase.Matched?
    requires RequestInv(s, s.requests[id])
    ensures var s' := StepRequest(s, id, effect); RequestInv(s', s'.requests[id])
  {
    StepHistory(s, id, effect);
  }

  lemma SelfSwap(s: State, id: nat, effect: Effect)
    requires LineageInv(s) && id in s.requests && s.requests[id].phase.Issued? && s.requests[id].id == id
    requires RequestInv(s, s.requests[id])
    ensures var s' := StepRequest(s, id, effect); RequestInv(s', s'.requests[id])
  {
    StepHistory(s, id, effect);
  }

  lemma SelfRemember(s: State, id: nat, effect: Effect)
    requires id in s.requests && s.requests[id].phase.Committed?
    requires RequestInv(s, s.requests[id])
    ensures var s' := StepRequest(s, id, effect); RequestInv(s', s'.requests[id])
  {
    var r := s.requests[id];
    StepHistory(s, id, effect);
    assert s.rotations[r.phase.seen.version - s.base] in s.rotations;
  }

  lemma SelfRevoke(s: State, id: nat, effect: Effect)
    requires id in s.requests && s.requests[id].phase.Revoking?
    requires RequestInv(s, s.requests[id])
    ensures var s' := StepRequest(s, id, effect); RequestInv(s', s'.requests[id])
  {
    StepHistory(s, id, effect);
  }

  lemma SelfRelease(s: State, id: nat, effect: Effect)
    requires id in s.requests && (s.requests[id].phase.Leaving? || s.requests[id].phase.Done?)
    requires RequestInv(s, s.requests[id])
    ensures var s' := StepRequest(s, id, effect); RequestInv(s', s'.requests[id])
  {
    StepExtends(s, id, effect);
    hide Extends, OutcomeInv;
    OutcomeLater(s, StepRequest(s, id, effect), s.requests[id], s.requests[id].phase.outcome);
    assert OutcomeInv(StepRequest(s, id, effect), s.requests[id], Failed) by {
      FailedSaysNothing(StepRequest(s, id, effect), s.requests[id]);
    }
    SameOutcome(StepRequest(s, id, effect), s.requests[id], StepRequest(s, id, effect).requests[id],
                s.requests[id].phase.outcome);
    SameOutcome(StepRequest(s, id, effect), s.requests[id], StepRequest(s, id, effect).requests[id], Failed);
  }

  lemma FailedSaysNothing(s: State, r: Request)
    ensures OutcomeInv(s, r, Failed)
  {
  }

  lemma SameOutcome(s: State, r: Request, r': Request, outcome: Outcome)
    requires r.id == r'.id && r.presented == r'.presented
    ensures OutcomeInv(s, r, outcome) == OutcomeInv(s, r', outcome)
  {
  }

  /** The digest a swap installs was issued to that request alone. */
  lemma OthersStayFresh(s: State, id: nat, effect: Effect, other: nat)
    requires RequestsInv(s) && id in s.requests && other in s.requests && other != id
    requires s.requests[other].phase.Issued?
    ensures Sha256(s.requests[other].phase.pair.refresh) !in StepRequest(s, id, effect).lineage
  {
    assert RequestInv(s, s.requests[other]);
    StepHistory(s, id, effect);
    hide StepRequest;
  }

  lemma StepOthers(s: State, id: nat, effect: Effect, other: nat)
    requires RequestsInv(s) && id in s.requests && other in s.requests && other != id
    ensures var s' := StepRequest(s, id, effect);
            other in s'.requests && s'.requests[other] == s.requests[other] && RequestInv(s', s.requests[other])
  {
    var s' := StepRequest(s, id, effect);
    assert RequestInv(s, s.requests[other]);
    StepExtends(s, id, effect);
    if s.requests[other].phase.Issued? {
      OthersStayFresh(s, id, effect, other);
    }
    hide RequestInv, Extends, RequestsInv;
    RequestLater(s, s', s.requests[other]);
  }

  /** What a step does to the lock entry and to the stepping request's lease. */
  lemma StepLock(s: State, id: nat, effect: Effect)
    requires id in s.requests && s.requests[id].id == id
    ensures var s' := StepRequest(s, id, effect);
            var r, r' := s.requests[id], s'.requests[id];
            && r'.id == id
            && (r.phase.Arrived? ==>
                  var free := Lookup(s.sh.entries, s.sh.now, RefreshLock).None?;
                  && (Critical(r') ==> free && RefreshLock in s'.sh.entries
                                       && s'.sh.entries[RefreshLock] == Entry(LockToken(id), r'.leaseEnd))
                  && (!free ==> s'.sh.entries == s.sh.entries))
            && (!r.phase.Arrived? ==>
                  && r'.leaseEnd == r.leaseEnd
                  && (Critical(r') ==> Critical(r) && !r.phase.Leaving?))
            && (!r.phase.Arrived? && !r.phase.Leaving? ==>
                  && (RefreshLock in s'.sh.entries <==> RefreshLock in s.sh.entries)
                  && (RefreshLock in s.sh.entries ==> s'.sh.entries[RefreshLock] == s.sh.entries[RefreshLock]))
            && (r.phase.Leaving? && RefreshLock in s.sh.entries && s.sh.entries[RefreshLock].value != LockToken(id) ==>
                  RefreshLock in s'.sh.entries && s'.sh.entries[RefreshLock] == s.sh.entries[RefreshLock])
            && (forall x :: x in s.requests && x != id ==> s'.requests[x] == s.requests[x])
  {
  }

  lemma StepLeases(s: State, id: nat, effect: Effect, other: nat)
    requires id in s.requests && other in s.requests
    requires s.requests[id].id == id && s.requests[other].id == other
    requires LeaseInv(s, s.requests[id]) && LeaseInv(s, s.requests[other])
    ensures var s' := StepRequest(s, id, effect); other in s'.requests && LeaseInv(s', s'.requests[other])
  {
    StepLock(s, id, effect);
    StepHistory(s, id, effect);
    assert StepRequest(s, id, effect).requests.Keys == s.requests.Keys;
    hide StepRequest;
  }

  /** What a step does to the stepping request's phase, as far as issuing and committing go. */
  lemma StepPhase(s: State, id: nat, effect: Effect)
    requires id in s.requests
    ensures var s' := StepRequest(s, id, effect);
            var r, r' := s.requests[id], s'.requests[id];
            && s'.requests.Keys == s.requests.Keys
            && (forall x :: x in s.requests && x != id ==> s'.requests[x] == s.requests[x])
            && r'.id == r.id && r'.presented == r.presented
            && (r'.phase.Issued? ==> r.phase.Matched? && r'.phase.pair.refresh == Token(s.sh.nextSerial))
            && (HasCommitted(r) ==> HasCommitted(r'))
            && (Swaps(s.sh, r, effect) ==> !HasCommitted(r) && HasCommitted(r'))
  {
  }

  lemma StepIssuedApart(s: State, id: nat, effect: Effect, x: nat, y: nat)
    requires RequestsInv(s) && id in s.requests && x in s.requests && y in s.requests && x != y
    ensures var s' := StepRequest(s, id, effect);
            x in s'.requests && y in s'.requests &&
            (s'.requests[x].phase.Issued? && s'.requests[y].phase.Issued? ==>
              s'.requests[x].phase.pair.refresh != s'.requests[y].phase.pair.refresh)
  {
    assert RequestInv(s, s.requests[x]) && RequestInv(s, s.requests[y]);
    StepPhase(s, id, effect);
    hide StepRequest;
  }

  lemma StepCommitters(s: State, id: nat, effect: Effect)
    requires RequestsInv(s) && id in s.requests
    ensures var s' := StepRequest(s, id, effect);
            && (forall i :: 0 <= i < |s'.rotations| ==>
                  s'.rotations[i].request in s'.requests && HasCommitted(s'.requests[s'.rotations[i].request]))
            && (forall i, j :: 0 <= i < j < |s'.rotations| ==> s'.rotations[i].request != s'.rotations[j].request)
  {
    StepPhase(s, id, effect);
    StepHistory(s, id, effect);
    hide StepRequest, RequestInv, LeaseInv, HasCommitted, Swaps;
  }

  lemma StepRequests(s: State, id: nat, effect: Effect)
    requires LineageInv(s) && RecordsInv(s) && RequestsInv(s) && id in s.requests
    ensures RequestsInv(StepRequest(s, id, effect))
  {
    var s' := StepRequest(s, id, effect);
    hide LineageInv, RecordsInv, RequestInv, LeaseInv, StepRequest;
    StepPhase(s, id, effect);
    forall other | other in s'.requests
      ensures s'.requests[other].id == other
      ensures RequestInv(s', s'.requests[other]) && LeaseInv(s', s'.requests[other])
    {
      StepLeases(s, id, effect, other);
      if other == id {
        StepSelf(s, id, effect);
      } else {
        StepOthers(s, id, effect, other);
      }
    }
    forall x, y | x in s'.requests && y in s'.requests && x != y
      ensures s'.requests[x].phase.Issued? && s'.requests[y].phase.Issued? ==>
                s'.requests[x].phase.pair.refresh != s'.requests[y].phase.pair.refresh
    {
      StepIssuedApart(s, id, effect, x, y);
    }
    StepCommitters(s, id, effect);
  }

  /** A step revokes only in the revoking phase, and records what was seen. */
  lemma StepRevokes(s: State, id: nat, effect: Effect)
    requires id in s.requests
    ensures var s' := StepRequest(s, id, effect);
            var r := s.requests[id];
            && (s'.sh.session.active != s.sh.session.active ==> r.phase.Revoking? && TakesEffect(effect))
            && s'.revocations ==
                 (if r.phase.Revoking? && TakesEffect(effect) then s.revocations[id := r.phase.seen] else s.revocations)
  {
  }

  lemma StepRevocations(s: State, id: nat, effect: Effect)
    requires RevocationInv(s) && id in s.requests && RequestInv(s, s.requests[id])
    ensures RevocationInv(StepRequest(s, id, effect))
  {
    var s' := StepRequest(s, id, effect);
    StepRevokes(s, id, effect);
    StepPhase(s, id, effect);
    StepExtends(s, id, effect);
    hide StepRequest, Extends, Saw;
    assert s.revocations != map[] ==> s'.revocations != map[];
    forall x | x in s'.revocations
      ensures x in s'.requests && Saw(s', s'.revocations[x])
           && Sha256(s'.requests[x].presented) != s'.revocations[x].hash
    {
      SawLater(s, s', s'.revocations[x]);
    }
  }

  lemma NextInv(s: State, e: Event)
    requires Inv(s)
    ensures Inv(Next(s, e)) && Extends(s, Next(s, e))
  {
    if e.Step? && e.id in s.requests {
      StepInv(s, e.id, e.effect);
      StepExtends(s, e.id, e.effect);
      hide StepRequest, Extends, Inv;
    } else if e.Step? {
    } else {
      hide Inv, Extends;
      QuietInv(s, e);
      QuietExtends(s, e);
    }
  }

  lemma StepInv(s: State, id: nat, effect: Effect)
    requires Inv(s) && id in s.requests
    ensures Inv(StepRequest(s, id, effect))
  {
    hide StepRequest, LineageInv, RecordsInv, RevocationInv;
    assert RequestInv(s, s.requests[id]);
    hide RequestInv, RequestsInv;
    StepLineage(s, id, effect);
    StepRecords(s, id, effect);
    StepRequests(s, id, effect);
    StepRevocations(s, id, effect);
  }

  lemma {:induction false} RunInv(s: State, events: seq<Event>)
    requires Initial(s)
    ensures Inv(Run(s, events))
  {
    if events == [] {
      InitialInv(s);
    } else {
      RunInv(s, events[..|events| - 1]);
      NextInv(Run(s, events[..|events| - 1]), events[|events| - 1]);
    }
  }
}
