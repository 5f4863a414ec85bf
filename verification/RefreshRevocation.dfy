/** In every run: a revocation takes effect and lasts, and an inactive session gives nothing to whoever reads it. */
module RefreshRevocation {
  import opened RefreshProtocol
  import opened RefreshSafety

  // ------------------------------------------------------------ every revocation

  predicate ToldOfReuse(r: Request) {
    match r.phase
    case Leaving(outcome) => outcome.ReuseDetected?
    case Done(outcome) => outcome.ReuseDetected?
    case _ => false
  }

  predicate RevokedIsInactive(s: State) {
    && (s.revocations != map[] ==> !s.sh.session.active)
    && (forall id :: id in s.requests && ToldOfReuse(s.requests[id]) ==> !s.sh.session.active)
  }

  lemma RevocationTakesEffect(s: State, e: Event)
    requires RevokedIsInactive(s)
    ensures RevokedIsInactive(Next(s, e))
  {
  }

  lemma {:induction false} RunRevoked(s: State, events: seq<Event>)
    requires Initial(s)
    ensures RevokedIsInactive(Run(s, events))
  {
    if events != [] {
      hide Next, RevokedIsInactive;
      RunRevoked(s, events[..|events| - 1]);
      RevocationTakesEffect(Run(s, events[..|events| - 1]), events[|events| - 1]);
    }
  }

  lemma InactiveStays(s: State, e: Event)
    requires !s.sh.session.active
    ensures !Next(s, e).sh.session.active
  {
  }

  lemma {:induction false} RunInactive(s: State, later: seq<Event>)
    requires !s.sh.session.active
    ensures !Run(s, later).sh.session.active
  {
    if later != [] {
      hide Next;
      RunInactive(s, later[..|later| - 1]);
      InactiveStays(Run(s, later[..|later| - 1]), later[|later| - 1]);
    }
  }

  /**
   * In every run the session is inactive exactly if some request has revoked
   * it, and in particular as soon as one was told of reuse; and it is inactive
   * for good.
   */
  lemma ReuseEndsTheSession(s: State, events: seq<Event>, later: seq<Event>)
    requires Initial(s)
    ensures var end := Run(s, events);
            && (!end.sh.session.active <==> end.revocations != map[])
            && (forall id :: id in end.requests && ToldOfReuse(end.requests[id]) ==> !end.sh.session.active)
            && (!end.sh.session.active ==> !Run(end, later).sh.session.active)
  {
    hide Run, LineageInv, RecordsInv, RequestsInv;
    RunInv(s, events);
    RunRevoked(s, events);
    var end := Run(s, events);
    if !end.sh.session.active { RunInactive(end, later); }
  }

  // ----------------------------------------------------- reading a dead session

  /** The request has not read the session yet, or was turned away. */
  predicate TurnedAway(r: Request) {
    match r.phase
    case Arrived => true
    case Locked => true
    case Leaving(outcome) => outcome.SessionExpired? || outcome.Failed?
    case Done(outcome) => outcome.SessionExpired? || outcome.RateLimited? || outcome.Failed?
    case _ => false
  }

  predicate Barred(s: State, id: nat) {
    && !s.sh.session.active
    && (id in s.requests ==> TurnedAway(s.requests[id]))
    && (forall i :: 0 <= i < |s.rotations| ==> s.rotations[i].request != id)
  }

  lemma BarredStep(s: State, e: Event, id: nat)
    requires Barred(s, id)
    ensures Barred(Next(s, e), id)
  {
    if e.Step? && e.id in s.requests {
      StepHistory(s, e.id, e.effect);
    }
  }

  lemma {:induction false} BarredRun(s: State, later: seq<Event>, id: nat)
    requires Barred(s, id)
    ensures Barred(Run(s, later), id)
  {
    if later != [] {
      hide Next, Barred;
      BarredRun(s, later[..|later| - 1], id);
      BarredStep(Run(s, later[..|later| - 1]), later[|later| - 1], id);
    }
  }

  predicate HasNotRead(s: State, id: nat) {
    id in s.requests ==> s.requests[id].phase.Arrived? || s.requests[id].phase.Locked?
  }

  /**
   * In every run, a request that has not read the session by the time it is
   * inactive never rotates it, is never served a pair, and can only be turned
   * away.
   */
  lemma InactiveSessionGivesNothing(s: State, events: seq<Event>, later: seq<Event>, id: nat)
    requires Initial(s) && !Run(s, events).sh.session.active && HasNotRead(Run(s, events), id)
    ensures var end := Run(Run(s, events), later);
            && (id in end.requests ==> TurnedAway(end.requests[id]))
            && (forall i :: 0 <= i < |end.rotations| ==> end.rotations[i].request != id)
  {
    hide Run, LineageInv, RecordsInv, RevocationInv, RequestInv, LeaseInv;
    RunInv(s, events);
    BarredRun(Run(s, events), later, id);
  }
}
