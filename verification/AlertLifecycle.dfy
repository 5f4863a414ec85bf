/** What happens to an alert's status over every interleaving of users and checkers. */
module AlertLifecycle {
  import opened Options
  import opened Ordering
  import opened AlertEvaluator
  import opened PriceAlerts
  import opened AlertMachine

  // ------------------------------------------------------------ single steps

  lemma RowTransition(row: Alert, w: Write)
    requires Allowed(w)
    ensures var after := Updated(row, w);
            && (row.status != Active ==>
                  after.status == row.status || after.status == Expired || after.status == Cancelled)
            && (after.status == Triggered && row.status != Triggered ==>
                  w.Trigger? && w.status == Triggered && row.status == Active)
            && after.triggeredCount == row.triggeredCount + (if w.Trigger? && row.status == Active then 1 else 0)
            && after.coinId == row.coinId && after.userId == row.userId && after.cooldownMinutes == row.cooldownMinutes
  {
  }

  /**
   * Out of ACTIVE nothing leads back; a settled alert can only be relabelled
   * EXPIRED or CANCELLED; TRIGGERED is entered from ACTIVE only, by a check
   * that records the trigger at that very step.
   */
  lemma StatusMoves(s: State, e: Event, id: string)
    requires id in s.rows
    ensures id in Next(s, e).rows
    ensures var before, after := s.rows[id], Next(s, e).rows[id];
            && (before.status != Active ==>
                  after.status == before.status || after.status == Expired || after.status == Cancelled)
            && (after.status == Triggered && before.status != Triggered ==>
                  before.status == Active && e.ProcessNext? && after.triggeredCount == before.triggeredCount + 1)
            && (before.status != Active ==> after.triggeredCount == before.triggeredCount)
  {
    StepRow(s, e, id);
    EveryWriteIsAllowed(s, e, id);
    RowTransition(s.rows[id], WriteTo(s, e, id));
    OnlyChecksTrigger(s, e, id);
    hide Next, WriteTo, Updated;
  }

  lemma OnlyChecksTrigger(s: State, e: Event, id: string)
    ensures WriteTo(s, e, id).Trigger? ==> e.ProcessNext?
  {
    hide Assess, HasWork;
  }

  // -------------------------------------------------------------- whole runs

  predicate Settled(s: State, id: string) {
    id in s.rows && s.rows[id].status != Active
  }

  lemma {:induction false} SettledStays(s: State, events: seq<Event>, id: string)
    requires Settled(s, id)
    ensures Settled(Run(s, events), id) && Run(s, events).rows[id].triggeredCount == s.rows[id].triggeredCount
  {
    if events != [] {
      var last := |events| - 1;
      SettledStays(s, events[..last], id);
      hide Next;
      StatusMoves(Run(s, events[..last]), events[last], id);
    }
  }

  lemma {:induction false} RunConcat(s: State, earlier: seq<Event>, later: seq<Event>)
    ensures Run(s, earlier + later) == Run(Run(s, earlier), later)
  {
    hide Next;
    if later == [] {
      assert earlier + later == earlier;
    } else {
      var last := |later| - 1;
      RunConcat(s, earlier, later[..last]);
      assert (earlier + later)[..|earlier| + last] == earlier + later[..last];
    }
  }

  /** An alert that has left ACTIVE never returns to it, and is never triggered again. */
  lemma NeverReactivated(s: State, earlier: seq<Event>, later: seq<Event>, id: string)
    requires Settled(Run(s, earlier), id)
    ensures Settled(Run(s, earlier + later), id)
    ensures Run(s, earlier + later).rows[id].triggeredCount == Run(s, earlier).rows[id].triggeredCount
  {
    hide Run, Settled;
    RunConcat(s, earlier, later);
    SettledStays(Run(s, earlier), later, id);
  }

  /** The event takes the alert into TRIGGERED. */
  predicate Enters(s: State, e: Event, id: string) {
    && id in Next(s, e).rows && Next(s, e).rows[id].status == Triggered
    && !(id in s.rows && s.rows[id].status == Triggered)
  }

  function Entries(s: State, events: seq<Event>, id: string): nat {
    if events == [] then 0
    else
      var last := |events| - 1;
      Entries(s, events[..last], id) + (if Enters(Run(s, events[..last]), events[last], id) then 1 else 0)
  }

  /** Over any run an alert enters TRIGGERED at most once, and not at all if it ends ACTIVE. */
  lemma {:induction false} TriggeredAtMostOnce(s: State, events: seq<Event>, id: string)
    ensures Entries(s, events, id) <= 1
    ensures !Settled(Run(s, events), id) ==> Entries(s, events, id) == 0
  {
    if events != [] {
      var last := |events| - 1;
      var mid := Run(s, events[..last]);
      TriggeredAtMostOnce(s, events[..last], id);
      if id in mid.rows {
        StatusMoves(mid, events[last], id);
      } else if id in Next(mid, events[last]).rows {
        NewRow(mid, events[last], id);
      }
      hide Next;
    }
  }

  // ----------------------------------------------------------- copies in hand

  predicate Current(s: State, copy: Copy) {
    copy.id in s.rows && s.rows[copy.id] == copy.row && copy.row.status == Active
  }

  /** A copy in a check's queue was there before, or has just been read from the table. */
  lemma CopyOrigin(s: State, e: Event, c: nat, copy: Copy)
    requires c in Next(s, e).checks && copy in Next(s, e).checks[c].queue
    ensures (c in s.checks && copy in s.checks[c].queue) || Current(s, copy)
  {
    hide Apply, ExpireAll, WriteTo, FiringOf, PageIds;
    if e.ReadPage? && e.c == c && c in s.checks && s.checks[c].queue == [] && s.checks[c].more {
      var page := Page(s.rows, s.checks[c].cursor, PAGE_SIZE);
      var i :| 0 <= i < |page| && page[i] == copy;
      assert page[i].id == PageIds(s.rows, s.checks[c].cursor, PAGE_SIZE)[i];
    }
  }

  /** Every copy in a queue was the current row at some earlier moment. */
  lemma {:induction false} CopyWasCurrent(s: State, events: seq<Event>, c: nat, copy: Copy)
    requires Initial(s) && c in Run(s, events).checks && copy in Run(s, events).checks[c].queue
    ensures exists k :: 0 <= k <= |events| && Current(Run(s, events[..k]), copy)
  {
    hide Next, Current;
    if events != [] {
      var last := |events| - 1;
      var before := events[..last];
      CopyOrigin(Run(s, before), events[last], c, copy);
      if !Current(Run(s, before), copy) {
        CopyWasCurrent(s, before, c, copy);
        var k :| 0 <= k <= |before| && Current(Run(s, before[..k]), copy);
        assert before[..k] == events[..k];
      }
    }
  }

  // --------------------------------------------- exactly when it is overwritten

  /** A copy keeps its row's owner, which never changes. */
  predicate Owns(s: State, copy: Copy) {
    copy.id in s.rows && s.rows[copy.id].userId == copy.row.userId
  }

  predicate Owned(s: State) {
    && (forall n :: n in s.pending ==> Owns(s, s.pending[n].copy))
    && (forall c, copy :: c in s.checks && copy in s.checks[c].queue ==> Owns(s, copy))
  }

  /** A pending copy was pending before, or has just been read from the table. */
  lemma PendingOrigin(s: State, e: Event, n: nat)
    requires n in Next(s, e).pending
    ensures var copy := Next(s, e).pending[n].copy;
            || (n in s.pending && copy == s.pending[n].copy)
            || (copy.id in s.rows && s.rows[copy.id] == copy.row)
  {
    hide Apply, ExpireAll, WriteTo, FiringOf, FiredOf, TurnPage, Quotes, CreateFailure;
  }

  lemma OwnerStays(s: State, e: Event, copy: Copy)
    requires Owns(s, copy)
    ensures Owns(Next(s, e), copy)
  {
    hide Next, WriteTo, Updated;
    StepRow(s, e, copy.id);
    EveryWriteIsAllowed(s, e, copy.id);
    RowTransition(s.rows[copy.id], WriteTo(s, e, copy.id));
  }

  lemma OwnedStep(s: State, e: Event)
    requires Owned(s)
    ensures Owned(Next(s, e))
  {
    hide Next;
    var end := Next(s, e);
    forall n | n in end.pending
      ensures Owns(end, end.pending[n].copy)
    {
      PendingOrigin(s, e, n);
      OwnerStays(s, e, end.pending[n].copy);
    }
    forall c, copy | c in end.checks && copy in end.checks[c].queue
      ensures Owns(end, copy)
    {
      CopyOrigin(s, e, c, copy);
      OwnerStays(s, e, copy);
    }
  }

  lemma {:induction false} RunOwned(s: State, events: seq<Event>)
    requires Initial(s)
    ensures Owned(Run(s, events))
  {
    if events != [] {
      hide Next, Initial, Owned;
      RunOwned(s, events[..|events| - 1]);
      OwnedStep(Run(s, events[..|events| - 1]), events[|events| - 1]);
    } else {
      hide Next;
    }
  }

  /** The event writes a status over a settled one that differs from it. */
  predicate Relabels(s: State, e: Event, id: string)
    requires id in s.rows
  {
    match e
    case WriteBack(n, now) =>
      && n in s.pending && s.pending[n].copy.id == id
      && var copy := s.pending[n].copy.row;
      (match s.pending[n]
       case Update(_, _) => copy.status == Active && Lapsed(copy, now) && s.rows[id].status != Expired
       case Cancel(_) => (copy.status == Active || copy.status == Triggered) && s.rows[id].status != Cancelled)
    case ProcessNext(c, around) =>
      && HasWork(s, c) && s.checks[c].queue[0].id == id && around.stored
      && Lapsed(s.checks[c].queue[0].row, s.checks[c].now) && s.rows[id].status != Expired
    case _ => false
  }

  lemma RelabelStep(s: State, e: Event, id: string)
    requires Owned(s) && Settled(s, id)
    ensures id in Next(s, e).rows
    ensures Next(s, e).rows[id].status != s.rows[id].status <==> Relabels(s, e, id)
  {
    hide Next, CheckWrite, DecidePending, Lapsed, Updated, FiringOf;
    StepRow(s, e, id);
    match e
    case WriteBack(n, now) =>
      if n in s.pending && s.pending[n].copy.id == id {
        assert Owns(s, s.pending[n].copy);
        PendingRelabels(s.rows[id], s.pending[n], now);
      } else {
        NothingIsWritten(s.rows[id]);
      }
    case ProcessNext(c, around) =>
      if HasWork(s, c) && s.checks[c].queue[0].id == id {
        var copy := s.checks[c].queue[0];
        assert copy in s.checks[c].queue;
        assert Owns(s, copy);
        CheckRelabels(s.rows[id], copy.row, s.checks[c].now, s.checks[c].prices, around);
      } else {
        NothingIsWritten(s.rows[id]);
      }
    case ExpireActive(now) => SettledDoesNotExpire(s.rows[id], now);
    case _ => NothingIsWritten(s.rows[id]);
  }

  lemma SettledDoesNotExpire(row: Alert, now: int)
    requires row.status != Active
    ensures Updated(row, Expire(now)) == row
  {
  }

  lemma PendingRelabels(row: Alert, p: Pending, now: int)
    requires row.status != Active && row.userId == p.copy.row.userId
    ensures var copy := p.copy.row;
            Updated(row, DecidePending(p, now).write).status != row.status <==>
              (match p
               case Update(_, _) => copy.status == Active && Lapsed(copy, now) && row.status != Expired
               case Cancel(_) => (copy.status == Active || copy.status == Triggered) && row.status != Cancelled)
  {
    hide Lapsed;
  }

  lemma CheckRelabels(row: Alert, copy: Alert, now: int, prices: map<string, string>, around: Circumstances)
    requires row.status != Active && row.userId == copy.userId
    ensures Updated(row, CheckWrite(copy, now, prices, around)).status != row.status <==>
              around.stored && Lapsed(copy, now) && row.status != Expired
  {
    hide Lapsed, HasCrossed, IsCooldownExpired;
  }

  /**
   * In every run a settled alert's status is overwritten exactly when an edit
   * writes EXPIRED from a copy that was ACTIVE and has lapsed, a cancellation
   * writes CANCELLED from a copy that was ACTIVE or TRIGGERED, or a check
   * writes EXPIRED from a copy that lapsed before its clock reading, over
   * another status.
   */
  lemma OverwrittenExactlyWhen(s: State, events: seq<Event>, e: Event, id: string)
    requires Initial(s) && Settled(Run(s, events), id)
    ensures id in Next(Run(s, events), e).rows
    ensures Next(Run(s, events), e).rows[id].status != Run(s, events).rows[id].status
       <==> Relabels(Run(s, events), e, id)
  {
    hide Run, Next, Initial, Relabels, Owned;
    RunOwned(s, events);
    RelabelStep(Run(s, events), e, id);
  }

  const Sample := Alert(
    "u", "btc", Sell, "100", Once, Active, Some(10), [Email], DEFAULT_COOLDOWN_MINUTES, None, None, 0)
  const SampleRename := UpdateRequest(Some("120"), None, None, None, None)

  /** It does happen: an edit that read the alert before a cancellation relabels the cancelled alert EXPIRED. */
  lemma CancelledCanBecomeExpired()
    ensures var s := State(map["a" := Sample], map[], map[], map[], {});
            var prefix := [ReadForUpdate(0, "a", "u", SampleRename), ReadForCancel(1, "a", "u"), WriteBack(1, 5)];
            && Initial(s)
            && Settled(Run(s, prefix), "a") && Run(s, prefix).rows["a"].status == Cancelled
            && Settled(Run(s, prefix + [WriteBack(0, 20)]), "a")
            && Run(s, prefix + [WriteBack(0, 20)]).rows["a"].status == Expired
  {
    hide Run;
    var s0 := State(map["a" := Sample], map[], map[], map[], {});
    var e1, e2 := ReadForUpdate(0, "a", "u", SampleRename), ReadForCancel(1, "a", "u");
    var e3, e4 := WriteBack(1, 5), WriteBack(0, 20);
    RunNil(s0);
    RunSnoc(s0, [], e1);
    RunSnoc(s0, [e1], e2);
    RunSnoc(s0, [e1, e2], e3);
    RunSnoc(s0, [e1, e2, e3], e4);
    assert [] + [e1] == [e1] && [e1] + [e2] == [e1, e2] && [e1, e2] + [e3] == [e1, e2, e3];
    var copy := Copy("a", Sample);
    var s1 := Next(s0, e1);
    assert s1.pending == map[0 := Update(copy, SampleRename)];
    var s2 := Next(s1, e2);
    assert s2.pending == map[0 := Update(copy, SampleRename), 1 := Cancel(copy)];
    var s3 := Next(s2, e3);
    assert s3.rows["a"] == Sample.(status := Cancelled) && s3.pending[0] == Update(copy, SampleRename);
    var s4 := Next(s3, e4);
    assert s4.rows["a"].status == Expired;
  }

  lemma RunNil(s: State)
    ensures Run(s, []) == s
  {
  }

  lemma RunSnoc(s: State, events: seq<Event>, e: Event)
    ensures Run(s, events + [e]) == Next(Run(s, events), e)
  {
    hide Next;
    assert (events + [e])[..|events|] == events;
  }

  // --------------------------------------------------------------- fire once

  predicate OnceHere(s: State, id: string) {
    id in s.rows ==> s.rows[id].triggerMode == Once
  }

  predicate OnceThroughout(s: State, events: seq<Event>, id: string) {
    forall k :: 0 <= k <= |events| ==> OnceHere(Run(s, events[..k]), id)
  }

  /** While the mode is ONCE, a trigger is what took the alert out of ACTIVE, and every copy in hand says ONCE. */
  predicate OnceInv(s: State, id: string) {
    && (id in s.rows ==>
          s.rows[id].triggeredCount == 0 || (s.rows[id].triggeredCount == 1 && s.rows[id].status != Active))
    && forall c, copy :: c in s.checks && copy in s.checks[c].queue && copy.id == id ==> copy.row.triggerMode == Once
  }

  lemma OnceStep(s: State, e: Event, id: string)
    requires OnceInv(s, id) && OnceHere(s, id) && OnceHere(Next(s, e), id)
    ensures OnceInv(Next(s, e), id)
  {
    var end := Next(s, e);
    if id in s.rows {
      StepRow(s, e, id);
      OnceWrite(s, e, id);
      EveryWriteIsAllowed(s, e, id);
      RowTransition(s.rows[id], WriteTo(s, e, id));
    } else if id in end.rows {
      NewRow(s, e, id);
    }
    forall c, copy | c in end.checks && copy in end.checks[c].queue && copy.id == id
      ensures copy.row.triggerMode == Once
    {
      CopyOrigin(s, e, c, copy);
      hide Next;
    }
    hide Next, WriteTo;
  }

  lemma OnceWrite(s: State, e: Event, id: string)
    requires OnceInv(s, id)
    ensures WriteTo(s, e, id).Trigger? ==> WriteTo(s, e, id).status == Triggered
  {
    hide Assess;
    OnlyChecksTrigger(s, e, id);
    if e.ProcessNext? && HasWork(s, e.c) {
      assert s.checks[e.c].queue[0] in s.checks[e.c].queue;
    }
  }

  lemma {:induction false} RunOnce(s: State, events: seq<Event>, id: string)
    requires Initial(s) && OnceThroughout(s, events, id)
    ensures OnceInv(Run(s, events), id)
  {
    hide Next, OnceHere;
    if events != [] {
      var last := |events| - 1;
      var before := events[..last];
      forall k | 0 <= k <= |before|
        ensures OnceHere(Run(s, before[..k]), id)
      {
        assert before[..k] == events[..k];
      }
      RunOnce(s, before, id);
      assert before == events[..last] && events[..|events|] == events;
      OnceStep(Run(s, before), events[last], id);
    }
  }

  /** An alert whose mode is ONCE throughout is triggered at most once, whatever users and overlapping checks do. */
  lemma OnceTriggersAtMostOnce(s: State, events: seq<Event>, id: string)
    requires Initial(s) && OnceThroughout(s, events, id) && id in Run(s, events).rows
    ensures var row := Run(s, events).rows[id];
            row.triggeredCount <= 1 && (row.triggeredCount == 1 ==> row.status != Active)
  {
    hide Run, Initial, OnceThroughout;
    RunOnce(s, events, id);
  }
}
