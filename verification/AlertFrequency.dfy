/** How often an alert can trigger: against its cooldown, and against the prices recorded for it. */
module AlertFrequency {
  import opened Options
  import opened Ordering
  import opened AlertEvaluator
  import opened PriceAlerts
  import opened AlertMachine
  import opened AlertLifecycle
  import opened AlertHistory
  import opened AlertCooldown
  import opened ScheduledChecks
  import Decimals

  // ------------------------------------------------ triggers that come too soon

  lemma FiredStep(s: State, e: Event, id: string)
    ensures FiredOf(Next(s, e), id) == FiredOf(s, id) + FiringOf(s, e, id)
  {
    hide Apply, ExpireAll, CheckWrite, DecidePending, TurnPage, Quotes, CreateFailure;
  }

  /** Event j records a trigger of the alert. */
  predicate TriggersAt(s: State, events: seq<Event>, j: nat, id: string)
    requires j < |events|
  {
    FiringOf(Run(s, events[..j]), events[j], id) != []
  }

  /** Without a trigger in between, the recorded triggers are the same. */
  lemma {:induction false} QuietInBetween(s: State, events: seq<Event>, k: nat, id: string)
    requires k <= |events|
    requires forall j :: k <= j < |events| ==> !TriggersAt(s, events, j, id)
    ensures FiredOf(Run(s, events), id) == FiredOf(Run(s, events[..k]), id)
    decreases |events|
  {
    hide Next, FiringOf, FiredOf;
    if k == |events| {
      assert events[..k] == events;
    } else {
      var last := |events| - 1;
      var before := events[..last];
      forall j | k <= j < |before|
        ensures !TriggersAt(s, before, j, id)
      {
        assert before[..j] == events[..j] && !TriggersAt(s, events, j, id);
      }
      QuietInBetween(s, before, k, id);
      assert before[..k] == events[..k] && !TriggersAt(s, events, last, id);
      FiredStep(Run(s, before), events[last], id);
    }
  }

  /** The copy was current at an earlier moment, and the alert was triggered from then on. */
  ghost predicate ReadBeforeTrigger(s: State, events: seq<Event>, copy: Copy) {
    exists k, j :: 0 <= k <= j < |events| && Current(Run(s, events[..k]), copy) && TriggersAt(s, events, j, copy.id)
  }

  /**
   * In every run, overlapping checks included: a trigger inside the cooldown
   * started by the one before is decided from a copy read before that one.
   */
  lemma TooSoonMeansReadBefore(s: State, events: seq<Event>, e: Event, id: string)
    requires Initial(s) && id in Run(s, events).rows
    requires FiringOf(Run(s, events), e, id) != [] && FiredOf(Run(s, events), id) != []
    requires var now := Run(s, events);
             FiringOf(now, e, id)[0].at - FiredOf(now, id)[|FiredOf(now, id)| - 1].at < Gap(now.rows[id])
    ensures e.ProcessNext? && HasWork(Run(s, events), e.c)
    ensures ReadBeforeTrigger(s, events, Run(s, events).checks[e.c].queue[0])
  {
    hide Run, Next, Initial, FiringOf, FiredOf, Justified, AllJustified;
    var now := Run(s, events);
    RunInv(s, events);
    FiringCopy(now, e, id);
    var copy := now.checks[e.c].queue[0];
    assert copy in now.checks[e.c].queue;
    CopyWasCurrent(s, events, e.c, copy);
    var k :| 0 <= k <= |events| && Current(Run(s, events[..k]), copy);
    if forall j :: k <= j < |events| ==> !TriggersAt(s, events, j, id) {
      QuietInBetween(s, events, k, id);
      RunInv(s, events[..k]);
      SpacedFromCurrent(Run(s, events[..k]), now, e, id);
    } else {
      var j :| k <= j < |events| && TriggersAt(s, events, j, id);
    }
  }

  /** From a copy that shows the last trigger, the next one is not too soon. */
  lemma SpacedFromCurrent(earlier: State, now: State, e: Event, id: string)
    requires AlertHistory.Inv(earlier) && AlertHistory.Inv(now) && id in now.rows
    requires FiringOf(now, e, id) != [] && FiredOf(now, id) != [] && FiredOf(now, id) == FiredOf(earlier, id)
    requires e.ProcessNext? && HasWork(now, e.c) && Current(earlier, now.checks[e.c].queue[0])
    ensures FiringOf(now, e, id)[0].at - FiredOf(now, id)[|FiredOf(now, id)| - 1].at >= Gap(now.rows[id])
  {
    hide WriteTo, FiringOf, FiredOf, Crosses, Readable, PriceValue, AllJustified, AlertHistory.Inv;
    FiringCopy(now, e, id);
    TriggerIsJustifiedHere(now, e, id);
    DateIsTheLast(earlier, id);
    HeadKeepsColumns(now, e.c);
  }

  lemma DateIsTheLast(s: State, id: string)
    requires AlertHistory.Inv(s) && id in s.rows
    ensures s.rows[id].lastTriggeredAt == LastAt(FiredOf(s, id))
  {
    hide FiredOf, AllJustified;
    assert RowInv(s.rows[id], FiredOf(s, id), s.observed);
  }

  lemma HeadKeepsColumns(s: State, c: nat)
    requires AlertHistory.Inv(s) && HasWork(s, c)
    ensures CopyInv(s, s.checks[c].queue[0])
  {
    hide RowsInv, PricesInv, CopyInv;
    assert s.checks[c].queue[0] in s.checks[c].queue;
  }

  /** The same over every run of scheduled checks, whether or not they outlive their leases. */
  lemma ScheduledTooSoon(j: Job, events: seq<JobEvent>, e: Event, id: string)
    requires JobInitial(j) && id in JobRun(j, events).alerts.rows
    requires FiringOf(JobRun(j, events).alerts, e, id) != [] && FiredOf(JobRun(j, events).alerts, id) != []
    requires var now := JobRun(j, events).alerts;
             FiringOf(now, e, id)[0].at - FiredOf(now, id)[|FiredOf(now, id)| - 1].at < Gap(now.rows[id])
    ensures e.ProcessNext? && HasWork(JobRun(j, events).alerts, e.c)
    ensures ReadBeforeTrigger(j.alerts, Projected(j, events), JobRun(j, events).alerts.checks[e.c].queue[0])
  {
    hide JobRun, Run, Projected, FiringOf, FiredOf, Gap, ReadBeforeTrigger;
    ProjectedRun(j, events);
    TooSoonMeansReadBefore(j.alerts, Projected(j, events), e, id);
  }

  // --------------------------------------------- triggers among recorded prices

  /** The price an event records for the alert, if it does. */
  function Recording(s: State, e: Event, id: string): seq<string> {
    var w := WriteTo(s, e, id);
    if id in s.rows && s.rows[id].status == Active && (w.LastPrice? || w.Trigger?) then [w.price] else []
  }

  function RecordedPrices(s: State, events: seq<Event>, id: string): seq<string> {
    if events == [] then []
    else
      var last := |events| - 1;
      RecordedPrices(s, events[..last], id) + Recording(Run(s, events[..last]), events[last], id)
  }

  /** The event is not an edit of this alert being written. */
  predicate Unedited(s: State, e: Event, id: string) {
    !(e.WriteBack? && e.n in s.pending && s.pending[e.n].Update? && s.pending[e.n].copy.id == id)
  }

  predicate UneditedRun(s: State, events: seq<Event>, id: string) {
    forall k :: 0 <= k < |events| ==> Unedited(Run(s, events[..k]), events[k], id)
  }

  /** The columns a crossing is decided from. */
  predicate SameArm(row: Alert, copy: Alert) {
    row.direction == copy.direction && row.targetPrice == copy.targetPrice && row.lastCheckedPrice == copy.lastCheckedPrice
  }

  predicate QueueArmed(s: State, queue: seq<Copy>, id: string) {
    forall i :: 0 <= i < |queue| && queue[i].id == id ==> id in s.rows && SameArm(s.rows[id], queue[i].row)
  }

  predicate Armed(s: State, id: string) {
    forall c :: c in s.checks ==> QueueArmed(s, s.checks[c].queue, id)
  }

  lemma ArmKept(s: State, e: Event, id: string)
    requires id in s.rows && Unedited(s, e, id) && Recording(s, e, id) == []
    ensures id in Next(s, e).rows && SameArm(s.rows[id], Next(s, e).rows[id])
  {
    StepRow(s, e, id);
    hide Next, Assess, HasWork, Lapsed;
  }

  lemma PageIsArmed(s: State, cursor: Option<string>, id: string)
    ensures QueueArmed(s, Page(s.rows, cursor, PAGE_SIZE), id)
  {
    hide PageIds;
  }

  /** Only the check at work on the alert records a price for it, and then its copy has left the queue. */
  lemma RecordingHead(s: State, e: Event, id: string)
    requires Recording(s, e, id) != []
    ensures e.ProcessNext? && HasWork(s, e.c) && s.checks[e.c].queue[0].id == id
  {
    hide CheckWrite;
    if e.WriteBack? && e.n in s.pending { PendingOwns(s.pending[e.n], e.now); }
  }

  lemma PendingOwns(p: Pending, now: int)
    ensures DecidePending(p, now).write.Nothing? || DecidePending(p, now).write.Own?
  {
  }

  lemma ArmedStep(s: State, e: Event, id: string)
    requires FreshInv(s) && OneCheckAtATime(s) && Armed(s, id) && Unedited(s, e, id)
    ensures Armed(Next(s, e), id)
  {
    hide Next, Page, UpToDate, SameArm, Recording, Unedited;
    var end := Next(s, e);
    forall c | c in end.checks
      ensures QueueArmed(end, end.checks[c].queue, id)
    {
      QueueOrigin(s, e, c);
      var queue := end.checks[c].queue;
      if queue == [] {
      } else if e.ReadPage? && c in s.checks && queue == Page(s.rows, s.checks[c].cursor, PAGE_SIZE) {
        PageIsArmed(s, s.checks[c].cursor, id);
      } else {
        OldQueueArmed(s, e, c, queue, id);
      }
    }
  }

  lemma OldQueueArmed(s: State, e: Event, c: nat, queue: seq<Copy>, id: string)
    requires FreshInv(s) && OneCheckAtATime(s) && Armed(s, id) && Unedited(s, e, id) && c in s.checks
    requires queue == if e.ProcessNext? && e.c == c && HasWork(s, c) then s.checks[c].queue[1..] else s.checks[c].queue
    ensures QueueArmed(Next(s, e), queue, id)
  {
    hide Next, UpToDate, Recording, Unedited, SameArm;
    var was := s.checks[c].queue;
    assert QueueInv(s, was) && QueueArmed(s, was, id);
    if Recording(s, e, id) != [] {
      RecordingHead(s, e, id);
      TailLacksHead(was);
    }
    forall i | 0 <= i < |queue| && queue[i].id == id
      ensures id in Next(s, e).rows && SameArm(Next(s, e).rows[id], queue[i].row)
    {
      if Recording(s, e, id) == [] {
        assert queue[i] == was[i] || (i + 1 < |was| && queue[i] == was[i + 1]);
        ArmKept(s, e, id);
        ArmTransitive(s.rows[id], Next(s, e).rows[id], queue[i].row);
      }
    }
  }

  lemma TailLacksHead(queue: seq<Copy>)
    requires DistinctIds(queue) && queue != []
    ensures forall i :: 0 <= i < |queue[1..]| ==> queue[1..][i].id != queue[0].id
  {
  }

  lemma ArmTransitive(row: Alert, after: Alert, copy: Alert)
    requires SameArm(row, after) && SameArm(row, copy)
    ensures SameArm(after, copy)
  {
  }

  /** The last price recorded is the row's, and every trigger so far is a crossing between neighbouring recorded prices. */
  predicate HalfInv(s: State, recorded: seq<string>, id: string) {
    if id in s.rows then
      && s.rows[id].lastCheckedPrice == (if recorded == [] then None else Some(recorded[|recorded| - 1]))
      && |FiredOf(s, id)| <= Crossings(s.rows[id].direction, recorded, s.rows[id].targetPrice)
    else recorded == [] && FiredOf(s, id) == []
  }

  lemma MoreCrossings(direction: Direction, recorded: seq<string>, price: string, target: string)
    ensures var more := Crossings(direction, recorded + [price], target);
            && Crossings(direction, recorded, target) <= more
            && (recorded != []
                && HasCrossed(direction, Some(recorded[|recorded| - 1]), price, target) == Decimals.Ok(true) ==>
                  more == Crossings(direction, recorded, target) + 1)
  {
    hide HasCrossed;
    assert (recorded + [price])[..|recorded|] == recorded;
  }

  lemma FiringCrosses(s: State, e: Event, id: string)
    requires FiringOf(s, e, id) != [] && Armed(s, id)
    ensures |FiringOf(s, e, id)| == 1
    ensures id in s.rows && s.rows[id].lastCheckedPrice.Some?
    ensures Recording(s, e, id) == [FiringOf(s, e, id)[0].price]
    ensures var row := s.rows[id];
            HasCrossed(row.direction, row.lastCheckedPrice, FiringOf(s, e, id)[0].price, row.targetPrice) == Decimals.Ok(true)
  {
    hide IsCooldownExpired, Delivered;
    var queue := s.checks[e.c].queue;
    assert QueueArmed(s, queue, id) && queue[0].id == id;
    NullNeverCrosses(queue[0].row, s.checks[e.c].prices);
    hide HasCrossed;
  }

  lemma NullNeverCrosses(copy: Alert, prices: map<string, string>)
    requires copy.coinId in prices
    ensures copy.lastCheckedPrice == None ==>
              HasCrossed(copy.direction, copy.lastCheckedPrice, prices[copy.coinId], copy.targetPrice) == Decimals.Ok(false)
  {
  }

  /** A write to a row keeps direction and target unless it is an edit, and the price it leaves is the one recorded. */
  lemma RecordedIsWritten(s: State, e: Event, id: string)
    requires id in s.rows && Unedited(s, e, id)
    ensures id in Next(s, e).rows
    ensures var before, after := s.rows[id], Next(s, e).rows[id];
            && after.direction == before.direction && after.targetPrice == before.targetPrice
            && after.lastCheckedPrice
               == (if Recording(s, e, id) == [] then before.lastCheckedPrice else Some(Recording(s, e, id)[0]))
            && |Recording(s, e, id)| <= 1
  {
    StepRow(s, e, id);
    hide Next, Assess, HasWork, Lapsed;
  }

  lemma HalfStep(s: State, e: Event, recorded: seq<string>, id: string)
    requires HalfInv(s, recorded, id) && Armed(s, id) && Unedited(s, e, id)
    requires id !in s.rows && id !in Next(s, e).rows ==> FiredOf(Next(s, e), id) == []
    ensures HalfInv(Next(s, e), recorded + Recording(s, e, id), id)
  {
    hide Next, Recording, FiringOf, FiredOf, Armed, Unedited, HasCrossed, Crossings;
    FiredStep(s, e, id);
    if id in s.rows {
      RecordedIsWritten(s, e, id);
      var r := Recording(s, e, id);
      if FiringOf(s, e, id) != [] { FiringCrosses(s, e, id); }
      if r == [] {
        assert recorded + r == recorded;
      } else {
        assert r == [r[0]];
        MoreCrossings(s.rows[id].direction, recorded, r[0], s.rows[id].targetPrice);
      }
    } else {
      NothingRecorded(s, e, id);
      assert recorded + [] == recorded;
      if id in Next(s, e).rows { NewRow(s, e, id); NewHasNone(s, e, id); }
    }
  }

  lemma NothingRecorded(s: State, e: Event, id: string)
    requires id !in s.rows
    ensures Recording(s, e, id) == [] && FiringOf(s, e, id) == []
  {
  }

  lemma NewHasNone(s: State, e: Event, id: string)
    requires id !in s.rows && id in Next(s, e).rows && FiredOf(s, id) == []
    ensures FiredOf(Next(s, e), id) == []
  {
    NewRow(s, e, id);
    hide Next;
  }

  lemma {:induction false} RunHalf(s: State, events: seq<Event>, id: string)
    requires Initial(s) && Serialised(s, events) && UneditedRun(s, events, id)
    ensures Armed(Run(s, events), id) && HalfInv(Run(s, events), RecordedPrices(s, events, id), id)
  {
    if events == [] {
      hide Next;
    } else {
      hide Next, OneCheckAtATime, FreshInv, SpacedInv, Initial, Armed, HalfInv, Unedited, Recording, AlertHistory.Inv;
      var last := |events| - 1;
      var before := events[..last];
      SerialisedBefore(s, events);
      forall k | 0 <= k < |before|
        ensures Unedited(Run(s, before[..k]), before[k], id)
      {
        assert before[..k] == events[..k];
      }
      RunHalf(s, before, id);
      RunSpaced(s, before);
      RunInv(s, before);
      var mid := Run(s, before);
      assert Unedited(mid, events[last], id);
      ArmedStep(mid, events[last], id);
      NextInv(mid, events[last]);
      NoStray(Next(mid, events[last]), id);
      HalfStep(mid, events[last], RecordedPrices(s, before, id), id);
    }
  }

  lemma NoStray(s: State, id: string)
    requires AlertHistory.Inv(s)
    ensures id !in s.rows ==> FiredOf(s, id) == []
  {
    hide FiredOf, RowInv;
  }

  lemma SerialisedBefore(s: State, events: seq<Event>)
    requires Serialised(s, events) && events != []
    ensures var before := events[..|events| - 1]; Serialised(s, before) && OneCheckAtATime(Run(s, before))
  {
    hide Run, OneCheckAtATime;
    var before := events[..|events| - 1];
    forall k | 0 <= k <= |before|
      ensures OneCheckAtATime(Run(s, before[..k]))
    {
      assert before[..k] == events[..k];
    }
    assert before[..|before|] == before;
  }

  /**
   * When checks are serialised and an alert is not edited, at most half of the
   * prices recorded for it are triggers, however else users and checks interleave.
   */
  lemma TriggersAreAtMostHalf(s: State, events: seq<Event>, id: string)
    requires Initial(s) && Serialised(s, events) && UneditedRun(s, events, id) && id in Run(s, events).rows
    ensures 2 * Run(s, events).rows[id].triggeredCount <= |RecordedPrices(s, events, id)|
  {
    hide Run, Initial, Serialised, UneditedRun, RecordedPrices, Armed, Crossings;
    RunHalf(s, events, id);
    CountIsTheHistory(s, events, id);
    var row := Run(s, events).rows[id];
    AtMostHalfCross(row.direction, RecordedPrices(s, events, id), row.targetPrice);
  }
}
