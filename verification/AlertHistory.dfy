/** What the recorded triggers of an alert say: they are counted, and each is witnessed by observed prices. */
module AlertHistory {
  import opened Options
  import opened Ordering
  import opened AlertEvaluator
  import opened PriceAlerts
  import opened AlertMachine
  import opened AlertLifecycle

  // ------------------------------------------------------------- invariants

  function LastAt(fired: seq<Firing>): Option<int> {
    if fired == [] then None else Some(fired[|fired| - 1].at)
  }

  predicate Seen(observed: set<Observation>, coinId: string, price: Option<string>) {
    price.Some? ==> Observation(coinId, price.value) in observed
  }

  /**
   * The trigger rests on two prices observed for the alert's coin, on opposite
   * sides of the target it used, and its copy was past the cooldown.
   */
  ghost predicate Justified(observed: set<Observation>, coinId: string, f: Firing) {
    && f.copy.coinId == coinId
    && f.copy.lastCheckedPrice.Some?
    && Observation(coinId, f.copy.lastCheckedPrice.value) in observed
    && Observation(coinId, f.price) in observed
    && Readable(f.copy.lastCheckedPrice.value) && Readable(f.price) && Readable(f.copy.targetPrice)
    && Crosses(f.copy.direction, PriceValue(f.copy.lastCheckedPrice.value), PriceValue(f.price),
               PriceValue(f.copy.targetPrice))
    && (f.copy.lastTriggeredAt.None? || f.at - f.copy.lastTriggeredAt.value >= f.copy.cooldownMinutes * 60000)
  }

  ghost predicate AllJustified(observed: set<Observation>, coinId: string, fired: seq<Firing>) {
    forall i :: 0 <= i < |fired| ==> Justified(observed, coinId, fired[i])
  }

  ghost predicate RowInv(row: Alert, fired: seq<Firing>, observed: set<Observation>) {
    && row.triggeredCount == |fired|
    && row.lastTriggeredAt == LastAt(fired)
    && Seen(observed, row.coinId, row.lastCheckedPrice)
    && AllJustified(observed, row.coinId, fired)
  }

  predicate CopyInv(s: State, copy: Copy) {
    && copy.id in s.rows
    && copy.row.coinId == s.rows[copy.id].coinId
    && copy.row.cooldownMinutes == s.rows[copy.id].cooldownMinutes
    && Seen(s.observed, copy.row.coinId, copy.row.lastCheckedPrice)
  }

  ghost predicate RowsInv(s: State) {
    && (forall id :: id in s.rows ==> RowInv(s.rows[id], FiredOf(s, id), s.observed))
    && (forall id :: id !in s.rows ==> FiredOf(s, id) == [])
  }

  predicate CopiesInv(s: State) {
    forall c, copy :: c in s.checks && copy in s.checks[c].queue ==> CopyInv(s, copy)
  }

  predicate PricesInv(s: State) {
    forall c, coin :: c in s.checks && coin in s.checks[c].prices ==>
      Observation(coin, s.checks[c].prices[coin]) in s.observed
  }

  ghost predicate Inv(s: State) {
    RowsInv(s) && CopiesInv(s) && PricesInv(s)
  }

  // ------------------------------------------------------------ preservation

  lemma ObservedGrows(s: State, e: Event)
    ensures s.observed <= Next(s, e).observed
  {
    hide Apply, ExpireAll, WriteTo, FiringOf, TurnPage, CreateFailure;
  }

  lemma PricesStep(s: State, e: Event)
    requires PricesInv(s)
    ensures PricesInv(Next(s, e))
  {
    hide Apply, ExpireAll, WriteTo, FiringOf, Page, CreateFailure;
    var end := Next(s, e);
    forall c, coin | c in end.checks && coin in end.checks[c].prices
      ensures Observation(coin, end.checks[c].prices[coin]) in end.observed
    {
    }
  }

  lemma ColumnsKept(s: State, e: Event, id: string)
    requires id in s.rows
    ensures id in Next(s, e).rows
    ensures Next(s, e).rows[id].coinId == s.rows[id].coinId
    ensures Next(s, e).rows[id].cooldownMinutes == s.rows[id].cooldownMinutes
  {
    StepRow(s, e, id);
    EveryWriteIsAllowed(s, e, id);
    RowTransition(s.rows[id], WriteTo(s, e, id));
    hide Next, WriteTo, Updated;
  }

  lemma CopiesStep(s: State, e: Event)
    requires RowsInv(s) && CopiesInv(s)
    ensures CopiesInv(Next(s, e))
  {
    hide Next, AllJustified;
    var end := Next(s, e);
    ObservedGrows(s, e);
    forall c, copy | c in end.checks && copy in end.checks[c].queue
      ensures CopyInv(end, copy)
    {
      CopyOrigin(s, e, c, copy);
      if c in s.checks && copy in s.checks[c].queue {
        assert CopyInv(s, copy);
      } else {
        assert RowInv(s.rows[copy.id], FiredOf(s, copy.id), s.observed);
      }
      ColumnsKept(s, e, copy.id);
    }
  }

  /** A recorded trigger is justified by the copy it was decided from. */
  lemma TriggerIsJustified(s: State, e: Event, id: string)
    requires CopiesInv(s) && PricesInv(s) && id in s.rows && FiringOf(s, e, id) != []
    ensures Justified(s.observed, s.rows[id].coinId, FiringOf(s, e, id)[0])
  {
    var check := s.checks[e.c];
    var copy := check.queue[0];
    assert copy in check.queue;
    assert CopyInv(s, copy);
    hide Readable, PriceValue, Crosses, HasCrossed;
    var price := check.prices[copy.row.coinId];
    CrossingIsWitnessed(copy.row.direction, copy.row.lastCheckedPrice, price, copy.row.targetPrice);
  }

  /** A price written to a row is one that was observed for its coin. */
  lemma WrittenPriceIsSeen(s: State, e: Event, id: string)
    requires CopiesInv(s) && PricesInv(s) && id in s.rows
    ensures WriteTo(s, e, id).LastPrice? ==> Seen(s.observed, s.rows[id].coinId, Some(WriteTo(s, e, id).price))
    ensures WriteTo(s, e, id).Trigger? ==> Seen(s.observed, s.rows[id].coinId, Some(WriteTo(s, e, id).price))
  {
    hide HasCrossed, IsCooldownExpired, Lapsed;
    if e.ProcessNext? && HasWork(s, e.c) && s.checks[e.c].queue[0].id == id {
      var copy := s.checks[e.c].queue[0];
      assert copy in s.checks[e.c].queue;
      assert CopyInv(s, copy);
    }
  }

  lemma MoreObserved(observed: set<Observation>, more: set<Observation>, coinId: string, fired: seq<Firing>)
    requires AllJustified(observed, coinId, fired) && observed <= more
    ensures AllJustified(more, coinId, fired)
  {
    hide Readable, PriceValue, Crosses, IsCooldownExpired;
  }

  lemma FiringRecordsTheWrite(s: State, e: Event, id: string)
    requires id in s.rows
    ensures var w, f := WriteTo(s, e, id), FiringOf(s, e, id);
            && (f != [] <==> w.Trigger? && s.rows[id].status == Active)
            && (f != [] ==> |f| == 1 && f[0].at == w.at && f[0].price == w.price)
  {
    OnlyChecksTrigger(s, e, id);
    hide CheckWrite, DecidePending;
  }

  lemma RowStep(row: Alert, w: Write, f: seq<Firing>, fired: seq<Firing>, observed: set<Observation>)
    requires RowInv(row, fired, observed) && Allowed(w)
    requires f != [] <==> w.Trigger? && row.status == Active
    requires f != [] ==> |f| == 1 && f[0].at == w.at && Justified(observed, row.coinId, f[0])
    requires w.LastPrice? || w.Trigger? ==> Seen(observed, row.coinId, Some(w.price))
    ensures RowInv(Updated(row, w), fired + f, observed)
  {
    hide Justified;
    assert AllJustified(observed, row.coinId, fired + f);
    if f == [] { assert fired + f == fired; }
  }

  lemma RowInvStep(s: State, e: Event, id: string)
    requires Inv(s) && id in s.rows
    ensures id in Next(s, e).rows && RowInv(Next(s, e).rows[id], FiredOf(Next(s, e), id), Next(s, e).observed)
  {
    hide Next, WriteTo, FiringOf, Justified, Updated;
    StepRow(s, e, id);
    EveryWriteIsAllowed(s, e, id);
    FiringRecordsTheWrite(s, e, id);
    WrittenPriceIsSeen(s, e, id);
    if FiringOf(s, e, id) != [] { TriggerIsJustified(s, e, id); }
    var w, f := WriteTo(s, e, id), FiringOf(s, e, id);
    RowStep(s.rows[id], w, f, FiredOf(s, id), s.observed);
    ObservedGrows(s, e);
    MoreObserved(s.observed, Next(s, e).observed, s.rows[id].coinId, FiredOf(s, id) + f);
    RowTransition(s.rows[id], w);
  }

  lemma NoStrayFirings(s: State, e: Event, id: string)
    requires FiredOf(s, id) == [] && CopiesInv(s)
    ensures id !in Next(s, e).rows ==> FiredOf(Next(s, e), id) == []
  {
    hide Apply, ExpireAll, WriteTo, TurnPage, CreateFailure, CopyInv;
    if e.ProcessNext? && HasWork(s, e.c) && s.checks[e.c].queue[0].id == id {
      assert s.checks[e.c].queue[0] in s.checks[e.c].queue;
      assert CopyInv(s, s.checks[e.c].queue[0]);
      CopyHasRow(s, s.checks[e.c].queue[0]);
      StepRow(s, e, id);
    }
  }

  lemma CopyHasRow(s: State, copy: Copy)
    requires CopyInv(s, copy)
    ensures copy.id in s.rows
  {
  }

  lemma NextInv(s: State, e: Event)
    requires Inv(s)
    ensures Inv(Next(s, e))
  {
    hide Next, RowInv, CopyInv, FiredOf;
    PricesStep(s, e);
    CopiesStep(s, e);
    var end := Next(s, e);
    forall id | id in end.rows
      ensures RowInv(end.rows[id], FiredOf(end, id), end.observed)
    {
      if id in s.rows { RowInvStep(s, e, id); } else { NewRowInv(s, e, id); }
    }
    forall id | id !in end.rows
      ensures FiredOf(end, id) == []
    {
      if id in s.rows { StepRow(s, e, id); }
      NoStrayFirings(s, e, id);
    }
  }

  lemma NewRowInv(s: State, e: Event, id: string)
    requires RowsInv(s) && id !in s.rows && id in Next(s, e).rows
    ensures RowInv(Next(s, e).rows[id], FiredOf(Next(s, e), id), Next(s, e).observed)
  {
    NewRow(s, e, id);
    hide Next;
  }

  lemma {:induction false} RunInv(s: State, events: seq<Event>)
    requires Initial(s)
    ensures Inv(Run(s, events))
  {
    if events != [] {
      hide Next, Inv, Initial;
      RunInv(s, events[..|events| - 1]);
      NextInv(Run(s, events[..|events| - 1]), events[|events| - 1]);
    }
  }

  // ---------------------------------------------------------------- theorems

  /** The counter and the date of the last trigger always agree with the triggers recorded. */
  lemma CountIsTheHistory(s: State, events: seq<Event>, id: string)
    requires Initial(s) && id in Run(s, events).rows
    ensures var end := Run(s, events);
            && end.rows[id].triggeredCount == |FiredOf(end, id)|
            && end.rows[id].lastTriggeredAt == LastAt(FiredOf(end, id))
  {
    hide Run, Initial, CopiesInv, PricesInv, AllJustified;
    RunInv(s, events);
  }

  /** `lastCheckedPrice` is null or a price some check fetched for the alert's coin. */
  lemma RecordedPriceWasObserved(s: State, events: seq<Event>, id: string)
    requires Initial(s) && id in Run(s, events).rows && Run(s, events).rows[id].lastCheckedPrice.Some?
    ensures var end := Run(s, events);
            Observation(end.rows[id].coinId, end.rows[id].lastCheckedPrice.value) in end.observed
  {
    hide Run, Initial, CopiesInv, PricesInv, AllJustified;
    RunInv(s, events);
  }

  /** Every recorded trigger has two observed prices of the alert's coin on opposite sides of the target used. */
  lemma FiringsAreWitnessed(s: State, events: seq<Event>, id: string, k: nat)
    requires Initial(s) && id in Run(s, events).rows && k < |FiredOf(Run(s, events), id)|
    ensures var end := Run(s, events); Justified(end.observed, end.rows[id].coinId, FiredOf(end, id)[k])
  {
    hide Run, Initial, CopiesInv, PricesInv, Justified;
    RunInv(s, events);
  }
}
