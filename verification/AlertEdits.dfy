/** Edits and cancellations against checks: when a trigger still rests on what was read or fetched before the edit. */
module AlertEdits {
  import opened Options
  import opened AlertEvaluator
  import opened PriceAlerts
  import opened AlertVerdicts
  import opened AlertMachine
  import opened AlertLifecycle
  import opened AlertHistory
  import opened AlertCooldown
  import opened PriceSweep
  import opened AlertUseCases
  import Decimals

  // -------------------------------------------------------------------- resets

  predicate Priced(s: State, id: string) {
    id in s.rows && s.rows[id].lastCheckedPrice.Some?
  }

  /** At event j an edit forgets the last checked price. */
  predicate ResetAt(s: State, events: seq<Event>, j: nat, id: string)
    requires j < |events|
  {
    events[j].WriteBack? && Priced(Run(s, events[..j]), id) && !Priced(Run(s, events[..j + 1]), id)
  }

  /** The copy was read, and the price it carries forgotten by an edit since. */
  ghost predicate ReadBeforeReset(s: State, events: seq<Event>, copy: Copy) {
    exists k, j :: 0 <= k <= j < |events| && Current(Run(s, events[..k]), copy) && ResetAt(s, events, j, copy.id)
  }

  lemma OnlyEditsReset(s: State, e: Event, id: string)
    requires Priced(s, id) && !Priced(Next(s, e), id)
    ensures e.WriteBack?
  {
    StepRow(s, e, id);
    hide Next, Assess, HasWork;
  }

  lemma {:induction false} ResetBetween(s: State, events: seq<Event>, k: nat, id: string)
    requires k <= |events| && Priced(Run(s, events[..k]), id) && !Priced(Run(s, events), id)
    ensures exists j :: k <= j < |events| && ResetAt(s, events, j, id)
    decreases |events|
  {
    hide Next, Priced;
    assert events[..|events|] == events;
    assert k < |events|;
    var last := |events| - 1;
    var before := events[..last];
    if Priced(Run(s, before), id) {
      assert Run(s, events[..last + 1]) == Next(Run(s, before), events[last]);
      OnlyEditsReset(Run(s, before), events[last], id);
      assert ResetAt(s, events, last, id);
    } else {
      assert before[..k] == events[..k];
      ResetBetween(s, before, k, id);
      var j :| k <= j < |before| && ResetAt(s, before, j, id);
      assert before[..j] == events[..j] && before[..j + 1] == events[..j + 1];
      assert ResetAt(s, events, j, id);
    }
  }

  /** A queued copy with a price, of a row that has none: it was read before an edit reset the row. */
  lemma PricedCopyPredatesReset(s: State, events: seq<Event>, c: nat, copy: Copy)
    requires Initial(s) && c in Run(s, events).checks && copy in Run(s, events).checks[c].queue
    requires copy.row.lastCheckedPrice.Some? && !Priced(Run(s, events), copy.id)
    ensures ReadBeforeReset(s, events, copy)
  {
    hide Run, Next, Initial;
    CopyWasCurrent(s, events, c, copy);
    var k :| 0 <= k <= |events| && Current(Run(s, events[..k]), copy);
    ResetBetween(s, events, k, copy.id);
    var j :| k <= j < |events| && ResetAt(s, events, j, copy.id);
  }

  lemma HeadFires(s: State, c: nat, around: Circumstances, id: string)
    requires HasWork(s, c) && s.checks[c].queue[0].id == id && id in s.rows && s.rows[id].status == Active
    ensures var check := s.checks[c];
            FiringOf(s, ProcessNext(c, around), id) != [] <==>
              around.stored && FireConditions(check.queue[0].row, check.now, check.prices, around)
  {
    hide FireConditions, Assess;
    var check := s.checks[c];
    FiresIff(check.queue[0].row, check.now, check.prices, around);
  }

  /**
   * In every run, an ACTIVE alert whose last checked price is null is triggered
   * exactly when the check at work on it read it before the edit that reset it,
   * and finds the conditions for firing in that older copy.
   */
  lemma ResetAlertFiresIff(s: State, events: seq<Event>, c: nat, around: Circumstances, id: string)
    requires Initial(s)
    requires var now := Run(s, events);
             && HasWork(now, c) && now.checks[c].queue[0].id == id
             && id in now.rows && now.rows[id].status == Active && now.rows[id].lastCheckedPrice == None
    ensures var now := Run(s, events);
            var check := now.checks[c];
            FiringOf(now, ProcessNext(c, around), id) != [] <==>
              && around.stored
              && ReadBeforeReset(s, events, check.queue[0])
              && FireConditions(check.queue[0].row, check.now, check.prices, around)
  {
    hide Run, Initial, FiringOf, Readable, PriceValue, Crosses, IsCooldownExpired, ReadBeforeReset;
    var now := Run(s, events);
    var copy := now.checks[c].queue[0];
    HeadFires(now, c, around, id);
    assert copy in now.checks[c].queue;
    if copy.row.lastCheckedPrice.Some? { PricedCopyPredatesReset(s, events, c, copy); }
  }

  // ------------------------------------------------------------- it does happen

  const Raise := UpdateRequest(Some("9"), None, None, None, None)

  /** A check has read the alert; then its target is raised, and the check goes on with its older copy. */
  const EditInFlight: seq<Event> := [ReadForUpdate(0, "a", "u", Raise), WriteBack(0, 60001)]

  const Raised := OftenSeen.(targetPrice := "9", lastCheckedPrice := None)

  lemma EditWrites(s: State)
    requires s.rows == map["a" := OftenSeen] && 0 !in s.pending
    ensures var end := Next(Next(s, EditInFlight[0]), EditInFlight[1]);
            end.rows == map["a" := Raised] && end.checks == s.checks && end.fired == s.fired
  {
    var mid := Next(s, EditInFlight[0]);
    assert mid == s.(pending := s.pending[0 := Update(Copy("a", OftenSeen), Raise)]);
    assert DecideUpdate(OftenSeen, Raise, 60001).write
        == Own("u", Patch(None, Some("9"), Some(None), None, None, None, None));
  }

  lemma {:induction false} NothingPending(n: nat)
    requires n <= |Overlap|
    ensures Run(Lone, Overlap[..n]).pending == map[]
  {
    if n > 0 {
      NothingPending(n - 1);
      assert Overlap[..n][..n - 1] == Overlap[..n - 1];
      KeepsPending(Run(Lone, Overlap[..n - 1]), Overlap[n - 1]);
    } else {
      RunNil(Lone);
    }
    hide Run;
  }

  lemma KeepsPending(s: State, e: Event)
    requires e.StartCheck? || e.ReadPage? || e.ProcessNext? || e.EndCheck?
    ensures Next(s, e).pending == s.pending
  {
    hide Apply, WriteTo, FiringOf, FiredOf, TurnPage, Quotes;
  }

  /** The raised alert is triggered at the old target, although its last checked price had been reset. */
  lemma EditedAlertCanFire()
    ensures Initial(Lone)
    ensures var edited := Run(Lone, Overlap[..6] + EditInFlight);
            && "a" in edited.rows && edited.rows["a"].status == Active
            && edited.rows["a"].targetPrice == "9" && edited.rows["a"].lastCheckedPrice == None
            && FiredOf(edited, "a") == []
    ensures var end := Run(Lone, Overlap[..6] + EditInFlight + [ProcessNext(1, Fine)]);
            && FiredOf(end, "a") == [Firing(60000, "3", OftenSeen)]
            && OftenSeen.targetPrice == "2" && "a" in end.rows && end.rows["a"].targetPrice == "9"
  {
    hide Next, Run, CheckWrite, Updated;
    var read := Run(Lone, Overlap[..6]);
    OneRead(read);
    NothingPending(6);
    EditWrites(read);
    RunSnoc(Lone, Overlap[..6], EditInFlight[0]);
    RunSnoc(Lone, Overlap[..6] + [EditInFlight[0]], EditInFlight[1]);
    assert Overlap[..6] + [EditInFlight[0]] + [EditInFlight[1]] == Overlap[..6] + EditInFlight;
    var edited := Run(Lone, Overlap[..6] + EditInFlight);
    RunSnoc(Lone, Overlap[..6] + EditInFlight, ProcessNext(1, Fine));
    SampleWrites(60000);
    OneRowProcess(edited, 1, Raised, OftenSeen);
    RaisedKeepsTarget();
  }

  lemma RaisedKeepsTarget()
    ensures Updated(Raised, Trigger("3", 60000, Active)).targetPrice == "9"
  {
  }

  // --------------------------------------------------- prices fetched since then

  function Fetches(s: State, e: Event): set<Observation> {
    if e.StartCheck? && e.c !in s.checks then Quotes(e.prices) else {}
  }

  /** The prices fetched by the checks that start during these events. */
  function FetchedSince(s: State, later: seq<Event>): set<Observation> {
    if later == [] then {}
    else
      var last := |later| - 1;
      FetchedSince(s, later[..last]) + Fetches(Run(s, later[..last]), later[last])
  }

  /** The trigger rests on two such prices of the coin. */
  predicate RestsOn(fetched: set<Observation>, coinId: string, f: Firing) {
    && f.copy.lastCheckedPrice.Some?
    && Observation(coinId, f.copy.lastCheckedPrice.value) in fetched
    && Observation(coinId, f.price) in fetched
  }

  /** Everything the alert can next be triggered from was fetched since. */
  predicate FreshCopies(s: State, id: string, coinId: string, fetched: set<Observation>) {
    && (forall c, coin :: c in s.checks && coin in s.checks[c].prices ==>
          Observation(coin, s.checks[c].prices[coin]) in fetched)
    && (forall c, copy :: c in s.checks && copy in s.checks[c].queue && copy.id == id ==>
          copy.row.coinId == coinId && Seen(fetched, coinId, copy.row.lastCheckedPrice))
  }

  predicate FreshRow(s: State, id: string, coinId: string, fetched: set<Observation>) {
    id in s.rows && s.rows[id].coinId == coinId && Seen(fetched, coinId, s.rows[id].lastCheckedPrice)
  }

  predicate FreshTriggers(fired: seq<Firing>, from: nat, coinId: string, fetched: set<Observation>) {
    |fired| >= from && forall i :: from <= i < |fired| ==> RestsOn(fetched, coinId, fired[i])
  }

  lemma FreshCopiesStep(s: State, e: Event, id: string, coinId: string, fetched: set<Observation>)
    requires FreshCopies(s, id, coinId, fetched) && FreshRow(s, id, coinId, fetched)
    ensures FreshCopies(Next(s, e), id, coinId, fetched + Fetches(s, e))
  {
    hide Next, Quotes;
    var end := Next(s, e);
    forall c, coin | c in end.checks && coin in end.checks[c].prices
      ensures Observation(coin, end.checks[c].prices[coin]) in fetched + Fetches(s, e)
    {
      PriceOrigin(s, e, c, coin);
    }
    forall c, copy | c in end.checks && copy in end.checks[c].queue && copy.id == id
      ensures copy.row.coinId == coinId && Seen(fetched + Fetches(s, e), coinId, copy.row.lastCheckedPrice)
    {
      CopyOrigin(s, e, c, copy);
    }
  }

  lemma PriceOrigin(s: State, e: Event, c: nat, coin: string)
    requires c in Next(s, e).checks && coin in Next(s, e).checks[c].prices
    ensures || (c in s.checks && s.checks[c].prices == Next(s, e).checks[c].prices)
            || Observation(coin, Next(s, e).checks[c].prices[coin]) in Fetches(s, e)
  {
    hide Apply, ExpireAll, WriteTo, FiringOf, FiredOf, Page, CreateFailure;
  }

  lemma FreshRowStep(s: State, e: Event, id: string, coinId: string, fetched: set<Observation>)
    requires FreshCopies(s, id, coinId, fetched) && FreshRow(s, id, coinId, fetched)
    ensures FreshRow(Next(s, e), id, coinId, fetched)
  {
    hide Next, WriteTo;
    StepRow(s, e, id);
    EveryWriteIsAllowed(s, e, id);
    RowTransition(s.rows[id], WriteTo(s, e, id));
    WrittenIsFresh(s, e, id, coinId, fetched);
  }

  lemma WrittenIsFresh(s: State, e: Event, id: string, coinId: string, fetched: set<Observation>)
    requires FreshCopies(s, id, coinId, fetched) && FreshRow(s, id, coinId, fetched)
    ensures var w := WriteTo(s, e, id);
            w.LastPrice? || w.Trigger? ==> Observation(coinId, w.price) in fetched
    ensures FiringOf(s, e, id) != [] ==> |FiringOf(s, e, id)| == 1 && RestsOn(fetched, coinId, FiringOf(s, e, id)[0])
  {
    hide IsCooldownExpired, Lapsed, Delivered;
    if e.ProcessNext? && HasWork(s, e.c) && s.checks[e.c].queue[0].id == id {
      var copy := s.checks[e.c].queue[0];
      assert copy in s.checks[e.c].queue;
      if copy.row.coinId in s.checks[e.c].prices {
        NullIsNoCrossing(copy.row, s.checks[e.c].prices[copy.row.coinId]);
      }
    }
    hide HasCrossed;
  }

  lemma NullIsNoCrossing(copy: Alert, price: string)
    ensures copy.lastCheckedPrice == None ==>
              HasCrossed(copy.direction, copy.lastCheckedPrice, price, copy.targetPrice) == Decimals.Ok(false)
  {
  }

  lemma MoreFetched(fetched: set<Observation>, more: set<Observation>, s: State, id: string, coinId: string, from: nat)
    requires fetched <= more && FreshRow(s, id, coinId, fetched) && FreshTriggers(FiredOf(s, id), from, coinId, fetched)
    ensures FreshRow(s, id, coinId, more) && FreshTriggers(FiredOf(s, id), from, coinId, more)
  {
    hide FiredOf;
  }

  lemma FreshTriggersStep(s: State, e: Event, id: string, coinId: string, fetched: set<Observation>, from: nat)
    requires FreshCopies(s, id, coinId, fetched) && FreshRow(s, id, coinId, fetched)
    requires FreshTriggers(FiredOf(s, id), from, coinId, fetched)
    ensures FreshTriggers(FiredOf(Next(s, e), id), from, coinId, fetched)
  {
    hide Next, FiringOf, FiredOf, RestsOn, FreshCopies;
    StepRow(s, e, id);
    WrittenIsFresh(s, e, id, coinId, fetched);
    var fired, f := FiredOf(s, id), FiringOf(s, e, id);
    forall i | from <= i < |fired + f|
      ensures RestsOn(fetched, coinId, (fired + f)[i])
    {
    }
  }

  lemma {:induction false} RunFresh(s: State, later: seq<Event>, id: string)
    requires s.checks == map[] && id in s.rows && s.rows[id].lastCheckedPrice == None
    ensures var end, fetched, coinId := Run(s, later), FetchedSince(s, later), s.rows[id].coinId;
            && FreshCopies(end, id, coinId, fetched) && FreshRow(end, id, coinId, fetched)
            && FreshTriggers(FiredOf(end, id), |FiredOf(s, id)|, coinId, fetched)
  {
    hide Next, FiredOf, Fetches;
    if later != [] {
      hide FreshCopies, FreshRow, FreshTriggers;
      var last := |later| - 1;
      var mid, fetched, coinId := Run(s, later[..last]), FetchedSince(s, later[..last]), s.rows[id].coinId;
      RunFresh(s, later[..last], id);
      FreshCopiesStep(mid, later[last], id, coinId, fetched);
      FreshRowStep(mid, later[last], id, coinId, fetched);
      FreshTriggersStep(mid, later[last], id, coinId, fetched, |FiredOf(s, id)|);
      MoreFetched(fetched, fetched + Fetches(mid, later[last]), Next(mid, later[last]), id, coinId, |FiredOf(s, id)|);
    }
  }

  /**
   * The documented promise holds whenever no check is under way as the edit is
   * written: in every continuation, every trigger since rests on two prices
   * fetched by checks started since.
   */
  lemma QuietEditIsHonoured(
    s: State, n: nat, id: string, userId: string, request: UpdateRequest, now: int, later: seq<Event>, i: nat)
    requires s.checks == map[] && n !in s.pending
    requires UpdateAlert(s.rows, id, userId, request, now).1.Success?
    requires request.targetPrice.Some? || request.direction.Some?
    ensures var edited := Run(s, [ReadForUpdate(n, id, userId, request), WriteBack(n, now)]);
            var end := Run(edited, later);
            && id in end.rows
            && (|FiredOf(s, id)| <= i < |FiredOf(end, id)| ==>
                  RestsOn(FetchedSince(edited, later), end.rows[id].coinId, FiredOf(end, id)[i]))
  {
    hide Run, UpdateAlert, RestsOn, FetchedSince;
    UpdateIsARun(s, n, id, userId, request, now);
    UpdateWritesTheRequest(s.rows, id, userId, request, now);
    RunFresh(Run(s, [ReadForUpdate(n, id, userId, request), WriteBack(n, now)]), later, id);
  }

  // ------------------------------------------------------------------ re-arming

  /**
   * An ACTIVE alert whose price is null gets one exactly when the check at work
   * on it looks at its copy to the end and the store takes the write; the price
   * is the one that check fetched when it started.
   */
  lemma RearmedIff(s: State, c: nat, around: Circumstances, id: string)
    requires HasWork(s, c) && s.checks[c].queue[0].id == id
    requires id in s.rows && s.rows[id].status == Active && s.rows[id].lastCheckedPrice == None
    ensures var check := s.checks[c];
            var copy := check.queue[0].row;
            var end := Next(s, ProcessNext(c, around));
            && id in end.rows
            && (end.rows[id].lastCheckedPrice.Some? <==>
                  around.stored && Recorded(Assess(copy, check.now, check.prices, around)))
            && (end.rows[id].lastCheckedPrice.Some? ==>
                  copy.coinId in check.prices && end.rows[id].lastCheckedPrice.value == check.prices[copy.coinId])
  {
    hide Next, CheckWrite, Updated, Assess, FiringOf;
    StepRow(s, ProcessNext(c, around), id);
    var check := s.checks[c];
    RearmedRow(s.rows[id], check.queue[0].row, check.now, check.prices, around);
  }

  lemma RearmedRow(row: Alert, copy: Alert, now: int, prices: map<string, string>, around: Circumstances)
    requires row.status == Active && row.lastCheckedPrice == None
    ensures var after := Updated(row, CheckWrite(copy, now, prices, around));
            && (after.lastCheckedPrice.Some? <==> around.stored && Recorded(Assess(copy, now, prices, around)))
            && (after.lastCheckedPrice.Some? ==>
                  copy.coinId in prices && after.lastCheckedPrice.value == prices[copy.coinId])
  {
    hide HasCrossed, IsCooldownExpired, Lapsed, Delivered;
  }

  /** A check of that number starts during these events. */
  predicate StartedSince(s: State, later: seq<Event>, c: nat) {
    exists j :: 0 <= j < |later| && StartsAt(s, later, j, c)
  }

  predicate StartsAt(s: State, later: seq<Event>, j: nat, c: nat)
    requires j < |later|
  {
    later[j].StartCheck? && later[j].c == c && c !in Run(s, later[..j]).checks
  }

  /** A check that did not start since was under way then, with the prices it has now; one that did fetched them since. */
  lemma {:induction false} WhenItsPricesWereFetched(s: State, later: seq<Event>, c: nat)
    requires c in Run(s, later).checks
    ensures !StartedSince(s, later, c) ==> c in s.checks && s.checks[c].prices == Run(s, later).checks[c].prices
    ensures StartedSince(s, later, c) ==>
              forall coin :: coin in Run(s, later).checks[c].prices ==>
                Observation(coin, Run(s, later).checks[c].prices[coin]) in FetchedSince(s, later)
  {
    hide Next, Fetches, StartedSince;
    if later == [] {
      NoneStarted(s, c);
    } else {
      var last := |later| - 1;
      var before := later[..last];
      var mid, e := Run(s, before), later[last];
      StartedStep(s, later, c);
      PricesAfter(mid, e, c);
      if c in mid.checks { WhenItsPricesWereFetched(s, before, c); }
    }
  }

  lemma NoneStarted(s: State, c: nat)
    ensures !StartedSince(s, [], c)
  {
  }

  lemma StartedStep(s: State, later: seq<Event>, c: nat)
    requires later != []
    ensures var last := |later| - 1;
            StartedSince(s, later, c) <==> StartedSince(s, later[..last], c) || StartsAt(s, later, last, c)
  {
    hide Run;
    var last := |later| - 1;
    var before := later[..last];
    forall j | 0 <= j < last
      ensures StartsAt(s, later, j, c) <==> StartsAt(s, before, j, c)
    {
      assert before[..j] == later[..j];
    }
  }

  lemma PricesAfter(s: State, e: Event, c: nat)
    requires c in Next(s, e).checks
    ensures c in s.checks ==> Next(s, e).checks[c].prices == s.checks[c].prices
    ensures c !in s.checks ==>
              && e.StartCheck? && e.c == c
              && forall coin :: coin in Next(s, e).checks[c].prices ==>
                   Observation(coin, Next(s, e).checks[c].prices[coin]) in Fetches(s, e)
  {
    hide Apply, ExpireAll, WriteTo, FiringOf, FiredOf, Page, CreateFailure;
  }

  /**
   * After an edit has reset an alert, a check gives it a price fetched before
   * the edit exactly if it was under way then and has not started anew, looks
   * at its copy to the end, and the store takes the write.
   */
  lemma RearmedFromBeforeIff(s: State, later: seq<Event>, c: nat, around: Circumstances, id: string)
    requires var now := Run(s, later);
             && HasWork(now, c) && now.checks[c].queue[0].id == id
             && id in now.rows && now.rows[id].status == Active && now.rows[id].lastCheckedPrice == None
    ensures var now := Run(s, later);
            var check, end := now.checks[c], Next(now, ProcessNext(c, around));
            && id in end.rows
            && (end.rows[id].lastCheckedPrice.Some? <==>
                  around.stored && Recorded(Assess(check.queue[0].row, check.now, check.prices, around)))
            && (end.rows[id].lastCheckedPrice.Some? ==>
                  var fetched := Observation(check.queue[0].row.coinId, end.rows[id].lastCheckedPrice.value);
                  if StartedSince(s, later, c) then fetched in FetchedSince(s, later)
                  else c in s.checks && fetched in Quotes(s.checks[c].prices))
  {
    hide Run, Next, Assess, StartedSince, FetchedSince;
    RearmedIff(Run(s, later), c, around, id);
    WhenItsPricesWereFetched(s, later, c);
  }

  // ----------------------------------------------------- the second way it fails

  const Nine := Often.(targetPrice := "9")
  const NineSeen := Nine.(lastCheckedPrice := Some("1"))
  const Lower := UpdateRequest(Some("2"), None, None, None, None)
  const Lowered := NineSeen.(targetPrice := "2", lastCheckedPrice := None)
  const LoneNine := State(map["a" := Nine], map[], map[], map[], {})

  /** One check at a time: the second holds the alert when its target is lowered, and puts back the price fetched before. */
  const Rearm: seq<Event> := [
    StartCheck(0, 0, Low), ReadPage(0), ProcessNext(0, Fine), EndCheck(0),
    StartCheck(1, 60000, Low), ReadPage(1), ReadForUpdate(0, "a", "u", Lower), WriteBack(0, 60001),
    ProcessNext(1, Fine), EndCheck(1), StartCheck(2, 120000, High), ReadPage(2), ProcessNext(2, Fine)]

  lemma LowCrossesNothing()
    ensures HasCrossed(Sell, Some("1"), "1", "9") == Decimals.Ok(false)
  {
    hide Readable, PriceValue, HasCrossed;
    DigitPrice('1');
    DigitPrice('9');
    assert "1" == ['1'] && "9" == ['9'];
    CrossingIsWitnessed(Sell, Some("1"), "1", "9");
    var r := HasCrossed(Sell, Some("1"), "1", "9");
    assert r.Ok? && r != Decimals.Ok(true);
    assert r.value == false;
  }

  lemma NullCrossesNothing()
    ensures HasCrossed(Sell, None, "1", "9") == Decimals.Ok(false)
  {
  }

  lemma RearmWrites()
    ensures CheckWrite(Nine, 0, Low, Fine) == LastPrice("1") && Updated(Nine, LastPrice("1")) == NineSeen
    ensures CheckWrite(NineSeen, 60000, Low, Fine) == LastPrice("1") && Updated(Lowered, LastPrice("1")) == OftenSeen
  {
    hide HasCrossed;
    LowCrossesNothing();
    NullCrossesNothing();
  }

  lemma LowerWrites(s: State)
    requires s.rows == map["a" := NineSeen] && s.pending == map[]
    ensures var end := Next(Next(s, Rearm[6]), Rearm[7]);
            end.rows == map["a" := Lowered] && end.checks == s.checks && end.fired == s.fired
  {
    var mid := Next(s, Rearm[6]);
    assert mid == s.(pending := s.pending[0 := Update(Copy("a", NineSeen), Lower)]);
    assert DecideUpdate(NineSeen, Lower, 60001).write
        == Own("u", Patch(None, Some("2"), Some(None), None, None, None, None));
  }

  /** Running one event more of that run. */
  lemma RearmNext(k: nat)
    requires k < |Rearm|
    ensures Run(LoneNine, Rearm[..k + 1]) == Next(Run(LoneNine, Rearm[..k]), Rearm[k])
  {
    hide Next, Run;
    RunSnoc(LoneNine, Rearm[..k], Rearm[k]);
    assert Rearm[..k] + [Rearm[k]] == Rearm[..k + 1];
  }

  lemma RearmRead(s: State)
    requires s == Run(LoneNine, Rearm[..6])
    ensures s.rows == map["a" := NineSeen] && FiredOf(s, "a") == [] && s.checks.Keys == {1} && s.pending == map[]
    ensures s.checks[1] == Check(60000, Low, Some("a"), false, [Copy("a", NineSeen)])
  {
    hide Next, Run, CheckWrite, Updated;
    RunNil(LoneNine);
    assert Rearm[..0] == [];
    RearmNext(0);
    RearmNext(1);
    RearmNext(2);
    RearmNext(3);
    RearmNext(4);
    RearmNext(5);
    RearmWrites();
    Starts(LoneNine, 0, 0, Low);
    OneRowPage(Run(LoneNine, Rearm[..1]), 0, Nine);
    OneRowProcess(Run(LoneNine, Rearm[..2]), 0, Nine, Nine);
    KeepsPending(Run(LoneNine, Rearm[..2]), Rearm[2]);
    Ends(Run(LoneNine, Rearm[..3]), 0);
    Starts(Run(LoneNine, Rearm[..4]), 1, 60000, Low);
    OneRowPage(Run(LoneNine, Rearm[..5]), 1, NineSeen);
  }

  lemma RearmEdited(s: State)
    requires s == Run(LoneNine, Rearm[..8])
    ensures s.rows == map["a" := Lowered] && FiredOf(s, "a") == [] && s.checks.Keys == {1}
    ensures s.checks[1] == Check(60000, Low, Some("a"), false, [Copy("a", NineSeen)])
  {
    hide Next, Run;
    RearmRead(Run(LoneNine, Rearm[..6]));
    RearmNext(6);
    RearmNext(7);
    LowerWrites(Run(LoneNine, Rearm[..6]));
  }

  lemma RearmFires(s: State)
    requires s == Run(LoneNine, Rearm)
    ensures FiredOf(s, "a") == [Firing(120000, "3", OftenSeen)]
  {
    hide Next, Run, CheckWrite, Updated;
    RearmEdited(Run(LoneNine, Rearm[..8]));
    RearmNext(8);
    RearmNext(9);
    RearmNext(10);
    RearmNext(11);
    RearmNext(12);
    assert Rearm[..13] == Rearm;
    RearmWrites();
    SampleWrites(120000);
    OneRowProcess(Run(LoneNine, Rearm[..8]), 1, Lowered, NineSeen);
    Ends(Run(LoneNine, Rearm[..9]), 1);
    Starts(Run(LoneNine, Rearm[..10]), 2, 120000, High);
    OneRowPage(Run(LoneNine, Rearm[..11]), 2, OftenSeen);
    OneRowProcess(Run(LoneNine, Rearm[..12]), 2, OftenSeen, OftenSeen);
  }

  /** Which checks are under way after k events. */
  function RunningAt(k: nat): set<nat> {
    if k in {0, 4, 10} then {} else if k < 4 then {0} else if k < 10 then {1} else {2}
  }

  lemma RunningStep(s: State, e: Event)
    ensures Next(s, e).checks.Keys == if e.StartCheck? then s.checks.Keys + {e.c}
                                      else if e.EndCheck? then s.checks.Keys - {e.c} else s.checks.Keys
  {
    hide Apply, ExpireAll, WriteTo, FiringOf, FiredOf, TurnPage, Quotes, CreateFailure;
  }

  lemma {:induction false} RearmRunning(k: nat)
    requires k <= |Rearm|
    ensures Run(LoneNine, Rearm[..k]).checks.Keys == RunningAt(k)
  {
    hide Run, Next;
    if k == 0 {
      RunNil(LoneNine);
      assert Rearm[..0] == [];
    } else {
      RearmRunning(k - 1);
      RearmNext(k - 1);
      RunningStep(Run(LoneNine, Rearm[..k - 1]), Rearm[k - 1]);
    }
  }

  lemma RearmIsSerialised()
    ensures Serialised(LoneNine, Rearm)
  {
    forall k | 0 <= k <= |Rearm|
      ensures OneCheckAtATime(Run(LoneNine, Rearm[..k]))
    {
      hide Run;
      RearmRunning(k);
    }
  }

  /**
   * Checks never overlap, and still the alert is triggered at its new target
   * from a last price that was fetched, and forgotten, before the edit.
   */
  lemma EditCanBeUndoneByACheckUnderWay()
    ensures Initial(LoneNine) && Serialised(LoneNine, Rearm)
    ensures var edited := Run(LoneNine, Rearm[..8]);
            && "a" in edited.rows && edited.rows["a"].lastCheckedPrice == None && edited.rows["a"].targetPrice == "2"
            && FiredOf(edited, "a") == []
            && FiredOf(Run(LoneNine, Rearm), "a") == [Firing(120000, "3", OftenSeen)]
            && !RestsOn(FetchedSince(edited, Rearm[8..]), "btc", Firing(120000, "3", OftenSeen))
  {
    hide Run, Serialised, FetchedSince;
    RearmEdited(Run(LoneNine, Rearm[..8]));
    RearmFires(Run(LoneNine, Rearm));
    RearmIsSerialised();
    OnlyHighSince(Run(LoneNine, Rearm[..8]));
  }

  lemma {:induction false} FetchedBy(s: State, later: seq<Event>, o: Observation)
    requires forall i :: 0 <= i < |later| && later[i].StartCheck? ==> o !in Quotes(later[i].prices)
    ensures o !in FetchedSince(s, later)
  {
    hide Run, Quotes;
    if later != [] { FetchedBy(s, later[..|later| - 1], o); }
  }

  lemma OnlyHighSince(s: State)
    ensures Observation("btc", "1") !in FetchedSince(s, Rearm[8..])
  {
    hide FetchedSince;
    assert Observation("btc", "1") !in Quotes(High);
    FetchedBy(s, Rearm[8..], Observation("btc", "1"));
  }

  // -------------------------------------------------------------- cancellations

  /** Once a cancellation has succeeded undisturbed, nothing triggers the alert again, checks under way included. */
  lemma CancelledAlertNeverTriggers(s: State, n: nat, id: string, userId: string, now: int, later: seq<Event>)
    requires n !in s.pending && CancelAlert(s.rows, id, userId).1 == None
    ensures id in s.rows
    ensures var end := Run(Run(s, [ReadForCancel(n, id, userId), WriteBack(n, now)]), later);
            Settled(end, id) && end.rows[id].triggeredCount == s.rows[id].triggeredCount
  {
    hide Run, CancelAlert;
    CancelIsARun(s, n, id, userId, now);
    CancelSucceedsIff(s.rows, id, userId);
    SettledStays(Run(s, [ReadForCancel(n, id, userId), WriteBack(n, now)]), later, id);
  }
}
