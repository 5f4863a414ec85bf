/** The cooldown bound: while checks do not overlap, an alert's triggers are at least a cooldown apart. */
module AlertCooldown {
  import opened Options
  import opened Ordering
  import opened AlertEvaluator
  import opened PriceAlerts
  import opened AlertMachine
  import opened AlertLifecycle
  import opened AlertHistory
  import opened DigitStrings
  import opened Decimals

  /** What the scheduler's lock is for. */
  predicate OneCheckAtATime(s: State) {
    forall c, d :: c in s.checks && d in s.checks ==> c == d
  }

  predicate Serialised(s: State, events: seq<Event>) {
    forall k :: 0 <= k <= |events| ==> OneCheckAtATime(Run(s, events[..k]))
  }

  predicate DistinctIds(queue: seq<Copy>) {
    forall i, j :: 0 <= i < j < |queue| ==> queue[i].id != queue[j].id
  }

  /** The copy still shows when its alert was last triggered. */
  predicate UpToDate(s: State, copy: Copy) {
    copy.id in s.rows && copy.row.lastTriggeredAt == s.rows[copy.id].lastTriggeredAt
  }

  predicate QueueInv(s: State, queue: seq<Copy>) {
    DistinctIds(queue) && forall i :: 0 <= i < |queue| ==> UpToDate(s, queue[i])
  }

  predicate FreshInv(s: State) {
    forall c :: c in s.checks ==> QueueInv(s, s.checks[c].queue)
  }

  predicate Spaced(fired: seq<Firing>, gap: int) {
    forall i :: 0 < i < |fired| ==> fired[i].at - fired[i - 1].at >= gap
  }

  function Gap(row: Alert): int {
    row.cooldownMinutes * MS_PER_MINUTE
  }

  predicate SpacedInv(s: State) {
    forall id :: id in s.rows ==> Spaced(FiredOf(s, id), Gap(s.rows[id]))
  }

  // ---------------------------------------------------------- fresh copies

  lemma DateMovesOnlyByTrigger(s: State, e: Event, id: string)
    requires id in s.rows && !WriteTo(s, e, id).Trigger?
    ensures id in Next(s, e).rows && Next(s, e).rows[id].lastTriggeredAt == s.rows[id].lastTriggeredAt
  {
    StepRow(s, e, id);
    hide Next, WriteTo;
  }

  lemma OthersStayUpToDate(s: State, e: Event, copy: Copy)
    requires UpToDate(s, copy)
    requires e.ProcessNext? && HasWork(s, e.c) ==> s.checks[e.c].queue[0].id != copy.id
    ensures UpToDate(Next(s, e), copy)
  {
    OnlyChecksTrigger(s, e, copy.id);
    hide Next, CheckWrite;
    DateMovesOnlyByTrigger(s, e, copy.id);
  }

  lemma PageIsFresh(s: State, cursor: Option<string>)
    ensures QueueInv(s, Page(s.rows, cursor, PAGE_SIZE))
  {
    var ids, page := PageIds(s.rows, cursor, PAGE_SIZE), Page(s.rows, cursor, PAGE_SIZE);
    hide PageIds, Page, IdLess;
    forall i, j | 0 <= i < j < |page|
      ensures page[i].id != page[j].id
    {
      assert IdLess(ids[i], ids[j]);
      IdLessTotal(ids[i], ids[j]);
    }
  }

  /** Where a queue comes from: a fresh page, the tail of the old queue after its head was handled, or the old queue. */
  lemma QueueOrigin(s: State, e: Event, c: nat)
    requires c in Next(s, e).checks
    ensures var queue := Next(s, e).checks[c].queue;
            || queue == []
            || (e.ReadPage? && c in s.checks && queue == Page(s.rows, s.checks[c].cursor, PAGE_SIZE))
            || (c in s.checks && queue == s.checks[c].queue && !(e.ProcessNext? && e.c == c && HasWork(s, c)))
            || (e.ProcessNext? && e.c == c && HasWork(s, c) && queue == s.checks[c].queue[1..])
    ensures e.ReadPage? ==> Next(s, e).rows == s.rows
  {
    hide Next, HasWork;
    if e.ProcessNext? {
      ProcessedQueue(s, e, c);
    } else if e.ReadPage? {
      ReadQueue(s, e, c);
    } else {
      QuietQueue(s, e, c);
    }
  }

  lemma ProcessedQueue(s: State, e: Event, c: nat)
    requires e.ProcessNext? && c in Next(s, e).checks
    ensures c in s.checks
    ensures Next(s, e).checks[c].queue == if e.c == c && HasWork(s, c) then s.checks[c].queue[1..] else s.checks[c].queue
  {
    hide Apply, WriteTo, FiringOf, FiredOf;
  }

  lemma ReadQueue(s: State, e: Event, c: nat)
    requires e.ReadPage? && c in Next(s, e).checks
    ensures c in s.checks && Next(s, e).rows == s.rows
    ensures var queue := Next(s, e).checks[c].queue;
            queue == s.checks[c].queue || queue == Page(s.rows, s.checks[c].cursor, PAGE_SIZE)
  {
    hide TurnPage, Page, PageIds, IdLess, After, Ascending;
    if e.c in s.checks { TurnedQueue(s.rows, s.checks[e.c]); }
  }

  lemma QuietQueue(s: State, e: Event, c: nat)
    requires !e.ProcessNext? && !e.ReadPage? && c in Next(s, e).checks
    ensures Next(s, e).checks[c].queue == [] || (c in s.checks && Next(s, e).checks[c].queue == s.checks[c].queue)
  {
    hide Apply, ExpireAll, WriteTo, Quotes, CreateFailure, AlertMachine.Read;
    match e
    case ReadForUpdate(n, id, userId, request) => ReadKeepsChecks(s, n, id, userId, copy => Update(copy, request));
    case ReadForCancel(n, id, userId) => ReadKeepsChecks(s, n, id, userId, copy => Cancel(copy));
    case _ =>
  }

  lemma TurnedQueue(rows: Table, check: Check)
    ensures var queue := TurnPage(rows, check).queue;
            queue == check.queue || queue == Page(rows, check.cursor, PAGE_SIZE)
  {
    hide Page;
  }

  lemma ReadKeepsChecks(s: State, n: nat, id: string, userId: string, p: Copy -> Pending)
    ensures AlertMachine.Read(s, n, id, userId, p).checks == s.checks
  {
  }

  lemma SameRowsSameQueue(s: State, t: State, queue: seq<Copy>)
    requires QueueInv(s, queue) && t.rows == s.rows
    ensures QueueInv(t, queue)
  {
    forall i | 0 <= i < |queue|
      ensures UpToDate(t, queue[i])
    {
      assert UpToDate(s, queue[i]);
    }
  }

  lemma TailStaysFresh(s: State, e: Event)
    requires e.ProcessNext? && HasWork(s, e.c) && QueueInv(s, s.checks[e.c].queue)
    ensures QueueInv(Next(s, e), s.checks[e.c].queue[1..])
  {
    hide Next, UpToDate;
    var queue := s.checks[e.c].queue;
    var tail := queue[1..];
    forall i | 0 <= i < |tail|
      ensures UpToDate(Next(s, e), tail[i])
    {
      assert tail[i] == queue[i + 1] && queue[0].id != queue[i + 1].id;
      OthersStayUpToDate(s, e, tail[i]);
    }
    assert DistinctIds(tail);
  }

  lemma QueueStaysFresh(s: State, e: Event, queue: seq<Copy>)
    requires QueueInv(s, queue) && !(e.ProcessNext? && HasWork(s, e.c))
    ensures QueueInv(Next(s, e), queue)
  {
    hide Next, UpToDate, HasWork;
    forall i | 0 <= i < |queue|
      ensures UpToDate(Next(s, e), queue[i])
    {
      OthersStayUpToDate(s, e, queue[i]);
    }
  }

  lemma FreshStep(s: State, e: Event)
    requires FreshInv(s) && OneCheckAtATime(s)
    ensures FreshInv(Next(s, e))
  {
    hide Next, QueueInv, Page;
    var end := Next(s, e);
    forall c | c in end.checks
      ensures QueueInv(end, end.checks[c].queue)
    {
      QueueOrigin(s, e, c);
      var queue := end.checks[c].queue;
      if queue == [] {
        EmptyQueue(end);
      } else if e.ReadPage? && c in s.checks && queue == Page(s.rows, s.checks[c].cursor, PAGE_SIZE) {
        PageIsFresh(s, s.checks[c].cursor);
        SameRowsSameQueue(s, end, queue);
      } else if e.ProcessNext? && e.c == c && HasWork(s, c) {
        TailStaysFresh(s, e);
      } else {
        QueueStaysFresh(s, e, queue);
      }
    }
  }

  lemma EmptyQueue(s: State)
    ensures QueueInv(s, [])
  {
  }

  // ------------------------------------------------------------- spacing

  lemma SpacedStep(s: State, e: Event, id: string)
    requires AlertHistory.Inv(s) && FreshInv(s) && id in s.rows && Spaced(FiredOf(s, id), Gap(s.rows[id]))
    ensures id in Next(s, e).rows && Spaced(FiredOf(Next(s, e), id), Gap(Next(s, e).rows[id]))
  {
    hide Next, WriteTo, Updated, FiringOf, FiredOf, Spaced, Gap, AlertHistory.Inv, FreshInv;
    StepRow(s, e, id);
    ColumnsKept(s, e, id);
    SameGap(s.rows[id], Next(s, e).rows[id]);
    var fired, f := FiredOf(s, id), FiringOf(s, e, id);
    FiringRecordsTheWrite(s, e, id);
    if f != [] { FiringRespectsCooldown(s, e, id); }
    AppendSpaced(fired, f, Gap(s.rows[id]));
  }

  lemma SameGap(row: Alert, after: Alert)
    requires row.cooldownMinutes == after.cooldownMinutes
    ensures Gap(row) == Gap(after)
  {
  }

  lemma AppendSpaced(fired: seq<Firing>, f: seq<Firing>, gap: int)
    requires Spaced(fired, gap) && |f| <= 1
    requires fired != [] && f != [] ==> f[0].at - fired[|fired| - 1].at >= gap
    ensures Spaced(fired + f, gap)
  {
    forall i | 0 < i < |fired + f|
      ensures (fired + f)[i].at - (fired + f)[i - 1].at >= gap
    {
    }
  }

  /** From an up-to-date copy, a trigger comes a full cooldown after the one before it. */
  lemma FiringRespectsCooldown(s: State, e: Event, id: string)
    requires AlertHistory.Inv(s) && FreshInv(s) && id in s.rows && FiringOf(s, e, id) != []
    ensures var fired := FiredOf(s, id);
            fired != [] ==> FiringOf(s, e, id)[0].at - fired[|fired| - 1].at >= Gap(s.rows[id])
  {
    hide WriteTo, FiringOf, FiredOf, Crosses, Readable, PriceValue, AllJustified, AlertHistory.Inv, FreshInv;
    TriggerIsJustifiedHere(s, e, id);
    FiringCopy(s, e, id);
    HeadIsUpToDate(s, e.c);
  }

  lemma TriggerIsJustifiedHere(s: State, e: Event, id: string)
    requires AlertHistory.Inv(s) && id in s.rows && FiringOf(s, e, id) != []
    ensures Justified(s.observed, s.rows[id].coinId, FiringOf(s, e, id)[0])
    ensures s.rows[id].lastTriggeredAt == LastAt(FiredOf(s, id))
  {
    hide FiringOf, FiredOf, Justified, AllJustified;
    TriggerIsJustified(s, e, id);
    assert RowInv(s.rows[id], FiredOf(s, id), s.observed);
  }

  lemma FiringCopy(s: State, e: Event, id: string)
    requires FiringOf(s, e, id) != []
    ensures e.ProcessNext? && HasWork(s, e.c) && s.checks[e.c].queue[0].id == id
    ensures FiringOf(s, e, id)[0].copy == s.checks[e.c].queue[0].row
  {
    hide CheckWrite;
  }

  lemma HeadIsUpToDate(s: State, c: nat)
    requires AlertHistory.Inv(s) && FreshInv(s) && HasWork(s, c)
    ensures UpToDate(s, s.checks[c].queue[0])
    ensures s.checks[c].queue[0].row.cooldownMinutes == s.rows[s.checks[c].queue[0].id].cooldownMinutes
  {
    hide RowsInv, PricesInv;
    var copy := s.checks[c].queue[0];
    assert QueueInv(s, s.checks[c].queue);
    assert copy in s.checks[c].queue;
    assert CopyInv(s, copy);
  }

  lemma {:induction false} RunSpaced(s: State, events: seq<Event>)
    requires Initial(s) && Serialised(s, events)
    ensures FreshInv(Run(s, events)) && SpacedInv(Run(s, events))
  {
    if events != [] {
      var last := |events| - 1;
      var before := events[..last];
      hide Next, OneCheckAtATime, FreshInv, SpacedInv, Initial, AlertHistory.Inv;
      forall k | 0 <= k <= |before|
        ensures OneCheckAtATime(Run(s, before[..k]))
      {
        assert before[..k] == events[..k];
      }
      RunSpaced(s, before);
      RunInv(s, before);
      assert before[..last] == before;
      FreshStep(Run(s, before), events[last]);
      SpacedRows(Run(s, before), events[last]);
    } else {
      hide Next;
    }
  }

  lemma SpacedRows(s: State, e: Event)
    requires AlertHistory.Inv(s) && FreshInv(s) && SpacedInv(s)
    ensures SpacedInv(Next(s, e))
  {
    hide Next, AlertHistory.Inv, FreshInv, Spaced, Gap, FiredOf;
    forall id | id in Next(s, e).rows
      ensures Spaced(FiredOf(Next(s, e), id), Gap(Next(s, e).rows[id]))
    {
      if id in s.rows { SpacedStep(s, e, id); } else { NewIsSpaced(s, e, id); }
    }
  }

  lemma NewIsSpaced(s: State, e: Event, id: string)
    requires AlertHistory.Inv(s) && id !in s.rows && id in Next(s, e).rows
    ensures Spaced(FiredOf(Next(s, e), id), Gap(Next(s, e).rows[id]))
  {
    NewRow(s, e, id);
    hide Next;
  }

  lemma {:induction false} SpacedSum(fired: seq<Firing>, gap: int, j: nat, k: nat)
    requires Spaced(fired, gap) && j <= k < |fired|
    ensures fired[k].at - fired[j].at >= (k - j) * gap
  {
    if j < k {
      SpacedSum(fired, gap, j, k - 1);
      assert (k - j) * gap == (k - 1 - j) * gap + gap;
    }
  }

  /**
   * When checks are serialised, triggers j and k of an alert are at least
   * (k - j) cooldowns apart, whatever user edits are interleaved and whatever
   * the clock readings of the checks.
   */
  lemma CooldownBound(s: State, events: seq<Event>, id: string, j: nat, k: nat)
    requires Initial(s) && Serialised(s, events) && id in Run(s, events).rows
    requires j <= k < |FiredOf(Run(s, events), id)|
    ensures var end := Run(s, events);
            FiredOf(end, id)[k].at - FiredOf(end, id)[j].at >= (k - j) * Gap(end.rows[id])
  {
    hide Run, Initial, Serialised, FreshInv, Spaced, Gap, FiredOf;
    RunSpaced(s, events);
    SpacedSum(FiredOf(Run(s, events), id), Gap(Run(s, events).rows[id]), j, k);
  }

  // ------------------------------------------------- overlapping checks

  const Often := Alert("u", "btc", Sell, "2", Repeat, Active, None, [Email], DEFAULT_COOLDOWN_MINUTES, None, None, 0)
  const Fine := Circumstances(true, true, {}, true)

  lemma DigitPrice(c: char)
    requires IsDigit(c)
    ensures Readable([c]) && PriceValue([c]) == DigitValue(c) as real
  {
    var text := [c];
    assert Unsigned(text) == text && Dot(text) == 1 && text[..1] == text;
    assert IsDecimalString(text);
    SameValueAsDecimal(text);
    assert IntegerPart(text) + FractionPart(text) == text;
    assert text[..0] == [] && ToNat(text[..0]) == 0;
    assert ToNat(text) == DigitValue(c);
  }

  lemma SampleCrossing()
    ensures HasCrossed(Sell, Some("1"), "3", "2") == Decimals.Ok(true)
  {
    DigitPrice('1');
    DigitPrice('2');
    DigitPrice('3');
    hide Readable, PriceValue, HasCrossed;
    assert "1" == ['1'] && "2" == ['2'] && "3" == ['3'];
    CrossingIsWitnessed(Sell, Some("1"), "3", "2");
  }

  /** Reading the page of a table with one ACTIVE alert. */
  lemma OneRowPage(s: State, c: nat, row: Alert)
    requires s.rows == map["a" := row] && row.status == Active
    requires c in s.checks && s.checks[c].queue == [] && s.checks[c].more && s.checks[c].cursor == None
    ensures Next(s, ReadPage(c))
         == s.(checks := s.checks[c := s.checks[c].(queue := [Copy("a", row)], cursor := Some("a"), more := false)])
  {
    var ids := SortIds(ActiveAfter(s.rows, None));
    assert ActiveAfter(s.rows, None) == {"a"};
    assert |ids| == 1 && ids[0] in ids;
    assert ids == ["a"];
    var page := Page(s.rows, None, PAGE_SIZE);
    assert page[0] == Copy("a", row);
    assert page == [Copy("a", row)];
  }

  /** Handling the one queued copy of that alert. */
  lemma OneRowProcess(s: State, c: nat, row: Alert, copy: Alert)
    requires s.rows == map["a" := row]
    requires c in s.checks && s.checks[c].queue == [Copy("a", copy)]
    ensures var w := CheckWrite(copy, s.checks[c].now, s.checks[c].prices, Fine);
            var f := if w.Trigger? && row.status == Active then [Firing(w.at, w.price, copy)] else [];
            && Next(s, ProcessNext(c, Fine)).rows == map["a" := Updated(row, w)]
            && Next(s, ProcessNext(c, Fine)).checks == s.checks[c := s.checks[c].(queue := [])]
            && FiredOf(Next(s, ProcessNext(c, Fine)), "a") == FiredOf(s, "a") + f
  {
    hide CheckWrite, Updated;
    assert [Copy("a", copy)][1..] == [];
  }

  lemma Starts(s: State, c: nat, now: int, prices: map<string, string>)
    requires c !in s.checks
    ensures Next(s, StartCheck(c, now, prices))
         == s.(checks := s.checks[c := Check(now, prices, None, true, [])], observed := s.observed + Quotes(prices))
  {
  }

  const Low := map["btc" := "1"]
  const High := map["btc" := "3"]
  const OftenSeen := Often.(lastCheckedPrice := Some("1"))
  const OftenFired := Often.(lastCheckedPrice := Some("3"), lastTriggeredAt := Some(60000), triggeredCount := 1)

  lemma SampleWrites(t: int)
    ensures CheckWrite(Often, 0, Low, Fine) == LastPrice("1")
    ensures CheckWrite(OftenSeen, t, High, Fine) == Trigger("3", t, Active)
    ensures Updated(Often, LastPrice("1")) == OftenSeen
    ensures Updated(OftenSeen, Trigger("3", 60000, Active)) == OftenFired
  {
    hide HasCrossed;
    SampleCrossing();
    NothingToCross();
  }

  lemma NothingToCross()
    ensures HasCrossed(Sell, None, "1", "2") == Decimals.Ok(false)
  {
  }

  const Overlap: seq<Event> := [
    StartCheck(0, 0, Low), ReadPage(0), ProcessNext(0, Fine), EndCheck(0),
    StartCheck(1, 60000, High), ReadPage(1), StartCheck(2, 360000, High), ReadPage(2),
    ProcessNext(1, Fine), ProcessNext(2, Fine)]

  const Lone := State(map["a" := Often], map[], map[], map[], {})

  lemma Ends(s: State, c: nat)
    requires s.checks.Keys == {c}
    ensures Next(s, EndCheck(c)) == s.(checks := map[])
  {
    assert s.checks - {c} == map[];
  }

  lemma FirstCheck(s: State)
    requires s == Run(Lone, Overlap[..4])
    ensures s.rows == map["a" := OftenSeen] && FiredOf(s, "a") == [] && s.checks == map[]
  {
    hide Next, Run, CheckWrite, Updated;
    RunNil(Lone);
    RunSnoc(Lone, [], Overlap[0]);
    RunSnoc(Lone, Overlap[..1], Overlap[1]);
    RunSnoc(Lone, Overlap[..2], Overlap[2]);
    RunSnoc(Lone, Overlap[..3], Overlap[3]);
    assert [] + [Overlap[0]] == Overlap[..1] && Overlap[..1] + [Overlap[1]] == Overlap[..2]
        && Overlap[..2] + [Overlap[2]] == Overlap[..3] && Overlap[..3] + [Overlap[3]] == Overlap[..4];
    Starts(Lone, 0, 0, Low);
    OneRowPage(Run(Lone, Overlap[..1]), 0, Often);
    OneRowProcess(Run(Lone, Overlap[..2]), 0, Often, Often);
    SampleWrites(0);
    Ends(Run(Lone, Overlap[..3]), 0);
  }

  lemma OneRead(s: State)
    requires s == Run(Lone, Overlap[..6])
    ensures s.rows == map["a" := OftenSeen] && FiredOf(s, "a") == [] && s.checks.Keys == {1}
    ensures s.checks[1] == Check(60000, High, Some("a"), false, [Copy("a", OftenSeen)])
  {
    hide Next, Run;
    FirstCheck(Run(Lone, Overlap[..4]));
    RunSnoc(Lone, Overlap[..4], Overlap[4]);
    RunSnoc(Lone, Overlap[..5], Overlap[5]);
    assert Overlap[..4] + [Overlap[4]] == Overlap[..5] && Overlap[..5] + [Overlap[5]] == Overlap[..6];
    Starts(Run(Lone, Overlap[..4]), 1, 60000, High);
    OneRowPage(Run(Lone, Overlap[..5]), 1, OftenSeen);
  }

  lemma BothRead(s: State)
    requires s == Run(Lone, Overlap[..8])
    ensures s.rows == map["a" := OftenSeen] && FiredOf(s, "a") == [] && s.checks.Keys == {1, 2}
    ensures s.checks[1] == Check(60000, High, Some("a"), false, [Copy("a", OftenSeen)])
    ensures s.checks[2] == Check(360000, High, Some("a"), false, [Copy("a", OftenSeen)])
  {
    hide Next, Run;
    OneRead(Run(Lone, Overlap[..6]));
    RunSnoc(Lone, Overlap[..6], Overlap[6]);
    RunSnoc(Lone, Overlap[..7], Overlap[7]);
    assert Overlap[..6] + [Overlap[6]] == Overlap[..7] && Overlap[..7] + [Overlap[7]] == Overlap[..8];
    Starts(Run(Lone, Overlap[..6]), 2, 360000, High);
    OneRowPage(Run(Lone, Overlap[..7]), 2, OftenSeen);
  }

  lemma BothFire(s: State)
    requires s == Run(Lone, Overlap)
    ensures "a" in s.rows && s.rows["a"].cooldownMinutes == DEFAULT_COOLDOWN_MINUTES && s.rows["a"].triggeredCount == 2
    ensures FiredOf(s, "a") == [Firing(60000, "3", OftenSeen), Firing(360000, "3", OftenSeen)]
  {
    hide Next, Run, CheckWrite;
    BothRead(Run(Lone, Overlap[..8]));
    RunSnoc(Lone, Overlap[..8], Overlap[8]);
    RunSnoc(Lone, Overlap[..9], Overlap[9]);
    assert Overlap[..8] + [Overlap[8]] == Overlap[..9] && Overlap[..9] + [Overlap[9]] == Overlap;
    SampleWrites(60000);
    SampleWrites(360000);
    OneRowProcess(Run(Lone, Overlap[..8]), 1, OftenSeen, OftenSeen);
    OneRowProcess(Run(Lone, Overlap[..9]), 2, OftenFired, OftenSeen);
  }
}
