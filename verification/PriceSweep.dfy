/**
 * One price check: expire, fetch prices in batches, then sweep the ACTIVE
 * alerts page by page while other writers change the table underneath.
 */
module PriceSweep {
  import opened Options
  import opened Ordering
  import opened Slices
  import opened AlertEvaluator
  import opened PriceAlerts
  import opened AlertVerdicts
  import opened AlertUseCases
  import KeysetWalk

  const PRICE_REQUEST_BATCH_SIZE := 50

  // ------------------------------------------------------------ batched prices

  /** A price source: the answer to one request, or `None` if it throws. */
  type Client = seq<string> -> Option<map<string, string>>

  /** All batches merged in order, a later answer overriding an earlier one. */
  function FetchAll(coinIds: seq<string>, client: Client, batchSize: nat, prices: map<string, string>)
    : Option<map<string, string>>
    requires batchSize > 0
    decreases |coinIds|
  {
    if coinIds == [] then Some(prices)
    else
      var answer := client(Take(coinIds, batchSize));
      if answer.None? then None else FetchAll(Drop(coinIds, batchSize), client, batchSize, prices + answer.value)
  }

  /** The coins asked in the i-th request. */
  function Batch(coinIds: seq<string>, batchSize: nat, i: nat): seq<string> {
    Take(Drop(coinIds, i * batchSize), batchSize)
  }

  predicate RequestFails(coinIds: seq<string>, client: Client, batchSize: nat, i: nat) {
    i * batchSize < |coinIds| && client(Batch(coinIds, batchSize, i)).None?
  }

  lemma NextBatch(coinIds: seq<string>, batchSize: nat, i: nat)
    ensures Batch(coinIds, batchSize, 0) == Take(coinIds, batchSize)
    ensures Batch(Drop(coinIds, batchSize), batchSize, i) == Batch(coinIds, batchSize, i + 1)
    ensures batchSize > 0 ==> (i * batchSize < |Drop(coinIds, batchSize)| <==> (i + 1) * batchSize < |coinIds|)
  {
    assert (i + 1) * batchSize == i * batchSize + batchSize;
    assert Drop(Drop(coinIds, batchSize), i * batchSize) == Drop(coinIds, i * batchSize + batchSize);
  }

  /** Whatever the client answers: fetching fails exactly if one of its requests does. */
  lemma {:induction false} FetchFailsIff(
    coinIds: seq<string>, client: Client, batchSize: nat, prices: map<string, string>)
    requires batchSize > 0
    ensures FetchAll(coinIds, client, batchSize, prices).None?
       <==> exists i: nat :: RequestFails(coinIds, client, batchSize, i)
    decreases |coinIds|
  {
    hide Batch, Drop, Take;
    NextBatch(coinIds, batchSize, 0);
    var answer, rest := client(Take(coinIds, batchSize)), Drop(coinIds, batchSize);
    if coinIds != [] && answer.None? {
      assert RequestFails(coinIds, client, batchSize, 0);
    } else if coinIds != [] {
      Shorter(coinIds, batchSize);
      FetchFailsIff(rest, client, batchSize, prices + answer.value);
      FailsLater(coinIds, client, batchSize);
    }
  }

  lemma Shorter(coinIds: seq<string>, batchSize: nat)
    requires coinIds != [] && batchSize > 0
    ensures |Drop(coinIds, batchSize)| < |coinIds|
  {
  }

  lemma FailsLater(coinIds: seq<string>, client: Client, batchSize: nat)
    requires coinIds != [] && batchSize > 0 && client(Take(coinIds, batchSize)).Some?
    ensures (exists i: nat :: RequestFails(Drop(coinIds, batchSize), client, batchSize, i))
       <==> (exists i: nat :: RequestFails(coinIds, client, batchSize, i))
  {
    hide Batch, Drop, Take;
    var rest := Drop(coinIds, batchSize);
    if i: nat :| RequestFails(rest, client, batchSize, i) {
      NextBatch(coinIds, batchSize, i);
      assert RequestFails(coinIds, client, batchSize, i + 1);
    }
    if i: nat :| RequestFails(coinIds, client, batchSize, i) {
      NextBatch(coinIds, batchSize, 0);
      if i > 0 {
        NextBatch(coinIds, batchSize, i - 1);
        assert RequestFails(rest, client, batchSize, i - 1);
      }
    }
  }

  function Quoted(market: map<string, string>, coinIds: seq<string>): map<string, string> {
    map coin | coin in coinIds && coin in market :: market[coin]
  }

  /** The client answers each request from one market, whatever coins are asked together. */
  ghost predicate Consistent(client: Client, market: map<string, string>) {
    forall batch :: client(batch) == Some(Quoted(market, batch))
  }

  lemma QuotedSplit(market: map<string, string>, head: seq<string>, tail: seq<string>, prices: map<string, string>)
    ensures prices + Quoted(market, head) + Quoted(market, tail) == prices + Quoted(market, head + tail)
  {
  }

  /** How the coins are split into requests does not show in the prices. */
  lemma {:induction false} BatchingIsInvisible(
    coinIds: seq<string>, client: Client, batchSize: nat, market: map<string, string>, prices: map<string, string>)
    requires batchSize > 0 && Consistent(client, market)
    ensures FetchAll(coinIds, client, batchSize, prices) == Some(prices + Quoted(market, coinIds))
    decreases |coinIds|
  {
    hide Quoted;
    var head, tail := Take(coinIds, batchSize), Drop(coinIds, batchSize);
    if coinIds == [] {
      NothingQuoted(market, prices);
    } else {
      assert client(head) == Some(Quoted(market, head));
      BatchingIsInvisible(tail, client, batchSize, market, prices + Quoted(market, head));
      assert coinIds == head + tail;
      QuotedSplit(market, head, tail, prices);
    }
  }

  lemma NothingQuoted(market: map<string, string>, prices: map<string, string>)
    ensures prices + Quoted(market, []) == prices
  {
  }

  // ------------------------------------------------------------------ counters

  class PriceCheckCounters {
    var checked: nat
    var expired: nat
    var triggered: nat
    var skipped: nat

    constructor (expired: nat)
      ensures Value() == Counts(0, expired, 0, 0)
    {
      this.checked, this.expired, this.triggered, this.skipped := 0, expired, 0, 0;
    }

    function Value(): Counts
      reads this
    {
      Counts(checked, expired, triggered, skipped)
    }
  }

  // --------------------------------------------------------------- page reads

  /** One page query of the sweep: the table it ran on, its cursor and its answer. */
  datatype PageRead = PageRead(table: Table, cursor: Option<string>, page: seq<Copy>)

  function LastId(page: seq<Copy>): Option<string> {
    if page == [] then None else Some(page[|page| - 1].id)
  }

  /** The read saw rows among `keys` only and returned the page its cursor asks for. */
  predicate Answers(read: PageRead, keys: set<string>) {
    read.table.Keys <= keys && read.page == Page(read.table, read.cursor, PAGE_SIZE)
  }

  /** The loop goes on after a full page only, from its last identifier. */
  predicate Leads(read: PageRead, next: PageRead) {
    |read.page| == PAGE_SIZE && next.cursor == LastId(read.page)
  }

  /** The reads the loop makes, over tables whose rows change, come and go among the identifiers `keys`. */
  predicate Follows(log: seq<PageRead>, keys: set<string>) {
    && (forall k :: 0 <= k < |log| ==> Answers(log[k], keys))
    && (log != [] ==> log[0].cursor == None)
    && (forall k, m :: 0 <= k < |log| && m == k + 1 && m < |log| ==> Leads(log[k], log[m]))
  }

  /** The loop ended: the last page was not full. */
  predicate Ended(log: seq<PageRead>) {
    log != [] && |log[|log| - 1].page| < PAGE_SIZE
  }

  /** Where the loop reads next: at the start, or after the last full page. */
  predicate ResumesAt(log: seq<PageRead>, cursor: Option<string>) {
    if log == [] then cursor == None
    else |log[|log| - 1].page| == PAGE_SIZE && cursor == LastId(log[|log| - 1].page)
  }

  function Handed(log: seq<PageRead>): seq<Copy> {
    if log == [] then [] else Handed(log[..|log| - 1]) + log[|log| - 1].page
  }

  function Ids(copies: seq<Copy>): (ids: seq<string>)
    ensures |ids| == |copies|
    ensures forall i :: 0 <= i < |copies| ==> ids[i] == copies[i].id
  {
    seq(|copies|, i requires 0 <= i < |copies| => copies[i].id)
  }

  lemma PageFacts(read: PageRead, keys: set<string>)
    requires Answers(read, keys)
    ensures Ascending(Ids(read.page), IdLess)
    ensures forall i :: 0 <= i < |read.page| ==>
              && read.page[i].id in keys
              && read.page[i].row == read.table[read.page[i].id]
              && read.page[i].row.status == Active
              && After(read.cursor, read.page[i].id)
  {
    hide IdLess, After;
    var ids := PageIds(read.table, read.cursor, PAGE_SIZE);
    hide PageIds;
    assert Ids(read.page) == ids;
  }

  // ------------------------------------------------------------- completeness

  function ActiveIds(rows: Table): set<string> {
    set id | id in rows && rows[id].status == Active
  }

  /** The page query as a read of the identifiers ACTIVE at that moment; a page that is not full ends the loop. */
  function AsStep(read: PageRead): KeysetWalk.Step<string> {
    KeysetWalk.Step(ActiveIds(read.table), read.cursor, Ids(read.page), |read.page| < PAGE_SIZE)
  }

  function AsWalk(log: seq<PageRead>): seq<KeysetWalk.Step<string>> {
    seq(|log|, i requires 0 <= i < |log| => AsStep(log[i]))
  }

  lemma ReadIsAStep(read: PageRead, keys: set<string>)
    requires Answers(read, keys) && read.cursor != Some("")
    ensures StrictTotalOrder(IdLess) && KeysetWalk.Reads(AsStep(read), PAGE_SIZE, IdLess)
  {
    IdOrder();
    hide IdLess, StrictTotalOrder;
    assert ActiveAfter(read.table, read.cursor) == KeysetWalk.Beyond(ActiveIds(read.table), read.cursor, IdLess);
    assert Ids(read.page) == PageIds(read.table, read.cursor, PAGE_SIZE);
  }

  lemma CursorIsAKey(log: seq<PageRead>, keys: set<string>, k: nat)
    requires Follows(log, keys) && "" !in keys && k < |log|
    ensures log[k].cursor != Some("")
  {
    hide Page, IdLess;
    if k > 0 {
      assert Leads(log[k - 1], log[k]);
      PageFacts(log[k - 1], keys);
    }
  }

  lemma SweepIsAWalk(log: seq<PageRead>, keys: set<string>)
    requires Follows(log, keys) && "" !in keys
    ensures StrictTotalOrder(IdLess) && KeysetWalk.Walk(AsWalk(log), PAGE_SIZE, IdLess)
  {
    IdOrder();
    hide IdLess, StrictTotalOrder, Answers, KeysetWalk.Reads;
    var steps := AsWalk(log);
    forall k | 0 <= k < |steps|
      ensures KeysetWalk.Reads(steps[k], PAGE_SIZE, IdLess)
    {
      CursorIsAKey(log, keys, k);
      ReadIsAStep(log[k], keys);
    }
    forall k, m | 0 <= k < |steps| && m == k + 1 && m < |steps|
      ensures KeysetWalk.Resumes(steps[k], steps[m])
    {
      assert Leads(log[k], log[m]);
    }
  }

  lemma {:induction false} HandedIds(log: seq<PageRead>)
    ensures Ids(Handed(log)) == KeysetWalk.Handed(AsWalk(log))
  {
    if log != [] {
      var last := |log| - 1;
      HandedIds(log[..last]);
      assert AsWalk(log)[..last] == AsWalk(log[..last]);
      assert Ids(Handed(log)) == Ids(Handed(log[..last])) + Ids(log[last].page);
    }
  }

  /** The identifiers handed out, over all pages, are strictly ascending: no alert is handed out twice. */
  lemma HandedAscending(log: seq<PageRead>, keys: set<string>)
    requires Follows(log, keys) && "" !in keys
    ensures Ascending(Ids(Handed(log)), IdLess)
  {
    SweepIsAWalk(log, keys);
    HandedIds(log);
    hide IdLess, Follows, KeysetWalk.Walk, AsWalk, Handed;
    KeysetWalk.HandedAscending(AsWalk(log), PAGE_SIZE, IdLess);
  }

  /** The first read whose page extends as far as the identifier. */
  function CoveringRead(log: seq<PageRead>, id: string): (k: nat)
    requires Ended(log)
    ensures k < |log|
  {
    KeysetWalk.Covering(AsWalk(log), id, IdLess, 0)
  }

  /**
   * However rows change, appear and disappear meanwhile, every alert is listed
   * on exactly one page if it was ACTIVE when that page, the first to extend so
   * far, was read, and on none otherwise.
   */
  lemma SweepIsComplete(log: seq<PageRead>, keys: set<string>, id: string)
    requires Follows(log, keys) && Ended(log) && "" !in keys
    ensures var k := CoveringRead(log, id);
            && (id in Ids(log[k].page) <==> IsActive(log[k].table, id))
            && (forall j :: 0 <= j < |log| && j != k ==> id !in Ids(log[j].page))
  {
    hide IdLess, Follows, KeysetWalk.Walk, KeysetWalk.Covering, StrictTotalOrder, AsWalk, AsStep, Ids;
    SweepIsAWalk(log, keys);
    WalkOf(log);
    var steps := AsWalk(log);
    KeysetWalk.WalkIsComplete(steps, PAGE_SIZE, id, IdLess);
    StepShows(log[CoveringRead(log, id)], id);
  }

  lemma WalkOf(log: seq<PageRead>)
    ensures |AsWalk(log)| == |log|
    ensures forall k :: 0 <= k < |log| ==> AsWalk(log)[k] == AsStep(log[k]) && AsWalk(log)[k].page == Ids(log[k].page)
    ensures Ended(log) ==> KeysetWalk.Complete(AsWalk(log))
  {
  }

  lemma StepShows(read: PageRead, id: string)
    ensures id in AsStep(read).rows <==> IsActive(read.table, id)
    ensures AsStep(read).page == Ids(read.page)
  {
  }

  // ------------------------------------------------------------- the service

  /** One alert handled: the copy, what the checker met, and the table around its write. */
  datatype Visit = Visit(copy: Copy, around: Circumstances, before: Table, after: Table)

  function Copies(visits: seq<Visit>): seq<Copy> {
    seq(|visits|, i requires 0 <= i < |visits| => visits[i].copy)
  }

  /** The write of a visit is exactly the one its copy calls for. */
  predicate Performed(v: Visit, now: int, prices: map<string, string>) {
    v.after == Apply(v.before, v.copy.id, CheckWrite(v.copy.row, now, prices, v.around))
  }

  predicate AllPerformed(visits: seq<Visit>, now: int, prices: map<string, string>) {
    forall i :: 0 <= i < |visits| ==> Performed(visits[i], now, prices)
  }

  function TallyVisit(c: Counts, v: Visit, now: int, prices: map<string, string>): Counts {
    Tally(c, Assess(v.copy.row, now, prices, v.around), v.around, IsActive(v.before, v.copy.id))
  }

  function TallyAll(c: Counts, visits: seq<Visit>, now: int, prices: map<string, string>): Counts {
    if visits == [] then c
    else TallyVisit(TallyAll(c, visits[..|visits| - 1], now, prices), visits[|visits| - 1], now, prices)
  }

  // ------------------------------------------------ the check and its interference

  /** Each time the sweep touches the table: a page read, or one alert handled. */
  datatype Touch = Listed(read: PageRead) | Handled(visit: Visit)

  /** The table as the touch found it. */
  function Met(t: Touch): Table {
    match t
    case Listed(read) => read.table
    case Handled(visit) => visit.before
  }

  /** The table as the touch left it. */
  function Left(t: Touch): Table {
    match t
    case Listed(read) => read.table
    case Handled(visit) => visit.after
  }

  function FinalTable(first: Table, trace: seq<Touch>): Table {
    if trace == [] then first else Left(trace[|trace| - 1])
  }

  function ReadsOf(trace: seq<Touch>): seq<PageRead> {
    if trace == [] then []
    else
      var last := trace[|trace| - 1];
      ReadsOf(trace[..|trace| - 1]) + (if last.Listed? then [last.read] else [])
  }

  function VisitsOf(trace: seq<Touch>): seq<Visit> {
    if trace == [] then []
    else
      var last := trace[|trace| - 1];
      VisitsOf(trace[..|trace| - 1]) + (if last.Handled? then [last.visit] else [])
  }

  /** What other writers have made of the table by the k-th time the sweep touches it. */
  type Environment = (nat, Table) -> Table

  /** Other writers may change, insert and remove rows, among the identifiers of `universe`. */
  ghost predicate Within(environment: Environment, universe: set<string>) {
    forall k: nat, rows: Table :: rows.Keys <= universe ==> environment(k, rows).Keys <= universe
  }

  /** The copy is the first handed out and not dealt with yet. */
  predicate IsNext(trace: seq<Touch>, copy: Copy) {
    var done, handed := |VisitsOf(trace)|, Handed(ReadsOf(trace));
    done < |handed| && handed[done] == copy
  }

  /** The k-th touch finds what others made of the table the one before left; a page is read with no copy outstanding. */
  predicate TouchAt(first: Table, trace: seq<Touch>, k: nat, environment: Environment, around: nat -> Circumstances)
    requires k < |trace|
  {
    && Met(trace[k]) == environment(k, FinalTable(first, trace[..k]))
    && (trace[k].Handled? ==>
          trace[k].visit.around == around(k) && IsNext(trace[..k], trace[k].visit.copy))
    && (trace[k].Listed? ==> Copies(VisitsOf(trace[..k])) == Handed(ReadsOf(trace[..k])))
  }

  predicate Interleaved(first: Table, trace: seq<Touch>, environment: Environment, around: nat -> Circumstances) {
    forall k :: 0 <= k < |trace| ==> TouchAt(first, trace, k, environment, around)
  }

  /** What a sweep has done so far, from the table `first` and the counts `start`. */
  datatype Sweep = Sweep(
    first: Table, start: Counts, now: int, prices: map<string, string>, universe: set<string>,
    environment: Environment, around: nat -> Circumstances)

  predicate SoFar(w: Sweep, trace: seq<Touch>, counts: Counts, rows: Table) {
    && rows.Keys <= w.universe
    && rows == FinalTable(w.first, trace)
    && counts == TallyAll(w.start, VisitsOf(trace), w.now, w.prices)
    && Follows(ReadsOf(trace), w.universe)
    && AllPerformed(VisitsOf(trace), w.now, w.prices)
    && Interleaved(w.first, trace, w.environment, w.around)
  }

  /** A finished sweep: it ended, and every copy handed out has been dealt with in order. */
  predicate Swept(w: Sweep, trace: seq<Touch>, counts: Counts, rows: Table) {
    SoFar(w, trace, counts, rows) && Ended(ReadsOf(trace)) && Copies(VisitsOf(trace)) == Handed(ReadsOf(trace))
  }

  /** A whole check: expire, fetch, and unless the fetch failed, sweep. */
  predicate Checked(
    before: Table, now: int, coinIds: seq<string>, client: Client, universe: set<string>,
    environment: Environment, around: nat -> Circumstances,
    counts: Option<Counts>, trace: seq<Touch>, after: Table)
  {
    var first := ExpireAll(before, now);
    match FetchAll(coinIds, client, PRICE_REQUEST_BATCH_SIZE, map[])
    case None => counts == None && trace == [] && after == first
    case Some(prices) =>
      && counts.Some?
      && Swept(Sweep(first, Counts(0, |ExpiredBy(before, now)|, 0, 0), now, prices, universe, environment, around),
               trace, counts.value, after)
  }

  lemma NothingYet(w: Sweep)
    requires w.first.Keys <= w.universe
    ensures SoFar(w, [], w.start, w.first) && ResumesAt(ReadsOf([]), None)
    ensures Copies(VisitsOf([])) == Handed(ReadsOf([]))
  {
  }

  lemma AppendTouch(w: Sweep, trace: seq<Touch>, t: Touch)
    requires Interleaved(w.first, trace, w.environment, w.around)
    requires TouchAt(w.first, trace + [t], |trace|, w.environment, w.around)
    ensures Interleaved(w.first, trace + [t], w.environment, w.around)
  {
    var all := trace + [t];
    hide TouchAt;
    forall k | 0 <= k < |all|
      ensures TouchAt(w.first, all, k, w.environment, w.around)
    {
      if k < |trace| { SameTouch(w, trace, t, k); }
    }
  }

  lemma TouchIsNew(w: Sweep, trace: seq<Touch>, t: Touch)
    requires Met(t) == w.environment(|trace|, FinalTable(w.first, trace))
    requires t.Handled? ==> t.visit.around == w.around(|trace|) && IsNext(trace, t.visit.copy)
    requires t.Listed? ==> Copies(VisitsOf(trace)) == Handed(ReadsOf(trace))
    ensures TouchAt(w.first, trace + [t], |trace|, w.environment, w.around)
  {
    hide Met, FinalTable, Copies, Handed, VisitsOf, ReadsOf, IsNext;
    assert (trace + [t])[..|trace|] == trace;
  }

  lemma PerformedKeepsKeys(v: Visit, now: int, prices: map<string, string>)
    requires Performed(v, now, prices)
    ensures v.after.Keys == v.before.Keys
  {
    hide CheckWrite, Updated;
  }

  lemma SameTouch(w: Sweep, trace: seq<Touch>, t: Touch, k: nat)
    requires k < |trace| && TouchAt(w.first, trace, k, w.environment, w.around)
    ensures TouchAt(w.first, trace + [t], k, w.environment, w.around)
  {
    hide Met, FinalTable, Copies, Handed, VisitsOf, ReadsOf, IsNext;
    assert (trace + [t])[..k] == trace[..k];
  }

  lemma SplitTouch(trace: seq<Touch>, t: Touch)
    ensures ReadsOf(trace + [t]) == ReadsOf(trace) + (if t.Listed? then [t.read] else [])
    ensures VisitsOf(trace + [t]) == VisitsOf(trace) + (if t.Handled? then [t.visit] else [])
  {
    assert (trace + [t])[..|trace|] == trace;
  }

  /** Reading the next page once everything handed out has been dealt with. */
  lemma ReadTouch(w: Sweep, trace: seq<Touch>, counts: Counts, rows: Table, cursor: Option<string>)
    requires Within(w.environment, w.universe) && SoFar(w, trace, counts, rows)
    requires Copies(VisitsOf(trace)) == Handed(ReadsOf(trace)) && ResumesAt(ReadsOf(trace), cursor)
    ensures var met := w.environment(|trace|, rows);
            var page := Page(met, cursor, PAGE_SIZE);
            var more := trace + [Listed(PageRead(met, cursor, page))];
            && SoFar(w, more, counts, met)
            && Answers(PageRead(met, cursor, page), w.universe)
            && Copies(VisitsOf(more)) + page == Handed(ReadsOf(more))
            && (|page| < PAGE_SIZE ==> Ended(ReadsOf(more)))
            && (|page| >= PAGE_SIZE ==> ResumesAt(ReadsOf(more), Some(page[|page| - 1].id)))
  {
    hide Page, Follows, Answers, Ended, ResumesAt, Copies, Handed, TallyAll, AllPerformed;
    hide Interleaved, VisitsOf, ReadsOf, TouchAt, Within, FinalTable, PageIds, IdLess, After, Ascending;
    var met := w.environment(|trace|, rows);
    var read := PageRead(met, cursor, Page(met, cursor, PAGE_SIZE));
    StaysWithin(w.environment, w.universe, |trace|, rows);
    ListedTouch(trace, read);
    LogGrows(ReadsOf(trace), read, w.universe);
    TouchIsNew(w, trace, Listed(read));
    AppendTouch(w, trace, Listed(read));
    ListedLast(w.first, trace, read);
  }

  lemma ListedTouch(trace: seq<Touch>, read: PageRead)
    ensures VisitsOf(trace + [Listed(read)]) == VisitsOf(trace)
    ensures ReadsOf(trace + [Listed(read)]) == ReadsOf(trace) + [read]
  {
    SplitTouch(trace, Listed(read));
    assert VisitsOf(trace) + [] == VisitsOf(trace);
  }

  lemma ListedLast(first: Table, trace: seq<Touch>, read: PageRead)
    ensures FinalTable(first, trace + [Listed(read)]) == read.table
  {
  }

  lemma StaysWithin(environment: Environment, universe: set<string>, k: nat, rows: Table)
    requires Within(environment, universe) && rows.Keys <= universe
    ensures environment(k, rows).Keys <= universe
  {
  }

  lemma NextCopy(done: seq<Copy>, copy: Copy, rest: seq<Copy>)
    ensures done + ([copy] + rest) == done + [copy] + rest
  {
  }

  /** Dealing with the next copy handed out. */
  lemma HandleTouch(w: Sweep, trace: seq<Touch>, counts: Counts, rows: Table, v: Visit, rest: seq<Copy>)
    requires Within(w.environment, w.universe) && SoFar(w, trace, counts, rows)
    requires Copies(VisitsOf(trace)) + ([v.copy] + rest) == Handed(ReadsOf(trace))
    requires v.before == w.environment(|trace|, rows) && v.around == w.around(|trace|) && Performed(v, w.now, w.prices)
    ensures var more := trace + [Handled(v)];
            && SoFar(w, more, TallyVisit(counts, v, w.now, w.prices), v.after)
            && Copies(VisitsOf(more)) + rest == Handed(ReadsOf(more))
            && ReadsOf(more) == ReadsOf(trace)
  {
    hide Follows, Copies, Handed, TallyAll, TallyVisit, Interleaved, VisitsOf, ReadsOf, TouchAt, Performed, AllPerformed;
    hide Within, IsNext;
    PerformedKeepsKeys(v, w.now, w.prices);
    StaysWithin(w.environment, w.universe, |trace|, rows);
    CopyIsNext(trace, v.copy, rest);
    TouchIsNew(w, trace, Handled(v));
    AppendTouch(w, trace, Handled(v));
    VisitTouch(w, trace, v, rest);
    HandledLast(w.first, trace, v);
  }

  lemma CopyIsNext(trace: seq<Touch>, copy: Copy, rest: seq<Copy>)
    requires Copies(VisitsOf(trace)) + ([copy] + rest) == Handed(ReadsOf(trace))
    ensures IsNext(trace, copy)
  {
    hide Handed, VisitsOf, ReadsOf;
    var done := Copies(VisitsOf(trace));
    assert (done + ([copy] + rest))[|done|] == copy;
  }

  lemma HandledLast(first: Table, trace: seq<Touch>, v: Visit)
    ensures FinalTable(first, trace + [Handled(v)]) == v.after
  {
  }

  lemma VisitTouch(w: Sweep, trace: seq<Touch>, v: Visit, rest: seq<Copy>)
    requires AllPerformed(VisitsOf(trace), w.now, w.prices) && Performed(v, w.now, w.prices)
    ensures var more := trace + [Handled(v)];
            && ReadsOf(more) == ReadsOf(trace)
            && AllPerformed(VisitsOf(more), w.now, w.prices)
            && TallyAll(w.start, VisitsOf(more), w.now, w.prices)
               == TallyVisit(TallyAll(w.start, VisitsOf(trace), w.now, w.prices), v, w.now, w.prices)
            && Copies(VisitsOf(more)) + rest == Copies(VisitsOf(trace)) + ([v.copy] + rest)
  {
    hide Copies, TallyAll, TallyVisit, VisitsOf, ReadsOf, Performed, AllPerformed;
    SplitTouch(trace, Handled(v));
    assert ReadsOf(trace) + [] == ReadsOf(trace);
    VisitAdded(w.start, VisitsOf(trace), v, w.now, w.prices);
    NextCopy(Copies(VisitsOf(trace)), v.copy, rest);
    OneMorePerformed(VisitsOf(trace), v, w.now, w.prices);
  }

  lemma OneMorePerformed(visits: seq<Visit>, v: Visit, now: int, prices: map<string, string>)
    requires AllPerformed(visits, now, prices) && Performed(v, now, prices)
    ensures AllPerformed(visits + [v], now, prices)
  {
    hide Performed;
  }

  /** Identifiers the sweep has still to pass. */
  function Ahead(keys: set<string>, cursor: Option<string>): set<string> {
    set id | id in keys && After(cursor, id)
  }

  lemma CursorAdvances(read: PageRead, keys: set<string>)
    requires Answers(read, keys) && read.page != [] && "" !in keys
    ensures |Ahead(keys, Some(read.page[|read.page| - 1].id))| < |Ahead(keys, read.cursor)|
  {
    hide IdLess, Page;
    PageFacts(read, keys);
    var last := read.page[|read.page| - 1].id;
    var now, later := Ahead(keys, read.cursor), Ahead(keys, Some(last));
    forall id | id in later
      ensures id in now
    {
      if read.cursor.Some? && read.cursor.value != "" { IdLessTransitive(read.cursor.value, last, id); }
    }
    IdLessTotal(last, last);
    assert last in now && last !in later;
    assert later <= now - {last};
    SmallerSet(later, now - {last});
  }

  class PriceCheckService {
    const alerts: PriceAlertRepository

    constructor (alerts: PriceAlertRepository)
      ensures this.alerts == alerts
    {
      this.alerts := alerts;
    }

    method FetchPricesInBatches(coinIds: seq<string>, client: Client) returns (r: Option<map<string, string>>)
      ensures r == FetchAll(coinIds, client, 50, map[])
    {
      var allPrices: map<string, string> := map[];
      var i := 0;
      while i < |coinIds|
        invariant 0 <= i
        invariant FetchAll(coinIds, client, PRICE_REQUEST_BATCH_SIZE, map[])
               == FetchAll(Drop(coinIds, i), client, PRICE_REQUEST_BATCH_SIZE, allPrices)
      {
        var batch := Take(coinIds[i..], PRICE_REQUEST_BATCH_SIZE);
        var batchPrices := client(batch);
        if batchPrices.None? {
          return None;
        }
        assert Drop(Drop(coinIds, i), PRICE_REQUEST_BATCH_SIZE) == Drop(coinIds, i + PRICE_REQUEST_BATCH_SIZE);
        allPrices := allPrices + batchPrices.value;
        i := i + PRICE_REQUEST_BATCH_SIZE;
      }
      return Some(allPrices);
    }

    /** `threw` stands for an exception out of the evaluator, the notification or the store. */
    method ProcessAlert(copy: Copy, prices: map<string, string>, now: int, counters: PriceCheckCounters,
                        around: Circumstances) returns (threw: bool)
      modifies alerts, counters
      ensures alerts.rows == Apply(old(alerts.rows), copy.id, CheckWrite(copy.row, now, prices, around))
      ensures var v := Assess(copy.row, now, prices, around);
              && threw == Throws(v, around)
              && Tally(old(counters.Value()), v, around, IsActive(old(alerts.rows), copy.id))
                 == (if threw then counters.Value().(skipped := counters.skipped + 1) else counters.Value())
    {
      hide HasCrossed, IsCooldownExpired, Lapsed, Updated, Apply;
      var alert := copy.row;
      if Lapsed(alert, now) {
        if !around.stored {
          return true;
        }
        alerts.UpdateOwned(copy.id, alert.userId, NoChange.(status := Some(Expired)));
        counters.expired := counters.expired + 1;
        return false;
      }
      if !around.coinActive {
        counters.skipped := counters.skipped + 1;
        return false;
      }
      if alert.coinId !in prices {
        counters.skipped := counters.skipped + 1;
        return false;
      }
      var currentPrice := prices[alert.coinId];
      counters.checked := counters.checked + 1;
      var crossed := HasCrossed(alert.direction, alert.lastCheckedPrice, currentPrice, alert.targetPrice);
      if crossed.Err? {
        return true;
      }
      if !crossed.value {
        if !around.stored {
          return true;
        }
        var _ := alerts.UpdateLastCheckedPrice(copy.id, currentPrice);
        return false;
      }
      if !IsCooldownExpired(alert.lastTriggeredAt, alert.cooldownMinutes, now)
         || (!around.reachable && Email in alert.channels) {
        if !around.stored {
          return true;
        }
        var _ := alerts.UpdateLastCheckedPrice(copy.id, currentPrice);
        counters.skipped := counters.skipped + 1;
        return false;
      }
      if !Delivered(alert.channels, around) {
        return true;
      }
      if !around.stored {
        return true;
      }
      var updated := alerts.MarkTriggered(copy.id, currentPrice, now, StatusAfterFiring(alert.triggerMode));
      if updated {
        counters.triggered := counters.triggered + 1;
      } else {
        counters.skipped := counters.skipped + 1;
      }
      return false;
    }

    /** The body of the sweep's loop: one page, alert by alert, a failure never stopping the rest. */
    method ProcessPage(page: seq<Copy>, counters: PriceCheckCounters, w: Sweep, touch: nat, ghost trace: seq<Touch>)
      returns (next: nat, ghost more: seq<Touch>)
      requires Within(w.environment, w.universe) && touch == |trace|
      requires SoFar(w, trace, counters.Value(), alerts.rows)
      requires Copies(VisitsOf(trace)) + page == Handed(ReadsOf(trace))
      modifies alerts, counters
      ensures next == |more| && SoFar(w, more, counters.Value(), alerts.rows)
      ensures Copies(VisitsOf(more)) == Handed(ReadsOf(more)) && ReadsOf(more) == ReadsOf(trace)
    {
      hide SoFar, Within, Copies, Handed, ReadsOf, VisitsOf, TallyVisit, Tally, Assess, CheckWrite, IsActive, Apply;
      next, more := touch, trace;
      assert page[0..] == page;
      for i := 0 to |page|
        invariant next == |more|
        invariant SoFar(w, more, counters.Value(), alerts.rows)
        invariant Copies(VisitsOf(more)) + page[i..] == Handed(ReadsOf(more)) && ReadsOf(more) == ReadsOf(trace)
      {
        ghost var rows, counts := alerts.rows, counters.Value();
        alerts.rows := w.environment(next, alerts.rows);
        ghost var found := alerts.rows;
        var met := w.around(next);
        next := next + 1;
        var threw := ProcessAlert(page[i], w.prices, w.now, counters, met);
        if threw {
          counters.skipped := counters.skipped + 1;
        }
        ghost var v := Visit(page[i], met, found, alerts.rows);
        assert page[i..] == [page[i]] + page[i + 1..];
        TalliesVisit(counts, v, w.now, w.prices);
        HandleTouch(w, more, counts, rows, v, page[i + 1..]);
        more := more + [Handled(v)];
      }
      assert page[|page|..] == [];
      NothingHanded(more);
    }

    /**
     * `universe` bounds the identifiers that exist at any time during the
     * check; without a bound the loop need not end.
     */
    method ExecuteCheck(now: int, coinIds: seq<string>, client: Client, environment: Environment,
                        around: nat -> Circumstances, universe: set<string>)
      returns (counts: Option<Counts>, ghost trace: seq<Touch>)
      requires "" !in universe && alerts.rows.Keys <= universe && Within(environment, universe)
      modifies alerts
      ensures Checked(old(alerts.rows), now, coinIds, client, universe, environment, around, counts, trace, alerts.rows)
    {
      hide SoFar, Within, Copies, Handed, ReadsOf, VisitsOf, ResumesAt, Answers, Ended, Ahead, TallyVisit, Tally, Assess,
        CheckWrite, IsActive, Apply, ExpireAll, ExpiredBy, FetchAll, Page, PageIds, IdLess, After, Ascending;
      ghost var before := alerts.rows;
      trace := [];
      var expired := alerts.ExpireActiveAlerts(now);
      var fetched := FetchPricesInBatches(coinIds, client);
      if fetched.None? {
        return None, [];
      }
      var prices := fetched.value;
      var counters := new PriceCheckCounters(|expired|);
      var w := Sweep(alerts.rows, counters.Value(), now, prices, universe, environment, around);
      NothingYet(w);
      var cursorId: Option<string> := None;
      var touch := 0;
      while true
        invariant fresh(counters) && touch == |trace|
        invariant SoFar(w, trace, counters.Value(), alerts.rows)
        invariant Copies(VisitsOf(trace)) == Handed(ReadsOf(trace)) && ResumesAt(ReadsOf(trace), cursorId)
        decreases |Ahead(universe, cursorId)|
      {
        ReadTouch(w, trace, counters.Value(), alerts.rows, cursorId);
        alerts.rows := environment(touch, alerts.rows);
        touch := touch + 1;
        var page := alerts.FindActiveAlertsForScheduler(cursorId, PAGE_SIZE);
        ghost var read := PageRead(alerts.rows, cursorId, page);
        trace := trace + [Listed(read)];
        if page == [] {
          NothingHanded(trace);
          break;
        }
        touch, trace := ProcessPage(page, counters, w, touch, trace);
        CursorAdvances(read, universe);
        cursorId := Some(page[|page| - 1].id);
        if |page| < PAGE_SIZE {
          break;
        }
      }
      counts := Some(counters.Value());
    }
  }

  lemma NothingHanded(trace: seq<Touch>)
    ensures Copies(VisitsOf(trace)) + [] == Copies(VisitsOf(trace))
  {
  }

  lemma TalliesVisit(c: Counts, v: Visit, now: int, prices: map<string, string>)
    ensures TallyVisit(c, v, now, prices)
         == Tally(c, Assess(v.copy.row, now, prices, v.around), v.around, IsActive(v.before, v.copy.id))
  {
  }

  lemma LogGrows(log: seq<PageRead>, read: PageRead, keys: set<string>)
    requires Follows(log, keys)
    requires read.table.Keys <= keys && read.page == Page(read.table, read.cursor, PAGE_SIZE)
    requires ResumesAt(log, read.cursor)
    ensures Follows(log + [read], keys) && Answers(read, keys)
    ensures |read.page| < PAGE_SIZE ==> Ended(log + [read])
    ensures |read.page| >= PAGE_SIZE ==> ResumesAt(log + [read], Some(read.page[|read.page| - 1].id))
    ensures Handed(log + [read]) == Handed(log) + read.page
  {
    hide Page, PageIds, IdLess, After, Ascending, Follows, Handed;
    AtMostAPage(read.table, read.cursor);
    AppendFollows(log, read, keys);
    HandedGrows(log, read);
  }

  lemma HandedGrows(log: seq<PageRead>, read: PageRead)
    ensures Handed(log + [read]) == Handed(log) + read.page
  {
    assert (log + [read])[..|log|] == log;
  }

  lemma AtMostAPage(rows: Table, cursor: Option<string>)
    ensures |Page(rows, cursor, PAGE_SIZE)| <= PAGE_SIZE == 500
  {
  }

  lemma AppendFollows(log: seq<PageRead>, read: PageRead, keys: set<string>)
    requires Follows(log, keys) && Answers(read, keys)
    requires if log == [] then read.cursor == None else Leads(log[|log| - 1], read)
    ensures Follows(log + [read], keys)
  {
    hide Answers, Leads;
    var all := log + [read];
    forall k, m | 0 <= k < |all| && m == k + 1 && m < |all|
      ensures Leads(all[k], all[m])
    {
      if m < |log| { assert Leads(log[k], log[m]); }
    }
  }

  lemma VisitAdded(c: Counts, visits: seq<Visit>, v: Visit, now: int, prices: map<string, string>)
    ensures TallyAll(c, visits + [v], now, prices) == TallyVisit(TallyAll(c, visits, now, prices), v, now, prices)
    ensures Copies(visits + [v]) == Copies(visits) + [v.copy]
  {
    hide TallyVisit;
    assert (visits + [v])[..|visits|] == visits;
  }

  // ------------------------------------------------------------ conservation

  function TriggersRecorded(visits: seq<Visit>, now: int, prices: map<string, string>): nat {
    if visits == [] then 0
    else
      var v := visits[|visits| - 1];
      TriggersRecorded(visits[..|visits| - 1], now, prices)
      + (if CheckWrite(v.copy.row, now, prices, v.around).Trigger? && IsActive(v.before, v.copy.id) then 1 else 0)
  }

  /** What all visits add to each counter. */
  function MarksOf(visits: seq<Visit>, now: int, prices: map<string, string>): Counts {
    if visits == [] then Counts(0, 0, 0, 0)
    else
      var v := visits[|visits| - 1];
      Plus(MarksOf(visits[..|visits| - 1], now, prices),
           Marks(Assess(v.copy.row, now, prices, v.around), v.around, IsActive(v.before, v.copy.id)))
  }

  /**
   * Every counter has gained exactly what the visits add to it; `triggered` has
   * gained the triggers that took effect, and no alert is counted under two
   * headings.
   */
  lemma {:induction false} CountersAreExact(c: Counts, visits: seq<Visit>, now: int, prices: map<string, string>)
    ensures var end := TallyAll(c, visits, now, prices);
            && end == Plus(c, MarksOf(visits, now, prices))
            && end.triggered == c.triggered + TriggersRecorded(visits, now, prices)
            && c.checked <= end.checked <= c.checked + |visits|
            && c.expired + c.triggered + c.skipped <= end.expired + end.triggered + end.skipped
                 <= c.expired + c.triggered + c.skipped + |visits|
  {
    hide Assess, Tally, Marks, IsActive;
    if visits != [] {
      var last, v := |visits| - 1, visits[|visits| - 1];
      CountersAreExact(c, visits[..last], now, prices);
      var verdict, wasActive := Assess(v.copy.row, now, prices, v.around), IsActive(v.before, v.copy.id);
      TallyMarks(TallyAll(c, visits[..last], now, prices), verdict, v.around, wasActive);
      MarksOfOne(v, now, prices);
    }
  }

  lemma MarksOfOne(v: Visit, now: int, prices: map<string, string>)
    ensures var wasActive := IsActive(v.before, v.copy.id);
            var marks := Marks(Assess(v.copy.row, now, prices, v.around), v.around, wasActive);
            && marks.checked <= 1 && marks.expired + marks.triggered + marks.skipped <= 1
            && marks.triggered == (if CheckWrite(v.copy.row, now, prices, v.around).Trigger? && wasActive then 1 else 0)
  {
    hide Assess;
  }
}
