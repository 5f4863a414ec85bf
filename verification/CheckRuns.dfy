/** An undisturbed check, and the scheduled job around it, as runs of the machines. */
module CheckRuns {
  import opened Options
  import opened RedisStore
  import RedisLock
  import opened Ordering
  import opened PriceAlerts
  import opened AlertVerdicts
  import opened AlertMachine
  import opened AlertLifecycle
  import opened PriceSweep
  import opened PriceCheckScheduling
  import opened ScheduledChecks

  /** Nobody else touches the table. */
  function Alone(k: nat, rows: Table): Table {
    rows
  }

  /** The machine's step for one touch of the table by check c. */
  function TouchEvent(c: nat, t: Touch): Event {
    match t
    case Listed(_) => ReadPage(c)
    case Handled(visit) => ProcessNext(c, visit.around)
  }

  function TouchEvents(c: nat, trace: seq<Touch>): seq<Event> {
    if trace == [] then [] else TouchEvents(c, trace[..|trace| - 1]) + [TouchEvent(c, trace[|trace| - 1])]
  }

  /** Where the sweep stands after these reads. */
  function CursorAfter(log: seq<PageRead>): Option<string> {
    if log == [] then None
    else
      var last := log[|log| - 1];
      if last.page == [] then last.cursor else LastId(last.page)
  }

  function Outstanding(trace: seq<Touch>): seq<Copy> {
    var handed, done := Handed(ReadsOf(trace)), |VisitsOf(trace)|;
    if done <= |handed| then handed[done..] else []
  }

  /** The check as the machine holds it after the touches. */
  function CheckAfter(w: Sweep, trace: seq<Touch>): Check {
    var log := ReadsOf(trace);
    Check(w.now, w.prices, CursorAfter(log), log == [] || |log[|log| - 1].page| == PAGE_SIZE, Outstanding(trace))
  }

  predicate Matches(s: State, c: nat, w: Sweep, trace: seq<Touch>) {
    s.rows == FinalTable(w.first, trace) && c in s.checks && s.checks[c] == CheckAfter(w, trace)
  }

  /** What a sweep keeps of itself when its last touch is taken away. */
  predicate Unfolds(w: Sweep, trace: seq<Touch>) {
    && Follows(ReadsOf(trace), w.universe)
    && AllPerformed(VisitsOf(trace), w.now, w.prices)
    && Interleaved(w.first, trace, w.environment, w.around)
  }

  lemma UnfoldsBefore(w: Sweep, before: seq<Touch>, t: Touch)
    requires Unfolds(w, before + [t])
    ensures Unfolds(w, before)
    ensures TouchAt(w.first, before + [t], |before|, w.environment, w.around)
    ensures t.Handled? ==> Performed(t.visit, w.now, w.prices)
    ensures t.Listed? ==> Answers(t.read, w.universe) && FollowsOn(ReadsOf(before), t.read)
  {
    hide Answers, Leads, Performed, TouchAt, VisitsOf, ReadsOf;
    SplitTouch(before, t);
    FewerReads(ReadsOf(before), if t.Listed? then [t.read] else [], w.universe);
    FewerVisits(VisitsOf(before), if t.Handled? then [t.visit] else [], w.now, w.prices);
    forall k | 0 <= k < |before|
      ensures TouchAt(w.first, before, k, w.environment, w.around)
    {
      assert TouchAt(w.first, before + [t], k, w.environment, w.around);
      EarlierTouch(w, before, t, k);
    }
  }

  /** The read continues from the last full page, or starts the sweep. */
  predicate FollowsOn(log: seq<PageRead>, read: PageRead) {
    if log == [] then read.cursor == None else Leads(log[|log| - 1], read)
  }

  lemma FewerReads(log: seq<PageRead>, more: seq<PageRead>, keys: set<string>)
    requires Follows(log + more, keys) && |more| <= 1
    ensures Follows(log, keys)
    ensures more != [] ==> Answers(more[0], keys) && FollowsOn(log, more[0])
  {
    hide Answers, Leads;
    var all := log + more;
    forall k | 0 <= k < |log|
      ensures Answers(log[k], keys)
    {
      assert Answers(all[k], keys);
    }
    forall k, m | 0 <= k < |log| && m == k + 1 && m < |log|
      ensures Leads(log[k], log[m])
    {
      assert Leads(all[k], all[m]);
    }
    if more != [] {
      assert all[|log|] == more[0] && Answers(all[|log|], keys);
      assert log != [] ==> Leads(all[|log| - 1], all[|log|]);
    }
  }

  lemma FewerVisits(visits: seq<Visit>, more: seq<Visit>, now: int, prices: map<string, string>)
    requires AllPerformed(visits + more, now, prices)
    ensures AllPerformed(visits, now, prices)
    ensures more != [] ==> Performed(more[0], now, prices)
  {
    hide Performed;
    var all := visits + more;
    forall i | 0 <= i < |visits|
      ensures Performed(visits[i], now, prices)
    {
      assert Performed(all[i], now, prices);
    }
    if more != [] { assert all[|visits|] == more[0]; }
  }

  lemma EarlierTouch(w: Sweep, before: seq<Touch>, t: Touch, k: nat)
    requires k < |before| && TouchAt(w.first, before + [t], k, w.environment, w.around)
    ensures TouchAt(w.first, before, k, w.environment, w.around)
  {
    hide Met, FinalTable, Copies, Handed, VisitsOf, ReadsOf, IsNext;
    assert (before + [t])[..k] == before[..k];
  }

  lemma ReadMatches(s: State, c: nat, w: Sweep, before: seq<Touch>, read: PageRead)
    requires w.environment == Alone && Matches(s, c, w, before)
    requires TouchAt(w.first, before + [Listed(read)], |before|, w.environment, w.around)
    requires Answers(read, w.universe) && FollowsOn(ReadsOf(before), read)
    ensures Matches(Next(s, ReadPage(c)), c, w, before + [Listed(read)])
  {
    hide Page, Handed, VisitsOf, ReadsOf, Copies, CheckAfter, TurnPage, Answers, FollowsOn, PageIds, IdLess;
    MetHere(w, before, Listed(read));
    ListedLast(w.first, before, read);
    CheckTurns(w, before, read);
  }

  lemma MetHere(w: Sweep, before: seq<Touch>, t: Touch)
    requires w.environment == Alone && TouchAt(w.first, before + [t], |before|, w.environment, w.around)
    ensures Met(t) == FinalTable(w.first, before)
    ensures t.Listed? ==> Copies(VisitsOf(before)) == Handed(ReadsOf(before))
    ensures t.Handled? ==> IsNext(before, t.visit.copy)
  {
    hide Met, FinalTable, Copies, Handed, VisitsOf, ReadsOf, IsNext;
    assert (before + [t])[..|before|] == before;
  }

  /** Turning the page is what the read adds. */
  lemma CheckTurns(w: Sweep, before: seq<Touch>, read: PageRead)
    requires Copies(VisitsOf(before)) == Handed(ReadsOf(before))
    requires Answers(read, w.universe) && FollowsOn(ReadsOf(before), read)
    ensures TurnPage(read.table, CheckAfter(w, before)) == CheckAfter(w, before + [Listed(read)])
  {
    hide Page, PageIds, IdLess, Handed, VisitsOf, ReadsOf, Copies, Outstanding;
    ListedTouch(before, read);
    NoneOutstanding(before);
    AllOutstanding(before, read);
    AtMostAPage(read.table, read.cursor);
  }

  lemma NoneOutstanding(trace: seq<Touch>)
    requires Copies(VisitsOf(trace)) == Handed(ReadsOf(trace))
    ensures Outstanding(trace) == []
  {
    hide Handed, VisitsOf, ReadsOf, Copies;
    CopiesLength(VisitsOf(trace));
  }

  lemma AllOutstanding(before: seq<Touch>, read: PageRead)
    requires Copies(VisitsOf(before)) == Handed(ReadsOf(before))
    ensures Outstanding(before + [Listed(read)]) == read.page
  {
    hide Handed, VisitsOf, ReadsOf, Copies;
    ListedTouch(before, read);
    HandedGrows(ReadsOf(before), read);
    CopiesLength(VisitsOf(before));
    var handed := Handed(ReadsOf(before));
    assert (handed + read.page)[|handed|..] == read.page;
  }

  lemma CopiesLength(visits: seq<Visit>)
    ensures |Copies(visits)| == |visits|
  {
  }

  lemma VisitMatches(s: State, c: nat, w: Sweep, before: seq<Touch>, v: Visit)
    requires w.environment == Alone && Matches(s, c, w, before)
    requires TouchAt(w.first, before + [Handled(v)], |before|, w.environment, w.around)
    requires Performed(v, w.now, w.prices)
    ensures Matches(Next(s, ProcessNext(c, v.around)), c, w, before + [Handled(v)])
  {
    hide Page, Handed, VisitsOf, ReadsOf, CheckWrite, Apply, FiringOf;
    MetHere(w, before, Handled(v));
    HandledLast(w.first, before, v);
    SplitTouch(before, Handled(v));
    assert ReadsOf(before) + [] == ReadsOf(before);
    var handed, done := Handed(ReadsOf(before)), |VisitsOf(before)|;
    assert handed[done..][0] == v.copy && handed[done..][1..] == handed[done + 1..];
  }

  /** Touch by touch, an undisturbed sweep takes the steps of its check in the machine. */
  lemma {:induction false} TouchesAreSteps(s: State, c: nat, w: Sweep, trace: seq<Touch>)
    requires w.environment == Alone && Unfolds(w, trace)
    requires s.rows == w.first && c in s.checks && s.checks[c] == Check(w.now, w.prices, None, true, [])
    ensures Matches(Run(s, TouchEvents(c, trace)), c, w, trace)
  {
    hide Next, Unfolds, Matches, TouchAt, Performed, Answers, FollowsOn, ReadsOf, VisitsOf;
    if trace == [] {
      NothingTouched(s, c, w);
    } else {
      var before, t := trace[..|trace| - 1], trace[|trace| - 1];
      assert trace == before + [t];
      UnfoldsBefore(w, before, t);
      TouchesAreSteps(s, c, w, before);
      RunSnoc(s, TouchEvents(c, before), TouchEvent(c, t));
      match t
      case Listed(read) => ReadMatches(Run(s, TouchEvents(c, before)), c, w, before, read);
      case Handled(v) => VisitMatches(Run(s, TouchEvents(c, before)), c, w, before, v);
    }
  }

  lemma NothingTouched(s: State, c: nat, w: Sweep)
    requires s.rows == w.first && c in s.checks && s.checks[c] == Check(w.now, w.prices, None, true, [])
    ensures Matches(Run(s, TouchEvents(c, [])), c, w, [])
  {
  }

  lemma SweptUnfolds(w: Sweep, trace: seq<Touch>, counts: Counts, rows: Table)
    requires Swept(w, trace, counts, rows)
    ensures Unfolds(w, trace) && rows == FinalTable(w.first, trace)
  {
    hide Follows, AllPerformed, Interleaved, TallyAll, Ended, FinalTable, Copies, Handed, ReadsOf, VisitsOf;
  }

  /** The prices a check works with; a check whose fetch fails has none and ends at once. */
  function PricesOf(coinIds: seq<string>, client: Client): map<string, string> {
    var fetched := FetchAll(coinIds, client, PRICE_REQUEST_BATCH_SIZE, map[]);
    if fetched.Some? then fetched.value else map[]
  }

  /** From a state in which the check has just started over an expired table, its touches leave the table it leaves. */
  lemma CheckedIsSteps(
    s: State, c: nat, before: Table, now: int, coinIds: seq<string>, client: Client, universe: set<string>,
    around: nat -> Circumstances, counts: Option<Counts>, trace: seq<Touch>, after: Table)
    requires Checked(before, now, coinIds, client, universe, Alone, around, counts, trace, after)
    requires s.rows == ExpireAll(before, now)
    requires c in s.checks && s.checks[c] == Check(now, PricesOf(coinIds, client), None, true, [])
    ensures Run(s, TouchEvents(c, trace)).rows == after && c in Run(s, TouchEvents(c, trace)).checks
  {
    hide Swept, FetchAll, ExpireAll, ExpiredBy, Unfolds, CheckAfter, Run;
    match FetchAll(coinIds, client, PRICE_REQUEST_BATCH_SIZE, map[])
    case None => RunNil(s);
    case Some(prices) =>
      var w := Sweep(s.rows, Counts(0, |ExpiredBy(before, now)|, 0, 0), now, prices, universe, Alone, around);
      SweptUnfolds(w, trace, counts.value, after);
      TouchesAreSteps(s, c, w, trace);
  }

  /** The whole check: expire, start with the fetched prices, then page by page and alert by alert, and end. */
  function CheckEvents(c: nat, now: int, prices: map<string, string>, trace: seq<Touch>): seq<Event> {
    [ExpireActive(now), StartCheck(c, now, prices)] + TouchEvents(c, trace) + [EndCheck(c)]
  }

  /** A check that nobody disturbs leaves the rows of a run of the machine. */
  lemma UndisturbedCheckIsARun(
    s: State, c: nat, now: int, coinIds: seq<string>, client: Client, universe: set<string>,
    around: nat -> Circumstances, counts: Option<Counts>, trace: seq<Touch>, after: Table)
    requires c !in s.checks
    requires Checked(s.rows, now, coinIds, client, universe, Alone, around, counts, trace, after)
    ensures var end := Run(s, CheckEvents(c, now, PricesOf(coinIds, client), trace));
            end.rows == after && end.checks == s.checks
  {
    hide Run, Checked, PricesOf;
    var prices := PricesOf(coinIds, client);
    var start := [ExpireActive(now), StartCheck(c, now, prices)];
    TwoEvents(s, ExpireActive(now), StartCheck(c, now, prices));
    ExpiresAndStarts(s, c, now, prices);
    CheckedIsSteps(Run(s, start), c, s.rows, now, coinIds, client, universe, around, counts, trace, after);
    RunConcat(s, start, TouchEvents(c, trace));
    RunSnoc(s, start + TouchEvents(c, trace), EndCheck(c));
    TouchesKeepOthers(Run(s, start), c, trace);
    EndsTheCheck(s, Run(s, start + TouchEvents(c, trace)), c, Check(now, prices, None, true, []));
  }

  lemma TwoEvents(s: State, e: Event, f: Event)
    ensures Run(s, [e, f]) == Next(Next(s, e), f)
  {
    hide Next;
    RunNil(s);
    RunSnoc(s, [], e);
    RunSnoc(s, [e], f);
    assert [] + [e] == [e] && [e] + [f] == [e, f];
  }

  lemma ExpiresAndStarts(s: State, c: nat, now: int, prices: map<string, string>)
    requires c !in s.checks
    ensures var end := Next(Next(s, ExpireActive(now)), StartCheck(c, now, prices));
            && end.rows == ExpireAll(s.rows, now)
            && end.checks == s.checks[c := Check(now, prices, None, true, [])]
  {
    hide ExpireAll;
  }

  /** Two tables of checks that differ at most at c. */
  predicate SameOthers(a: map<nat, Check>, b: map<nat, Check>, c: nat) {
    a - {c} == b - {c}
  }

  lemma TouchKeepsOthers(s: State, c: nat, t: Touch)
    ensures SameOthers(Next(s, TouchEvent(c, t)).checks, s.checks, c)
  {
    hide Apply, WriteTo, FiringOf, FiredOf, TurnPage;
  }

  lemma {:induction false} TouchesKeepOthers(s: State, c: nat, trace: seq<Touch>)
    ensures SameOthers(Run(s, TouchEvents(c, trace)).checks, s.checks, c)
  {
    hide Next;
    if trace == [] {
      RunNil(s);
    } else {
      var before := trace[..|trace| - 1];
      TouchesKeepOthers(s, c, before);
      RunSnoc(s, TouchEvents(c, before), TouchEvent(c, trace[|trace| - 1]));
      hide Run;
      TouchKeepsOthers(Run(s, TouchEvents(c, before)), c, trace[|trace| - 1]);
    }
  }

  lemma EndsTheCheck(s: State, mid: State, c: nat, check: Check)
    requires c !in s.checks && SameOthers(mid.checks, s.checks[c := check], c)
    ensures Next(mid, EndCheck(c)).rows == mid.rows && Next(mid, EndCheck(c)).checks == s.checks
  {
    assert s.checks[c := check] - {c} == s.checks;
  }

  // --------------------------------------------------------- the scheduled job

  function AsJobEvents(events: seq<Event>): seq<JobEvent> {
    if events == [] then [] else AsJobEvents(events[..|events| - 1]) + [OtherAlert(events[|events| - 1])]
  }

  lemma JobSnoc(j: Job, events: seq<JobEvent>, e: JobEvent)
    ensures JobRun(j, events + [e]) == JobNext(JobRun(j, events), e)
  {
    hide JobNext;
    assert (events + [e])[..|events|] == events;
  }

  lemma {:induction false} JobConcat(j: Job, earlier: seq<JobEvent>, later: seq<JobEvent>)
    ensures JobRun(j, earlier + later) == JobRun(JobRun(j, earlier), later)
  {
    hide JobNext;
    if later == [] {
      assert earlier + later == earlier;
    } else {
      var last := |later| - 1;
      JobConcat(j, earlier, later[..last]);
      assert (earlier + later)[..|earlier| + last] == earlier + later[..last];
    }
  }

  predicate Interior(e: Event) {
    !e.StartCheck? && !e.EndCheck?
  }

  /** Steps inside a check move the alerts as in their machine and leave the lock alone. */
  lemma {:induction false} InteriorRun(j: Job, events: seq<Event>)
    requires forall i :: 0 <= i < |events| ==> Interior(events[i])
    ensures JobRun(j, AsJobEvents(events)) == Job(j.lock, Run(j.alerts, events))
  {
    hide Next;
    if events == [] {
      RunNil(j.alerts);
    } else {
      var before, e := events[..|events| - 1], events[|events| - 1];
      InteriorRun(j, before);
      JobSnoc(j, AsJobEvents(before), OtherAlert(e));
      RunOne(Run(j.alerts, before), e);
      assert Interior(e);
    }
  }

  lemma {:induction false} TouchesAreInterior(c: nat, trace: seq<Touch>)
    ensures forall i :: 0 <= i < |TouchEvents(c, trace)| ==> Interior(TouchEvents(c, trace)[i])
  {
    if trace != [] { TouchesAreInterior(c, trace[..|trace| - 1]); }
  }

  /** The job: take the lock, check, let the time pass that the check took, and give the lock back. */
  function JobEvents(c: nat, now: int, prices: map<string, string>, trace: seq<Touch>, elapsed: nat): seq<JobEvent> {
    [Begin(now, prices)] + AsJobEvents([ExpireActive(now)] + TouchEvents(c, trace))
    + [OtherLock(RedisLock.Tick(elapsed))] + [End(c)]
  }

  lemma BeginsTheJob(j: Job, now: int, prices: map<string, string>)
    requires JobInv(j) && Lookup(j.lock.entries, j.lock.now, PRICE_CHECK_LOCK).None?
    ensures var c, started := j.lock.nextToken, JobRun(j, [Begin(now, prices)]);
            && c !in j.alerts.checks
            && started.lock.entries == Leased(j.lock.entries, j.lock.now, c) && started.lock.now == j.lock.now
            && started.alerts.rows == j.alerts.rows
            && c in started.alerts.checks && started.alerts.checks[c] == Check(now, prices, None, true, [])
  {
    hide Next;
    assert [Begin(now, prices)][..0] == [];
    assert JobRun(j, []) == j;
    assert JobRun(j, [Begin(now, prices)]) == JobNext(j, Begin(now, prices));
    NotRunningYet(j);
    RunOne(j.alerts, StartCheck(j.lock.nextToken, now, prices));
    StartsIn(j.alerts, j.lock.nextToken, now, prices);
  }

  lemma NotRunningYet(j: Job)
    requires JobInv(j)
    ensures j.lock.nextToken !in j.alerts.checks
  {
    if j.lock.nextToken in j.alerts.checks { KnownToken(j.lock, j.lock.nextToken); }
  }

  lemma StartsIn(s: State, c: nat, now: int, prices: map<string, string>)
    requires c !in s.checks
    ensures var end := Next(s, StartCheck(c, now, prices));
            end.rows == s.rows && end.checks == s.checks[c := Check(now, prices, None, true, [])]
  {
  }

  lemma EndsTheJob(j: Job, c: nat, elapsed: nat)
    requires c in j.alerts.checks
    ensures var end := JobRun(j, [OtherLock(RedisLock.Tick(elapsed))] + [End(c)]);
            && end.lock.entries == Unlocked(j.lock.entries, j.lock.now + elapsed, c)
            && end.lock.now == j.lock.now + elapsed
            && end.alerts.rows == j.alerts.rows
  {
    hide Next;
    var tick := OtherLock(RedisLock.Tick(elapsed));
    assert [tick][..0] == [] && ([tick] + [End(c)])[..1] == [tick];
    assert JobRun(j, []) == j;
    assert JobRun(j, [tick]) == JobNext(j, tick);
    assert JobRun(j, [tick] + [End(c)]) == JobNext(JobNext(j, tick), End(c));
    RunNil(j.alerts);
    RunOne(j.alerts, EndCheck(c));
    EndsIn(j.alerts, c);
  }

  lemma EndsIn(s: State, c: nat)
    ensures Next(s, EndCheck(c)).rows == s.rows
  {
  }

  lemma ExpiresFirst(s: State, c: nat, now: int)
    requires c in s.checks
    ensures var end := Run(s, [ExpireActive(now)]);
            end.rows == ExpireAll(s.rows, now) && c in end.checks && end.checks[c] == s.checks[c]
  {
    RunOne(s, ExpireActive(now));
    hide ExpireAll, Run;
  }

  lemma InteriorScript(c: nat, now: int, trace: seq<Touch>)
    ensures var events := [ExpireActive(now)] + TouchEvents(c, trace);
            forall i :: 0 <= i < |events| ==> Interior(events[i])
  {
    TouchesAreInterior(c, trace);
    hide TouchEvents;
  }

  /**
   * An undisturbed scheduled job that finds the lock free leaves store and
   * alerts as the run of lock and alert machine does that begins a check, takes
   * its steps, and ends it, the release falling due after `elapsed`.
   */
  lemma UndisturbedJobIsARun(
    j: Job, elapsed: nat, now: int, coinIds: seq<string>, client: Client, universe: set<string>,
    around: nat -> Circumstances, counts: Option<Counts>, trace: seq<Touch>, after: Table)
    requires JobInv(j) && Lookup(j.lock.entries, j.lock.now, PRICE_CHECK_LOCK).None?
    requires Checked(j.alerts.rows, now, coinIds, client, universe, Alone, around, counts, trace, after)
    ensures var c := j.lock.nextToken;
            var end := JobRun(j, JobEvents(c, now, PricesOf(coinIds, client), trace, elapsed));
            && end.alerts.rows == after
            && end.lock.now == j.lock.now + elapsed
            && end.lock.entries == Unlocked(Leased(j.lock.entries, j.lock.now, c), j.lock.now + elapsed, c)
  {
    hide JobRun, Run, Checked, PricesOf, JobInv, Leased, Unlocked, Lookup, TouchEvents, AsJobEvents, ExpireAll;
    var c, prices := j.lock.nextToken, PricesOf(coinIds, client);
    var begin, finish := [Begin(now, prices)], [OtherLock(RedisLock.Tick(elapsed))] + [End(c)];
    var inside := [ExpireActive(now)] + TouchEvents(c, trace);
    var started := JobRun(j, begin);
    BeginsTheJob(j, now, prices);
    ExpiresFirst(started.alerts, c, now);
    CheckedIsSteps(Run(started.alerts, [ExpireActive(now)]), c, j.alerts.rows, now, coinIds, client, universe, around,
                   counts, trace, after);
    RunConcat(started.alerts, [ExpireActive(now)], TouchEvents(c, trace));
    InteriorScript(c, now, trace);
    InteriorRun(started, inside);
    JobConcat(j, begin, AsJobEvents(inside));
    JobConcat(j, begin + AsJobEvents(inside), finish);
    assert JobEvents(c, now, prices, trace, elapsed) == begin + AsJobEvents(inside) + finish;
    EndsTheJob(JobRun(j, begin + AsJobEvents(inside)), c, elapsed);
  }
}
