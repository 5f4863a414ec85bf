/**
 * Users and checkers over one alert table. Every read and every write is a step
 * of its own, so a write may be based on a copy that is no longer current.
 */
module AlertMachine {
  import opened Options
  import opened Ordering
  import opened AlertEvaluator
  import opened PriceAlerts

  /** A request that has read its alert and has not written yet. */
  datatype Pending =
    | Update(copy: Copy, request: UpdateRequest)
    | Cancel(copy: Copy)

  /** A check under way: its clock reading, its prices, its place in the sweep, and the rest of the current page. */
  datatype Check = Check(
    now: int, prices: map<string, string>, cursor: Option<string>, more: bool, queue: seq<Copy>)

  /** One recorded trigger, with the copy it was decided from. */
  datatype Firing = Firing(at: int, price: string, copy: Alert)

  datatype Observation = Observation(coinId: string, price: string)

  /** `fired` and `observed` are history: the recorded triggers of each alert and every price a check fetched. */
  datatype State = State(
    rows: Table,
    pending: map<nat, Pending>,
    checks: map<nat, Check>,
    fired: map<string, seq<Firing>>,
    observed: set<Observation>)

  datatype Event =
    | Create(id: string, userId: string, order: CreateRequest, coinActive: bool, now: int)
    | ReadForUpdate(n: nat, id: string, userId: string, request: UpdateRequest)
    | ReadForCancel(n: nat, id: string, userId: string)
    | WriteBack(n: nat, now: int)
    | ExpireActive(now: int)
    | StartCheck(c: nat, now: int, prices: map<string, string>)
    | ReadPage(c: nat)
    | ProcessNext(c: nat, around: Circumstances)
    | EndCheck(c: nat)

  function FiredOf(s: State, id: string): seq<Firing> {
    if id in s.fired then s.fired[id] else []
  }

  function Quotes(prices: map<string, string>): set<Observation> {
    set coin | coin in prices :: Observation(coin, prices[coin])
  }

  function DecidePending(p: Pending, now: int): Decision {
    match p
    case Update(copy, request) => DecideUpdate(copy.row, request, now)
    case Cancel(copy) => DecideCancel(copy.row)
  }

  function Read(s: State, n: nat, id: string, userId: string, p: Copy -> Pending): State {
    if n in s.pending || id !in s.rows || s.rows[id].userId != userId then s
    else s.(pending := s.pending[n := p(Copy(id, s.rows[id]))])
  }

  predicate HasWork(s: State, c: nat) {
    c in s.checks && s.checks[c].queue != []
  }

  /** The next page of a check; the sweep goes on only after a full page. */
  function TurnPage(rows: Table, check: Check): Check {
    if check.queue != [] || !check.more then check
    else
      var page := Page(rows, check.cursor, PAGE_SIZE);
      check.(queue := page,
             cursor := if page == [] then check.cursor else Some(page[|page| - 1].id),
             more := |page| == PAGE_SIZE)
  }

  /** What an event writes to one row. */
  function WriteTo(s: State, e: Event, id: string): Write {
    match e
    case WriteBack(n, now) =>
      if n in s.pending && s.pending[n].copy.id == id then DecidePending(s.pending[n], now).write else Nothing
    case ExpireActive(now) => Expire(now)
    case ProcessNext(c, around) =>
      if HasWork(s, c) && s.checks[c].queue[0].id == id
      then CheckWrite(s.checks[c].queue[0].row, s.checks[c].now, s.checks[c].prices, around)
      else Nothing
    case _ => Nothing
  }

  /** The trigger an event records for one alert, if it does. */
  function FiringOf(s: State, e: Event, id: string): seq<Firing> {
    var w := WriteTo(s, e, id);
    if w.Trigger? && e.ProcessNext? && id in s.rows && s.rows[id].status == Active && HasWork(s, e.c)
    then [Firing(w.at, w.price, s.checks[e.c].queue[0].row)]
    else []
  }

  function Next(s: State, e: Event): State {
    match e
    case Create(id, userId, order, coinActive, now) =>
      if id in s.rows || CreateFailure(order, coinActive, now).Some? then s
      else s.(rows := s.rows[id := NewAlert(userId, order)])
    case ReadForUpdate(n, id, userId, request) =>
      if IsEmpty(request) then s else Read(s, n, id, userId, copy => Update(copy, request))
    case ReadForCancel(n, id, userId) => Read(s, n, id, userId, copy => Cancel(copy))
    case WriteBack(n, now) =>
      if n !in s.pending then s
      else
        var id := s.pending[n].copy.id;
        s.(rows := Apply(s.rows, id, WriteTo(s, e, id)), pending := s.pending - {n})
    case ExpireActive(now) => s.(rows := ExpireAll(s.rows, now))
    case StartCheck(c, now, prices) =>
      if c in s.checks then s
      else s.(checks := s.checks[c := Check(now, prices, None, true, [])], observed := s.observed + Quotes(prices))
    case ReadPage(c) =>
      if c in s.checks then s.(checks := s.checks[c := TurnPage(s.rows, s.checks[c])]) else s
    case ProcessNext(c, around) =>
      if !HasWork(s, c) then s
      else
        var check := s.checks[c];
        var id := check.queue[0].id;
        s.(rows := Apply(s.rows, id, WriteTo(s, e, id)),
           checks := s.checks[c := check.(queue := check.queue[1..])],
           fired := s.fired[id := FiredOf(s, id) + FiringOf(s, e, id)])
    case EndCheck(c) => s.(checks := s.checks - {c})
  }

  function Run(s: State, events: seq<Event>): State {
    if events == [] then s
    else Next(Run(s, events[..|events| - 1]), events[|events| - 1])
  }

  /** Nothing under way and no alert checked or triggered yet. */
  predicate Initial(s: State) {
    && s.pending == map[] && s.checks == map[] && s.fired == map[] && s.observed == {}
    && forall id :: id in s.rows ==> Untouched(s.rows[id])
  }

  predicate Untouched(row: Alert) {
    row.lastCheckedPrice == None && row.lastTriggeredAt == None && row.triggeredCount == 0
  }

  // ------------------------------------------------------- one row, one step

  /** Rows are never removed, and a step changes a row by the one write the event makes to it. */
  lemma StepRow(s: State, e: Event, id: string)
    requires id in s.rows
    ensures id in Next(s, e).rows
    ensures Next(s, e).rows[id] == Updated(s.rows[id], WriteTo(s, e, id))
    ensures FiredOf(Next(s, e), id) == FiredOf(s, id) + FiringOf(s, e, id)
  {
    hide Updated, CheckWrite, DecidePending, CreateFailure, Page, TurnPage;
    assert Updated(s.rows[id], Nothing) == s.rows[id] by { NothingIsWritten(s.rows[id]); }
  }

  lemma NothingIsWritten(row: Alert)
    ensures Updated(row, Nothing) == row
  {
  }

  /** A row that appears was just created: ACTIVE, never checked, never triggered. */
  lemma NewRow(s: State, e: Event, id: string)
    requires id !in s.rows && id in Next(s, e).rows
    ensures e.Create? && e.id == id && Next(s, e).rows[id] == NewAlert(e.userId, e.order)
    ensures Next(s, e).fired == s.fired && Next(s, e).checks == s.checks && Next(s, e).observed == s.observed
  {
    hide Updated, CheckWrite, DecidePending, CreateFailure, Page, TurnPage;
  }

  /** Writes the use cases and the checker can make: no status goes back to ACTIVE except by a repeating trigger. */
  predicate Allowed(w: Write) {
    match w
    case Own(_, p) =>
      && (p.status == None || p.status == Some(Expired) || p.status == Some(Cancelled))
      && (p.lastCheckedPrice == None || p.lastCheckedPrice == Some(None))
    case Trigger(_, _, status) => status == Active || status == Triggered
    case _ => true
  }

  lemma EveryWriteIsAllowed(s: State, e: Event, id: string)
    ensures Allowed(WriteTo(s, e, id))
  {
    hide Assess, HasWork;
  }
}
