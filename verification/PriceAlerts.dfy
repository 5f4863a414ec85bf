/**
 * Price alerts: the rows, every write made to them, and what the use cases and
 * the checker decide to write from a copy they have read.
 */
module PriceAlerts {
  import opened Options
  import opened Outcomes
  import opened Ordering
  import opened Slices
  import opened AlertEvaluator
  import Decimals

  datatype Status = Active | Triggered | Expired | Cancelled
  datatype TriggerMode = Once | Repeat
  datatype Channel = Email | Sms

  const DEFAULT_COOLDOWN_MINUTES := 60
  const PAGE_SIZE := 500

  datatype Alert = Alert(
    userId: string,
    coinId: string,
    direction: Direction,
    targetPrice: string,
    triggerMode: TriggerMode,
    status: Status,
    expiresAt: Option<int>,
    channels: seq<Channel>,
    cooldownMinutes: int,
    lastCheckedPrice: Option<string>,
    lastTriggeredAt: Option<int>,
    triggeredCount: nat)

  /** Alerts by identifier; rows are never deleted. */
  type Table = map<string, Alert>

  /** The columns an owner's update may set; `None` leaves the column alone. */
  datatype Patch = Patch(
    status: Option<Status>,
    targetPrice: Option<string>,
    lastCheckedPrice: Option<Option<string>>,
    direction: Option<Direction>,
    triggerMode: Option<TriggerMode>,
    expiresAt: Option<Option<int>>,
    channels: Option<seq<Channel>>)

  const NoChange := Patch(None, None, None, None, None, None, None)

  /** One statement against one row. */
  datatype Write =
    | Nothing
    | Own(userId: string, patch: Patch)
    | Expire(now: int)
    | LastPrice(price: string)
    | Trigger(price: string, at: int, status: Status)

  function Or<T>(change: Option<T>, current: T): T {
    if change.Some? then change.value else current
  }

  function Patched(row: Alert, p: Patch): Alert {
    row.(status := Or(p.status, row.status),
         targetPrice := Or(p.targetPrice, row.targetPrice),
         lastCheckedPrice := Or(p.lastCheckedPrice, row.lastCheckedPrice),
         direction := Or(p.direction, row.direction),
         triggerMode := Or(p.triggerMode, row.triggerMode),
         expiresAt := Or(p.expiresAt, row.expiresAt),
         channels := Or(p.channels, row.channels))
  }

  predicate Lapsed(row: Alert, now: int) {
    row.expiresAt.Some? && row.expiresAt.value < now
  }

  /** `Own` looks at the owner only; the other three touch ACTIVE rows only. */
  function Updated(row: Alert, w: Write): Alert {
    match w
    case Nothing => row
    case Own(userId, patch) => if row.userId == userId then Patched(row, patch) else row
    case Expire(now) => if row.status == Active && Lapsed(row, now) then row.(status := Expired) else row
    case LastPrice(price) => if row.status == Active then row.(lastCheckedPrice := Some(price)) else row
    case Trigger(price, at, status) =>
      if row.status == Active
      then row.(lastCheckedPrice := Some(price), lastTriggeredAt := Some(at), status := status,
                triggeredCount := row.triggeredCount + 1)
      else row
  }

  function Apply(rows: Table, id: string, w: Write): (after: Table)
    ensures after.Keys == rows.Keys
    ensures w == Nothing ==> after == rows
  {
    if id in rows then rows[id := Updated(rows[id], w)] else rows
  }

  function ExpireAll(rows: Table, now: int): (after: Table)
    ensures after.Keys == rows.Keys
  {
    map id | id in rows :: Updated(rows[id], Expire(now))
  }

  /** The alerts that statement changes. */
  function ExpiredBy(rows: Table, now: int): set<string> {
    set id | id in rows && ExpireAll(rows, now)[id] != rows[id]
  }

  // --------------------------------------------------------------- requests

  datatype CreateRequest = CreateRequest(
    coinId: string, direction: Direction, targetPrice: string, triggerMode: TriggerMode,
    expiresAt: Option<int>, channels: seq<Channel>)

  datatype UpdateRequest = UpdateRequest(
    targetPrice: Option<string>, direction: Option<Direction>, triggerMode: Option<TriggerMode>,
    expiresAt: Option<Option<int>>, channels: Option<seq<Channel>>)

  datatype Failure =
    | EmptyUpdate | AlertNotFound | AlertExpired | AlertCancelled | AlertTriggered | InvalidExpiration | CoinNotFound

  function NewAlert(userId: string, r: CreateRequest): Alert {
    Alert(userId, r.coinId, r.direction, r.targetPrice, r.triggerMode, Active, r.expiresAt, r.channels,
          DEFAULT_COOLDOWN_MINUTES, None, None, 0)
  }

  function CreateFailure(r: CreateRequest, coinActive: bool, now: int): Option<Failure> {
    if r.expiresAt.Some? && r.expiresAt.value <= now then Some(InvalidExpiration)
    else if !coinActive then Some(CoinNotFound)
    else None
  }

  predicate IsEmpty(r: UpdateRequest) {
    r == UpdateRequest(None, None, None, None, None)
  }

  /** A new target or direction forgets the last checked price; an expiry must lie in the future. */
  function UpdateData(r: UpdateRequest, now: int): Outcome<Patch, Failure> {
    if r.expiresAt.Some? && r.expiresAt.value.Some? && r.expiresAt.value.value <= now then Failed(InvalidExpiration)
    else
      Success(Patch(None, r.targetPrice,
                    if r.targetPrice.Some? || r.direction.Some? then Some(None) else None,
                    r.direction, r.triggerMode, r.expiresAt, r.channels))
  }

  datatype Decision = Decision(write: Write, failure: Option<Failure>)

  function SetStatus(userId: string, status: Status): Write {
    Own(userId, NoChange.(status := Some(status)))
  }

  function DecideUpdate(copy: Alert, r: UpdateRequest, now: int): Decision {
    match copy.status
    case Active =>
      if Lapsed(copy, now) then Decision(SetStatus(copy.userId, Expired), Some(AlertExpired))
      else
        (match UpdateData(r, now)
         case Success(patch) => Decision(Own(copy.userId, patch), None)
         case Failed(failure) => Decision(Nothing, Some(failure)))
    case Expired => Decision(Nothing, Some(AlertExpired))
    case Cancelled => Decision(Nothing, Some(AlertCancelled))
    case Triggered => Decision(Nothing, Some(AlertTriggered))
  }

  function DecideCancel(copy: Alert): Decision {
    match copy.status
    case Cancelled => Decision(Nothing, Some(AlertCancelled))
    case Expired => Decision(Nothing, Some(AlertExpired))
    case _ => Decision(SetStatus(copy.userId, Cancelled), None)
  }

  // ---------------------------------------------------------------- checker

  /** A row as read by a page query. */
  datatype Copy = Copy(id: string, row: Alert)

  /**
   * What the checker meets on the way: the coin, the owner's address, the
   * channels whose notification fails, and whether the store takes the write.
   */
  datatype Circumstances = Circumstances(coinActive: bool, reachable: bool, failing: set<Channel>, stored: bool)

  /** All notifications are started together; one that fails fails them all. */
  predicate Delivered(channels: seq<Channel>, around: Circumstances) {
    forall channel :: channel in channels ==> channel !in around.failing
  }

  datatype Verdict =
    | PastExpiry | CoinInactive | PriceUnavailable | Unreadable
    | NotCrossed | CoolingDown | RecipientUnavailable | Undelivered | Fires

  /** `prices` holds the coins whose price is a finite non-negative number, as text. */
  function Assess(copy: Alert, now: int, prices: map<string, string>, around: Circumstances): Verdict {
    if Lapsed(copy, now) then PastExpiry
    else if !around.coinActive then CoinInactive
    else if copy.coinId !in prices then PriceUnavailable
    else
      match HasCrossed(copy.direction, copy.lastCheckedPrice, prices[copy.coinId], copy.targetPrice)
      case Err(_) => Unreadable
      case Ok(crossed) =>
        if !crossed then NotCrossed
        else if !IsCooldownExpired(copy.lastTriggeredAt, copy.cooldownMinutes, now) then CoolingDown
        else if !around.reachable && Email in copy.channels then RecipientUnavailable
        else if !Delivered(copy.channels, around) then Undelivered
        else Fires
  }

  function StatusAfterFiring(mode: TriggerMode): Status {
    if mode == Once then Triggered else Active
  }

  /** The write a check makes from its copy; none at all if the store fails. */
  function CheckWrite(copy: Alert, now: int, prices: map<string, string>, around: Circumstances): Write {
    if !around.stored then Nothing
    else
      match Assess(copy, now, prices, around)
      case PastExpiry => SetStatus(copy.userId, Expired)
      case NotCrossed => LastPrice(prices[copy.coinId])
      case CoolingDown => LastPrice(prices[copy.coinId])
      case RecipientUnavailable => LastPrice(prices[copy.coinId])
      case Fires => Trigger(prices[copy.coinId], now, StatusAfterFiring(copy.triggerMode))
      case _ => Nothing
  }

  predicate After(cursor: Option<string>, id: string) {
    cursor.None? || cursor.value == "" || IdLess(cursor.value, id)
  }

  function ActiveAfter(rows: Table, cursor: Option<string>): set<string> {
    set id | id in rows && rows[id].status == Active && After(cursor, id)
  }

  lemma ListedAreActive(rows: Table, cursor: Option<string>, ids: seq<string>)
    requires forall id :: id in ids ==> id in ActiveAfter(rows, cursor)
    ensures forall i :: 0 <= i < |ids| ==> ids[i] in rows && rows[ids[i]].status == Active && After(cursor, ids[i])
  {
    forall i | 0 <= i < |ids|
      ensures ids[i] in rows && rows[ids[i]].status == Active && After(cursor, ids[i])
    {
      assert ids[i] in ids;
    }
  }

  lemma AscendingPrefix(ids: seq<string>, n: nat)
    requires Ascending(ids, IdLess) && n <= |ids|
    ensures Ascending(ids[..n], IdLess)
  {
    hide IdLess;
  }

  /** Identifiers of one page: the first `limit` ACTIVE alerts after the cursor. */
  function PageIds(rows: Table, cursor: Option<string>, limit: nat): (ids: seq<string>)
    ensures forall i :: 0 <= i < |ids| ==> ids[i] in rows && rows[ids[i]].status == Active && After(cursor, ids[i])
    ensures Ascending(ids, IdLess)
  {
    var all := SortIds(ActiveAfter(rows, cursor));
    var ids := Take(all, limit);
    AscendingPrefix(all, |ids|);
    ListedAreActive(rows, cursor, ids);
    ids
  }

  function Page(rows: Table, cursor: Option<string>, limit: nat): (page: seq<Copy>)
    ensures |page| == |PageIds(rows, cursor, limit)|
    ensures forall i :: 0 <= i < |page| ==>
              page[i].id == PageIds(rows, cursor, limit)[i] && page[i].id in rows && page[i].row == rows[page[i].id]
  {
    var ids := PageIds(rows, cursor, limit);
    seq(|ids|, i requires 0 <= i < |ids| => Copy(ids[i], rows[ids[i]]))
  }
}
