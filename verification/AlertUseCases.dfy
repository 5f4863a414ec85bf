/** The alert table as the repository keeps it, and the owner's use cases over it. */
module AlertUseCases {
  import opened Options
  import opened Outcomes
  import opened Ordering
  import opened AlertEvaluator
  import opened PriceAlerts
  import Machine = AlertMachine

  function Find(rows: Table, id: string, userId: string): Option<Alert> {
    if id in rows && rows[id].userId == userId then Some(rows[id]) else None
  }

  /** The row of a new alert, column by column: as ordered, ACTIVE, never checked and never triggered. */
  predicate Opens(row: Alert, userId: string, order: CreateRequest) {
    && row.userId == userId && row.coinId == order.coinId && row.direction == order.direction
    && row.targetPrice == order.targetPrice && row.triggerMode == order.triggerMode
    && row.expiresAt == order.expiresAt && row.channels == order.channels
    && row.status == Active && row.cooldownMinutes == 60
    && row.lastCheckedPrice == None && row.lastTriggeredAt == None && row.triggeredCount == 0
  }

  /** Exactly the columns given are set. */
  predicate Carries(row: Alert, was: Alert, data: Patch) {
    && row.status == (if data.status.Some? then data.status.value else was.status)
    && row.targetPrice == (if data.targetPrice.Some? then data.targetPrice.value else was.targetPrice)
    && row.lastCheckedPrice == (if data.lastCheckedPrice.Some? then data.lastCheckedPrice.value else was.lastCheckedPrice)
    && row.direction == (if data.direction.Some? then data.direction.value else was.direction)
    && row.triggerMode == (if data.triggerMode.Some? then data.triggerMode.value else was.triggerMode)
    && row.expiresAt == (if data.expiresAt.Some? then data.expiresAt.value else was.expiresAt)
    && row.channels == (if data.channels.Some? then data.channels.value else was.channels)
    && row.userId == was.userId && row.coinId == was.coinId && row.cooldownMinutes == was.cooldownMinutes
    && row.lastTriggeredAt == was.lastTriggeredAt && row.triggeredCount == was.triggeredCount
  }

  /** At most the one row is different. */
  predicate OnlyAt(id: string, before: Table, after: Table) {
    && before.Keys <= after.Keys
    && forall other :: other in after && other != id ==> other in before && after[other] == before[other]
  }

  predicate HasExpired(row: Alert, now: int) {
    row.expiresAt.Some? && row.expiresAt.value < now
  }

  class PriceAlertRepository {
    var rows: Table

    constructor ()
      ensures rows == map[]
    {
      rows := map[];
    }

    /** `id` is the identifier the database generates for the new row. */
    method Create(id: string, userId: string, order: CreateRequest) returns (alert: Alert)
      requires id !in rows
      modifies this
      ensures alert == NewAlert(userId, order) && rows == old(rows)[id := alert]
      ensures Opens(alert, userId, order)
    {
      alert := NewAlert(userId, order);
      rows := rows[id := alert];
    }

    method FindByIdAndUser(id: string, userId: string) returns (alert: Option<Alert>)
      ensures alert == Find(rows, id, userId)
      ensures alert.Some? <==> id in rows && rows[id].userId == userId
      ensures alert.Some? ==> alert.value == rows[id]
    {
      return Find(rows, id, userId);
    }

    method ExpireActiveAlerts(now: int) returns (expired: set<string>)
      modifies this
      ensures rows == ExpireAll(old(rows), now)
      ensures expired == ExpiredBy(old(rows), now)
      ensures forall id :: id in expired <==>
                id in old(rows) && old(rows)[id].status == Active && HasExpired(old(rows)[id], now)
      ensures rows.Keys == old(rows).Keys
      ensures forall id :: id in rows ==>
                rows[id] == if id in expired then old(rows)[id].(status := Expired) else old(rows)[id]
    {
      expired := set id | id in rows && rows[id].status == Active && Lapsed(rows[id], now);
      rows := map id | id in rows :: if id in expired then rows[id].(status := Expired) else rows[id];
    }

    method FindActiveAlertsForScheduler(cursorId: Option<string>, limit: nat) returns (page: seq<Copy>)
      ensures page == Page(rows, cursorId, limit)
    {
      page := Page(rows, cursorId, limit);
    }

    method UpdateOwned(id: string, userId: string, data: Patch)
      modifies this
      ensures rows == Apply(old(rows), id, Own(userId, data))
      ensures rows.Keys == old(rows).Keys && OnlyAt(id, old(rows), rows)
      ensures id in rows ==>
                var was := old(rows)[id];
                if was.userId == userId then Carries(rows[id], was, data) else rows[id] == was
    {
      if id in rows && rows[id].userId == userId {
        rows := rows[id := Patched(rows[id], data)];
      }
    }

    method MarkTriggered(id: string, price: string, at: int, status: Status) returns (updated: bool)
      modifies this
      ensures rows == Apply(old(rows), id, Trigger(price, at, status))
      ensures updated <==> id in old(rows) && old(rows)[id].status == Active
      ensures rows ==
                if updated
                then old(rows)[id := old(rows)[id].(lastCheckedPrice := Some(price), lastTriggeredAt := Some(at),
                                                    status := status,
                                                    triggeredCount := old(rows)[id].triggeredCount + 1)]
                else old(rows)
    {
      updated := id in rows && rows[id].status == Active;
      if updated {
        var row := rows[id];
        rows := rows[id := row.(lastCheckedPrice := Some(price), lastTriggeredAt := Some(at), status := status,
                                triggeredCount := row.triggeredCount + 1)];
      }
    }

    method UpdateLastCheckedPrice(id: string, price: string) returns (updated: bool)
      modifies this
      ensures rows == Apply(old(rows), id, LastPrice(price))
      ensures updated <==> id in old(rows) && old(rows)[id].status == Active
      ensures rows == if updated then old(rows)[id := old(rows)[id].(lastCheckedPrice := Some(price))] else old(rows)
    {
      updated := id in rows && rows[id].status == Active;
      if updated {
        rows := rows[id := rows[id].(lastCheckedPrice := Some(price))];
      }
    }
  }

  // -------------------------------------------------------------- use cases

  function CreateAlert(rows: Table, id: string, userId: string, order: CreateRequest, coinActive: bool, now: int)
    : (Table, Outcome<Alert, Failure>)
  {
    var failure := CreateFailure(order, coinActive, now);
    if failure.Some? then (rows, Failed(failure.value))
    else (rows[id := NewAlert(userId, order)], Success(NewAlert(userId, order)))
  }

  function UpdateAlert(rows: Table, id: string, userId: string, request: UpdateRequest, now: int)
    : (Table, Outcome<Alert, Failure>)
  {
    if IsEmpty(request) then (rows, Failed(EmptyUpdate))
    else if Find(rows, id, userId).None? then (rows, Failed(AlertNotFound))
    else
      var decision := DecideUpdate(rows[id], request, now);
      var after := Apply(rows, id, decision.write);
      (after, if decision.failure.Some? then Failed(decision.failure.value) else Success(after[id]))
  }

  function CancelAlert(rows: Table, id: string, userId: string): (Table, Option<Failure>) {
    if Find(rows, id, userId).None? then (rows, Some(AlertNotFound))
    else
      var decision := DecideCancel(rows[id]);
      (Apply(rows, id, decision.write), decision.failure)
  }

  class CreatePriceAlertUseCase {
    const alerts: PriceAlertRepository

    constructor (alerts: PriceAlertRepository)
      ensures this.alerts == alerts
    {
      this.alerts := alerts;
    }

    method Execute(id: string, userId: string, order: CreateRequest, coinActive: bool, now: int)
      returns (r: Outcome<Alert, Failure>)
      requires id !in alerts.rows
      modifies alerts
      ensures (alerts.rows, r) == CreateAlert(old(alerts.rows), id, userId, order, coinActive, now)
    {
      if order.expiresAt.Some? && order.expiresAt.value <= now {
        return Failed(InvalidExpiration);
      }
      if !coinActive {
        return Failed(CoinNotFound);
      }
      var alert := alerts.Create(id, userId, order);
      return Success(alert);
    }
  }

  class UpdatePriceAlertUseCase {
    const alerts: PriceAlertRepository

    constructor (alerts: PriceAlertRepository)
      ensures this.alerts == alerts
    {
      this.alerts := alerts;
    }

    /** The patch is filled field by field, as each field of the request is met. */
    method ToUpdateData(request: UpdateRequest, now: int) returns (r: Outcome<Patch, Failure>)
      ensures r == UpdateData(request, now)
    {
      var data := NoChange;
      if request.targetPrice.Some? {
        data := data.(targetPrice := request.targetPrice, lastCheckedPrice := Some(None));
      }
      if request.direction.Some? {
        data := data.(direction := request.direction, lastCheckedPrice := Some(None));
      }
      if request.triggerMode.Some? {
        data := data.(triggerMode := request.triggerMode);
      }
      if request.expiresAt.Some? {
        var expiresAt := request.expiresAt.value;
        if expiresAt.Some? && expiresAt.value <= now {
          return Failed(InvalidExpiration);
        }
        data := data.(expiresAt := Some(expiresAt));
      }
      if request.channels.Some? {
        data := data.(channels := request.channels);
      }
      return Success(data);
    }

    method Execute(id: string, userId: string, request: UpdateRequest, now: int) returns (r: Outcome<Alert, Failure>)
      modifies alerts
      ensures (alerts.rows, r) == UpdateAlert(old(alerts.rows), id, userId, request, now)
    {
      if IsEmpty(request) {
        return Failed(EmptyUpdate);
      }
      var found := alerts.FindByIdAndUser(id, userId);
      if found.None? {
        return Failed(AlertNotFound);
      }
      var alert := found.value;
      if alert.status == Active && Lapsed(alert, now) {
        alerts.UpdateOwned(id, userId, NoChange.(status := Some(Expired)));
        return Failed(AlertExpired);
      }
      if alert.status == Expired {
        return Failed(AlertExpired);
      }
      if alert.status == Cancelled {
        return Failed(AlertCancelled);
      }
      if alert.status == Triggered {
        return Failed(AlertTriggered);
      }
      var data := ToUpdateData(request, now);
      if data.Failed? {
        return Failed(data.failure);
      }
      alerts.UpdateOwned(id, userId, data.value);
      var updated := alerts.FindByIdAndUser(id, userId);
      if updated.None? {
        return Failed(AlertNotFound);
      }
      return Success(updated.value);
    }
  }

  class CancelPriceAlertUseCase {
    const alerts: PriceAlertRepository

    constructor (alerts: PriceAlertRepository)
      ensures this.alerts == alerts
    {
      this.alerts := alerts;
    }

    method Execute(id: string, userId: string) returns (failure: Option<Failure>)
      modifies alerts
      ensures (alerts.rows, failure) == CancelAlert(old(alerts.rows), id, userId)
    {
      var alert := alerts.FindByIdAndUser(id, userId);
      if alert.None? {
        return Some(AlertNotFound);
      }
      if alert.value.status == Cancelled {
        return Some(AlertCancelled);
      }
      if alert.value.status == Expired {
        return Some(AlertExpired);
      }
      alerts.UpdateOwned(id, userId, NoChange.(status := Some(Cancelled)));
      return None;
    }
  }

  // ------------------------------------------------------------- properties

  /** A successful edit sets exactly what was asked, re-arms the crossing, and touches nothing else. */
  lemma UpdateWritesTheRequest(rows: Table, id: string, userId: string, request: UpdateRequest, now: int)
    requires UpdateAlert(rows, id, userId, request, now).1.Success?
    ensures var (after, r) := UpdateAlert(rows, id, userId, request, now);
            var row, was := r.value, rows[id];
            && after == rows[id := row]
            && (request.targetPrice.Some? ==> row.targetPrice == request.targetPrice.value)
            && (request.direction.Some? ==> row.direction == request.direction.value)
            && (request.triggerMode.Some? ==> row.triggerMode == request.triggerMode.value)
            && (request.expiresAt.Some? ==> row.expiresAt == request.expiresAt.value)
            && (request.channels.Some? ==> row.channels == request.channels.value)
            && (request.targetPrice.None? ==> row.targetPrice == was.targetPrice)
            && (request.direction.None? ==> row.direction == was.direction)
            && (request.triggerMode.None? ==> row.triggerMode == was.triggerMode)
            && (request.expiresAt.None? ==> row.expiresAt == was.expiresAt)
            && (request.channels.None? ==> row.channels == was.channels)
            && row.lastCheckedPrice
               == (if request.targetPrice.Some? || request.direction.Some? then None else was.lastCheckedPrice)
            && row.(targetPrice := was.targetPrice, direction := was.direction, triggerMode := was.triggerMode,
                    expiresAt := was.expiresAt, channels := was.channels, lastCheckedPrice := was.lastCheckedPrice)
               == was
  {
  }

  /**
   * An order is accepted exactly if its coin is active and its expiry, if any,
   * still to come; of two reasons to refuse it the expiry is given. Accepting
   * it opens one new row, refusing it changes nothing.
   */
  lemma CreatesExactlyTheOrder(rows: Table, id: string, userId: string, order: CreateRequest, coinActive: bool, now: int)
    requires id !in rows
    ensures var (after, r) := CreateAlert(rows, id, userId, order, coinActive, now);
            var late := order.expiresAt.Some? && order.expiresAt.value <= now;
            && (r.Success? <==> coinActive && !late)
            && (r == Failed(InvalidExpiration) <==> late)
            && (r == Failed(CoinNotFound) <==> !late && !coinActive)
            && (r.Failed? ==> after == rows)
            && (r.Success? ==>
                  && after.Keys == rows.Keys + {id} && OnlyAt(id, rows, after)
                  && r.value == after[id] && Opens(after[id], userId, order))
  {
  }

  /** The state machine creates alerts as the use case does. */
  lemma CreateIsARun(s: Machine.State, id: string, userId: string, order: CreateRequest, coinActive: bool, now: int)
    requires id !in s.rows
    ensures Machine.Run(s, [Machine.Create(id, userId, order, coinActive, now)])
         == s.(rows := CreateAlert(s.rows, id, userId, order, coinActive, now).0)
  {
    var e := Machine.Create(id, userId, order, coinActive, now);
    assert [e][..0] == [];
    assert Machine.Run(s, []) == s;
  }

  predicate AsksNothing(request: UpdateRequest) {
    && request.targetPrice.None? && request.direction.None? && request.triggerMode.None?
    && request.expiresAt.None? && request.channels.None?
  }

  predicate AsksALateExpiry(request: UpdateRequest, now: int) {
    request.expiresAt.Some? && request.expiresAt.value.Some? && request.expiresAt.value.value <= now
  }

  /**
   * When an edit succeeds, and which refusal every other one meets, by the row,
   * the request and the clock. A refusal changes nothing, except that an ACTIVE
   * row past its expiry becomes EXPIRED.
   */
  lemma UpdateSucceedsIff(rows: Table, id: string, userId: string, request: UpdateRequest, now: int)
    ensures var (after, r) := UpdateAlert(rows, id, userId, request, now);
            && (r == Failed(EmptyUpdate) <==> AsksNothing(request))
            && (AsksNothing(request) ==> after == rows)
    ensures !AsksNothing(request) ==>
              var (after, r) := UpdateAlert(rows, id, userId, request, now);
              var found := id in rows && rows[id].userId == userId;
              && (r == Failed(AlertNotFound) <==> !found)
              && (!found ==> after == rows)
              && (found ==>
                    var row := rows[id];
                    var live := row.status == Active && !HasExpired(row, now);
                    && (r == Failed(AlertExpired) <==>
                          row.status == Expired || (row.status == Active && HasExpired(row, now)))
                    && (r == Failed(AlertCancelled) <==> row.status == Cancelled)
                    && (r == Failed(AlertTriggered) <==> row.status == Triggered)
                    && (r == Failed(InvalidExpiration) <==> live && AsksALateExpiry(request, now))
                    && (r.Success? <==> live && !AsksALateExpiry(request, now))
                    && (r.Failed? ==>
                          after == if row.status == Active && HasExpired(row, now)
                                   then rows[id := row.(status := Expired)] else rows))
  {
  }

  /**
   * Cancelling succeeds exactly on the owner's ACTIVE or TRIGGERED alert, and
   * then changes its status only; each other case has its own refusal.
   */
  lemma CancelSucceedsIff(rows: Table, id: string, userId: string)
    ensures var (after, failure) := CancelAlert(rows, id, userId);
            var found := id in rows && rows[id].userId == userId;
            && (failure.None? <==> found && (rows[id].status == Active || rows[id].status == Triggered))
            && (failure == Some(AlertNotFound) <==> !found)
            && (failure == Some(AlertCancelled) <==> found && rows[id].status == Cancelled)
            && (failure == Some(AlertExpired) <==> found && rows[id].status == Expired)
            && after == (if failure.None? then rows[id := rows[id].(status := Cancelled)] else rows)
  {
  }

  /** A use case that is not interleaved with anything is a run of the machine's read and write steps. */
  lemma UpdateIsARun(s: Machine.State, n: nat, id: string, userId: string, request: UpdateRequest, now: int)
    requires n !in s.pending
    ensures var end := Machine.Run(s, [Machine.ReadForUpdate(n, id, userId, request), Machine.WriteBack(n, now)]);
            end == s.(rows := UpdateAlert(s.rows, id, userId, request, now).0)
  {
    var read, write := Machine.ReadForUpdate(n, id, userId, request), Machine.WriteBack(n, now);
    TwoSteps(s, read, write);
    hide DecideUpdate, Machine.Run;
    if !IsEmpty(request) && Find(s.rows, id, userId).Some? {
      var mid := Machine.Next(s, read);
      assert mid.pending - {n} == s.pending;
    } else {
      assert s.rows == UpdateAlert(s.rows, id, userId, request, now).0;
    }
  }

  lemma CancelIsARun(s: Machine.State, n: nat, id: string, userId: string, now: int)
    requires n !in s.pending
    ensures var end := Machine.Run(s, [Machine.ReadForCancel(n, id, userId), Machine.WriteBack(n, now)]);
            end == s.(rows := CancelAlert(s.rows, id, userId).0)
  {
    var read, write := Machine.ReadForCancel(n, id, userId), Machine.WriteBack(n, now);
    TwoSteps(s, read, write);
    hide DecideCancel, Machine.Run;
    if Find(s.rows, id, userId).Some? {
      var mid := Machine.Next(s, read);
      assert mid.pending - {n} == s.pending;
    }
  }

  lemma TwoSteps(s: Machine.State, e: Machine.Event, f: Machine.Event)
    ensures Machine.Run(s, [e, f]) == Machine.Next(Machine.Next(s, e), f)
  {
    hide Machine.Next;
    assert [e, f][..1] == [e] && [e][..0] == [];
    assert Machine.Run(s, []) == s;
    assert Machine.Run(s, [e]) == Machine.Next(s, e);
  }
}
