/**
 * What a check makes of one alert: each verdict by the conditions under which
 * it is given, the counters it moves, and what it leaves in the alert's row.
 */
module AlertVerdicts {
  import opened Options
  import opened AlertEvaluator
  import opened PriceAlerts

  // ------------------------------------------------------------------ counters

  datatype Counts = Counts(checked: nat, expired: nat, triggered: nat, skipped: nat)

  predicate WasPriced(v: Verdict) {
    !v.PastExpiry? && !v.CoinInactive? && !v.PriceUnavailable?
  }

  /** Does handling the alert end in an exception? */
  predicate Throws(v: Verdict, around: Circumstances) {
    match v
    case Unreadable => true
    case Undelivered => true
    case CoinInactive => false
    case PriceUnavailable => false
    case _ => !around.stored
  }

  /** One alert moves at most one of expired, triggered and skipped, and `checked` when a price was there to look at. */
  function Tally(c: Counts, v: Verdict, around: Circumstances, wasActive: bool): Counts {
    var c := if WasPriced(v) then c.(checked := c.checked + 1) else c;
    if Throws(v, around) then c.(skipped := c.skipped + 1)
    else
      match v
      case PastExpiry => c.(expired := c.expired + 1)
      case NotCrossed => c
      case Fires => if wasActive then c.(triggered := c.triggered + 1) else c.(skipped := c.skipped + 1)
      case _ => c.(skipped := c.skipped + 1)
  }

  predicate IsActive(rows: Table, id: string) {
    id in rows && rows[id].status == Active
  }

  // ---------------------------------------------------------------- conditions

  predicate PastItsExpiry(copy: Alert, now: int) {
    copy.expiresAt.Some? && copy.expiresAt.value < now
  }

  /** The alert comes to be judged by a price. */
  predicate Judged(copy: Alert, now: int, prices: map<string, string>, around: Circumstances) {
    !PastItsExpiry(copy, now) && around.coinActive && copy.coinId in prices
  }

  ghost predicate AllReadable(copy: Alert, price: string) {
    copy.lastCheckedPrice.Some? ==>
      Readable(copy.lastCheckedPrice.value) && Readable(price) && Readable(copy.targetPrice)
  }

  /** The last and the current price lie on opposite sides of the target. */
  ghost predicate Straddles(copy: Alert, price: string) {
    && copy.lastCheckedPrice.Some?
    && Readable(copy.lastCheckedPrice.value) && Readable(price) && Readable(copy.targetPrice)
    && Crosses(copy.direction, PriceValue(copy.lastCheckedPrice.value), PriceValue(price), PriceValue(copy.targetPrice))
  }

  /** Less than the cooldown, in milliseconds, has passed since the last trigger. */
  predicate InItsCooldown(copy: Alert, now: int) {
    copy.lastTriggeredAt.Some? && now - copy.lastTriggeredAt.value < copy.cooldownMinutes * 60000
  }

  predicate LacksAnAddress(copy: Alert, around: Circumstances) {
    Email in copy.channels && !around.reachable
  }

  predicate SomeChannelFails(copy: Alert, around: Circumstances) {
    exists channel :: channel in copy.channels && channel in around.failing
  }

  /** A live alert whose two prices straddle the target, past the cooldown and with word sent. */
  ghost predicate FireConditions(copy: Alert, now: int, prices: map<string, string>, around: Circumstances) {
    && Judged(copy, now, prices, around) && Straddles(copy, prices[copy.coinId])
    && !InItsCooldown(copy, now) && !LacksAnAddress(copy, around) && !SomeChannelFails(copy, around)
  }

  /** Each verdict is given exactly under its conditions, the earlier ones having precedence. */
  lemma VerdictIff(copy: Alert, now: int, prices: map<string, string>, around: Circumstances)
    ensures var v := Assess(copy, now, prices, around);
            && (v.PastExpiry? <==> PastItsExpiry(copy, now))
            && (v.CoinInactive? <==> !PastItsExpiry(copy, now) && !around.coinActive)
            && (v.PriceUnavailable? <==> !PastItsExpiry(copy, now) && around.coinActive && copy.coinId !in prices)
            && (v.Fires? <==> FireConditions(copy, now, prices, around))
    ensures Judged(copy, now, prices, around) ==>
              var v, price := Assess(copy, now, prices, around), prices[copy.coinId];
              && (v.Unreadable? <==> !AllReadable(copy, price))
              && (v.NotCrossed? <==> AllReadable(copy, price) && !Straddles(copy, price))
              && (Straddles(copy, price) ==>
                    && (v.CoolingDown? <==> InItsCooldown(copy, now))
                    && (v.RecipientUnavailable? <==> !InItsCooldown(copy, now) && LacksAnAddress(copy, around))
                    && (v.Undelivered? <==>
                          !InItsCooldown(copy, now) && !LacksAnAddress(copy, around) && SomeChannelFails(copy, around)))
  {
    hide HasCrossed, Readable, PriceValue, Crosses;
    if copy.coinId in prices {
      CrossingIsWitnessed(copy.direction, copy.lastCheckedPrice, prices[copy.coinId], copy.targetPrice);
    }
  }

  /** A check fires exactly under those conditions. */
  lemma FiresIff(copy: Alert, now: int, prices: map<string, string>, around: Circumstances)
    ensures Assess(copy, now, prices, around).Fires? <==> FireConditions(copy, now, prices, around)
  {
    hide FireConditions, Assess;
    VerdictIff(copy, now, prices, around);
  }

  // ------------------------------------------------------------------- effects

  /** Was the alert looked at to the end, so that its price is recorded? */
  predicate Recorded(v: Verdict) {
    v.NotCrossed? || v.CoolingDown? || v.RecipientUnavailable? || v.Fires?
  }

  /**
   * What a visit leaves in its owner's row, every other column untouched: the
   * price whenever the alert was looked at to the end; count, date and status
   * only when it fired, all four only while the row is ACTIVE; EXPIRED
   * whenever its copy had lapsed.
   */
  lemma VisitedRow(row: Alert, copy: Alert, now: int, prices: map<string, string>, around: Circumstances)
    requires row.userId == copy.userId
    ensures var v := Assess(copy, now, prices, around);
            var priced := v.NotCrossed? || v.CoolingDown? || v.RecipientUnavailable? || v.Fires?;
            var takes := around.stored && row.status == Active;
            && (priced ==> copy.coinId in prices)
            && Updated(row, CheckWrite(copy, now, prices, around)) == row.(
                 lastCheckedPrice := if takes && priced then Some(prices[copy.coinId]) else row.lastCheckedPrice,
                 triggeredCount := row.triggeredCount + (if takes && v.Fires? then 1 else 0),
                 lastTriggeredAt := if takes && v.Fires? then Some(now) else row.lastTriggeredAt,
                 status := if takes && v.Fires? && copy.triggerMode == Once then Triggered
                           else if around.stored && v.PastExpiry? then Expired
                           else row.status)
  {
    hide HasCrossed, IsCooldownExpired, Lapsed, Delivered;
  }

  /** Handling ends in an exception if a price is unreadable, a notification fails, or the store does on a write. */
  predicate Fails(v: Verdict, around: Circumstances) {
    || v.Unreadable? || v.Undelivered?
    || (!around.stored && (v.PastExpiry? || v.NotCrossed? || v.CoolingDown? || v.RecipientUnavailable? || v.Fires?))
  }

  /** What one alert adds to each counter. */
  function Marks(v: Verdict, around: Circumstances, wasActive: bool): Counts {
    Counts(
      if v.PastExpiry? || v.CoinInactive? || v.PriceUnavailable? then 0 else 1,
      if v.PastExpiry? && around.stored then 1 else 0,
      if v.Fires? && around.stored && wasActive then 1 else 0,
      if Fails(v, around) || v.CoinInactive? || v.PriceUnavailable? || v.CoolingDown? || v.RecipientUnavailable?
         || (v.Fires? && !wasActive) then 1 else 0)
  }

  function Plus(c: Counts, d: Counts): Counts {
    Counts(c.checked + d.checked, c.expired + d.expired, c.triggered + d.triggered, c.skipped + d.skipped)
  }

  lemma TallyMarks(c: Counts, v: Verdict, around: Circumstances, wasActive: bool)
    ensures Tally(c, v, around, wasActive) == Plus(c, Marks(v, around, wasActive))
    ensures Throws(v, around) <==> Fails(v, around)
  {
  }
}
