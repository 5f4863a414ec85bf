/** Notifications against recorded triggers: what goes out, and when it goes out without a record. */
module AlertNotices {
  import opened Options
  import opened AlertEvaluator
  import opened PriceAlerts
  import opened AlertMachine
  import opened AlertLifecycle
  import opened AlertFrequency

  /** The event handles this alert from the head of a check's queue. */
  predicate Handles(s: State, e: Event, id: string) {
    e.ProcessNext? && HasWork(s, e.c) && s.checks[e.c].queue[0].id == id
  }

  function VerdictOn(s: State, e: Event, id: string): Verdict
    requires Handles(s, e, id)
  {
    Assess(s.checks[e.c].queue[0].row, s.checks[e.c].now, s.checks[e.c].prices, e.around)
  }

  function ChannelsOf(s: State, e: Event, id: string): seq<Channel>
    requires Handles(s, e, id)
  {
    s.checks[e.c].queue[0].row.channels
  }

  /** The channels an event notifies: all selected ones are started at once, and those that do not fail go out. */
  function Notified(s: State, e: Event, id: string): set<Channel> {
    if Handles(s, e, id) && (VerdictOn(s, e, id).Fires? || VerdictOn(s, e, id).Undelivered?)
    then set channel | channel in ChannelsOf(s, e, id) && channel !in e.around.failing
    else {}
  }

  /** Everything the owner selected went out. */
  predicate FullyNotified(s: State, e: Event, id: string) {
    Handles(s, e, id) && VerdictOn(s, e, id).Fires?
  }

  /** The trigger cannot be recorded: the row has left ACTIVE, or the store fails. */
  predicate Unrecordable(s: State, e: Event, id: string)
    requires e.ProcessNext?
  {
    !(id in s.rows && s.rows[id].status == Active) || !e.around.stored
  }

  lemma VerdictOnDelivery(copy: Alert, now: int, prices: map<string, string>, around: Circumstances)
    ensures Assess(copy, now, prices, around).Fires? ==> Delivered(copy.channels, around)
    ensures Assess(copy, now, prices, around).Undelivered? ==> !Delivered(copy.channels, around)
  {
    hide HasCrossed, Delivered;
  }

  /** A trigger is recorded exactly when everything selected went out and the row could still take it. */
  lemma RecordedIff(s: State, e: Event, id: string)
    ensures FiringOf(s, e, id) != [] <==> FullyNotified(s, e, id) && !Unrecordable(s, e, id)
    ensures |FiringOf(s, e, id)| <= 1
    ensures FiringOf(s, e, id) != [] ==> Notified(s, e, id) == set channel | channel in ChannelsOf(s, e, id)
  {
    hide Assess;
    if Handles(s, e, id) {
      var check := s.checks[e.c];
      VerdictOnDelivery(check.queue[0].row, check.now, check.prices, e.around);
    }
  }

  /**
   * Something goes out without a recorded trigger exactly when some selected
   * channel fails beside one that does not, or all go out and the row has left
   * ACTIVE or the store fails.
   */
  lemma UnrecordedNoticeIff(s: State, e: Event, id: string)
    ensures Notified(s, e, id) != {} && FiringOf(s, e, id) == [] <==>
              && Notified(s, e, id) != {}
              && (|| Unrecordable(s, e, id)
                  || exists channel :: channel in ChannelsOf(s, e, id) && channel in e.around.failing)
  {
    RecordedIff(s, e, id);
    hide Assess, FiringOf;
    if Handles(s, e, id) {
      var check := s.checks[e.c];
      VerdictOnDelivery(check.queue[0].row, check.now, check.prices, e.around);
    }
  }

  // -------------------------------------------------------------- whole runs

  function One(b: bool): nat {
    if b then 1 else 0
  }

  /** How often everything selected went out for the alert. */
  function Notices(s: State, events: seq<Event>, id: string): nat {
    if events == [] then 0
    else
      var last := |events| - 1;
      Notices(s, events[..last], id) + One(FullyNotified(Run(s, events[..last]), events[last], id))
  }

  /** How often it did although the trigger could not be recorded. */
  function Lost(s: State, events: seq<Event>, id: string): nat {
    if events == [] then 0
    else
      var last := |events| - 1;
      var mid := Run(s, events[..last]);
      Lost(s, events[..last], id)
      + One(FullyNotified(mid, events[last], id) && Unrecordable(mid, events[last], id))
  }

  /** In every run the full notifications are the recorded triggers and the lost ones, one for one. */
  lemma {:induction false} NoticesAreTriggersAndLost(s: State, events: seq<Event>, id: string)
    requires Initial(s)
    ensures Notices(s, events, id) == |FiredOf(Run(s, events), id)| + Lost(s, events, id)
  {
    hide Next, FiringOf, FiredOf, FullyNotified, Unrecordable;
    if events != [] {
      var last := |events| - 1;
      var mid := Run(s, events[..last]);
      NoticesAreTriggersAndLost(s, events[..last], id);
      OnlyChecksNotify(mid, events[last], id);
      FiredStep(mid, events[last], id);
      RecordedIff(mid, events[last], id);
    } else {
      NothingFired(s, id);
    }
  }

  lemma OnlyChecksNotify(s: State, e: Event, id: string)
    ensures FullyNotified(s, e, id) ==> e.ProcessNext?
  {
  }

  lemma NothingFired(s: State, id: string)
    requires Initial(s)
    ensures FiredOf(s, id) == []
  {
  }
}
