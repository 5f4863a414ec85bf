/**
 * Checks under the scheduler's lock: each one starts by acquiring the lock and
 * ends by releasing it, while users, other locks and the clock go on.
 */
module ScheduledChecks {
  import opened Options
  import opened RedisStore
  import RedisLock
  import opened PriceAlerts
  import opened AlertMachine
  import opened AlertLifecycle
  import opened AlertCooldown
  import opened PriceCheckScheduling

  /** A running check is known by its lock token. */
  datatype Job = Job(lock: RedisLock.State, alerts: State)

  /** `Begin` is a scheduled invocation; `Die` a process that ends without releasing. */
  datatype JobEvent =
    | OtherLock(lockEvent: RedisLock.Event)
    | OtherAlert(alertEvent: Event)
    | Begin(now: int, prices: map<string, string>)
    | End(c: nat)
    | Die(c: nat)

  predicate TouchesTheLock(e: RedisLock.Event) {
    !e.Tick? && e.key == PRICE_CHECK_LOCK
  }

  function Acquired(lock: RedisLock.State): RedisLock.State {
    RedisLock.Next(lock, RedisLock.Acquire(PRICE_CHECK_LOCK, PRICE_CHECK_LOCK_TTL_SECONDS))
  }

  predicate Granted(lock: RedisLock.State) {
    lock.nextToken in Acquired(lock).leases
  }

  /** What a job event does to the alerts: at most one event of their machine. */
  function Emitted(j: Job, e: JobEvent): seq<Event> {
    match e
    case OtherLock(_) => []
    case OtherAlert(event) => if event.StartCheck? || event.EndCheck? then [] else [event]
    case Begin(now, prices) => if Granted(j.lock) then [StartCheck(j.lock.nextToken, now, prices)] else []
    case End(c) => if c in j.alerts.checks then [EndCheck(c)] else []
    case Die(c) => [EndCheck(c)]
  }

  function LockAfter(j: Job, e: JobEvent): RedisLock.State {
    match e
    case OtherLock(event) => if TouchesTheLock(event) then j.lock else RedisLock.Next(j.lock, event)
    case OtherAlert(_) => j.lock
    case Begin(_, _) => Acquired(j.lock)
    case End(c) =>
      if c in j.alerts.checks then RedisLock.Next(j.lock, RedisLock.Release(PRICE_CHECK_LOCK, c)) else j.lock
    case Die(_) => j.lock
  }

  function JobNext(j: Job, e: JobEvent): Job {
    Job(LockAfter(j, e), Run(j.alerts, Emitted(j, e)))
  }

  function JobRun(j: Job, events: seq<JobEvent>): Job {
    if events == [] then j
    else JobNext(JobRun(j, events[..|events| - 1]), events[|events| - 1])
  }

  predicate JobInitial(j: Job) {
    RedisLock.Initial(j.lock) && Initial(j.alerts)
  }

  /** No running check has outlived its lease of 300 seconds. */
  predicate OnTime(j: Job) {
    forall c :: c in j.alerts.checks && c in j.lock.leases ==> j.lock.now < j.lock.leases[c].until
  }

  predicate AlwaysOnTime(j: Job, events: seq<JobEvent>) {
    forall k :: 0 <= k <= |events| ==> OnTime(JobRun(j, events[..k]))
  }

  /** Every running check was granted the lock and has not given it back. */
  ghost predicate JobInv(j: Job) {
    && RedisLock.Consistent(j.lock)
    && forall c :: c in j.alerts.checks ==>
         c in j.lock.leases && j.lock.leases[c].key == PRICE_CHECK_LOCK && !j.lock.leases[c].released
  }

  lemma OnTimeMeansAlone(j: Job)
    requires JobInv(j) && OnTime(j)
    ensures OneCheckAtATime(j.alerts)
  {
    forall c, d | c in j.alerts.checks && d in j.alerts.checks
      ensures c == d
    {
      assert RedisLock.Live(j.lock, c) && RedisLock.Live(j.lock, d);
    }
  }

  lemma RunOne(s: State, e: Event)
    ensures Run(s, []) == s && Run(s, [e]) == Next(s, e)
  {
    hide Next;
    assert [e][..0] == [];
    assert Run(s, []) == s;
  }

  lemma LeasesKept(lock: RedisLock.State, e: RedisLock.Event, c: nat)
    requires c in lock.leases && lock.leases[c].key == PRICE_CHECK_LOCK && !lock.leases[c].released && c < lock.nextToken
    requires e.Release? ==> e.token != c || e.key != PRICE_CHECK_LOCK
    ensures var after := RedisLock.Next(lock, e); c in after.leases && after.leases[c] == lock.leases[c]
  {
  }

  /** Only `Begin` adds a running check, and that one holds the lock just granted. */
  lemma RunningChecks(j: Job, e: JobEvent, c: nat)
    requires c in JobNext(j, e).alerts.checks
    ensures (c in j.alerts.checks && !(e.End? && e.c == c)) || (e.Begin? && Granted(j.lock) && c == j.lock.nextToken)
  {
    hide WriteTo, Apply, ExpireAll, FiringOf, TurnPage, CreateFailure, Granted;
    var emitted := Emitted(j, e);
    if emitted != [] {
      RunOne(j.alerts, emitted[0]);
      assert emitted == [emitted[0]];
    }
  }

  lemma GrantedLease(lock: RedisLock.State)
    requires RedisLock.Consistent(lock) && Granted(lock)
    ensures var lease := Acquired(lock).leases[lock.nextToken]; lease.key == PRICE_CHECK_LOCK && !lease.released
  {
  }

  lemma JobStep(j: Job, e: JobEvent)
    requires JobInv(j)
    ensures JobInv(JobNext(j, e))
  {
    hide Run, Emitted, RedisLock.Next, RedisLock.Live;
    var end := JobNext(j, e);
    LockStaysConsistent(j, e);
    forall c | c in end.alerts.checks
      ensures c in end.lock.leases && end.lock.leases[c].key == PRICE_CHECK_LOCK && !end.lock.leases[c].released
    {
      RunningChecks(j, e, c);
      if c in j.alerts.checks && !(e.End? && e.c == c) {
        KnownToken(j.lock, c);
        LeaseSurvives(j, e, c);
      } else {
        GrantedLease(j.lock);
      }
    }
  }

  lemma KnownToken(lock: RedisLock.State, c: nat)
    requires RedisLock.Consistent(lock) && c in lock.leases
    ensures c < lock.nextToken
  {
  }

  lemma LeaseSurvives(j: Job, e: JobEvent, c: nat)
    requires c in j.lock.leases && j.lock.leases[c].key == PRICE_CHECK_LOCK && !j.lock.leases[c].released
    requires c < j.lock.nextToken && !(e.End? && e.c == c)
    ensures var after := LockAfter(j, e); c in after.leases && after.leases[c] == j.lock.leases[c]
  {
    hide RedisLock.Next;
    match e
    case OtherLock(event) => if !TouchesTheLock(event) { LeasesKept(j.lock, event, c); }
    case Begin(_, _) => LeasesKept(j.lock, RedisLock.Acquire(PRICE_CHECK_LOCK, PRICE_CHECK_LOCK_TTL_SECONDS), c);
    case End(d) => if d in j.alerts.checks { LeasesKept(j.lock, RedisLock.Release(PRICE_CHECK_LOCK, d), c); }
    case _ =>
  }

  lemma LockStaysConsistent(j: Job, e: JobEvent)
    requires RedisLock.Consistent(j.lock)
    ensures RedisLock.Consistent(LockAfter(j, e))
  {
    hide RedisLock.Next, RedisLock.Consistent;
    match e
    case OtherLock(event) => RedisLock.NextConsistent(j.lock, event);
    case Begin(_, _) => RedisLock.NextConsistent(j.lock, RedisLock.Acquire(PRICE_CHECK_LOCK, PRICE_CHECK_LOCK_TTL_SECONDS));
    case End(d) => RedisLock.NextConsistent(j.lock, RedisLock.Release(PRICE_CHECK_LOCK, d));
    case _ =>
  }

  lemma {:induction false} JobRunInv(j: Job, events: seq<JobEvent>)
    requires JobInitial(j)
    ensures JobInv(JobRun(j, events))
  {
    if events != [] {
      hide JobNext, JobInv, JobInitial;
      JobRunInv(j, events[..|events| - 1]);
      JobStep(JobRun(j, events[..|events| - 1]), events[|events| - 1]);
    } else {
      hide JobNext;
    }
  }

  /** The alert machine's own events in a run of the job. */
  function Projected(j: Job, events: seq<JobEvent>): seq<Event> {
    if events == [] then []
    else
      var last := |events| - 1;
      Projected(j, events[..last]) + Emitted(JobRun(j, events[..last]), events[last])
  }

  lemma {:induction false} ProjectedRun(j: Job, events: seq<JobEvent>)
    ensures JobRun(j, events).alerts == Run(j.alerts, Projected(j, events))
  {
    if events != [] {
      hide Run, Emitted, LockAfter;
      var last := |events| - 1;
      ProjectedRun(j, events[..last]);
      RunConcat(j.alerts, Projected(j, events[..last]), Emitted(JobRun(j, events[..last]), events[last]));
    } else {
      RunNil(j.alerts);
    }
  }

  lemma AppendSerialised(s: State, events: seq<Event>, more: seq<Event>)
    requires Serialised(s, events) && |more| <= 1 && OneCheckAtATime(Run(s, events + more))
    ensures Serialised(s, events + more)
  {
    hide Run, OneCheckAtATime;
    var all := events + more;
    forall k | 0 <= k <= |all|
      ensures OneCheckAtATime(Run(s, all[..k]))
    {
      if k <= |events| { assert all[..k] == events[..k]; } else { assert all[..k] == all; }
    }
  }

  lemma EmittedAtMostOne(j: Job, e: JobEvent)
    ensures |Emitted(j, e)| <= 1
  {
    hide Granted;
  }

  /** While no check outlives its lease, checks never overlap. */
  lemma {:induction false} TheLockSerialisesChecks(j: Job, events: seq<JobEvent>)
    requires JobInitial(j) && AlwaysOnTime(j, events)
    ensures Serialised(j.alerts, Projected(j, events))
  {
    hide Run, Emitted, JobNext, OnTime, JobInv, OneCheckAtATime;
    JobRunInv(j, events);
    assert events[..|events|] == events;
    OnTimeMeansAlone(JobRun(j, events));
    ProjectedRun(j, events);
    if events == [] {
      StartIsSerialised(j.alerts);
    } else {
      var last := |events| - 1;
      var before := events[..last];
      forall k | 0 <= k <= |before|
        ensures OnTime(JobRun(j, before[..k]))
      {
        assert before[..k] == events[..k];
      }
      TheLockSerialisesChecks(j, before);
      EmittedAtMostOne(JobRun(j, before), events[last]);
      AppendSerialised(j.alerts, Projected(j, before), Emitted(JobRun(j, before), events[last]));
    }
  }

  lemma StartIsSerialised(s: State)
    requires OneCheckAtATime(Run(s, []))
    ensures Serialised(s, [])
  {
  }

  /**
   * In any run of scheduled checks among users, other locks and the clock:
   * while no check outlives its 300-second lease, triggers m and n of an alert
   * are at least (n - m) cooldowns apart.
   */
  lemma ScheduledCooldown(j: Job, events: seq<JobEvent>, id: string, m: nat, n: nat)
    requires JobInitial(j) && AlwaysOnTime(j, events)
    requires id in JobRun(j, events).alerts.rows
    requires m <= n < |FiredOf(JobRun(j, events).alerts, id)|
    ensures var end := JobRun(j, events).alerts;
            FiredOf(end, id)[n].at - FiredOf(end, id)[m].at >= (n - m) * Gap(end.rows[id])
  {
    hide JobRun, Run, AlwaysOnTime, Serialised, Projected, FiredOf, Gap;
    ProjectedRun(j, events);
    TheLockSerialisesChecks(j, events);
    CooldownBound(j.alerts, Projected(j, events), id, m, n);
  }

  // ---------------------------------------------- a check that outlives its lease

  /** Every scheduled check reads the clock its lock is leased by. */
  predicate OneClock(j: Job, events: seq<JobEvent>) {
    forall k :: 0 <= k < |events| && events[k].Begin? ==> events[k].now == JobRun(j, events[..k]).lock.now
  }

  const IdleLock := RedisLock.State(0, map[], 0, map[])
  const Idle := Job(IdleLock, Lone)

  /** The second check starts 300 seconds after the first, which has read its page and not yet handled it. */
  const SlowCheck: seq<JobEvent> := [
    Begin(0, Low), OtherAlert(ReadPage(0)), OtherAlert(ProcessNext(0, Fine)), End(0),
    OtherLock(RedisLock.Tick(60000)), Begin(60000, High), OtherAlert(ReadPage(1)),
    OtherLock(RedisLock.Tick(300000)), Begin(360000, High), OtherAlert(ReadPage(2)),
    OtherAlert(ProcessNext(1, Fine)), OtherAlert(ProcessNext(2, Fine))]

  /** The lock through that run, event by event. */
  function LockAt(k: nat): RedisLock.State {
    var first := RedisLock.Lease(PRICE_CHECK_LOCK, 300000, false);
    var second := RedisLock.Lease(PRICE_CHECK_LOCK, 360000, false);
    var third := RedisLock.Lease(PRICE_CHECK_LOCK, 660000, false);
    var returned := first.(released := true);
    if k == 0 then IdleLock
    else if k <= 3 then RedisLock.State(0, map[PRICE_CHECK_LOCK := Entry(0, 300000)], 1, map[0 := first])
    else if k == 4 then RedisLock.State(0, map[], 1, map[0 := returned])
    else if k == 5 then RedisLock.State(60000, map[], 1, map[0 := returned])
    else if k <= 7 then
      RedisLock.State(60000, map[PRICE_CHECK_LOCK := Entry(1, 360000)], 2, map[0 := returned, 1 := second])
    else if k == 8 then
      RedisLock.State(360000, map[PRICE_CHECK_LOCK := Entry(1, 360000)], 2, map[0 := returned, 1 := second])
    else
      RedisLock.State(360000, map[PRICE_CHECK_LOCK := Entry(2, 660000)], 3,
                      map[0 := returned, 1 := second, 2 := third])
  }

  /** How many of the alert events have happened by then. */
  function AlertsBy(k: nat): nat {
    if k <= 4 then k else if k <= 5 then 4 else if k <= 7 then k - 1 else if k <= 8 then 6 else k - 2
  }

  /** The three acquisitions are granted: the key is free, free again, and left behind by an expired lease. */
  lemma SlowGrants(k: nat)
    requires k in {0, 5, 8}
    ensures Granted(LockAt(k)) && Acquired(LockAt(k)) == LockAt(k + 1)
    ensures LockAt(k).nextToken == if k == 0 then 0 else if k == 5 then 1 else 2
  {
  }

  lemma SlowTicksAndRelease()
    ensures RedisLock.Next(LockAt(3), RedisLock.Release(PRICE_CHECK_LOCK, 0)) == LockAt(4)
    ensures RedisLock.Next(LockAt(4), RedisLock.Tick(60000)) == LockAt(5)
    ensures RedisLock.Next(LockAt(7), RedisLock.Tick(300000)) == LockAt(8)
  {
  }

  lemma LockRests(k: nat)
    requires k in {1, 2, 6, 9, 10, 11}
    ensures LockAt(k) == LockAt(k + 1)
  {
  }

  /** One event of that run, from the state the ones before it leave. */
  lemma SlowStep(j: Job, k: nat)
    requires k < |SlowCheck|
    requires j.lock == LockAt(k)
    requires k == 3 ==> 0 in j.alerts.checks
    ensures LockAfter(j, SlowCheck[k]) == LockAt(k + 1)
    ensures Emitted(j, SlowCheck[k]) == Overlap[AlertsBy(k)..AlertsBy(k + 1)]
  {
    hide LockAt, Acquired, Granted, RedisLock.Next;
    var n := AlertsBy(k);
    assert AlertsBy(k + 1) > n ==> Overlap[n..n + 1] == [Overlap[n]];
    SlowTicksAndRelease();
    if k in {0, 5, 8} {
      SlowGrants(k);
    } else if k in {1, 2, 6, 9, 10, 11} {
      LockRests(k);
    }
  }

  lemma RunningAtThree()
    ensures 0 in Run(Lone, Overlap[..3]).checks
  {
    hide Next, Run, CheckWrite, Updated;
    RunNil(Lone);
    RunSnoc(Lone, [], Overlap[0]);
    RunSnoc(Lone, Overlap[..1], Overlap[1]);
    RunSnoc(Lone, Overlap[..2], Overlap[2]);
    assert [] + [Overlap[0]] == Overlap[..1] && Overlap[..1] + [Overlap[1]] == Overlap[..2]
        && Overlap[..2] + [Overlap[2]] == Overlap[..3];
    Starts(Lone, 0, 0, Low);
    OneRowPage(Run(Lone, Overlap[..1]), 0, Often);
    OneRowProcess(Run(Lone, Overlap[..2]), 0, Often, Often);
  }

  lemma {:induction false} SlowRun(k: nat)
    requires k <= |SlowCheck|
    ensures JobRun(Idle, SlowCheck[..k]) == Job(LockAt(k), Run(Lone, Overlap[..AlertsBy(k)]))
  {
    hide Run, LockAfter, Emitted, LockAt;
    if k == 0 {
      StartOfSlowRun();
    } else {
      SlowRun(k - 1);
      if k == 4 { RunningAtThree(); }
      var j := JobRun(Idle, SlowCheck[..k - 1]);
      SlowStep(j, k - 1);
      assert SlowCheck[..k][..k - 1] == SlowCheck[..k - 1];
      RunConcat(Lone, Overlap[..AlertsBy(k - 1)], Emitted(j, SlowCheck[k - 1]));
      assert Overlap[..AlertsBy(k - 1)] + Overlap[AlertsBy(k - 1)..AlertsBy(k)] == Overlap[..AlertsBy(k)];
    }
  }

  lemma StartOfSlowRun()
    ensures JobRun(Idle, SlowCheck[..0]) == Job(LockAt(0), Run(Lone, Overlap[..0]))
  {
    RunNil(Lone);
    assert Overlap[..0] == [];
  }

  lemma BeginsOnTheClock(k: nat)
    requires k < |SlowCheck| && SlowCheck[k].Begin?
    ensures SlowCheck[k].now == LockAt(k).now
  {
  }

  lemma SlowRunHasOneClock()
    ensures OneClock(Idle, SlowCheck)
  {
    hide JobRun, Run, LockAt, AlertsBy;
    forall k | 0 <= k < |SlowCheck| && SlowCheck[k].Begin?
      ensures SlowCheck[k].now == JobRun(Idle, SlowCheck[..k]).lock.now
    {
      BeginsOnTheClock(k);
      SlowRun(k);
    }
  }

  /**
   * Under the lock, on one clock: a check that is still at work when its lease
   * of 300 seconds ends lets the next one in, and both trigger the same alert,
   * 300 seconds apart, against a cooldown of an hour.
   */
  lemma AnOverdueCheckBreaksTheCooldown()
    ensures JobInitial(Idle) && OneClock(Idle, SlowCheck) && !AlwaysOnTime(Idle, SlowCheck)
    ensures var end := JobRun(Idle, SlowCheck).alerts;
            && "a" in end.rows && |FiredOf(end, "a")| == 2
            && FiredOf(end, "a")[1].at - FiredOf(end, "a")[0].at == 300000 < Gap(end.rows["a"])
  {
    hide JobRun, Run, AlwaysOnTime, OneClock;
    SlowRun(|SlowCheck|);
    assert SlowCheck[..|SlowCheck|] == SlowCheck && Overlap[..|Overlap|] == Overlap;
    BothFire(JobRun(Idle, SlowCheck).alerts);
    SlowRunHasOneClock();
    if AlwaysOnTime(Idle, SlowCheck) { ScheduledCooldown(Idle, SlowCheck, "a", 0, 1); }
  }
}
