/** The cached USDT rate: the fetch that replaces it, and the stale value served when every venue fails. */
module UsdtCache {
  import opened Options
  import opened Outcomes
  import opened UsdtRate

  datatype CacheEntry = CacheEntry(value: Rate, fetchedAt: int, expiresAt: int)

  datatype Snapshot = Snapshot(value: Rate, fetchedAt: int, isStale: bool)

  function FreshAt(entry: Option<CacheEntry>, now: int): Option<CacheEntry> {
    if entry.None? || entry.value.expiresAt <= now then None else entry
  }

  function Shown(entry: CacheEntry, isStale: bool): Snapshot {
    Snapshot(entry.value, entry.fetchedAt, isStale)
  }

  /** A call that found nothing fresh, once its fetch is over. */
  function AfterFetch(entry: Option<CacheEntry>, fetched: Outcome<Rate, Failure>, fetchedAt: int, expiresAt: int)
    : (Option<CacheEntry>, Outcome<Snapshot, Failure>)
  {
    if fetched.Success? then
      var live := CacheEntry(fetched.value, fetchedAt, expiresAt);
      (Some(live), Success(Shown(live, false)))
    else if entry.Some? then (entry, Success(Shown(entry.value, true)))
    else (entry, Failed(fetched.failure))
  }

  class UsdtTomanCacheService {
    var entry: Option<CacheEntry>
    const cacheTtlMs: int

    constructor (cacheTtlMs: int)
      ensures entry == None && this.cacheTtlMs == cacheTtlMs
    {
      this.entry := None;
      this.cacheTtlMs := cacheTtlMs;
    }

    method Get(now: int) returns (cached: Option<CacheEntry>)
      ensures cached == FreshAt(entry, now)
    {
      if entry.None? || entry.value.expiresAt <= now {
        return None;
      }
      return entry;
    }

    method GetStale() returns (cached: Option<CacheEntry>)
      ensures cached == entry
    {
      return entry;
    }

    method Store(value: Rate, fetchedAt: int, now: int) returns (cached: CacheEntry)
      modifies this
      ensures cached == CacheEntry(value, fetchedAt, now + cacheTtlMs) && entry == Some(cached)
    {
      cached := CacheEntry(value, fetchedAt, now + cacheTtlMs);
      entry := Some(cached);
    }
  }

  class GetUsdtTomanUseCase {
    const cache: UsdtTomanCacheService

    constructor (cache: UsdtTomanCacheService)
      ensures this.cache == cache
    {
      this.cache := cache;
    }

    /** `now`, `fetchedAt` and `storedAt` are the clock readings of the lookup and of the two made when storing. */
    method Execute(now: int, fetched: Outcome<Rate, Failure>, fetchedAt: int, storedAt: int)
      returns (r: Outcome<Snapshot, Failure>)
      modifies cache
      ensures var live := FreshAt(old(cache.entry), now);
              (cache.entry, r) ==
                if live.Some? then (old(cache.entry), Success(Shown(live.value, false)))
                else AfterFetch(old(cache.entry), fetched, fetchedAt, storedAt + cache.cacheTtlMs)
    {
      var cached := cache.Get(now);
      if cached.Some? {
        return Success(Shown(cached.value, false));
      }
      if fetched.Success? {
        var stored := cache.Store(fetched.value, fetchedAt, storedAt);
        return Success(Shown(stored, false));
      }
      var stale := cache.GetStale();
      if stale.Some? {
        return Success(Shown(stale.value, true));
      }
      return Failed(fetched.failure);
    }
  }

  // ------------------------------------------------------- overlapping calls

  /** A finished call: when it looked, how its fetch ended if any, its answer, and the successful fetches by then. */
  datatype Served = Served(
    lookedAt: int, fetched: Option<Outcome<Rate, Failure>>, answer: Outcome<Snapshot, Failure>, successes: nat)

  /** `waiting` holds the calls whose fetch is under way; `stored` and `log` are history. */
  datatype State = State(
    ttl: int,
    entry: Option<CacheEntry>,
    waiting: map<nat, int>,
    stored: seq<CacheEntry>,
    log: seq<Served>)

  datatype Event =
    | Begin(n: nat, now: int)
    | Finish(n: nat, fetched: Outcome<Rate, Failure>, fetchedAt: int, storedAt: int)

  function Next(s: State, e: Event): State {
    match e
    case Begin(n, now) =>
      if n in s.waiting then s
      else
        var live := FreshAt(s.entry, now);
        if live.Some?
        then s.(log := s.log + [Served(now, None, Success(Shown(live.value, false)), |s.stored|)])
        else s.(waiting := s.waiting[n := now])
    case Finish(n, fetched, fetchedAt, storedAt) =>
      if n !in s.waiting then s
      else
        var (entry, answer) := AfterFetch(s.entry, fetched, fetchedAt, storedAt + s.ttl);
        var stored := if fetched.Success? then s.stored + [entry.value] else s.stored;
        s.(entry := entry, waiting := s.waiting - {n}, stored := stored,
           log := s.log + [Served(s.waiting[n], Some(fetched), answer, |stored|)])
  }

  function Run(s: State, events: seq<Event>): State {
    if events == [] then s
    else Next(Run(s, events[..|events| - 1]), events[|events| - 1])
  }

  predicate Initial(s: State) {
    s.entry == None && s.waiting == map[] && s.stored == [] && s.log == []
  }

  /**
   * What a finished call may have answered: the last rate any fetch had brought
   * by then, flagged stale exactly if this call's own fetch failed; an error
   * only if its fetch failed with nothing fetched before.
   */
  predicate Sound(stored: seq<CacheEntry>, served: Served) {
    && served.successes <= |stored|
    && (served.answer.Success? ==>
          && served.successes > 0
          && var last := stored[served.successes - 1];
          && served.answer.value == Shown(last, served.answer.value.isStale)
          && (served.answer.value.isStale <==> served.fetched.Some? && served.fetched.value.Failed?)
          && (served.fetched.None? ==> served.lookedAt < last.expiresAt)
          && (served.fetched.Some? && served.fetched.value.Success? ==> last.value == served.fetched.value.value))
    && (served.answer.Failed? ==>
          && served.successes == 0
          && served.fetched == Some(Failed(served.answer.failure)))
  }

  predicate Inv(s: State) {
    && s.entry == (if s.stored == [] then None else Some(s.stored[|s.stored| - 1]))
    && forall i :: 0 <= i < |s.log| ==> Sound(s.stored, s.log[i])
  }

  lemma SoundLater(stored: seq<CacheEntry>, more: seq<CacheEntry>, served: Served)
    requires Sound(stored, served)
    ensures Sound(stored + more, served)
  {
  }

  lemma NextInv(s: State, e: Event)
    requires Inv(s)
    ensures Inv(Next(s, e))
  {
    var end := Next(s, e);
    if |end.log| == |s.log| + 1 {
      assert Sound(end.stored, end.log[|s.log|]);
      var more := end.stored[|s.stored|..];
      assert end.stored == s.stored + more;
      forall i | 0 <= i < |s.log|
        ensures Sound(end.stored, end.log[i])
      {
        SoundLater(s.stored, more, s.log[i]);
      }
    }
  }

  lemma {:induction false} RunInv(s: State, events: seq<Event>)
    requires Initial(s)
    ensures Inv(Run(s, events))
  {
    if events != [] {
      hide Next, Inv;
      RunInv(s, events[..|events| - 1]);
      NextInv(Run(s, events[..|events| - 1]), events[|events| - 1]);
    } else {
      hide Next;
    }
  }

  /** However calls overlap, every answer is the last success, marked stale exactly when the call's own fetch failed. */
  lemma ServedIsTheLastSuccess(s: State, events: seq<Event>, i: nat)
    requires Initial(s) && i < |Run(s, events).log|
    ensures Sound(Run(s, events).stored, Run(s, events).log[i])
  {
    hide Run, Sound, Initial;
    RunInv(s, events);
  }

  /** One call with nothing in between: the stale mark also means the time to live had lapsed when the call looked. */
  lemma AloneStaleMeansLapsed(s: State, n: nat, now: int, fetched: Outcome<Rate, Failure>, fetchedAt: int, storedAt: int)
    requires n !in s.waiting
    ensures var end := Run(s, [Begin(n, now), Finish(n, fetched, fetchedAt, storedAt)]);
            && |end.log| == |s.log| + 1
            && var answer := end.log[|s.log|].answer;
            && (answer.Success? && answer.value.isStale <==>
                  fetched.Failed? && s.entry.Some? && s.entry.value.expiresAt <= now)
            && (FreshAt(s.entry, now).Some? ==>
                  end == s.(log := end.log) && answer == Success(Shown(s.entry.value, false)))
            && (FreshAt(s.entry, now).None? ==>
                  (end.entry, answer) == AfterFetch(s.entry, fetched, fetchedAt, storedAt + s.ttl))
  {
    var begin, finish := Begin(n, now), Finish(n, fetched, fetchedAt, storedAt);
    assert [begin, finish][..1] == [begin] && [begin][..0] == [];
    assert Run(s, []) == s;
    assert Run(s, [begin]) == Next(s, begin);
    assert Run(s, [begin, finish]) == Next(Next(s, begin), finish);
  }

  // -------------------------------------------- exactly when a stale mark is early

  /** Nothing in the events ends call n, and every success among them is stored at or after `now`. */
  predicate Meanwhile(events: seq<Event>, n: nat, now: int) {
    forall i :: 0 <= i < |events| && events[i].Finish? ==>
      events[i].n != n && (events[i].fetched.Success? ==> events[i].storedAt >= now)
  }

  /** What the events in between leave of the cache: the same entry, or one stored since `now`. */
  predicate Since(s: State, end: State, n: nat, now: int) {
    && end.ttl == s.ttl && n in end.waiting
    && s.stored <= end.stored
    && (|end.stored| == |s.stored| ==> end.entry == s.entry)
    && (|end.stored| > |s.stored| ==> end.entry.Some? && end.entry.value.expiresAt >= now + s.ttl)
  }

  lemma SinceStep(s: State, mid: State, e: Event, n: nat, now: int)
    requires Since(s, mid, n, now)
    requires e.Finish? ==> e.n != n && (e.fetched.Success? ==> e.storedAt >= now)
    ensures Since(s, Next(mid, e), n, now)
  {
  }

  lemma {:induction false} SinceRun(s: State, events: seq<Event>, n: nat, now: int)
    requires n in s.waiting && Meanwhile(events, n, now)
    ensures Since(s, Run(s, events), n, now)
  {
    if events != [] {
      hide Next, Since;
      var last := |events| - 1;
      SinceRun(s, events[..last], n, now);
      SinceStep(s, Run(s, events[..last]), events[last], n, now);
    } else {
      hide Next;
    }
  }

  lemma {:induction false} RunConcat(s: State, earlier: seq<Event>, later: seq<Event>)
    ensures Run(s, earlier + later) == Run(Run(s, earlier), later)
  {
    hide Next;
    if later == [] {
      assert earlier + later == earlier;
    } else {
      var last := |later| - 1;
      RunConcat(s, earlier, later[..last]);
      assert (earlier + later)[..|earlier| + last] == earlier + later[..last];
    }
  }

  /**
   * However calls overlap: the entry a failed call shows as stale had expired
   * when that call looked if and only if no other call has stored a rate since.
   */
  lemma StaleMarkIsDueIff(
    s: State, before: seq<Event>, n: nat, now: int, between: seq<Event>, failure: Failure, fetchedAt: int, storedAt: int)
    requires Initial(s) && s.ttl > 0
    requires n !in Run(s, before).waiting && FreshAt(Run(s, before).entry, now).None?
    requires Meanwhile(between, n, now)
    ensures var looked := Run(s, before);
            var failed := Run(s, before + [Begin(n, now)] + between);
            var end := Run(s, before + [Begin(n, now)] + between + [Finish(n, Failed(failure), fetchedAt, storedAt)]);
            && |end.log| == |failed.log| + 1
            && var answer := end.log[|failed.log|].answer;
            && (answer.Success? <==> failed.stored != [])
            && (answer.Success? ==>
                  && failed.entry.Some? && answer == Success(Shown(failed.entry.value, true))
                  && (failed.entry.value.expiresAt <= now <==> failed.stored == looked.stored))
  {
    var begin, finish := Begin(n, now), Finish(n, Failed(failure), fetchedAt, storedAt);
    var looked, started := Run(s, before), Run(s, before + [begin]);
    var failed := Run(s, before + [begin] + between);
    hide Run;
    RunSnoc(s, before, begin);
    RunConcat(s, before + [begin], between);
    RunSnoc(s, before + [begin] + between, finish);
    SinceRun(started, between, n, now);
    RunInv(s, before + [begin] + between);
    hide Sound, Meanwhile;
    FailedFinish(failed, n, failure, fetchedAt, storedAt);
    TtlStays(s, before);
  }

  lemma RunSnoc(s: State, events: seq<Event>, e: Event)
    ensures Run(s, events + [e]) == Next(Run(s, events), e)
  {
    hide Next;
    assert (events + [e])[..|events|] == events;
  }

  lemma FailedFinish(s: State, n: nat, failure: Failure, fetchedAt: int, storedAt: int)
    requires n in s.waiting
    ensures var end := Next(s, Finish(n, Failed(failure), fetchedAt, storedAt));
            && |end.log| == |s.log| + 1
            && end.log[|s.log|].answer
               == (if s.entry.Some? then Success(Shown(s.entry.value, true)) else Failed(failure))
  {
  }

  lemma {:induction false} TtlStays(s: State, events: seq<Event>)
    ensures Run(s, events).ttl == s.ttl
  {
    if events != [] { TtlStays(s, events[..|events| - 1]); }
  }

  const SampleRate := Rate("nobitex", "60000", "0", 0)

  /** Overlap can mark an unexpired rate stale: one call stores it while another's fetch is failing. */
  lemma StaleMarkOnAFreshRate()
    ensures var s := State(1000, None, map[], [], []);
            var end := Run(s, [
              Begin(0, 0), Begin(1, 0), Finish(0, Success(SampleRate), 5, 5), Finish(1, Failed(Timeout), 6, 6)]);
            && Initial(s)
            && |end.log| == 2
            && end.log[1].answer == Success(Snapshot(SampleRate, 5, true))
            && end.entry == Some(CacheEntry(SampleRate, 5, 1005)) && FreshAt(end.entry, 6).Some?
  {
    var s := State(1000, None, map[], [], []);
    var e1, e2 := Begin(0, 0), Begin(1, 0);
    var e3, e4 := Finish(0, Success(SampleRate), 5, 5), Finish(1, Failed(Timeout), 6, 6);
    assert [e1, e2, e3, e4][..3] == [e1, e2, e3] && [e1, e2, e3][..2] == [e1, e2];
    assert [e1, e2][..1] == [e1] && [e1][..0] == [];
    var s1 := Next(s, e1);
    var s2 := Next(s1, e2);
    var s3 := Next(s2, e3);
    hide Next;
    assert Run(s, []) == s;
    assert Run(s, [e1]) == s1;
    assert Run(s, [e1, e2]) == s2;
    assert Run(s, [e1, e2, e3]) == s3;
    assert Run(s, [e1, e2, e3, e4]) == Next(s3, e4);
  }
}
