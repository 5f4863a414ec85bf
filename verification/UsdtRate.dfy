/** One exchange behind retries, and the chain of exchanges in their configured order. */
module UsdtRate {
  import opened Options
  import opened Outcomes
  import opened Naturals

  datatype Rate = Rate(provider: string, priceToman: string, priceChangePercentage24h: string, updatedAt: int)

  datatype Failure =
    | RateLimited | Timeout | ProviderUnavailable | BadRequest | InvalidResponse | OtherFailure
    | ProvidersExhausted(names: seq<string>)

  // ------------------------------------------------------------------- retry

  /** How one request ends: a rate, an application error (a malformed body), an HTTP client error, or anything else. */
  datatype Reply =
    | Answer(rate: Rate)
    | AppFailure(failure: Failure)
    | ClientError(status: Option<int>, code: string)
    | Unknown

  datatype Classified = Classified(permanent: bool, failure: Failure)

  function Classify(reply: Reply): Classified
    requires !reply.Answer?
  {
    match reply
    case AppFailure(failure) => Classified(true, failure)
    case ClientError(status, code) =>
      if status == Some(429) then Classified(false, RateLimited)
      else if status.Some? && status.value >= 500 then Classified(false, ProviderUnavailable)
      else if status.Some? && status.value != 0 then Classified(true, BadRequest)
      else if code == "ECONNABORTED" || code == "ETIMEDOUT" then Classified(false, Timeout)
      else Classified(false, ProviderUnavailable)
    case Unknown => Classified(false, ProviderUnavailable)
  }

  predicate Transient(reply: Reply) {
    !reply.Answer? && !Classify(reply).permanent
  }

  /** Retried: rate limits, server errors, timeouts and failures without a status; nothing else. */
  lemma TransientIff(reply: Reply)
    ensures Transient(reply) <==>
              || reply.Unknown?
              || (reply.ClientError? && (reply.status.None? || reply.status.value in {0, 429} || reply.status.value >= 500))
  {
  }

  /** A reply that ends the call: a rate, an application error, or a status that is neither 429 nor a server error. */
  predicate Final(reply: Reply) {
    || reply.Answer? || reply.AppFailure?
    || (reply.ClientError? && reply.status.Some? && reply.status.value !in {0, 429} && reply.status.value < 500)
  }

  /** What the reply of the deciding attempt makes of the whole call. */
  function Verdict(reply: Reply): Outcome<Rate, Failure> {
    if reply.Answer? then Success(reply.rate) else Failed(Classify(reply).failure)
  }

  /** The delays slept between k attempts. */
  function Delays(backoffMs: int, k: nat): seq<int> {
    if k <= 1 then [] else Delays(backoffMs, k - 1) + [backoffMs * Pow(2, k - 2)]
  }

  function Sum(s: seq<int>): int {
    if s == [] then 0 else Sum(s[..|s| - 1]) + s[|s| - 1]
  }

  /** Sleeping between k attempts takes backoff * (2^(k-1) - 1) in all. */
  lemma {:induction false} TotalSleep(backoffMs: int, k: nat)
    requires k >= 1
    ensures Sum(Delays(backoffMs, k)) == backoffMs * (Pow(2, k - 1) - 1)
  {
    if k > 1 {
      TotalSleep(backoffMs, k - 1);
      var before, last := Delays(backoffMs, k - 1), backoffMs * Pow(2, k - 2);
      assert (before + [last])[..|before|] == before;
      assert Pow(2, k - 1) == 2 * Pow(2, k - 2);
      Doubled(backoffMs, Pow(2, k - 2));
    }
  }

  lemma Doubled(b: int, p: int)
    ensures b * (p - 1) + b * p == b * (2 * p - 1)
  {
  }

  /** One exchange: its configuration, and how its k-th request ends. */
  datatype Exchange = Exchange(retries: int, backoffMs: int, replies: nat -> Reply)

  /** The attempt that decides: the first that is not a transient failure, or the last one allowed. */
  function SettlesAt(retries: nat, replies: nat -> Reply, from: nat): (k: nat)
    requires 1 <= from <= retries + 1
    ensures from <= k <= retries + 1
    ensures forall j :: from <= j < k ==> Transient(replies(j))
    ensures k <= retries ==> !Transient(replies(k))
    decreases retries + 1 - from
  {
    if from == retries + 1 || !Transient(replies(from)) then from else SettlesAt(retries, replies, from + 1)
  }

  /** How many requests a call makes of an exchange. */
  function Requests(x: Exchange): (k: nat)
    ensures x.retries >= 0 ==> 1 <= k <= x.retries + 1
  {
    if x.retries < 0 then 0 else SettlesAt(x.retries, x.replies, 1)
  }

  /** How the retried call ends. */
  function Settled(x: Exchange): Outcome<Rate, Failure> {
    if x.retries < 0 then Failed(ProviderUnavailable) else Verdict(x.replies(Requests(x)))
  }

  /** How long it sleeps between its attempts. */
  function SleptBy(x: Exchange): int {
    if Requests(x) == 0 then 0 else x.backoffMs * (Pow(2, Requests(x) - 1) - 1)
  }

  lemma SettlesThere(retries: nat, replies: nat -> Reply, k: nat)
    requires 1 <= k <= retries + 1
    requires forall j :: 1 <= j < k ==> Transient(replies(j))
    requires Transient(replies(k)) ==> k == retries + 1
    ensures SettlesAt(retries, replies, 1) == k
  {
    hide Transient;
    var m := SettlesAt(retries, replies, 1);
    assert k < m ==> Transient(replies(k));
  }

  lemma CallSettles(x: Exchange, k: nat)
    requires 1 <= k <= x.retries + 1
    requires forall j :: 1 <= j < k ==> Transient(x.replies(j))
    requires Transient(x.replies(k)) ==> k == x.retries + 1
    ensures Requests(x) == k && Settled(x) == Verdict(x.replies(k))
    ensures SleptBy(x) == Sum(Delays(x.backoffMs, k)) == x.backoffMs * (Pow(2, k - 1) - 1)
  {
    hide Transient, Verdict, SettlesAt;
    SettlesThere(x.retries, x.replies, k);
    TotalSleep(x.backoffMs, k);
  }

  /** A call ends at the first final reply, or after all attempts, and gives a rate exactly if that reply is one. */
  lemma CallEndsAtTheFirstFinal(x: Exchange)
    requires x.retries >= 0
    ensures 1 <= Requests(x) <= x.retries + 1
    ensures forall k :: 1 <= k < Requests(x) ==> !Final(x.replies(k))
    ensures Requests(x) <= x.retries ==> Final(x.replies(Requests(x)))
    ensures Settled(x).Success? <==> x.replies(Requests(x)).Answer?
  {
    hide Final, Transient;
    forall k: nat
      ensures Transient(x.replies(k)) <==> !Final(x.replies(k))
    {
      FinalIff(x.replies(k));
    }
  }

  lemma FinalIff(reply: Reply)
    ensures Final(reply) <==> !Transient(reply)
  {
    TransientIff(reply);
    hide Classify;
  }

  predicate TimedOut(code: string) {
    code == "ECONNABORTED" || code == "ETIMEDOUT"
  }

  /** No usable response came back. */
  predicate NoStatus(reply: Reply) {
    reply.ClientError? && (reply.status.None? || reply.status.value == 0)
  }

  predicate HasStatus(reply: Reply, low: int, high: int) {
    reply.ClientError? && reply.status.Some? && low <= reply.status.value <= high
  }

  /**
   * Which failure a call ends with, by the status and code of its deciding
   * reply; an application error is passed on.
   */
  lemma FailureByStatus(x: Exchange, failure: Failure)
    requires x.retries >= 0 && Settled(x) == Failed(failure)
    ensures var reply := x.replies(Requests(x));
            && !reply.Answer?
            && (reply.AppFailure? ==> failure == reply.failure)
            && (!reply.AppFailure? ==>
                  && (failure == RateLimited <==> HasStatus(reply, 429, 429))
                  && (failure == Timeout <==> NoStatus(reply) && TimedOut(reply.code))
                  && (failure == BadRequest <==>
                        reply.ClientError? && !NoStatus(reply) && reply.status.value != 429 && reply.status.value < 500)
                  && (failure == ProviderUnavailable <==>
                        || reply.Unknown?
                        || (reply.ClientError? && reply.status.Some? && reply.status.value >= 500)
                        || (NoStatus(reply) && !TimedOut(reply.code))))
  {
    hide Requests;
  }

  /** A call that used up its attempts was rate limited, timed out or unavailable at the last one. */
  lemma ExhaustedFailure(x: Exchange, failure: Failure)
    requires x.retries >= 0 && Settled(x) == Failed(failure) && !Final(x.replies(Requests(x)))
    ensures Requests(x) == x.retries + 1
    ensures failure == RateLimited || failure == Timeout || failure == ProviderUnavailable
  {
    hide Settled, Requests, Final;
    CallEndsAtTheFirstFinal(x);
    FailureByStatus(x, failure);
    NotFinal(x.replies(Requests(x)));
  }

  lemma NotFinal(reply: Reply)
    requires !Final(reply)
    ensures !reply.AppFailure? && !reply.Answer?
    ensures reply.ClientError? && reply.status.Some? ==> reply.status.value in {0, 429} || reply.status.value >= 500
  {
  }

  lemma NoCall(x: Exchange)
    requires x.retries < 0
    ensures Requests(x) == 0 && Settled(x) == Failed(ProviderUnavailable) && SleptBy(x) == Sum(Delays(x.backoffMs, 0))
  {
  }

  /**
   * `replies(k)` is how the k-th request ends. The call settles at the first
   * reply that is not a transient failure, or at the last attempt allowed.
   */
  method FetchWithRetries(retries: int, backoffMs: int, replies: nat -> Reply)
    returns (r: Outcome<Rate, Failure>, requests: nat, slept: seq<int>)
    ensures retries < 0 ==> requests == 0 && r == Failed(ProviderUnavailable)
    ensures retries >= 0 ==> 1 <= requests <= retries + 1
    ensures retries >= 0 ==> r == Verdict(replies(requests))
    ensures forall k :: 1 <= k < requests ==> Transient(replies(k))
    ensures retries >= 0 && Transient(replies(requests)) ==> requests == retries + 1
    ensures slept == Delays(backoffMs, requests)
    ensures requests >= 1 ==> Sum(slept) == backoffMs * (Pow(2, requests - 1) - 1)
    ensures requests == Requests(Exchange(retries, backoffMs, replies))
    ensures r == Settled(Exchange(retries, backoffMs, replies))
    ensures Sum(slept) == SleptBy(Exchange(retries, backoffMs, replies))
  {
    hide Requests, Settled, SleptBy, Sum, Pow, Classify;
    var attempts := retries + 1;
    var lastError: Option<Failure> := None;
    requests, slept := 0, [];
    var attempt: nat := 1;
    while attempt <= attempts
      invariant requests == attempt - 1
      invariant attempts >= 0 ==> attempt <= attempts + 1
      invariant attempts < 0 ==> attempt == 1
      invariant forall k :: 1 <= k < attempt ==> Transient(replies(k))
      invariant lastError == if attempt == 1 then None else Some(Classify(replies(attempt - 1)).failure)
      invariant slept == Delays(backoffMs, if attempt <= attempts then attempt else requests)
    {
      requests := attempt;
      var reply := replies(attempt);
      if reply.Answer? {
        CallSettles(Exchange(retries, backoffMs, replies), attempt);
        return Success(reply.rate), requests, slept;
      }
      var classified := Classify(reply);
      if classified.permanent {
        CallSettles(Exchange(retries, backoffMs, replies), attempt);
        return Failed(classified.failure), requests, slept;
      }
      lastError := Some(classified.failure);
      if attempt < attempts {
        slept := slept + [backoffMs * Pow(2, attempt - 1)];
      }
      attempt := attempt + 1;
    }
    if requests >= 1 {
      CallSettles(Exchange(retries, backoffMs, replies), requests);
    } else {
      NoCall(Exchange(retries, backoffMs, replies));
    }
    r := Failed(if lastError.Some? then lastError.value else ProviderUnavailable);
  }

  // ------------------------------------------------------------------- order

  /** A registered venue; `instance` tells objects apart. */
  datatype Venue = Venue(name: string, instance: nat)

  const USDT_TOMAN_PROVIDERS := ["nobitex", "wallex"]

  function FindByName(venues: seq<Venue>, name: string): Option<Venue> {
    if venues == [] then None else if venues[0].name == name then Some(venues[0]) else FindByName(venues[1..], name)
  }

  /** The declared names that are registered, in declared order. */
  function Declared(names: seq<string>, venues: seq<Venue>): seq<Venue> {
    if names == [] then []
    else
      var found := FindByName(venues, names[0]);
      (if found.Some? then [found.value] else []) + Declared(names[1..], venues)
  }

  function Without(venues: seq<Venue>, v: Venue): seq<Venue> {
    if venues == [] then []
    else (if venues[0] == v then [] else [venues[0]]) + Without(venues[1..], v)
  }

  function Order(names: seq<string>, venues: seq<Venue>, preferredName: string): seq<Venue> {
    var declared := Declared(names, venues);
    var preferred := FindByName(declared, preferredName);
    if preferred.None? then declared else [preferred.value] + Without(declared, preferred.value)
  }

  predicate Distinct<T(==)>(s: seq<T>) {
    forall i, j :: 0 <= i < j < |s| ==> s[i] != s[j]
  }

  lemma {:induction false} FoundHasName(venues: seq<Venue>, name: string)
    ensures FindByName(venues, name).Some? ==>
              FindByName(venues, name).value in venues && FindByName(venues, name).value.name == name
    ensures FindByName(venues, name).None? ==> forall v :: v in venues ==> v.name != name
  {
    if venues != [] { FoundHasName(venues[1..], name); }
  }

  /** Of several venues registered under a name, the first is found. */
  lemma {:induction false} FindsTheFirst(venues: seq<Venue>, name: string, k: nat)
    requires k < |venues| && venues[k].name == name && forall i :: 0 <= i < k ==> venues[i].name != name
    ensures FindByName(venues, name) == Some(venues[k])
  {
    if k > 0 { FindsTheFirst(venues[1..], name, k - 1); }
  }

  /** The declared list holds, for each declared name, the venue registered under it. */
  lemma {:induction false} DeclaredVenues(names: seq<string>, venues: seq<Venue>)
    requires Distinct(names)
    ensures forall v :: v in Declared(names, venues) <==> v.name in names && FindByName(venues, v.name) == Some(v)
    ensures Distinct(Declared(names, venues))
  {
    if names != [] {
      assert names == [names[0]] + names[1..];
      assert names[0] !in names[1..];
      DeclaredVenues(names[1..], venues);
      FoundHasName(venues, names[0]);
      var found, rest := FindByName(venues, names[0]), Declared(names[1..], venues);
      assert found.Some? ==> found.value !in rest;
    }
  }

  lemma {:induction false} NothingToRemove(venues: seq<Venue>, v: Venue)
    requires v !in venues
    ensures Without(venues, v) == venues
  {
    if venues != [] {
      assert venues[0] in venues;
      NothingToRemove(venues[1..], v);
    }
  }

  lemma {:induction false} WithoutOne(venues: seq<Venue>, v: Venue)
    requires Distinct(venues) && v in venues
    ensures multiset([v] + Without(venues, v)) == multiset(venues)
  {
    var head, tail := venues[0], venues[1..];
    assert venues == [head] + tail;
    if head == v {
      assert v !in tail;
      NothingToRemove(tail, v);
    } else {
      WithoutOne(tail, v);
      Swapped(v, head, Without(tail, v), tail);
      assert Without(venues, v) == [head] + Without(tail, v);
    }
  }

  lemma Swapped(v: Venue, head: Venue, a: seq<Venue>, b: seq<Venue>)
    requires multiset([v] + a) == multiset(b)
    ensures multiset([v] + ([head] + a)) == multiset([head] + b)
  {
    assert [v] + ([head] + a) == [v] + [head] + a;
  }

  /**
   * The order is a rearrangement of the declared registered venues: the
   * preferred one first if it is among them, the declared order otherwise.
   */
  lemma OrderIsAPermutation(names: seq<string>, venues: seq<Venue>, preferredName: string)
    requires Distinct(names)
    ensures var order, declared := Order(names, venues, preferredName), Declared(names, venues);
            && multiset(order) == multiset(declared)
            && (if exists v :: v in declared && v.name == preferredName
                then order != [] && order[0].name == preferredName && order[1..] == Without(declared, order[0])
                else order == declared)
  {
    hide Declared, Without;
    var declared := Declared(names, venues);
    DeclaredVenues(names, venues);
    FoundHasName(declared, preferredName);
    var preferred := FindByName(declared, preferredName);
    if preferred.Some? {
      var v := preferred.value;
      WithoutOne(declared, v);
    }
  }

  /** As configured: wallex first if it is preferred, nobitex first otherwise. */
  lemma ConfiguredOrder(nobitex: Venue, wallex: Venue, preferredName: string)
    requires nobitex.name == "nobitex" && wallex.name == "wallex"
    ensures Order(USDT_TOMAN_PROVIDERS, [nobitex, wallex], preferredName)
         == if preferredName == "wallex" then [wallex, nobitex] else [nobitex, wallex]
  {
    var venues := [nobitex, wallex];
    assert "nobitex"[0] != "wallex"[0];
    assert venues[1..] == [wallex] && USDT_TOMAN_PROVIDERS[1..] == ["wallex"] && [wallex][1..] == [];
    assert ["wallex"][1..] == [] && FindByName(venues, "wallex") == Some(wallex);
    assert Declared(["wallex"], venues) == [wallex] + Declared([], venues);
    assert Declared(USDT_TOMAN_PROVIDERS, venues) == [nobitex] + Declared(["wallex"], venues);
    assert Declared(USDT_TOMAN_PROVIDERS, venues) == venues;
    assert FindByName(venues[1..], preferredName) == if preferredName == "wallex" then Some(wallex) else None by {
      assert FindByName([], preferredName) == None;
    }
    assert Without([], wallex) == [] && Without([], nobitex) == [];
    assert Without([wallex], wallex) == [] && Without([wallex], nobitex) == [wallex];
    assert Without(venues, wallex) == [nobitex] && Without(venues, nobitex) == [wallex];
  }

  // ---------------------------------------------------------------- failover

  datatype Category = IsRateLimited | IsTimeout | IsUnavailable | IsBadRequest | IsInvalidResponse | IsUnknown

  function CategoryOf(failure: Failure): Category {
    match failure
    case RateLimited => IsRateLimited
    case Timeout => IsTimeout
    case ProviderUnavailable => IsUnavailable
    case BadRequest => IsBadRequest
    case InvalidResponse => IsInvalidResponse
    case _ => IsUnknown
  }

  datatype ProviderFailure = ProviderFailure(provider: string, category: Category)

  function Names(venues: seq<Venue>): seq<string> {
    seq(|venues|, i requires 0 <= i < |venues| => venues[i].name)
  }

  /** `k` is the first venue in order to give a rate. */
  predicate FirstSuccess(venues: seq<Venue>, exchange: Venue -> Exchange, k: nat) {
    && k < |venues| && Settled(exchange(venues[k])).Success?
    && forall i :: 0 <= i < k ==> Settled(exchange(venues[i])).Failed?
  }

  /** The log entry for a venue that failed. */
  predicate Describes(f: ProviderFailure, v: Venue, exchange: Venue -> Exchange) {
    var answer := Settled(exchange(v));
    answer.Failed? && f == ProviderFailure(v.name, CategoryOf(answer.failure))
  }

  /** What is logged for a venue, by the status and code of the reply that ended its call. */
  lemma CategoryByStatus(f: ProviderFailure, v: Venue, exchange: Venue -> Exchange)
    requires Describes(f, v, exchange) && exchange(v).retries >= 0
    ensures var reply := exchange(v).replies(Requests(exchange(v)));
            && f.provider == v.name
            && !reply.Answer?
            && (!reply.AppFailure? ==>
                  f.category ==
                    if HasStatus(reply, 429, 429) then IsRateLimited
                    else if reply.ClientError? && !NoStatus(reply) && reply.status.value < 500 then IsBadRequest
                    else if NoStatus(reply) && TimedOut(reply.code) then IsTimeout
                    else IsUnavailable)
            && (reply.AppFailure? ==>
                  && (f.category == IsRateLimited <==> reply.failure == RateLimited)
                  && (f.category == IsTimeout <==> reply.failure == Timeout)
                  && (f.category == IsUnavailable <==> reply.failure == ProviderUnavailable)
                  && (f.category == IsBadRequest <==> reply.failure == BadRequest)
                  && (f.category == IsInvalidResponse <==> reply.failure == InvalidResponse))
  {
    hide Settled, Requests;
    FailureByStatus(exchange(v), Settled(exchange(v)).failure);
  }

  function TotalRequests(venues: seq<Venue>, exchange: Venue -> Exchange): nat {
    if venues == [] then 0
    else TotalRequests(venues[..|venues| - 1], exchange) + Requests(exchange(venues[|venues| - 1]))
  }

  function TotalSleepOf(venues: seq<Venue>, exchange: Venue -> Exchange): int {
    if venues == [] then 0
    else TotalSleepOf(venues[..|venues| - 1], exchange) + SleptBy(exchange(venues[|venues| - 1]))
  }

  /** Every retry of every venue, and one request more for each. */
  function RequestBudget(venues: seq<Venue>, exchange: Venue -> Exchange): nat {
    if venues == [] then 0
    else
      var x := exchange(venues[|venues| - 1]);
      RequestBudget(venues[..|venues| - 1], exchange) + (if x.retries < 0 then 0 else x.retries + 1)
  }

  lemma {:induction false} WithinBudget(venues: seq<Venue>, exchange: Venue -> Exchange, tried: nat)
    requires tried <= |venues|
    ensures TotalRequests(venues[..tried], exchange) <= RequestBudget(venues[..tried], exchange)
                                                     <= RequestBudget(venues, exchange)
    decreases |venues|
  {
    hide Requests;
    if tried == |venues| {
      assert venues[..tried] == venues;
      if venues != [] {
        var last := tried - 1;
        WithinBudget(venues[..last], exchange, last);
        assert venues[..last][..last] == venues[..last];
        RequestsOfOne(exchange(venues[last]));
      }
    } else {
      var last := |venues| - 1;
      WithinBudget(venues[..last], exchange, tried);
      assert venues[..last][..tried] == venues[..tried];
    }
  }

  lemma RequestsOfOne(x: Exchange)
    ensures Requests(x) <= if x.retries < 0 then 0 else x.retries + 1
  {
  }

  lemma NothingAsked(venues: seq<Venue>, exchange: Venue -> Exchange)
    ensures TotalRequests(venues[..0], exchange) == 0 && TotalSleepOf(venues[..0], exchange) == 0
  {
  }

  lemma OneMoreAsked(venues: seq<Venue>, exchange: Venue -> Exchange, index: nat)
    requires index < |venues|
    ensures var x, more := exchange(venues[index]), venues[..index + 1];
            && TotalRequests(more, exchange) == TotalRequests(venues[..index], exchange) + Requests(x)
            && TotalSleepOf(more, exchange) == TotalSleepOf(venues[..index], exchange) + SleptBy(x)
  {
    hide Requests, SleptBy;
    assert venues[..index + 1][..index] == venues[..index];
  }

  /** The venues asked, each through its retries, until one gives a rate. */
  method FetchFromChain(venues: seq<Venue>, exchange: Venue -> Exchange)
    returns (r: Outcome<Rate, Failure>, failures: seq<ProviderFailure>, requests: nat, slept: int)
    ensures |failures| <= |venues|
    ensures r.Success? ==> FirstSuccess(venues, exchange, |failures|) && r == Settled(exchange(venues[|failures|]))
    ensures r.Failed? <==> forall v :: v in venues ==> Settled(exchange(v)).Failed?
    ensures r.Failed? ==> r.failure == ProvidersExhausted(Names(venues)) && |failures| == |venues|
    ensures forall i :: 0 <= i < |failures| ==> Describes(failures[i], venues[i], exchange)
    ensures var tried := venues[..if r.Success? then |failures| + 1 else |failures|];
            requests == TotalRequests(tried, exchange) && slept == TotalSleepOf(tried, exchange)
    ensures requests <= RequestBudget(venues, exchange)
  {
    hide Settled, Requests, SleptBy, RequestBudget, TotalRequests, TotalSleepOf, Sum, Delays, Pow, Verdict, Transient;
    NothingAsked(venues, exchange);
    failures, requests, slept := [], 0, 0;
    for index := 0 to |venues|
      invariant |failures| == index
      invariant forall i :: 0 <= i < index ==> Describes(failures[i], venues[i], exchange)
      invariant requests == TotalRequests(venues[..index], exchange)
      invariant slept == TotalSleepOf(venues[..index], exchange)
    {
      var x := exchange(venues[index]);
      var answer, attempts, delays := FetchWithRetries(x.retries, x.backoffMs, x.replies);
      assert x == Exchange(x.retries, x.backoffMs, x.replies);
      OneMoreAsked(venues, exchange, index);
      requests, slept := requests + attempts, slept + Sum(delays);
      WithinBudget(venues, exchange, index + 1);
      if answer.Success? {
        assert FirstSuccess(venues, exchange, index);
        assert venues[index] in venues;
        return answer, failures, requests, slept;
      }
      failures := failures + [ProviderFailure(venues[index].name, CategoryOf(answer.failure))];
    }
    WithinBudget(venues, exchange, |venues|);
    return Failed(ProvidersExhausted(Names(venues))), failures, requests, slept;
  }
}
