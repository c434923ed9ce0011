/** The headline refresher of backend/workers/newsWorker.js: a counter of
    provider requests made since the last reset gates every fetch against the
    daily budget, a periodic tick cancels itself for good once it sees the
    budget spent, and a reset zeroes the counter. Timers become events. */
module NewsWorker {
  import opened Common
  import opened NewsService

  const TotalRequests: nat := 100
  const HoursInDay: nat := 24
  const RequestsPerHour: nat := CeilDiv(TotalRequests, HoursInDay)
  const HourMs: nat := 60 * 60 * 1000
  const IntervalMs: nat := HourMs / RequestsPerHour

  /** The cadence: `ceil(100 / 24)` requests an hour, one every 12 minutes,
      which is more than the budget a day holds: the budget lasts 20 hours. */
  lemma CadenceConstants()
    ensures RequestsPerHour == 5
    ensures IntervalMs == 720000 && IntervalMs * RequestsPerHour == HourMs
    ensures RequestsPerHour * HoursInDay > TotalRequests
    ensures TotalRequests * IntervalMs == 20 * HourMs
  {
  }

  /** What a successful fetch adds to the counter: `result.requestsUsed || 1`. */
  function Charge(r: FetchNewsResult): (c: nat)
    ensures r.FetchFailed? ==> c == 0
    ensures r.FetchSucceeded? && r.requestsUsed > 0 ==> c == r.requestsUsed
    ensures r.FetchSucceeded? && r.requestsUsed == 0 ==> c == 1
  {
    match r
    case FetchFailed(_) => 0
    case FetchSucceeded(_, used) => if used > 0 then used else 1
  }

  /** The counter and whether the periodic fetch is still scheduled. */
  datatype QuotaState = QuotaState(made: nat, timerActive: bool)

  /** An event of the worker's life. `Fetch` is a direct call of
      `fetchNewsBatch` (the initial one); `Tick` a firing of the periodic
      interval; each carries what `fetchAndStoreNews` returns if it is called. */
  datatype NewsEvent =
    | Fetch(outcome: FetchNewsResult)
    | Tick(outcome: FetchNewsResult)
    | MidnightReset

  /** `fetchNewsBatch`: at or over the budget nothing is called and the counter
      stays; otherwise a success adds its charge and a failure adds nothing. */
  function AfterFetchNewsBatch(made: nat, r: FetchNewsResult): (m: nat)
    ensures made >= TotalRequests ==> m == made
    ensures made < TotalRequests && r.FetchFailed? ==> m == made
    ensures made < TotalRequests && r.FetchSucceeded? ==> m == made + Charge(r) && m > made
  {
    if made >= TotalRequests then made else made + Charge(r)
  }

  /** Whether handling the event calls the provider. */
  predicate CallsProvider(s: QuotaState, e: NewsEvent) {
    match e
    case Fetch(_) => s.made < TotalRequests
    case Tick(_) => s.timerActive && s.made < TotalRequests
    case MidnightReset => false
  }

  /** Whether a tick of the periodic timer reaches `fetchNewsBatch`. */
  predicate TickFetches(s: QuotaState, e: NewsEvent) {
    e.Tick? && s.timerActive && s.made < TotalRequests
  }

  /** One event. A tick that finds the budget spent clears its own interval,
      which nothing restarts; the reset only zeroes the counter. */
  function Step(s: QuotaState, e: NewsEvent): (t: QuotaState)
    ensures e.MidnightReset? ==> t == QuotaState(0, s.timerActive)
    ensures e.Tick? && s.timerActive && s.made >= TotalRequests ==> t == QuotaState(s.made, false)
    ensures e.Tick? && !s.timerActive ==> t == s
    ensures CallsProvider(s, e) ==> t.made == s.made + Charge(e.outcome) && t.timerActive == s.timerActive
    ensures !e.MidnightReset? && !CallsProvider(s, e) ==> t.made == s.made
    ensures !s.timerActive ==> !t.timerActive
  {
    match e
    case Fetch(r) => s.(made := AfterFetchNewsBatch(s.made, r))
    case Tick(r) =>
      if !s.timerActive then s
      else if s.made >= TotalRequests then s.(timerActive := false)
      else s.(made := AfterFetchNewsBatch(s.made, r))
    case MidnightReset => s.(made := 0)
  }

  /** The state after a sequence of events. */
  function Run(s: QuotaState, es: seq<NewsEvent>): QuotaState
    decreases |es|
  {
    if es == [] then s else Run(Step(s, es[0]), es[1..])
  }

  /** How many events of the sequence call the provider. */
  function ProviderCalls(s: QuotaState, es: seq<NewsEvent>): nat
    decreases |es|
  {
    if es == [] then 0
    else (if CallsProvider(s, es[0]) then 1 else 0) + ProviderCalls(Step(s, es[0]), es[1..])
  }

  /** How many provider calls of the sequence succeed, i.e. are recorded. */
  function Recorded(s: QuotaState, es: seq<NewsEvent>): nat
    decreases |es|
  {
    if es == [] then 0
    else
      var here := if CallsProvider(s, es[0]) && es[0].outcome.FetchSucceeded? then 1 else 0;
      here + Recorded(Step(s, es[0]), es[1..])
  }

  /** How many ticks of the sequence reach `fetchNewsBatch`. */
  function TickFetchCount(s: QuotaState, es: seq<NewsEvent>): nat
    decreases |es|
  {
    if es == [] then 0
    else (if TickFetches(s, es[0]) then 1 else 0) + TickFetchCount(Step(s, es[0]), es[1..])
  }

  /** Every outcome is what `fetchAndStoreNews` returns: a success reports one
      request used. */
  predicate ChargesOne(es: seq<NewsEvent>) {
    forall i :: 0 <= i < |es| && !es[i].MidnightReset? && es[i].outcome.FetchSucceeded? ==>
      es[i].outcome.requestsUsed == 1
  }

  predicate NoReset(es: seq<NewsEvent>) {
    forall i :: 0 <= i < |es| ==> !es[i].MidnightReset?
  }

  /** Quota invariant: with one request charged per success, the counter never
      exceeds the budget, whatever the events (resets included). */
  lemma {:induction false} CounterWithinBudget(s: QuotaState, es: seq<NewsEvent>)
    requires s.made <= TotalRequests && ChargesOne(es)
    ensures Run(s, es).made <= TotalRequests
    decreases |es|
  {
    if es != [] {
      assert ChargesOne(es[1..]) by {
        forall i | 0 <= i < |es[1..]| ensures es[1..][i] == es[i + 1] {}
      }
      CounterWithinBudget(Step(s, es[0]), es[1..]);
    }
  }

  /** Between two resets the counter counts exactly the recorded calls, so at
      most `TotalRequests - made` calls are recorded. */
  lemma {:induction false} RecordedBetweenResets(s: QuotaState, es: seq<NewsEvent>)
    requires s.made <= TotalRequests && ChargesOne(es) && NoReset(es)
    ensures Run(s, es).made == s.made + Recorded(s, es)
    ensures s.made + Recorded(s, es) <= TotalRequests
    decreases |es|
  {
    if es != [] {
      assert ChargesOne(es[1..]) && NoReset(es[1..]) by {
        forall i | 0 <= i < |es[1..]| ensures es[1..][i] == es[i + 1] {}
      }
      assert !es[0].MidnightReset?;
      RecordedBetweenResets(Step(s, es[0]), es[1..]);
    }
  }

  /** Once the budget is spent, no provider call happens before the next reset. */
  lemma {:induction false} ExhaustedUntilReset(s: QuotaState, es: seq<NewsEvent>)
    requires s.made >= TotalRequests && NoReset(es)
    ensures ProviderCalls(s, es) == 0
    decreases |es|
  {
    if es != [] {
      assert NoReset(es[1..]) by {
        forall i | 0 <= i < |es[1..]| ensures es[1..][i] == es[i + 1] {}
      }
      assert !es[0].MidnightReset?;
      ExhaustedUntilReset(Step(s, es[0]), es[1..]);
    }
  }

  /** A cancelled periodic fetch stays cancelled: whatever follows, resets
      included, no later tick reaches `fetchNewsBatch`. */
  lemma {:induction false} CancelledForGood(s: QuotaState, es: seq<NewsEvent>)
    requires !s.timerActive
    ensures !Run(s, es).timerActive
    ensures TickFetchCount(s, es) == 0
    decreases |es|
  {
    if es != [] {
      CancelledForGood(Step(s, es[0]), es[1..]);
    }
  }

  /** The guard tests the counter before the call, so a charge larger than one
      could carry the counter past the budget. */
  lemma LargerChargeOvershoots()
    ensures Run(QuotaState(99, true), [Tick(FetchSucceeded(0, 5))]).made == 104
  {
  }

  /** The module state of the headline refresher: `totalRequestsMade` and the
      interval that `clearInterval` may cancel. */
  class Worker {
    var totalRequestsMade: nat
    var timerActive: bool
    const store: NewsStore

    ghost predicate Valid()
      reads this
    {
      totalRequestsMade <= TotalRequests
    }

    function State(): QuotaState
      reads this
    {
      QuotaState(totalRequestsMade, timerActive)
    }

    /** `startNewsWorker` before its first fetch: a zero counter and the
        periodic fetch scheduled. */
    constructor(store: NewsStore)
      ensures Valid() && State() == QuotaState(0, true) && this.store == store
    {
      totalRequestsMade := 0;
      timerActive := true;
      this.store := store;
    }

    /** `fetchNewsBatch()` for one provider response. A rejected count query
        makes the service report failure, so its writes are not charged. */
    method FetchNewsBatch(resp: NewsResponse, fails: set<nat>, countError: Option<string>) returns (called: bool)
      requires Valid()
      modifies this, store
      ensures Valid()
      ensures called == (old(totalRequestsMade) < TotalRequests)
      ensures State() == Step(old(State()), Fetch(FetchResult(resp, fails, countError)))
      ensures countError.Some? ==> totalRequestsMade == old(totalRequestsMade)
      ensures store.rows == if called then StoreAfterResponse(old(store.rows), resp, fails) else old(store.rows)
    {
      if totalRequestsMade >= TotalRequests {
        return false;
      }
      var result := store.FetchAndStoreNews(resp, fails, countError);
      if result.FetchSucceeded? {
        totalRequestsMade := totalRequestsMade + (if result.requestsUsed > 0 then result.requestsUsed else 1);
      }
      called := true;
    }

    /** One firing of the periodic interval. */
    method Tick(resp: NewsResponse, fails: set<nat>, countError: Option<string>) returns (called: bool)
      requires Valid()
      modifies this, store
      ensures Valid()
      ensures called == (old(timerActive) && old(totalRequestsMade) < TotalRequests)
      ensures State() == Step(old(State()), NewsEvent.Tick(FetchResult(resp, fails, countError)))
      ensures store.rows == if called then StoreAfterResponse(old(store.rows), resp, fails) else old(store.rows)
    {
      if !timerActive {
        return false;
      }
      if totalRequestsMade >= TotalRequests {
        timerActive := false;
        return false;
      }
      called := FetchNewsBatch(resp, fails, countError);
    }

    /** The reset interval's callback. */
    method MidnightReset()
      requires Valid()
      modifies this
      ensures Valid()
      ensures State() == Step(old(State()), NewsEvent.MidnightReset)
      ensures totalRequestsMade == 0
    {
      totalRequestsMade := 0;
    }
  }
}
