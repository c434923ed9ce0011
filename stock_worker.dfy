/** The quote refresher of backend/workers/stockWorker.js: a cursor walks the
    fixed symbol universe in batches of `MaxRequestsPerMinute`, a busy flag drops
    ticks that arrive while a batch runs, and each symbol is fetched with a
    bounded retry. Timers and delays are abstracted into method calls; the
    provider's replies are inputs. */
module StockWorker {
  import opened Common
  import opened StockService

  /** The ordered universe of tracked symbols. */
  const PopularStocks: seq<string> := [
    "AAPL", "MSFT", "GOOGL", "AMZN", "META", "TSLA", "NVDA", "JPM", "V", "MA",
    "UNH", "HD", "PG", "XOM", "LLY", "JNJ", "BAC", "AVGO", "WMT", "KO",
    "PEP", "ADBE", "COST", "MRK", "ORCL", "PFE", "ABBV", "CVX", "DIS", "CRM",
    "ACN", "NKE", "TMO", "MCD", "DHR", "INTC", "LIN", "QCOM", "TXN", "NEE",
    "AMD", "UPS", "IBM", "PM", "LOW", "CAT", "SBUX", "MS", "GS", "GE",
    "AMAT", "BLK", "AMGN", "ISRG", "VRTX", "LMT", "CI", "NOW", "PLD", "ADI",
    "CB", "MDT", "DE", "REGN", "BA", "SYK", "ZTS", "ADP", "T", "BKNG",
    "ELV", "MO", "AXP", "TJX", "SPGI", "ETN", "MMC", "WM", "APD", "FISV",
    "SCHW", "GILD", "HUM", "FDX", "CSCO", "ROST", "GM", "PSX", "GD", "MU",
    "CL", "BIIB", "EW", "ITW", "SO", "DUK", "C", "TRV", "EOG", "ILMN",
    "BMY", "PGR", "HCA", "AEP", "NOC", "AFL", "BSX", "EXC", "SPG", "ALL",
    "TGT", "MAR", "KMB", "EMR", "SLB", "F", "ECL", "TEL", "MCK", "HPQ",
    "D", "A", "WBA", "VLO", "PCAR", "KMI", "PAYX", "HAL", "WELL", "ORLY",
    "DOW", "CNC", "AZO", "NEM", "WMB", "XEL", "SRE", "CTAS", "STZ", "DVN",
    "CTSH", "PRU", "LHX", "CMG", "CARR", "OTIS", "DFS", "MTD", "KR", "TDG",
    "FANG", "NUE", "FTNT", "PPG", "O", "MSI", "APH", "CHD", "DG", "DLR",
    "EBAY", "PH", "RSG", "VRSK", "HIG", "KEYS", "PWR", "ROK", "BKR", "AVB",
    "ANET", "HES", "YUM", "LDOS", "TSCO", "ETR", "CAH", "FAST", "MLM", "BBY",
    "AEE", "CNP", "BAX", "CMS", "CE", "GLW", "ZBRA", "CF", "VFC", "BR",
    "AES", "PEG", "BALL", "NRG", "STE", "TYL", "TXT", "INCY", "WRB", "AKAM",
    "RCL", "UAL", "LUV", "DAL", "AAL", "CHRW", "L", "MTB", "HBAN", "USB",
    "PNC", "FITB", "CFG", "RF", "KEY", "CMA", "ALLY", "ZION"
  ]

  const MaxRequestsPerMinute: nat := 50
  const DelayBetweenRequestsMs: nat := 1200
  const BatchIntervalMs: nat := 65 * 1000
  const RetryAttempts: nat := 2
  const RetryDelayMs: nat := 5000

  // ---------------------------------------------------------------------------
  // Batch selection and the coverage cycle

  /** The symbols the selection loop pushes when it starts at cursor `start`:
      before each push a cursor at or past the end is reset to 0. */
  function NextBatch(start: nat, n: nat, u: seq<string>): (r: seq<string>)
    requires 0 < |u| && start <= |u|
    ensures |r| == n
    ensures forall i :: 0 <= i < n ==> r[i] == u[(start + i) % |u|]
    decreases n, if start >= |u| then 1 else 0
  {
    if n == 0 then []
    else if start >= |u| then
      var r := NextBatch(0, n, u);
      assert forall i :: 0 <= i < n ==> r[i] == u[(start + i) % |u|] by {
        forall i | 0 <= i < n ensures r[i] == u[(start + i) % |u|] {
          ModShift(i, |u|);
        }
      }
      r
    else
      var rest := NextBatch(start + 1, n - 1, u);
      var r := [u[start]] + rest;
      assert forall i :: 0 <= i < n ==> r[i] == u[(start + i) % |u|] by {
        forall i | 0 <= i < n ensures r[i] == u[(start + i) % |u|] {
          if i == 0 {
            ModUnique(start, |u|, 0, start);
          } else {
            assert r[i] == rest[i - 1];
            assert start + 1 + (i - 1) == start + i;
          }
        }
      }
      r
  }

  /** Adding the modulus does not change a remainder. */
  lemma ModShift(i: nat, m: nat)
    requires m > 0
    ensures (m + i) % m == i % m
  {
    assert m + i == (i / m + 1) * m + i % m;
    ModUnique(m + i, m, i / m + 1, i % m);
  }

  /** Where the selection loop leaves the cursor: after `n > 0` pushes it points
      just past the last symbol taken, so it lies in `[1, m]`. */
  function SelectCursor(start: nat, n: nat, m: nat): (r: nat)
    requires m > 0 && start <= m
    ensures r <= m
    ensures n > 0 ==> 1 <= r
  {
    if n == 0 then start else (start + n - 1) % m + 1
  }

  /** The end-of-batch wrap (a cursor at the end goes back to 0) completes the
      selection's arithmetic: a finished batch moves the cursor by `n` modulo
      the universe, so between batches it stays in `[0, m)`. */
  lemma CompletedBatchCursor(start: nat, n: nat, m: nat)
    requires m > 0 && start <= m && n > 0
    ensures var c := SelectCursor(start, n, m); (if c >= m then 0 else c) == (start + n) % m
    ensures (start + n) % m < m
  {
    var a := start + n - 1;
    assert a == (a / m) * m + a % m;
    if a % m + 1 == m {
      assert a + 1 == (a / m + 1) * m;
      ModUnique(a + 1, m, a / m + 1, 0);
    } else {
      ModUnique(a + 1, m, a / m, a % m + 1);
    }
  }

  /** `k` consecutive completed batches of size `n` starting at cursor `start`:
      each one starts where the previous one left the cursor. */
  function Cycle(start: nat, n: nat, u: seq<string>, k: nat): seq<string>
    requires 0 < |u| && start < |u|
    decreases k
  {
    if k == 0 then [] else NextBatch(start, n, u) + Cycle((start + n) % |u|, n, u, k - 1)
  }

  /** Position `j` of a cycle is the universe entry `j` places after the start. */
  lemma {:induction false} CycleAt(start: nat, n: nat, u: seq<string>, k: nat)
    requires 0 < |u| && start < |u|
    decreases k
    ensures |Cycle(start, n, u, k)| == k * n
    ensures forall j :: 0 <= j < k * n ==> Cycle(start, n, u, k)[j] == u[(start + j) % |u|]
  {
    if k > 0 {
      var next := (start + n) % |u|;
      CycleAt(next, n, u, k - 1);
      var c := Cycle(start, n, u, k);
      assert c == NextBatch(start, n, u) + Cycle(next, n, u, k - 1);
      assert k * n == n + (k - 1) * n;
      forall j | n <= j < k * n ensures c[j] == u[(start + j) % |u|] {
        assert c[j] == Cycle(next, n, u, k - 1)[j - n];
        ModAdd(start + n, j - n, |u|);
      }
    }
  }

  /** Reducing the first summand first does not change the remainder. */
  lemma ModAdd(a: nat, b: nat, m: nat)
    requires m > 0
    ensures (a % m + b) % m == (a + b) % m
  {
    var r := a % m + b;
    assert a == (a / m) * m + a % m;
    assert r == (r / m) * m + r % m;
    assert (a / m + r / m) * m == (a / m) * m + (r / m) * m;
    ModUnique(a + b, m, a / m + r / m, r % m);
  }

  /** The universe read from position `start` round to position `start - 1`. */
  function Rotation(u: seq<string>, start: nat): (r: seq<string>)
    requires start <= |u|
  {
    u[start..] + u[..start]
  }

  /** A rotation holds every element exactly as often as the universe does. */
  lemma RotationIsPermutation(u: seq<string>, start: nat)
    requires start <= |u|
    ensures multiset(Rotation(u, start)) == multiset(u)
  {
    assert u == u[..start] + u[start..];
  }

  /** Full coverage: `ceil(|u| / n)` consecutive completed batches fetch at least
      `|u|` symbols, and the first `|u|` of them are the universe rotated to the
      starting cursor: in universe order, no position skipped or repeated. */
  lemma CycleVisitsRotation(start: nat, n: nat, u: seq<string>)
    requires 0 < |u| && start < |u| && n > 0
    ensures var c := Cycle(start, n, u, CeilDiv(|u|, n));
      |u| <= |c| && c[..|u|] == Rotation(u, start)
  {
    var k := CeilDiv(|u|, n);
    var c := Cycle(start, n, u, k);
    CycleAt(start, n, u, k);
    var rot := Rotation(u, start);
    forall j | 0 <= j < |u| ensures c[..|u|][j] == rot[j] {
      if start + j < |u| {
        ModUnique(start + j, |u|, 0, start + j);
      } else {
        ModUnique(start + j, |u|, 1, start + j - |u|);
      }
    }
  }

  /** Every symbol of the universe is fetched within `ceil(|u| / n)` completed
      batches, and the first `|u|` fetches hold each symbol as often as the
      universe does (once each when its symbols are distinct). */
  lemma CycleCoversUniverse(start: nat, n: nat, u: seq<string>)
    requires 0 < |u| && start < |u| && n > 0
    ensures var c := Cycle(start, n, u, CeilDiv(|u|, n));
      && |u| <= |c|
      && multiset(c[..|u|]) == multiset(u)
      && forall s :: s in u ==> s in c
  {
    var c := Cycle(start, n, u, CeilDiv(|u|, n));
    CycleVisitsRotation(start, n, u);
    RotationIsPermutation(u, start);
    forall s | s in u ensures s in c {
      assert s in multiset(c[..|u|]);
      assert s in c[..|u|];
    }
  }

  /** From cursor 0 the first `|u|` fetched symbols are the universe itself. */
  lemma CycleFromZeroIsUniverse(n: nat, u: seq<string>)
    requires 0 < |u| && n > 0
    ensures var c := Cycle(0, n, u, CeilDiv(|u|, n)); |u| <= |c| && c[..|u|] == u
  {
    CycleVisitsRotation(0, n, u);
    assert Rotation(u, 0) == u;
  }

  /** The tracked universe: 218 symbols, visited in 5 batches of 50. */
  lemma PopularStocksCycle()
    ensures |PopularStocks| == 218
    ensures CeilDiv(|PopularStocks|, MaxRequestsPerMinute) == 5
    ensures forall s :: s in PopularStocks ==> s in Cycle(0, MaxRequestsPerMinute, PopularStocks, 5)
  {
    assert |PopularStocks| == 218;
    assert CeilDiv(218, 50) == 5;
    CycleCoversUniverse(0, MaxRequestsPerMinute, PopularStocks);
  }

  // ---------------------------------------------------------------------------
  // processStock: fetch one symbol with a bounded retry

  datatype RetryResult = RetryResult(ok: bool, calls: nat)

  /** The success log line calls `toFixed` on the returned row's price and
      change percent; it throws (inside the `try`) unless both are numbers. */
  predicate Loggable(q: Quote) {
    q.price.Num? && q.changePercent.Num?
  }

  /** One attempt succeeds when `fetchStockData` resolves and the log line
      after it does not throw. */
  predicate AttemptSucceeds(symbol: string, reply: Reply) {
    FetchRow(symbol, reply).Ok? && Loggable(FetchRow(symbol, reply).value)
  }

  /** `processStock(symbol, attempt)`, one provider reply per attempt: any
      thrown error with `attempt < RetryAttempts` leads to another attempt. */
  function Retry(symbol: string, replies: seq<Reply>, attempt: nat): (r: RetryResult)
    requires attempt <= RetryAttempts < |replies|
    ensures attempt < r.calls <= RetryAttempts + 1
    ensures r.ok ==> AttemptSucceeds(symbol, replies[r.calls - 1])
    ensures !r.ok ==> r.calls == RetryAttempts + 1 && !AttemptSucceeds(symbol, replies[RetryAttempts])
    ensures forall k :: attempt <= k < r.calls - 1 ==> !AttemptSucceeds(symbol, replies[k])
    decreases RetryAttempts - attempt
  {
    if AttemptSucceeds(symbol, replies[attempt]) then RetryResult(true, attempt + 1)
    else if attempt < RetryAttempts then Retry(symbol, replies, attempt + 1)
    else RetryResult(false, attempt + 1)
  }

  /** Success is decided by the first `RetryAttempts + 1` replies alone: the
      call reports success exactly when one of them succeeds. */
  lemma RetrySucceedsIffSomeAttemptDoes(symbol: string, replies: seq<Reply>)
    requires RetryAttempts < |replies|
    ensures Retry(symbol, replies, 0).ok <==>
      exists k :: 0 <= k <= RetryAttempts && AttemptSucceeds(symbol, replies[k])
  {
    var r := Retry(symbol, replies, 0);
    if !r.ok {
      forall k | 0 <= k <= RetryAttempts ensures !AttemptSucceeds(symbol, replies[k]) {
      }
    }
  }

  /** The table after the attempts `replies`, each applying its own write. */
  function RetryWrites(rows: map<string, Quote>, symbol: string, replies: seq<Reply>): (r: map<string, Quote>)
    ensures forall k :: k in rows && k != Upper(symbol) ==> k in r && r[k] == rows[k]
    ensures r.Keys <= rows.Keys + {Upper(symbol)}
  {
    if replies == [] then rows
    else AfterFetch(RetryWrites(rows, symbol, replies[..|replies| - 1]), symbol, replies[|replies| - 1])
  }

  /** A successful call leaves in the table exactly the row its last attempt built. */
  lemma SuccessLeavesFinalRow(rows: map<string, Quote>, symbol: string, replies: seq<Reply>)
    requires RetryAttempts < |replies|
    requires Retry(symbol, replies, 0).ok
    ensures var r := RetryWrites(rows, symbol, replies[..Retry(symbol, replies, 0).calls]);
      Upper(symbol) in r && r[Upper(symbol)] == FetchRow(symbol, replies[Retry(symbol, replies, 0).calls - 1]).value
  {
    var n := Retry(symbol, replies, 0).calls;
    var p := replies[..n];
    assert p[..|p| - 1] == replies[..n - 1];
    assert p[|p| - 1] == replies[n - 1];
  }

  /** Attempts that all fail before the store is reached write nothing. */
  lemma {:induction false} RejectedAttemptsWriteNothing(rows: map<string, Quote>, symbol: string, replies: seq<Reply>)
    requires forall k :: 0 <= k < |replies| ==> FetchRow(symbol, replies[k]).Err?
    ensures RetryWrites(rows, symbol, replies) == rows
  {
    if replies != [] {
      RejectedAttemptsWriteNothing(rows, symbol, replies[..|replies| - 1]);
    }
  }

  // ---------------------------------------------------------------------------
  // A batch: per-symbol results and the store after it

  /** The environment supplies, for every symbol of the batch, a reply for
      each attempt `processStock` may make. */
  predicate Supplied(batch: seq<string>, outcomes: seq<seq<Reply>>) {
    |outcomes| == |batch| && forall i :: 0 <= i < |outcomes| ==> RetryAttempts < |outcomes[i]|
  }

  /** `successCount`: how many symbols of the batch `processStock` reported as updated. */
  function SuccessCount(batch: seq<string>, outcomes: seq<seq<Reply>>): (r: nat)
    requires Supplied(batch, outcomes)
    ensures r <= |batch|
  {
    if batch == [] then 0
    else
      var i := |batch| - 1;
      SuccessCount(batch[..i], outcomes[..i]) + (if Retry(batch[i], outcomes[i], 0).ok then 1 else 0)
  }

  /** The table after the batch: each symbol's attempts in batch order. */
  function BatchWrites(rows: map<string, Quote>, batch: seq<string>, outcomes: seq<seq<Reply>>): (r: map<string, Quote>)
    requires Supplied(batch, outcomes)
  {
    if batch == [] then rows
    else
      var i := |batch| - 1;
      var before := BatchWrites(rows, batch[..i], outcomes[..i]);
      RetryWrites(before, batch[i], outcomes[i][..Retry(batch[i], outcomes[i], 0).calls])
  }

  /** A batch touches only the rows of its own symbols. */
  lemma {:induction false} BatchWritesOnlyItsSymbols(rows: map<string, Quote>, batch: seq<string>, outcomes: seq<seq<Reply>>, key: string)
    requires Supplied(batch, outcomes)
    requires forall i :: 0 <= i < |batch| ==> Upper(batch[i]) != key
    ensures key in rows <==> key in BatchWrites(rows, batch, outcomes)
    ensures key in rows ==> BatchWrites(rows, batch, outcomes)[key] == rows[key]
  {
    if batch != [] {
      var i := |batch| - 1;
      BatchWritesOnlyItsSymbols(rows, batch[..i], outcomes[..i], key);
    }
  }

  /** What one firing reports: dropped, or the batch with its tally. */
  datatype BatchReport = Skipped | Completed(batch: seq<string>, successCount: nat, failedCount: nat)

  /** The module state of the quote refresher: `currentIndex` and `isProcessing`. */
  class Worker {
    const universe: seq<string>
    var cursor: nat
    var busy: bool
    const store: QuoteStore

    ghost predicate Valid()
      reads this
    {
      0 < |universe| && cursor <= |universe|
    }

    /** A worker as the module starts it: at the head of `PopularStocks`, idle. */
    constructor(store: QuoteStore)
      ensures Valid() && universe == PopularStocks && this.store == store && cursor == 0 && !busy
    {
      universe := PopularStocks;
      this.store := store;
      cursor := 0;
      busy := false;
    }

    /** `processStock(symbol)`: the recursive retry as a bounded loop over the
        attempt counter; attempt `k` receives `replies[k]`. */
    method ProcessStock(symbol: string, replies: seq<Reply>) returns (ok: bool, calls: nat)
      requires RetryAttempts < |replies|
      modifies store
      ensures RetryResult(ok, calls) == Retry(symbol, replies, 0)
      ensures calls <= RetryAttempts + 1
      ensures store.rows == RetryWrites(old(store.rows), symbol, replies[..calls])
    {
      var attempt: nat := 0;
      while true
        invariant attempt <= RetryAttempts
        invariant Retry(symbol, replies, attempt) == Retry(symbol, replies, 0)
        invariant store.rows == RetryWrites(old(store.rows), symbol, replies[..attempt])
        decreases RetryAttempts - attempt
      {
        var r := store.FetchStockData(symbol, replies[attempt]);
        assert replies[..attempt + 1][..attempt] == replies[..attempt];
        if r.Ok? && Loggable(r.value) {
          return true, attempt + 1;
        }
        if attempt < RetryAttempts {
          attempt := attempt + 1;
        } else {
          return false, attempt + 1;
        }
      }
    }

    /** The second loop of `refreshStockBatch`: every symbol in order, counting successes. */
    method ProcessBatch(batch: seq<string>, outcomes: seq<seq<Reply>>) returns (successCount: nat)
      requires Supplied(batch, outcomes)
      modifies store
      ensures successCount == SuccessCount(batch, outcomes)
      ensures successCount <= |batch|
      ensures store.rows == BatchWrites(old(store.rows), batch, outcomes)
    {
      successCount := 0;
      var i := 0;
      while i < |batch|
        invariant 0 <= i <= |batch|
        invariant successCount == SuccessCount(batch[..i], outcomes[..i])
        invariant store.rows == BatchWrites(old(store.rows), batch[..i], outcomes[..i])
      {
        var ok, calls := ProcessStock(batch[i], outcomes[i]);
        assert batch[..i + 1][..i] == batch[..i];
        assert outcomes[..i + 1][..i] == outcomes[..i];
        if ok {
          successCount := successCount + 1;
        }
        i := i + 1;
      }
      assert batch[..i] == batch;
      assert outcomes[..i] == outcomes;
    }

    /** The start of `refreshStockBatch`: a tick while busy returns at once and
        changes nothing; otherwise the worker turns busy and the selection loop
        takes the next `MaxRequestsPerMinute` symbols. */
    method BeginBatch() returns (batch: Option<seq<string>>)
      requires Valid()
      modifies this
      ensures Valid() && busy
      ensures old(busy) ==> batch == None && cursor == old(cursor)
      ensures !old(busy) ==>
        && batch == Some(NextBatch(old(cursor), MaxRequestsPerMinute, universe))
        && cursor == SelectCursor(old(cursor), MaxRequestsPerMinute, |universe|)
    {
      if busy {
        return None;
      }
      busy := true;
      ghost var start := cursor;
      var m := |universe|;
      var symbols: seq<string> := [];
      var i := 0;
      while i < MaxRequestsPerMinute
        invariant 0 <= i <= MaxRequestsPerMinute
        invariant busy
        invariant cursor == SelectCursor(start, i, m)
        invariant |symbols| == i
        invariant forall k :: 0 <= k < i ==> symbols[k] == universe[(start + k) % m]
      {
        SelectStep(start, i, m);
        if cursor >= m {
          cursor := 0;
        }
        assert cursor == (start + i) % m;
        symbols := symbols + [universe[cursor]];
        cursor := cursor + 1;
        i := i + 1;
      }
      assert symbols == NextBatch(start, MaxRequestsPerMinute, universe);
      batch := Some(symbols);
    }

    /** The end of `refreshStockBatch`. A completed batch wraps a cursor that
        reached the end back to 0; a batch whose body threw skips that step.
        Either way the `finally` clears the busy flag. */
    method EndBatch(completed: bool)
      requires Valid()
      modifies this
      ensures Valid() && !busy
      ensures completed ==> cursor == (if old(cursor) >= |universe| then 0 else old(cursor))
      ensures !completed ==> cursor == old(cursor)
    {
      if completed && cursor >= |universe| {
        cursor := 0;
      }
      busy := false;
    }

    /** One firing of `refreshStockBatch` that runs to the end without another
        tick in between. */
    method RefreshStockBatch(outcomes: seq<seq<Reply>>) returns (report: BatchReport)
      requires Valid()
      requires |outcomes| == MaxRequestsPerMinute
      requires forall i :: 0 <= i < |outcomes| ==> RetryAttempts < |outcomes[i]|
      modifies this, store
      ensures Valid()
      ensures old(busy) ==>
        report == Skipped && busy && cursor == old(cursor) && store.rows == old(store.rows)
      ensures !old(busy) ==>
        var batch := NextBatch(old(cursor), MaxRequestsPerMinute, universe);
        && !busy
        && cursor == (old(cursor) + MaxRequestsPerMinute) % |universe|
        && report == Completed(batch, SuccessCount(batch, outcomes), |batch| - SuccessCount(batch, outcomes))
        && store.rows == BatchWrites(old(store.rows), batch, outcomes)
    {
      ghost var start := cursor;
      var picked := BeginBatch();
      if picked.None? {
        return Skipped;
      }
      var batch := picked.value;
      var successCount := ProcessBatch(batch, outcomes);
      EndBatch(true);
      CompletedBatchCursor(start, MaxRequestsPerMinute, |universe|);
      report := Completed(batch, successCount, |batch| - successCount);
    }
  }

  /** The index the selection loop reads at step `i`, after its reset check. */
  lemma SelectStep(start: nat, i: nat, m: nat)
    requires m > 0 && start <= m
    ensures var c := SelectCursor(start, i, m); (if c >= m then 0 else c) == (start + i) % m
  {
    if i == 0 {
      if start == m { ModShift(0, m); }
    } else {
      CompletedBatchCursor(start, i, m);
    }
  }
}
