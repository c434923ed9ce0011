# Refresh logic of the octo backend, modelled in Dafny

The backend keeps two local tables fresh: stock quotes and news headlines. It does this
with four pieces of sequential bookkeeping, and this project models each one and
proves what it promises.

- **Quote refresher** (`StockWorker`, backend/workers/stockWorker.js). A cursor walks
  the fixed list of 218 symbols, 50 symbols per batch, wrapping to the front. A busy
  flag drops any tick that arrives while a batch is running. Each symbol is fetched
  with a bounded retry: at most `RETRY_ATTEMPTS + 1 = 3` calls.
- **Quote write-through** (`StockService`, backend/services/stockService.js). A
  provider reply missing `c` or `d` is rejected. Otherwise it becomes one row keyed by
  the upper-cased symbol, overwriting any older row. The watchlist read returns the
  stored rows whose key is one of the upper-cased request symbols.
- **Headline store** (`NewsService`, backend/services/newsService.js). Articles are
  written insert-if-absent keyed by url, and the call counts the writes that went
  through. The read path pages through the stored articles newest first.
- **Headline quota** (`NewsWorker`, backend/workers/newsWorker.js). A counter of
  successful requests is checked against the daily budget of 100 before each fetch.
  A periodic tick cancels itself for good once it finds the budget spent. A reset
  zeroes the counter and does not restart that tick.

Timers, HTTP and the database are not modelled as such:

- Timer firings are method calls (`BeginBatch`, `Tick`, `MidnightReset`), or events
  of a pure state machine (`NewsWorker.Step`).
- What the providers answer is an input: one reply per retry attempt, or one news
  response.
- A news write that throws is an input too: the set of article indices whose write
  fails.
- So is the rejection, if any, of the count query behind `remaining`
  (`countError`). It runs after the writes, inside the same `try`, so it turns a
  fetch whose writes went through into `success: false`, which the quota does not
  charge.
- Each table is a `map` field of a store class. The workers hold that store.

Each class method is proved against a pure function of the same module. The lemmas
about those functions carry the properties.

Some behaviour of the code is surprising; the model follows it:

- **Every thrown error is retried.** This includes the "Invalid data received from
  Finnhub" validation error (backend/workers/stockWorker.js:45-49).
- **The failure message undercounts calls.** The message says "after 2 attempts", but
  a symbol whose attempts all fail has made 3 calls (`Retry` ensures `calls ==
  RetryAttempts + 1`).
- **The success log line can turn a write into a failure.** That line calls `toFixed`
  on the stored price and change percent. A reply whose `c` or `dp` is `null` passes
  validation (only `undefined` is rejected), so its row is written. Then the log line
  throws inside the `try`, and the attempt counts as a failure and is retried. This is
  `Loggable` in `AttemptSucceeds`: such a symbol can be written three times and still
  be reported as failed.
- **The quota tick stops for good.** Once a tick sees the counter at the budget, the
  interval is cleared. The midnight reset zeroes the counter but never restarts the
  interval (`CancelledForGood`). At 5 requests an hour the budget of 100 is spent
  after 20 hours (`CadenceConstants`). The interval is therefore cleared whenever
  some stretch between two resets lasts at least about 20 hours. The reset period is
  `24h - (Date.now() mod 24h)` at start-up, and that period then repeats. A process
  started late enough in the UTC day resets more often than that, and its interval is
  never cleared.
- **Between batches the cursor is in `[0, 218]`, not `[0, 218)`.** It reaches 218
  only when a batch's body threw after the selection loop, which skips the
  end-of-batch wrap. The next selection loop resets it before its first read
  (`NextBatch`, `SelectStep`).

## Model

| member | source | states |
|---|---|---|
| `Common.CeilDiv` | backend/services/newsService.js:75 | `Math.ceil(a / b)`: the least `r` with `a <= r * b`, so `(r - 1) * b < a` |
| `Common.Upper` | backend/services/stockService.js:44 | upper-casing keeps the length and maps every character through ASCII `toUpperCase` |
| `Common.UpperIdempotent` | backend/models/Stock.js:8 | an upper-cased key is unchanged by upper-casing again |
| `StockService.Description` | backend/services/stockService.js:22 | the description is the profile name when it is non-empty, else the symbol |
| `StockService.RewriteError` | backend/services/stockService.js:32-37 | a 429 error gets the rate-limit message; every other error is rethrown unchanged |
| `StockService.FetchRow` | backend/services/stockService.js:7-24 | the fetch succeeds iff the request succeeded and `c`, `d` are not undefined; the row copies `c`, `d` and the unvalidated `dp`, and uses the fallback description and the upper-cased symbol; an invalid reply gives "Invalid data received from Finnhub"; a failed request gives the rewritten error |
| `StockService.Upsert` | backend/services/stockService.js:26-30 | the upsert sets the row of its symbol and leaves every other row as it was |
| `StockService.AfterFetch` | backend/services/stockService.js:14-30 | a rejected reply writes nothing; an accepted one writes exactly the row of the upper-cased symbol; no other row changes |
| `StockService.GetMultipleStocks` | backend/services/stockService.js:40-53 | the result holds exactly the stored rows whose key is an upper-cased request symbol, with their stored values |
| `StockService.WrittenRowIsReadBack` | backend/services/stockService.js:26-47 | a row written for a symbol is returned by a later watchlist read naming that symbol in any letter case |
| `StockService.QuoteStore.FetchStockData` | backend/services/stockService.js:7-38 | returns `FetchRow`'s result and leaves the table as `AfterFetch` describes |
| `StockWorker.NextBatch` | backend/workers/stockWorker.js:66-71 | the batch has exactly `n` symbols; element `i` is `universe[(start + i) mod len]`, wrapping to index 0 |
| `StockWorker.SelectCursor` | backend/workers/stockWorker.js:67-71 | after a selection of `n > 0` symbols the cursor lies in `[1, len]` |
| `StockWorker.CompletedBatchCursor` | backend/workers/stockWorker.js:66-87 | selection followed by the end-of-batch wrap moves the cursor to `(start + n) mod len`, which is below `len` |
| `StockWorker.CycleAt` | backend/workers/stockWorker.js:66-87 | `k` consecutive completed batches fetch `k * n` symbols; position `j` is `universe[(start + j) mod len]` |
| `StockWorker.CycleVisitsRotation` | backend/workers/stockWorker.js:66-88 | after `ceil(len / n)` batches the first `len` fetched symbols are the universe rotated to the starting cursor: in order, none skipped or repeated |
| `StockWorker.RotationIsPermutation` | backend/workers/stockWorker.js:66-71 | that rotation holds every symbol as often as the universe does |
| `StockWorker.CycleCoversUniverse` | backend/workers/stockWorker.js:66-88 | every symbol is fetched within `ceil(len / n)` batches, and the first `len` fetches are a permutation of the universe |
| `StockWorker.CycleFromZeroIsUniverse` | backend/workers/stockWorker.js:37-88 | from the initial cursor 0 the first `len` fetched symbols are the list itself |
| `StockWorker.PopularStocksCycle` | backend/workers/stockWorker.js:4-31 | the list has 218 symbols; `ceil(218 / 50) == 5` batches fetch every one of them |
| `StockWorker.Retry` | backend/workers/stockWorker.js:40-54 | 1 to `RETRY_ATTEMPTS + 1` calls are made; success is reported at the first succeeding attempt; every earlier attempt failed, whatever its error; failure only after the last allowed attempt also failed |
| `StockWorker.RetrySucceedsIffSomeAttemptDoes` | backend/workers/stockWorker.js:40-54 | `processStock` returns true iff one of its first three attempts succeeds |
| `StockWorker.RetryWrites` | backend/workers/stockWorker.js:40-54 | the attempts of one symbol change no row except that symbol's |
| `StockWorker.SuccessLeavesFinalRow` | backend/workers/stockWorker.js:40-54 | after a successful call the stored row is the one built by the successful attempt |
| `StockWorker.RejectedAttemptsWriteNothing` | backend/workers/stockWorker.js:45-52 | attempts that all fail before reaching the store leave the table unchanged |
| `StockWorker.SuccessCount` | backend/workers/stockWorker.js:76-83 | `0 <= successCount <= batch length`, so the reported failures are non-negative |
| `StockWorker.BatchWritesOnlyItsSymbols` | backend/workers/stockWorker.js:76-81 | a batch changes no row whose key is not one of its symbols |
| `StockWorker.Worker.constructor` | backend/workers/stockWorker.js:37-38 | the worker starts at cursor 0, not processing |
| `StockWorker.Worker.ProcessStock` | backend/workers/stockWorker.js:40-54 | the loop gives exactly the result of the recursive retry, makes at most 3 calls and leaves the table as those calls' writes do |
| `StockWorker.Worker.ProcessBatch` | backend/workers/stockWorker.js:76-81 | processes the symbols in batch order; the returned count is `SuccessCount`, at most the batch length |
| `StockWorker.Worker.BeginBatch` | backend/workers/stockWorker.js:56-71 | a tick while busy returns nothing and leaves the cursor unchanged; otherwise the worker becomes busy and the selected batch is `NextBatch` |
| `StockWorker.Worker.EndBatch` | backend/workers/stockWorker.js:83-94 | the busy flag is cleared whether the batch completed or threw; only a completed batch wraps the cursor |
| `StockWorker.Worker.RefreshStockBatch` | backend/workers/stockWorker.js:56-95 | a tick while busy changes nothing and calls nothing; otherwise the batch is processed, the cursor becomes `(start + 50) mod len`, the worker is idle again, and failures are batch length minus successes |
| `NewsService.SourceName` | backend/services/newsService.js:25 | an article without a source name is stored with source `Unknown` |
| `NewsService.ToArticle` | backend/services/newsService.js:23-31 | the inserted document keeps the article's url, title and date, with the defaulted source |
| `NewsService.StoredCount` | backend/services/newsService.js:16-38 | `storedCount` is the number of articles whose write did not throw, at most the number of articles |
| `NewsService.FetchResult` | backend/services/newsService.js:4-51 | success iff the provider request and the count query both resolve; a provider failure gives `success: false` with its message; a rejected count query gives `success: false` with its message even though the writes happened; a success reports `requestsUsed: 1` and the stored count; a missing `articles` field gives `storedCount == 0` |
| `NewsService.StoreKeepsExisting` | backend/services/newsService.js:20-34 | a url that is already stored keeps every field of its row |
| `NewsService.StoreHoldsExactlyWritten` | backend/services/newsService.js:18-39 | every article whose write went through has a row for its url, and every new row comes from such an article |
| `NewsService.FirstWriteWins` | backend/services/newsService.js:20-34 | a new url is stored with the fields of its first successfully written article; later duplicates change nothing |
| `NewsService.DuplicateUrlKeepsFirst` | backend/models/News.js:6 | the same url written twice gives one row holding the first copy |
| `NewsService.GetStoredNews` | backend/services/newsService.js:60-82 | `page < 1` makes the skip negative, and the call then fails; otherwise the page skips `(page - 1) * limit` rows of the newest-first listing and holds at most `limit` of them, contiguous; `totalPages` is `ceil(total / limit)` |
| `NewsService.PageIsSlice` | backend/services/newsService.js:62-67 | page `p` is the listing between `(p - 1) * limit` and `p * limit` |
| `NewsService.PagesUpToIsPrefix` | backend/services/newsService.js:62-75 | pages 1..p read in order are the first `p * limit` articles |
| `NewsService.PagesPartitionListing` | backend/services/newsService.js:62-75 | pages 1..totalPages read in order are exactly the listing: each article on exactly one page |
| `NewsService.NewsStore.FetchAndStoreNews` | backend/services/newsService.js:4-52 | returns `FetchResult`; a provider failure writes nothing; otherwise the articles are written insert-if-absent in order, whether or not the count query then rejects |
| `NewsWorker.CadenceConstants` | backend/workers/newsWorker.js:2-5 | `REQUESTS_PER_HOUR == ceil(100 / 24) == 5` and `INTERVAL_MS == 720000`, an exact division of the hour; 100 intervals span 20 hours |
| `NewsWorker.Charge` | backend/workers/newsWorker.js:20-25 | a success adds `requestsUsed`, or 1 when it is 0 or absent; a failure adds nothing |
| `NewsWorker.AfterFetchNewsBatch` | backend/workers/newsWorker.js:9-29 | at or over the budget the counter is unchanged and nothing is called; below it a success strictly increases the counter and a failure leaves it |
| `NewsWorker.Step` | backend/workers/newsWorker.js:31-54 | the reset zeroes the counter whatever its value and keeps the timer state; a tick finding the budget spent cancels the interval; a cancelled interval stays cancelled |
| `NewsWorker.CounterWithinBudget` | backend/workers/newsWorker.js:11-21 | with `requestsUsed == 1` the counter never exceeds `TOTAL_REQUESTS`, over any sequence of fetches, ticks and resets |
| `NewsWorker.RecordedBetweenResets` | backend/workers/newsWorker.js:11-25 | between two resets the counter equals its start plus the successful calls, so those calls never exceed the budget |
| `NewsWorker.ExhaustedUntilReset` | backend/workers/newsWorker.js:11-14 | once the counter reaches the budget no provider call is made until a reset |
| `NewsWorker.CancelledForGood` | backend/workers/newsWorker.js:42-54 | after the interval is cleared no later tick calls `fetchNewsBatch`, resets included |
| `NewsWorker.LargerChargeOvershoots` | backend/workers/newsWorker.js:11-21 | the guard checks before the call, so a charge above 1 at 99 would take the counter to 104 |
| `NewsWorker.Worker.constructor` | backend/workers/newsWorker.js:7-48 | the counter starts at 0 with the periodic fetch scheduled |
| `NewsWorker.Worker.FetchNewsBatch` | backend/workers/newsWorker.js:9-29 | calls the service iff the counter is below the budget; the new state is `Step`'s; the counter stays within the budget; a rejected count query charges nothing |
| `NewsWorker.Worker.Tick` | backend/workers/newsWorker.js:42-48 | a cancelled interval does nothing; a tick at the budget cancels the interval without a call; otherwise `fetchNewsBatch` runs |
| `NewsWorker.Worker.MidnightReset` | backend/workers/newsWorker.js:51-53 | the counter becomes 0 and the interval is not restarted |

## Left out

- HTTP and configuration are not modelled. This covers axios, API keys, URLs and
  request parameters (`country`, `pageSize`, timeouts).
- Provider answers are inputs. The stock model takes one combined reply per attempt,
  built from the quote and profile requests. The news model takes one response.
- Logging is not modelled, except where it changes control flow. The success line of
  `processStock` can throw, and that case is modelled (`Loggable`).
- Timers and delays are not modelled. The `setTimeout` waits (retry delay, inter-item
  delay) and the `setInterval` periods become method calls or events.
- The wall-clock midnight computation is out. The reset is an event that may come at
  any time.
- Concurrency is out. The `Promise.all` over the two quote requests and over the
  article writes is taken sequentially. A duplicate-key error from two concurrent
  writes of one url can be given as a failed write in `fails`. No interleaving is
  modelled.
- Write errors in the quote table are out. `findOneAndUpdate` is assumed to succeed.
  The real call is returned without `await`, so its rejection would skip the 429
  rewrite and reach the retry.
- Read errors in `getMultipleStocks` are out. It is a total function.
- The value of the news response's `remaining` field is out. It mixes an environment
  string with a document count, and no caller reads it. Only whether its count query
  rejects is modelled (`countError`).
- Dates and floats are opaque. Prices are reals that are copied, never computed on.
  Timestamps are integers. `new Date(article.publishedAt) || new Date()` is taken as
  the parsed date, because a `Date` object is always truthy.
- The store's own schema behaviour is left to the store: the `createdAt`, `category`
  and `isAd` defaults, and TTL expiry.
- Upper-casing covers ASCII letters only. Non-ASCII letters are left unchanged.
- The row order of `getMultipleStocks` is the store's and is not modelled. The result
  is a map from key to row.
- `GetStoredNews` takes the store's newest-first listing as an input. It does not
  sort the table or break ties.
- NewsService.PagesPartitionListing: assumes every page is read from one fixed
  listing. The source runs a separate sorted, skipped and limited query per page. If
  articles share a `publishedAt`, the store need not order them the same way in every
  query. If a write (the worker, the hourly job) lands between two page reads, the
  listing shifts. In either case an article can appear on two pages or on none.
- GetStoredNews: requires `limit > 0`. A limit of 0 means "no limit" to the store and
  gives an infinite `totalPages`. A negative limit is not modelled either. A failing
  query is `QueryFailed` without the store's message text.
- StockWorker.Worker.ProcessStock: requires a reply for each of the 3 attempts the
  retry may make. Replies beyond the ones used are ignored.
- StockWorker.Worker.RefreshStockBatch: models a batch with no tick in between. A tick
  that lands mid-batch is `BeginBatch` on a busy worker, between `BeginBatch` and
  `EndBatch`.
- The hourly job in backend/index.js:29-32 is out. It calls `fetchAndStoreNews`
  without the quota counter, so it is wiring outside this model.
- The HTTP routes, controllers, authentication, the search crawler and the front end
  are not part of this model.
