/** The quote write-through of backend/services/stockService.js: a provider reply
    is validated, turned into one row and upserted into the quote table keyed by
    the (upper-cased) symbol; the watchlist read filters that table. */
module StockService {
  import opened Common

  /** A numeric JSON field of the provider's quote: missing (`undefined`),
      `null`, or a number. Prices are never computed on, so any real will do. */
  datatype Field = Absent | Null | Num(value: real)

  /** The quote endpoint's body: current price `c`, change `d`, change percent `dp`. */
  datatype QuoteBody = QuoteBody(c: Field, d: Field, dp: Field)

  /** The profile endpoint's body: the company `name`, when present. */
  datatype ProfileBody = ProfileBody(name: Option<string>)

  /** An error thrown by the HTTP client or by the validation; `status` is the
      HTTP status of the response when there was one. */
  datatype FetchError = FetchError(status: Option<int>, message: string)

  /** What the two parallel provider requests produce for one attempt: both
      bodies, together with the clock reading at which the row is built, or the
      error of the request that failed. */
  datatype Reply =
    | Replied(quote: QuoteBody, profile: ProfileBody, at: Time)
    | Failed(err: FetchError)

  /** One row of the quote table (backend/models/Stock.js). */
  datatype Quote = Quote(
    symbol: string,
    price: Field,
    change: Field,
    changePercent: Field,
    description: string,
    lastUpdated: Time)

  const InvalidDataMessage: string := "Invalid data received from Finnhub"
  const RateLimitMessage: string := "Rate limit exceeded - please slow down requests"

  /** Only `c` and `d` are checked, and only against `undefined`. */
  predicate ValidQuote(q: QuoteBody) {
    q.c != Absent && q.d != Absent
  }

  /** `profile.data.name || symbol`: an empty or missing name falls back to the symbol. */
  function Description(symbol: string, profile: ProfileBody): (r: string)
    ensures profile.name.Some? && profile.name.value != "" ==> r == profile.name.value
    ensures (profile.name.None? || profile.name.value == "") ==> r == symbol
  {
    match profile.name
    case Some(n) => if n != "" then n else symbol
    case None => symbol
  }

  /** The catch clause: a 429 response gets the rate-limit message, every other
      error is rethrown as it is. */
  function RewriteError(e: FetchError): (r: FetchError)
    ensures e.status == Some(429) ==> r == FetchError(e.status, RateLimitMessage)
    ensures e.status != Some(429) ==> r == e
  {
    if e.status == Some(429) then e.(message := RateLimitMessage) else e
  }

  /** The row `fetchStockData` writes for `symbol`, or the error it throws.
      The table's schema upper-cases the symbol. */
  function FetchRow(symbol: string, reply: Reply): (r: Result<Quote, FetchError>)
    ensures r.Ok? <==> reply.Replied? && ValidQuote(reply.quote)
    ensures r.Ok? ==>
      && r.value.symbol == Upper(symbol)
      && r.value.price == reply.quote.c
      && r.value.change == reply.quote.d
      && r.value.changePercent == reply.quote.dp
      && r.value.description == Description(symbol, reply.profile)
      && r.value.lastUpdated == reply.at
    ensures r.Ok? ==> r.value.price != Absent && r.value.change != Absent
    ensures reply.Replied? && !ValidQuote(reply.quote) ==>
      r == Err(FetchError(None, InvalidDataMessage))
    ensures reply.Failed? ==> r == Err(RewriteError(reply.err))
  {
    match reply
    case Failed(e) => Err(RewriteError(e))
    case Replied(q, p, at) =>
      if !ValidQuote(q) then Err(RewriteError(FetchError(None, InvalidDataMessage)))
      else Ok(Quote(Upper(symbol), q.c, q.d, q.dp, Description(symbol, p), at))
  }

  /** `findOneAndUpdate({symbol}, row, {upsert: true})`: the row for its symbol
      is inserted or overwritten; every other row is left alone. */
  function Upsert(rows: map<string, Quote>, q: Quote): (r: map<string, Quote>)
    ensures r.Keys == rows.Keys + {q.symbol}
    ensures r[q.symbol] == q
    ensures forall k :: k in rows && k != q.symbol ==> r[k] == rows[k]
  {
    rows[q.symbol := q]
  }

  /** The table after one call of `fetchStockData`: a rejected reply writes
      nothing; an accepted one writes the single row of the upper-cased symbol,
      so the table keeps one row per symbol and no other row changes. */
  function AfterFetch(rows: map<string, Quote>, symbol: string, reply: Reply): (r: map<string, Quote>)
    ensures FetchRow(symbol, reply).Err? ==> r == rows
    ensures FetchRow(symbol, reply).Ok? ==>
      r.Keys == rows.Keys + {Upper(symbol)} && r[Upper(symbol)] == FetchRow(symbol, reply).value
    ensures forall k :: k in rows && k != Upper(symbol) ==> k in r && r[k] == rows[k]
  {
    match FetchRow(symbol, reply)
    case Ok(q) => Upsert(rows, q)
    case Err(_) => rows
  }

  /** The keys `getMultipleStocks` asks the table for. */
  ghost predicate Requested(symbols: seq<string>, key: string) {
    exists i :: 0 <= i < |symbols| && Upper(symbols[i]) == key
  }

  /** `Stock.find({symbol: {$in: symbols.map(toUpperCase)}})`: exactly the stored
      rows whose key is one of the upper-cased request symbols. Row order is the
      store's and is not modelled. */
  function GetMultipleStocks(rows: map<string, Quote>, symbols: seq<string>): (r: map<string, Quote>)
    ensures forall k :: k in r <==> k in rows && Requested(symbols, k)
    ensures forall k :: k in r ==> r[k] == rows[k]
  {
    var wanted := set i | 0 <= i < |symbols| :: Upper(symbols[i]);
    map k | k in rows && k in wanted :: rows[k]
  }

  /** A row written for a symbol is found by a later watchlist read that names
      the symbol in any letter case. */
  lemma WrittenRowIsReadBack(rows: map<string, Quote>, symbol: string, reply: Reply, asked: seq<string>, i: nat)
    requires reply.Replied? && ValidQuote(reply.quote)
    requires i < |asked| && Upper(asked[i]) == Upper(symbol)
    ensures var got := GetMultipleStocks(AfterFetch(rows, symbol, reply), asked);
      Upper(symbol) in got && got[Upper(symbol)] == FetchRow(symbol, reply).value
  {
    var got := GetMultipleStocks(AfterFetch(rows, symbol, reply), asked);
    assert Requested(asked, Upper(symbol));
  }

  /** The quote table, the one piece of state `fetchStockData` changes. */
  class QuoteStore {
    var rows: map<string, Quote>

    constructor()
      ensures rows == map[]
    {
      rows := map[];
    }

    /** `fetchStockData(symbol)` for one provider reply. */
    method FetchStockData(symbol: string, reply: Reply) returns (r: Result<Quote, FetchError>)
      modifies this
      ensures r == FetchRow(symbol, reply)
      ensures rows == AfterFetch(old(rows), symbol, reply)
      ensures r.Err? ==> rows == old(rows)
      ensures r.Ok? ==> rows == old(rows)[r.value.symbol := r.value]
    {
      r := FetchRow(symbol, reply);
      if r.Ok? {
        rows := Upsert(rows, r.value);
      }
    }
  }
}
