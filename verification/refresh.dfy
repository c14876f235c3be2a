/**
 * The pure part of the periodic refresh: turning one exchange quote into updated bond
 * fields, doing so for a whole batch, updating the market snapshot, and the bid/ask
 * endpoint that applies the same price fallback. Fetching, scraping and storing are
 * left to the caller; the quote arrives already fetched and `now` is passed in.
 */
module Refresh {
  import opened Wrappers
  import opened Schemas

  /** Milliseconds in a 365-day year. */
  const MsPerYear: int := 1000 * 60 * 60 * 24 * 365

  /**
   * One string field of a quote payload as the refresh reads it: absent (so calling a
   * string method on it throws), or present with what `parseFloat` makes of it
   * (`None` for `NaN`).
   */
  datatype Field = Absent | Text(number: Option<real>)

  /** The first data entry of an exchange quote. */
  datatype Quote = Quote(
    faceValue: Field,
    sellPrice1: Field,
    buyPrice1: Field,
    lastPrice: Field,
    totalTradedValue: Field,
    isinCode: Option<string>)

  /** A string method was called on an absent field. */
  datatype ReadError = TypeError

  /** Reading a numeric field fails exactly when it is absent, and yields its parsed value otherwise. */
  function ReadNumber(f: Field): (r: Result<Option<real>, ReadError>)
    ensures r.Failure? <==> f.Absent?
    ensures r.Success? ==> r.value == f.number
  {
    match f
    case Absent => Failure(TypeError)
    case Text(x) => Success(x)
  }

  /**
   * A price taken from `preferred` when it parses as a number, and from `last` otherwise.
   * `last` is read only in the second case, so its absence matters only there.
   */
  function PriceWithFallback(preferred: Field, last: Field): (r: Result<Option<real>, ReadError>)
    ensures r.Failure? <==> preferred.Absent? || (preferred.number.None? && last.Absent?)
    ensures preferred.Text? && preferred.number.Some? ==> r == Success(preferred.number)
    ensures preferred.Text? && preferred.number.None? && last.Text? ==> r == Success(last.number)
  {
    match ReadNumber(preferred)
    case Failure(e) => Failure(e)
    case Success(p) => if p.Some? then Success(p) else ReadNumber(last)
  }

  /** The ask price: `sellPrice1`, falling back to `lastPrice` when it does not parse. */
  function AskPrice(q: Quote): (r: Result<Option<real>, ReadError>)
    ensures r.Failure? <==> q.sellPrice1.Absent? || (q.sellPrice1.number.None? && q.lastPrice.Absent?)
    ensures q.sellPrice1.Text? && q.sellPrice1.number.Some? ==> r == Success(q.sellPrice1.number)
    ensures q.sellPrice1.Text? && q.sellPrice1.number.None? && q.lastPrice.Text? ==> r == Success(q.lastPrice.number)
  {
    PriceWithFallback(q.sellPrice1, q.lastPrice)
  }

  /** The bid price: `buyPrice1`, falling back to `lastPrice` when it does not parse. */
  function BidPrice(q: Quote): (r: Result<Option<real>, ReadError>)
    ensures r.Failure? <==> q.buyPrice1.Absent? || (q.buyPrice1.number.None? && q.lastPrice.Absent?)
    ensures q.buyPrice1.Text? && q.buyPrice1.number.Some? ==> r == Success(q.buyPrice1.number)
    ensures q.buyPrice1.Text? && q.buyPrice1.number.None? && q.lastPrice.Text? ==> r == Success(q.lastPrice.number)
  {
    PriceWithFallback(q.buyPrice1, q.lastPrice)
  }

  /** When the preferred price parses, the last traded price plays no part at all. */
  lemma FallbackIgnoresLastWhenPreferredParses(preferred: Field, last1: Field, last2: Field)
    requires preferred.Text? && preferred.number.Some?
    ensures PriceWithFallback(preferred, last1) == PriceWithFallback(preferred, last2)
    ensures PriceWithFallback(preferred, last1) == Success(preferred.number)
  {
  }

  /** The traded value: its parsed value, or 0 when it does not parse. */
  function TradedValue(f: Field): (r: Result<real, ReadError>)
    ensures r.Failure? <==> f.Absent?
    ensures r.Success? && f.number.Some? ==> r.value == f.number.value
    ensures r.Success? && f.number.None? ==> r.value == 0.0
  {
    match ReadNumber(f)
    case Failure(e) => Failure(e)
    case Success(v) => Success(v.GetOr(0.0))
  }

  /** Years to maturity at time `now`: the signed distance in 365-day years. */
  function YearsToMaturity(maturityDate: int, now: int): (y: real)
    ensures y * MsPerYear as real == (maturityDate - now) as real
    ensures y > 0.0 <==> now < maturityDate
    ensures y == 0.0 <==> now == maturityDate
    ensures y < 0.0 <==> now > maturityDate
  {
    (maturityDate - now) as real / MsPerYear as real
  }

  /** One more year of clock time lowers the years to maturity by exactly one. */
  lemma YearsToMaturityOneYearLater(maturityDate: int, now: int)
    ensures YearsToMaturity(maturityDate, now + MsPerYear) == YearsToMaturity(maturityDate, now) - 1.0
  {
  }

  /**
   * One bond of the refresh. A bond with no quote data, or whose quote lacks a field the
   * update reads, becomes `None` (the `null` of the batch). Otherwise the face value,
   * ask price, traded value, ISIN and years to maturity are replaced and every other
   * field is kept.
   */
  function RefreshBond(sgb: Sgb, quote: Option<Quote>, now: int): (r: Option<Sgb>)
    ensures r.None? <==>
      || quote.None?
      || quote.value.faceValue.Absent?
      || AskPrice(quote.value).Failure?
      || quote.value.totalTradedValue.Absent?
    ensures r.Some? ==>
      && r.value.issuePrice == quote.value.faceValue.number
      && Success(r.value.askPrice) == AskPrice(quote.value)
      && r.value.tradedVolumeValue.Some?
      && Success(r.value.tradedVolumeValue.value) == TradedValue(quote.value.totalTradedValue)
      && r.value.isin == quote.value.isinCode
      && r.value.yearsToMaturity == Some(YearsToMaturity(sgb.maturityDate, now))
    ensures r.Some? ==>
      && r.value.symbol == sgb.symbol
      && r.value.maturityDate == sgb.maturityDate
      && r.value.interestPayable == sgb.interestPayable
  {
    match quote
    case None => None
    case Some(q) =>
      match (ReadNumber(q.faceValue), AskPrice(q), TradedValue(q.totalTradedValue))
      case (Success(face), Success(ask), Success(traded)) =>
        Some(sgb.(
          issuePrice := face,
          askPrice := ask,
          tradedVolumeValue := Some(traded),
          isin := q.isinCode,
          yearsToMaturity := Some(YearsToMaturity(sgb.maturityDate, now))))
      case _ => None
  }

  /** Refreshing a bond a second time with the same quote at the same time changes nothing. */
  lemma RefreshBondIdempotent(sgb: Sgb, quote: Option<Quote>, now: int)
    requires RefreshBond(sgb, quote, now).Some?
    ensures RefreshBond(RefreshBond(sgb, quote, now).value, quote, now) == RefreshBond(sgb, quote, now)
  {
  }

  /**
   * The refresh of a batch: bond `k` is refreshed with quote `k`, in order. Each bond reads
   * the clock itself once its own quote has arrived, so `nows[k]` is bond `k`'s own time.
   */
  function RefreshBatch(sgbs: seq<Sgb>, quotes: seq<Option<Quote>>, nows: seq<int>): (r: seq<Option<Sgb>>)
    requires |quotes| == |sgbs| && |nows| == |sgbs|
    ensures |r| == |sgbs|
    ensures forall k :: 0 <= k < |sgbs| ==> r[k] == RefreshBond(sgbs[k], quotes[k], nows[k])
    decreases |sgbs|
  {
    if |sgbs| == 0 then []
    else [RefreshBond(sgbs[0], quotes[0], nows[0])] + RefreshBatch(sgbs[1..], quotes[1..], nows[1..])
  }

  /**
   * A missing or broken quote for one bond turns that bond, and only that bond, into
   * `None`: every other entry of the batch is the same whatever quote bond `j` got.
   */
  lemma RefreshBatchIsolatesFailures(sgbs: seq<Sgb>, quotes: seq<Option<Quote>>, nows: seq<int>, j: nat, q: Option<Quote>)
    requires |quotes| == |sgbs| && |nows| == |sgbs| && j < |sgbs|
    ensures RefreshBatch(sgbs, quotes[j := None], nows)[j] == None
    ensures forall k :: 0 <= k < |sgbs| && k != j ==>
      RefreshBatch(sgbs, quotes[j := q], nows)[k] == RefreshBatch(sgbs, quotes, nows)[k]
  {
  }

  /**
   * The snapshot after a refresh: the new gold price and update time; the discount rate
   * kept from the existing snapshot, or the default 6 for the first one.
   */
  function RefreshInfo(existing: Option<Info>, goldPriceInr: Option<real>, now: int): (r: Info)
    ensures r.goldPriceInr == goldPriceInr
    ensures r.lastUpdatedDate == now
    ensures existing.Some? ==> r.discountRate == existing.value.discountRate
    ensures existing.None? ==> r.discountRate == DefaultDiscountRate
  {
    match existing
    case None => CreateInfo(InfoFields(goldPriceInr, None, None), now)
    case Some(info) => info.(goldPriceInr := goldPriceInr, lastUpdatedDate := now)
  }

  /** Of two successive snapshot refreshes only the later one's price and time survive. */
  lemma RefreshInfoLastWins(existing: Option<Info>, gold1: Option<real>, t1: int, gold2: Option<real>, t2: int)
    ensures RefreshInfo(Some(RefreshInfo(existing, gold1, t1)), gold2, t2) == RefreshInfo(existing, gold2, t2)
  {
  }

  /** The bid/ask endpoint's reply: both prices, or the no-data message. */
  datatype BidAskReply = Prices(bid: Option<real>, ask: Option<real>) | NoDataFound

  /**
   * The bid/ask endpoint: no quote data gives the no-data reply; otherwise the ask and
   * bid prices with their `lastPrice` fallback, failing when a field it reads is absent.
   */
  function BidAsk(quote: Option<Quote>): (r: Result<BidAskReply, ReadError>)
    ensures quote.None? ==> r == Success(NoDataFound)
    ensures quote.Some? ==> (r.Failure? <==> AskPrice(quote.value).Failure? || BidPrice(quote.value).Failure?)
    ensures quote.Some? && r.Success? ==>
      && r.value.Prices?
      && Success(r.value.ask) == AskPrice(quote.value)
      && Success(r.value.bid) == BidPrice(quote.value)
  {
    match quote
    case None => Success(NoDataFound)
    case Some(q) =>
      match (AskPrice(q), BidPrice(q))
      case (Success(ask), Success(bid)) => Success(Prices(bid, ask))
      case _ => Failure(TypeError)
  }

  /** The endpoint's ask price and the refreshed bond's ask price agree for the same quote. */
  lemma BidAskAgreesWithRefresh(sgb: Sgb, quote: Option<Quote>, now: int)
    requires RefreshBond(sgb, quote, now).Some? && BidAsk(quote).Success?
    ensures BidAsk(quote).value.Prices?
    ensures BidAsk(quote).value.ask == RefreshBond(sgb, quote, now).value.askPrice
  {
  }
}
