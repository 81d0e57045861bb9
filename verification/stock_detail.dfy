/** The single-symbol detail view: one chart response normalised into a flat
    record, with a buy/sell label and a trading-style label. */
module StockDetail {
  import opened Wrappers
  import opened YahooChart
  import opened CloseScan

  /** The label shown for the day's change: 'Compra', 'Venda' or 'Neutro'. */
  datatype Recommendation = Buy | Sell | Neutral {
    function Label(): string {
      match this
      case Buy => "Compra"
      case Sell => "Venda"
      case Neutral => "Neutro"
    }
  }

  /** The label shown for the day's range: 'Buy & Hold' or 'Day Trade'. */
  datatype Strategy = BuyAndHold | DayTrade {
    function Label(): string {
      match this
      case BuyAndHold => "Buy & Hold"
      case DayTrade => "Day Trade"
    }
  }

  /** The detail record; every field but `symbol` is optional, as in the source. */
  datatype Detail = Detail(
    symbol: string,
    name: Option<string>,
    price: Option<real>,
    change: Option<real>,
    currency: Option<string>,
    volume: Option<real>,
    open: Option<real>,
    high: Option<real>,
    low: Option<real>,
    previousClose: Option<real>,
    marketCap: Option<real>,
    recommendation: Option<Recommendation>,
    strategy: Option<Strategy>)

  /** The fail-soft result `{ symbol }`. */
  function SymbolOnly(symbol: string): Detail {
    Detail(symbol, None, None, None, None, None, None, None, None, None, None, None, None)
  }

  /** The source tests `change && change > 0`; the truthiness test is
      redundant, so the label depends only on the sign of a defined change. */
  function Recommend(change: Option<real>): (r: Recommendation)
    ensures r.Label() == "Compra" <==> change.Some? && change.value > 0.0
    ensures r.Label() == "Venda" <==> change.Some? && change.value < 0.0
    ensures r.Label() == "Neutro" <==> change.None? || change.value == 0.0
  {
    if Truthy(change) && change.value > 0.0 then Buy
    else if Truthy(change) && change.value < 0.0 then Sell
    else Neutral
  }

  /** 'Day Trade' when `(high - low) / price > 0.02`, computed only when high,
      low and price are all truthy. */
  function ChooseStrategy(high: Option<real>, low: Option<real>, price: Option<real>): (s: Strategy)
    ensures s.Label() == "Day Trade" ==> Truthy(high) && Truthy(low) && Truthy(price)
  {
    if Truthy(high) && Truthy(low) && Truthy(price) && (high.value - low.value) / price.value > 0.02
    then DayTrade
    else BuyAndHold
  }

  /** For a positive price, the volatility test is "the day's range exceeds 2% of the price". */
  lemma DayTradeIffWideRange(high: real, low: real, price: real)
    requires high != 0.0 && low != 0.0 && price > 0.0
    ensures ChooseStrategy(Some(high), Some(low), Some(price)) == DayTrade <==> high - low > 0.02 * price
  {
    var ratio := (high - low) / price;
    assert ratio * price == high - low;
    if ratio > 0.02 {
      assert ratio * price > 0.02 * price;
    } else {
      assert ratio * price <= 0.02 * price;
    }
  }

  /** `symbol.split('.')[0]`: the part of the symbol before its first dot. */
  function BeforeFirstDot(symbol: string): (r: string)
    ensures r <= symbol
    ensures '.' !in r
    ensures |r| < |symbol| ==> symbol[|r|] == '.'
  {
    if |symbol| == 0 || symbol[0] == '.' then ""
    else [symbol[0]] + BeforeFirstDot(symbol[1..])
  }

  /** `meta.shortName || meta.longName || symbol.split('.')[0]`. */
  function DisplayName(meta: Meta, symbol: string): string {
    if TruthyText(meta.shortName) then meta.shortName.value
    else if TruthyText(meta.longName) then meta.longName.value
    else BeforeFirstDot(symbol)
  }

  /** The scan of a complete response. */
  function ScanOf(response: Response): Scan
    requires IsComplete(response)
  {
    ScanCloses(QuoteOf(response).close, HasTimestamps(response), MetaOf(response).chartPreviousClose)
  }

  /** `getStockDetail(symbol)` given what the request for `symbol` yielded. */
  function GetStockDetail(symbol: string, response: Response): (d: Detail)
    ensures d.symbol == symbol
    // fail-soft: exactly `{ symbol }` on every failure, and never on success
    ensures d == SymbolOnly(symbol) <==> !IsComplete(response)
    // the change is defined iff both prices are, and is their difference
    ensures d.change.Some? <==> d.price.Some? && d.previousClose.Some?
    ensures d.change.Some? ==> d.change.value == d.price.value - d.previousClose.value
    // the previous close is the scan's: the entry before the latest close, else a truthy provider value
    ensures IsComplete(response) ==> d.previousClose == ScanOf(response).previous
    // the provider's currency and market cap are passed through
    ensures IsComplete(response) ==> d.currency == MetaOf(response).currency && d.marketCap == MetaOf(response).marketCap
    // the trading style is judged on the reported high, low and price
    ensures IsComplete(response) ==> d.strategy == Some(ChooseStrategy(d.high, d.low, d.price))
    // without a latest close nothing price-related is reported
    ensures d.price.None? ==>
              d.change.None? && d.previousClose.None? && d.open.None? && d.high.None?
              && d.low.None? && d.volume.None?
    // the latest close and its open/high/low/volume all come from the newest non-null index
    ensures IsComplete(response) ==>
              forall i: nat {:trigger IsLatest(QuoteOf(response).close.value, i)} ::
                QuoteOf(response).close.Some? && HasTimestamps(response)
                && IsLatest(QuoteOf(response).close.value, i) ==>
                  && d.price == QuoteOf(response).close.value[i]
                  && d.open == Cell(QuoteOf(response).open, i)
                  && d.high == Cell(QuoteOf(response).high, i)
                  && d.low == Cell(QuoteOf(response).low, i)
                  && d.volume == Cell(QuoteOf(response).volume, i)
    ensures IsComplete(response) ==>
              (d.price.None? <==>
                 QuoteOf(response).close.None? || !HasTimestamps(response)
                 || forall j :: 0 <= j < |QuoteOf(response).close.value| ==> QuoteOf(response).close.value[j].None?)
    // the recommendation follows the sign of the change
    ensures IsComplete(response) ==>
              && d.recommendation.Some?
              && (d.recommendation.value == Buy <==> d.change.Some? && d.change.value > 0.0)
              && (d.recommendation.value == Sell <==> d.change.Some? && d.change.value < 0.0)
    // the name falls back from shortName to longName to the symbol's stem
    ensures IsComplete(response) ==>
              d.name == Some(
                if TruthyText(MetaOf(response).shortName) then MetaOf(response).shortName.value
                else if TruthyText(MetaOf(response).longName) then MetaOf(response).longName.value
                else BeforeFirstDot(symbol))
  {
    if !IsComplete(response) then SymbolOnly(symbol)
    else
      var meta := MetaOf(response);
      var quote := QuoteOf(response);
      var scan := ScanOf(response);
      var at := (column: Column) => if scan.index.Some? then Cell(column, scan.index.value) else None;
      var change := Change(scan);
      Detail(
        symbol,
        Some(DisplayName(meta, symbol)),
        scan.latest,
        change,
        meta.currency,
        at(quote.volume),
        at(quote.open),
        at(quote.high),
        at(quote.low),
        scan.previous,
        meta.marketCap,
        Some(Recommend(change)),
        Some(ChooseStrategy(at(quote.high), at(quote.low), scan.latest)))
  }
}
