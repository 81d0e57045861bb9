/** The dashboard: a fixed list of stocks, each mapped to a quote entry in
    the list's own order. */
module Dashboard {
  import opened Wrappers
  import opened YahooChart
  import opened CloseScan
  import StockDetail

  datatype StockInfo = StockInfo(symbol: string, name: string)

  /** One dashboard row: the listed stock plus whatever price data arrived. */
  datatype StockData = StockData(
    symbol: string,
    name: string,
    price: Option<real>,
    change: Option<real>,
    currency: Option<string>)

  /** The stocks shown on the dashboard, in display order. */
  const DashboardStocks: seq<StockInfo> := [
    StockInfo("PETR4.SA", "Petrobras PN"),
    StockInfo("VALE3.SA", "Vale ON"),
    StockInfo("ITUB4.SA", "Itaú Unibanco PN"),
    StockInfo("BBDC4.SA", "Bradesco PN"),
    StockInfo("ABEV3.SA", "Ambev ON"),
    StockInfo("UGPA3.SA", "Ultrapar ON")
  ]

  /** The fail-soft entry `{ ...stock }`. */
  function Bare(stock: StockInfo): StockData {
    StockData(stock.symbol, stock.name, None, None, None)
  }

  /** The entry for one stock given what the request for its symbol yielded. */
  function StockEntry(stock: StockInfo, response: Response): (d: StockData)
    // the listed symbol and name survive every path
    ensures d.symbol == stock.symbol && d.name == stock.name
    ensures !IsComplete(response) ==> d == Bare(stock)
    // the price is the latest non-null close, else the provider's market price
    ensures IsComplete(response) ==>
              d.price == StockDetail.ScanOf(response).latest.Or(MetaOf(response).regularMarketPrice.AsOption())
    // the change needs a latest close from the scan, not the market-price fallback
    ensures IsComplete(response) ==>
              (d.change.Some? <==> StockDetail.ScanOf(response).latest.Some? && StockDetail.ScanOf(response).previous.Some?)
    ensures IsComplete(response) ==> d.currency == MetaOf(response).currency
    ensures d.change.Some? ==>
              IsComplete(response) && d.price.Some?
              && d.change.value == d.price.value - StockDetail.ScanOf(response).previous.value
  {
    if !IsComplete(response) then Bare(stock)
    else
      var meta := MetaOf(response);
      var scan := StockDetail.ScanOf(response);
      StockData(
        stock.symbol,
        stock.name,
        scan.latest.Or(meta.regularMarketPrice.AsOption()),
        Change(scan),
        meta.currency)
  }

  /** The entries for `stocks`, one per stock, in the same order. */
  function StockEntries(stocks: seq<StockInfo>, fetch: string -> Response): (r: seq<StockData>)
    ensures |r| == |stocks|
    ensures forall i :: 0 <= i < |stocks| ==>
              && r[i].symbol == stocks[i].symbol
              && r[i].name == stocks[i].name
              && r[i] == StockEntry(stocks[i], fetch(stocks[i].symbol))
  {
    if |stocks| == 0 then []
    else [StockEntry(stocks[0], fetch(stocks[0].symbol))] + StockEntries(stocks[1..], fetch)
  }

  /** `getDashboardStockData()`, with the network replaced by `fetch`. */
  function GetDashboardStockData(fetch: string -> Response): (r: seq<StockData>)
    ensures |r| == |DashboardStocks|
    ensures forall i :: 0 <= i < |r| ==>
              r[i].symbol == DashboardStocks[i].symbol && r[i].name == DashboardStocks[i].name
    // each entry is built from the lookup of its own stock alone
    ensures forall i :: 0 <= i < |r| ==> r[i] == StockEntry(DashboardStocks[i], fetch(DashboardStocks[i].symbol))
  {
    StockEntries(DashboardStocks, fetch)
  }

  /** When every close is null the market price is shown, but no change is. */
  lemma FallbackPriceHasNoChange(stock: StockInfo, response: Response)
    requires IsComplete(response)
    requires QuoteOf(response).close.Some?
    requires forall j :: 0 <= j < |QuoteOf(response).close.value| ==> QuoteOf(response).close.value[j].None?
    requires MetaOf(response).regularMarketPrice.Number?
    ensures StockEntry(stock, response).price == Some(MetaOf(response).regularMarketPrice.value)
    ensures StockEntry(stock, response).change == None
  {
  }

  /** The dashboard and the detail view agree on a stock's change, and on its
      price whenever the close series yields one. */
  lemma AgreesWithDetail(stock: StockInfo, response: Response)
    ensures StockEntry(stock, response).change == StockDetail.GetStockDetail(stock.symbol, response).change
    ensures StockDetail.GetStockDetail(stock.symbol, response).price.Some? ==>
              StockEntry(stock, response).price == StockDetail.GetStockDetail(stock.symbol, response).price
  {
  }
}
