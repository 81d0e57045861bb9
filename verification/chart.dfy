/** The parts of the quote provider's chart response that the server actions
    read, after JSON decoding, and JavaScript's truthiness on them. */
module YahooChart {
  import opened Wrappers

  /** A numeric JSON field as JavaScript sees it: absent (`undefined`),
      `null`, or a number. Only `regularMarketPrice` needs the distinction,
      because the alert check feeds it to `>` and `<`, where `undefined`
      and `null` behave differently. */
  datatype JsonNumber = Missing | Null | Number(value: real) {

    /** The field as an `Option`, where `None` stands for both `null` and
        `undefined`. As the right operand of `??` the field passes through
        unchanged, so a `null` and an `undefined` price are both "no price". */
    function AsOption(): Option<real> {
      if Number? then Some(value) else None
    }
  }

  /** One indicator column (close, open, high, low or volume): the array
      itself may be missing, and each entry may be `null`. */
  type Column = Option<seq<Option<real>>>

  datatype Meta = Meta(
    regularMarketPrice: JsonNumber,
    chartPreviousClose: Option<real>,
    currency: Option<string>,
    shortName: Option<string>,
    longName: Option<string>,
    marketCap: Option<real>)

  /** `indicators.quote[0]`. */
  datatype Quote = Quote(close: Column, open: Column, high: Column, low: Column, volume: Column)

  /** `chart.result[0]`; `indicators` is `None` when `indicators`,
      `indicators.quote` or `indicators.quote[0]` is missing. */
  datatype ChartResult = ChartResult(meta: Option<Meta>, timestamp: Option<seq<int>>, indicators: Option<Quote>)

  /** What one request for one symbol yields. `Failed` covers a thrown
      `fetch`, a non-ok status, a body that does not decode and a payload
      whose `chart.error` is set: every consumer treats them alike.
      `Chart(None)` is a payload without `chart.result[0]`. */
  datatype Response = Failed | Chart(result: Option<ChartResult>)

  /** The payload passed the checks of the alert evaluator: a result with `meta`. */
  predicate HasMeta(r: Response) {
    r.Chart? && r.result.Some? && r.result.value.meta.Some?
  }

  /** The payload passed the checks of the dashboard and the detail view:
      a result with `meta` and `indicators.quote[0]`. */
  predicate IsComplete(r: Response) {
    HasMeta(r) && r.result.value.indicators.Some?
  }

  function MetaOf(r: Response): Meta
    requires HasMeta(r)
  {
    r.result.value.meta.value
  }

  function QuoteOf(r: Response): Quote
    requires IsComplete(r)
  {
    r.result.value.indicators.value
  }

  /** Whether `result.timestamp` is present (any array is truthy, even an empty one). */
  predicate HasTimestamps(r: Response)
    requires IsComplete(r)
  {
    r.result.value.timestamp.Some?
  }

  /** JavaScript truthiness of a number that may be null: present and non-zero. */
  predicate Truthy(x: Option<real>) {
    x.Some? && x.value != 0.0
  }

  /** JavaScript truthiness of a string that may be null: present and non-empty. */
  predicate TruthyText(s: Option<string>) {
    s.Some? && |s.value| > 0
  }

  /** `column?.[i] ?? null`: a missing column or an index past its end reads as null. */
  function Cell(column: Column, i: nat): Option<real> {
    if column.Some? && i < |column.value| then column.value[i] else None
  }
}
