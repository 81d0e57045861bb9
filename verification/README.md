# bolsa-de-valores: server actions, modelled in Dafny

This project models the three server-action files of a small Brazilian stock
dashboard (B3 tickers such as `PETR4.SA`). Quotes come from a public chart
endpoint, and price alerts live in a SQL table:

- **alertActions.ts**: the price-alert store and the alert evaluator.
  - `createAlert` inserts a row.
  - `getActiveAlerts` lists the active rows, newest first.
  - `markAlertAsInactive` clears a row's active flag.
  - `checkAlerts` runs one evaluation pass. It reads the pending alerts (active, not yet triggered) and groups them by symbol. It looks up each symbol once and skips symbols whose lookup fails. It stamps `last_checked_at` on every alert of a quoted symbol. It stamps `triggered_at` on those whose strict threshold test passes, and returns copies of those.
- **stockDetailActions.ts**: `getStockDetail(symbol)` turns one chart response into a flat detail record. The record has the latest price, previous close, change, open/high/low/volume, a name, a buy/sell label and a trading-style label. On any failure it returns exactly `{ symbol }`.
- **stockActions.ts**: `getDashboardStockData()` maps a fixed list of six stocks to price entries, in list order. A failure falls back to the bare `{ symbol, name }`.

The model is purely functional:

| file | module | contents |
|---|---|---|
| `wrappers.dfy` | `Wrappers` | `Option`, which stands for `null`/`undefined`, and `Result`, which stands for a thrown error |
| `sequences.dfy` | `Sequences` | a generic order-preserving `Filter` |
| `chart.dfy` | `YahooChart` | the decoded chart payload; JavaScript truthiness on numbers and strings |
| `close_scan.dfy` | `CloseScan` | the backward scan for the latest and previous close, shared by both quote actions |
| `stock_detail.dfy` | `StockDetail` | the detail view |
| `dashboard.dfy` | `Dashboard` | the dashboard |
| `alert_store.dfy` | `AlertStore` | the `Alerts` table (rows in insertion order plus the next id) and the three store operations |
| `alert_check.dfy` | `AlertCheck` | the evaluation pass |

The network and the database become parameters:

- A quote lookup is a function `fetch: string -> Response`.
- Whether a store read or write succeeds is a boolean.
- `CURRENT_TIMESTAMP` and `new Date()` are two timestamp parameters (`storeNow`, `clientNow`).

`CheckAlerts` is written as the loops of the source: grouping, one lookup per group, and per alert a touch and then a conditional trigger. It is proved equal to a row-by-row reference, `EvaluateRows`.

Two points where the code does something a reader might not expect:

- **A `null` price does fire alerts.** `checkAlerts` compares `regularMarketPrice` with `>` and `<`. An absent price (`undefined`) never fires. A `null` price compares as 0, so it fires every `below` alert with a positive target. The model keeps the JavaScript semantics (`AlertCheck.ToNumber`), and `AlertCheck.StrictThresholds` states both cases.
- **The previous price has only one fallback.** If the entry just before the latest close is null, the code does not scan further back. It uses a truthy `chartPreviousClose` or nothing at all (`CloseScan.NoFurtherBackScan`).

## Model

| member | source | states |
|---|---|---|
| AlertStore.CreateAlert | alertActions.ts:25-40 | A failed write is exactly the "Failed to create alert." error. On success, one row is appended and every old row is kept. The new row carries the submitted symbol, target and condition. It is active and untriggered, has never been checked, and its id differs from every existing id. The primary-key invariant is preserved. |
| AlertStore.CreateThenListActive | alertActions.ts:30-51 | After a successful create, the active list contains a pending alert matching the submitted fields, with an id no earlier row has. |
| AlertStore.SortNewestFirst | alertActions.ts:47-49 | `ORDER BY created_at DESC` yields a permutation of its input with non-increasing creation times. |
| AlertStore.GetActiveAlerts | alertActions.ts:42-56 | A failed read gives `[]`. Otherwise the result is newest first and holds exactly the active rows, each as often as in the table (multiset equality). No inactive row is ever listed. |
| AlertStore.MarkAlertAsInactive | alertActions.ts:153-167 | A failed write is exactly the "Failed to update alert." error. Otherwise every row keeps all fields but `is_active`. A row ends up active iff it was active and its id is not the given one. The next id is unchanged. |
| AlertStore.DeactivateHides | alertActions.ts:158-160 | After deactivation, no row with that id is listed as active or is pending, whatever its trigger state. Every other active row is still listed. |
| AlertStore.FilterKeepsDistinctIds | alertActions.ts:64-66 | A selection from a table with distinct ids has distinct ids, so the pending alerts are identified by their ids. |
| AlertCheck.StrictThresholds | alertActions.ts:120-126 | `above` fires iff the price is strictly greater than the target, and `below` iff it is strictly smaller. Equality and an absent price never fire. A `null` price is compared as 0. |
| AlertCheck.AddToGroupsSymbols | alertActions.ts:75-77 | Adding an alert adds its symbol as a group key if the symbol is new, and no other key. |
| AlertCheck.AddToGroupsAlerts | alertActions.ts:75-78 | Adding an alert appends it to its own symbol's group and to no other group. |
| AlertCheck.GroupBySymbolSpec | alertActions.ts:73-79 | The grouping has one group per distinct pending symbol, with distinct keys and no empty group. Each group is exactly that symbol's pending alerts, in read order. |
| AlertCheck.GroupsPartition | alertActions.ts:73-79 | The concatenated groups are a permutation of the pending alerts: each alert lands in exactly one group. |
| AlertCheck.CheckGroup | alertActions.ts:110-140 | For a quoted symbol, every alert of its group is touched. Those whose condition holds at the symbol's price are also marked triggered. Their stamped copies, and nothing else, are appended to the returned list. Rows of other symbols are left as they were, and earlier entries of the returned list are kept. |
| AlertCheck.CheckGroups | alertActions.ts:84-144 | The loop makes exactly one lookup per group, in group order. A symbol whose lookup lacks `result` or `meta` is skipped with its alerts untouched. The alerts dealt with are exactly those of quoted symbols. |
| AlertCheck.PassComplete | alertActions.ts:84-146 | Once every group is done, the table equals the row-by-row reference pass. The returned list holds the stamped copy of a pending alert iff that alert fires. |
| AlertCheck.CheckAlerts | alertActions.ts:58-151 | A failed read, or an empty pending set, leaves the table unchanged and returns `[]` without lookups. Otherwise the table afterwards equals the row-by-row reference `EvaluateRows`, and the primary key still holds. The lookups are exactly the distinct pending symbols, each looked up once. The returned list holds, for each pending alert, its copy with `triggered_at` set iff it fires, and nothing else; ids in it are distinct. |
| AlertCheck.PassRowEffects | alertActions.ts:113-132 | In a pass, a pending alert of a quoted symbol gets `last_checked_at` whether or not it fires, and gets `triggered_at` exactly when it fires. Every other row is unchanged. No pass changes an alert's id, symbol, target, condition, creation time or active flag. |
| AlertCheck.FailureIsolated | alertActions.ts:91-107 | What a pass does to an alert depends only on the lookup of its own symbol, so a failed lookup of another symbol has no effect on it. |
| AlertCheck.NoRetrigger | alertActions.ts:128-132 | An alert triggered by one pass is no longer pending. Any later pass leaves its row as it is, and no alert pending after the pass shares its id. |
| AlertCheck.AboveHundredScenario | alertActions.ts:120-132 | A pending `above 100` alert quoted at 105 is triggered, touched and stays active. Quoted at exactly 100, it is touched only. |
| CloseScan.LatestIndex | stockDetailActions.ts:63-66 | The backward scan stops at the newest index holding a non-null close. It finds none iff every close is null. |
| CloseScan.LatestIsUnique | stockDetailActions.ts:64-66 | Only one index can be the newest non-null close. |
| CloseScan.ScanCloses | stockDetailActions.ts:63-82 | The scan runs only when both the close column and the timestamps are present. The latest price is the newest non-null close. The previous price is the entry just before it when that is non-null, else a truthy `chartPreviousClose`, else absent. Without a latest price there is no previous price. |
| CloseScan.NoFurtherBackScan | stockDetailActions.ts:73-78 | In `[10, null, 12]`, 10 is never used as the previous price. Only a truthy provider previous close can stand in; a zero one cannot. |
| StockDetail.Recommend | stockDetailActions.ts:91-97 | 'Compra' iff the change is defined and positive. 'Venda' iff it is defined and negative. 'Neutro' iff it is undefined or zero. |
| StockDetail.ChooseStrategy | stockDetailActions.ts:101-107 | 'Day Trade' is only possible when high, low and price are all truthy. |
| StockDetail.DayTradeIffWideRange | stockDetailActions.ts:102-106 | With non-zero high and low and a positive price, the label is 'Day Trade' iff the day's range exceeds 2% of the price. |
| StockDetail.BeforeFirstDot | stockDetailActions.ts:111 | `symbol.split('.')[0]` is the longest dot-free prefix of the symbol: it contains no dot and is followed by a dot whenever it is shorter than the symbol. |
| StockDetail.GetStockDetail | stockDetailActions.ts:32-133 | See the list below this table. |
| Dashboard.StockEntry | stockActions.ts:28-92 | The listed symbol and name survive every path, and any failure gives the bare entry. The price is the latest non-null close, else `regularMarketPrice`. The currency is passed through from `meta`. The change is defined iff the scan found both a latest and a previous close, and equals their difference; so a fallback price has no change. |
| Dashboard.StockEntries | stockActions.ts:27-93 | One entry per listed stock, in the same order. Entry *i* depends only on the lookup of stock *i*'s own symbol. |
| Dashboard.GetDashboardStockData | stockActions.ts:26-98 | One entry per dashboard stock, in display order, each keeping that stock's symbol and name. Entry *i* is exactly `StockEntry` of stock *i* and the lookup of its own symbol. |
| Dashboard.FallbackPriceHasNoChange | stockActions.ts:76-85 | When every close is null but `regularMarketPrice` is a number, the entry shows that price and no change. |
| Dashboard.AgreesWithDetail | stockActions.ts:57-80 | The dashboard and the detail view compute the same change for a stock. They show the same price whenever the close series yields one. |

What `StockDetail.GetStockDetail` states:

- It returns exactly `{ symbol }` iff the response failed or lacks `meta` or `indicators.quote[0]`.
- The change is defined iff price and previous close are, and equals their difference.
- The previous close is the scan's previous price: the entry just before the latest close when non-null, else a truthy `chartPreviousClose`.
- Currency and market cap are passed through from `meta`.
- The trading style is `ChooseStrategy` applied to the reported high, low and price.
- With no latest close, no price-related field is set.
- Price, open, high, low and volume all come from the newest non-null close index.
- The price is absent iff closes or timestamps are missing or every close is null.
- The recommendation follows the sign of the change.
- The name falls back from `shortName` to `longName` to the symbol's stem.

## Left out

- **HTTP and JSON.** `fetch`, the URL strings, the `response.ok`/`statusText` checks, JSON decoding and the `chart.error` payload are left out. Each lookup is an injected `Response`. Every way a lookup can fail, including a thrown exception and a missing `chart.result[0]`, behaves identically in all three actions, so they collapse to `Failed`/`Chart(None)`.
- **One clock reading per pass.** Every `CURRENT_TIMESTAMP` write of a pass is stamped with the single `storeNow`, and every returned copy with the single `clientNow`. In the source, each statement reads the clock anew across several network round-trips, so touch and trigger times differ within a pass. No stated property depends on those times being equal.
- **The database binding.** The D1 binding, the SQL text and `CURRENT_TIMESTAMP` are left out. The store is a value, and timestamps are opaque naturals supplied by the caller. The table schema is not part of this model. The column defaults the `INSERT` relies on are taken to be: id = next id, `is_active` = true, `created_at` = now, and the two other timestamps null.
- `console` logging.
- **Concurrency.** `Promise.all` in the dashboard is modelled as a sequential, order-preserving map. The lookups are independent, so only the order of results matters.
- **Store errors in a pass.** A store write that fails part-way through `checkAlerts` is left out. In the source, the per-symbol `catch` would swallow it and leave that symbol partly processed. The model takes every write in a pass to succeed; only the initial read may fail.
- **Object key order.** For integer-like keys, JavaScript enumerates `for ... in` in numeric order. The model visits groups in order of first appearance instead. This affects only the order of lookups and of the returned list, not their contents.
- **Inherited property names as symbols.** A pending alert whose symbol names a property every object inherits (`constructor`, `toString`, `__proto__`, ...) finds a truthy value in the fresh grouping object. The `push` onto it then throws inside the grouping `forEach` (alertActions.ts:74-79). The outer `catch` (alertActions.ts:147-150) turns that into `[]`, with no lookups and no writes for any symbol. This happens on every pass while such an alert is pending, so none of the pending alerts can ever trigger. The model treats such a symbol like any other and does not reproduce this abort.
- **The pending `SELECT`** is read in table order, because SQL does not specify one.
- AlertStore.SortNewestFirst: ties in `created_at` keep table order. SQL leaves their order unspecified, so this is one admissible order, not the only one.
- **Floating point.**
  - `changePercent` is left out: float division, and `Infinity`/`NaN` when the previous close is 0.
  - StockDetail.ChooseStrategy is stated over exact reals, so float rounding of the volatility ratio is not modelled.
- **Number types.** Prices and volumes are reals; ids are unbounded naturals.
- **The user interface.** The React components, the route pages and the alert form's `parseFloat` validation are left out.
