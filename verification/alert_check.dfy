/** One pass of `checkAlerts`: pending alerts grouped by symbol, one quote
    lookup per symbol, every alert of a quoted symbol touched, and those whose
    strict threshold test passes stamped as triggered and returned. */
module AlertCheck {
  import opened Wrappers
  import opened Sequences
  import opened YahooChart
  import opened AlertStore

  /** JavaScript's conversion of the price before `>` or `<`: `undefined`
      becomes NaN, against which every comparison is false, and `null` becomes 0. */
  function ToNumber(x: JsonNumber): Option<real> {
    match x
    case Missing => None
    case Null => Some(0.0)
    case Number(v) => Some(v)
  }

  /** The threshold test of one alert against the current price. */
  predicate ConditionMet(condition: Condition, price: JsonNumber, target: real) {
    match ToNumber(price)
    case None => false
    case Some(p) => (condition == Above && p > target) || (condition == Below && p < target)
  }

  /** An `above` alert fires iff the price is strictly greater, a `below` alert
      iff strictly smaller; equality and an absent price never fire, while a
      `null` price is compared as 0. */
  lemma StrictThresholds(price: real, target: real)
    ensures ConditionMet(Above, Number(price), target) <==> price > target
    ensures ConditionMet(Below, Number(price), target) <==> price < target
    ensures !ConditionMet(Above, Number(target), target) && !ConditionMet(Below, Number(target), target)
    ensures !ConditionMet(Above, Missing, target) && !ConditionMet(Below, Missing, target)
    // a `null` price compares as 0, so it does fire a `below` alert with a positive target
    ensures ConditionMet(Below, Null, target) <==> target > 0.0
    ensures ConditionMet(Above, Null, target) <==> target < 0.0
  {
  }

  /** `result.meta.regularMarketPrice` when the lookup passed its checks;
      `None` when the symbol is skipped. */
  function MarketPrice(response: Response): Option<JsonNumber> {
    if HasMeta(response) then Some(MetaOf(response).regularMarketPrice) else None
  }

  /** Alert `a` fires in a pass that looks prices up with `fetch`. */
  predicate Fires(a: Alert, fetch: string -> Response) {
    match MarketPrice(fetch(a.symbol))
    case None => false
    case Some(price) => ConditionMet(a.condition, price, a.targetPrice)
  }

  /** The copy returned to the caller: the record as read, with `triggered_at` set. */
  function Stamp(a: Alert, now: Timestamp): Alert {
    a.(triggeredAt := Some(now))
  }

  /** What one pass does to one row, stated per row: a pending row whose
      symbol was quoted is touched, and also marked triggered if it fires;
      every other row is left alone. */
  function Evaluate(row: Alert, fetch: string -> Response, now: Timestamp): Alert {
    if IsPending(row) && HasMeta(fetch(row.symbol)) then
      row.(lastCheckedAt := Some(now),
           triggeredAt := if Fires(row, fetch) then Some(now) else row.triggeredAt)
    else row
  }

  /** The table after one pass, row by row. */
  function EvaluateRows(rows: seq<Alert>, fetch: string -> Response, now: Timestamp): (r: seq<Alert>)
    ensures |r| == |rows|
    ensures forall i :: 0 <= i < |rows| ==> r[i] == Evaluate(rows[i], fetch, now)
  {
    seq(|rows|, i requires 0 <= i < |rows| => Evaluate(rows[i], fetch, now))
  }

  // ---------------------------------------------------------------------
  // Grouping by symbol
  // ---------------------------------------------------------------------

  /** The alerts of one symbol, in the order they were read. */
  datatype Group = Group(symbol: string, alerts: seq<Alert>)

  /** The alerts of `alerts` whose symbol is `symbol`, in their original order. */
  function OfSymbol(alerts: seq<Alert>, symbol: string): (r: seq<Alert>)
    ensures forall a :: a in r <==> a in alerts && a.symbol == symbol
  {
    Filter(alerts, (a: Alert) => a.symbol == symbol)
  }

  lemma OfSymbolSnoc(alerts: seq<Alert>, a: Alert, symbol: string)
    ensures OfSymbol(alerts + [a], symbol) == OfSymbol(alerts, symbol) + (if a.symbol == symbol then [a] else [])
  {
    FilterSnoc(alerts, a, (b: Alert) => b.symbol == symbol);
  }

  function Symbols(groups: seq<Group>): (r: seq<string>)
    ensures |r| == |groups|
    ensures forall i :: 0 <= i < |groups| ==> r[i] == groups[i].symbol
  {
    if |groups| == 0 then [] else [groups[0].symbol] + Symbols(groups[1..])
  }

  predicate DistinctSymbols(groups: seq<Group>) {
    forall i, j :: 0 <= i < j < |groups| ==> groups[i].symbol != groups[j].symbol
  }

  predicate NonEmptyGroups(groups: seq<Group>) {
    forall i :: 0 <= i < |groups| ==> |groups[i].alerts| > 0
  }

  /** The alerts collected under `symbol`, or none if it has no group. */
  function AlertsOf(groups: seq<Group>, symbol: string): seq<Alert> {
    if |groups| == 0 then []
    else if groups[0].symbol == symbol then groups[0].alerts
    else AlertsOf(groups[1..], symbol)
  }

  lemma ConsDistinct(g: Group, groups: seq<Group>)
    requires DistinctSymbols(groups) && g.symbol !in Symbols(groups)
    ensures DistinctSymbols([g] + groups)
  {
    var r := [g] + groups;
    forall i, j | 0 <= i < j < |r|
      ensures r[i].symbol != r[j].symbol
    {
      if i == 0 {
        assert r[j].symbol == Symbols(groups)[j - 1];
      } else {
        assert r[i] == groups[i - 1] && r[j] == groups[j - 1];
      }
    }
  }

  /** The body of the grouping `forEach`: push onto the symbol's group,
      creating it at the end if the symbol is new. */
  function AddToGroups(groups: seq<Group>, a: Alert): seq<Group>
    decreases |groups|
  {
    if |groups| == 0 then [Group(a.symbol, [a])]
    else if groups[0].symbol == a.symbol then [Group(a.symbol, groups[0].alerts + [a])] + groups[1..]
    else [groups[0]] + AddToGroups(groups[1..], a)
  }

  /** Adding an alert adds its symbol, if new, and no other. */
  lemma {:induction false} AddToGroupsSymbols(groups: seq<Group>, a: Alert)
    ensures forall s :: s in Symbols(AddToGroups(groups, a)) <==> s in Symbols(groups) || s == a.symbol
    decreases |groups|
  {
    var r := AddToGroups(groups, a);
    if |groups| == 0 {
      assert Symbols(r) == [a.symbol];
    } else if groups[0].symbol == a.symbol {
      assert r[1..] == groups[1..];
      assert Symbols(r) == Symbols(groups);
    } else {
      AddToGroupsSymbols(groups[1..], a);
      assert r[1..] == AddToGroups(groups[1..], a);
      assert Symbols(r) == [groups[0].symbol] + Symbols(AddToGroups(groups[1..], a));
      assert Symbols(groups) == [groups[0].symbol] + Symbols(groups[1..]);
    }
  }

  /** Adding an alert appends it to its own symbol's alerts and to no other's. */
  lemma {:induction false} AddToGroupsAlerts(groups: seq<Group>, a: Alert, s: string)
    ensures AlertsOf(AddToGroups(groups, a), s) == AlertsOf(groups, s) + (if s == a.symbol then [a] else [])
    decreases |groups|
  {
    var r := AddToGroups(groups, a);
    if |groups| > 0 {
      if groups[0].symbol == a.symbol {
        assert r[1..] == groups[1..];
      } else {
        AddToGroupsAlerts(groups[1..], a, s);
        assert r[1..] == AddToGroups(groups[1..], a);
      }
    }
  }

  /** Adding an alert keeps the symbols distinct and the groups non-empty. */
  lemma {:induction false} AddToGroupsShape(groups: seq<Group>, a: Alert)
    requires DistinctSymbols(groups) && NonEmptyGroups(groups)
    ensures DistinctSymbols(AddToGroups(groups, a)) && NonEmptyGroups(AddToGroups(groups, a))
    decreases |groups|
  {
    var r := AddToGroups(groups, a);
    if |groups| > 0 {
      if groups[0].symbol == a.symbol {
        assert r[1..] == groups[1..];
        forall i, j | 0 <= i < j < |r|
          ensures r[i].symbol != r[j].symbol
        {
          assert groups[i].symbol != groups[j].symbol;
        }
      } else {
        var rest := AddToGroups(groups[1..], a);
        AddToGroupsShape(groups[1..], a);
        AddToGroupsSymbols(groups[1..], a);
        assert r == [groups[0]] + rest;
        assert groups[0].symbol !in Symbols(groups[1..]) by {
          forall k | 0 <= k < |groups| - 1
            ensures Symbols(groups[1..])[k] != groups[0].symbol
          {
            assert groups[k + 1].symbol != groups[0].symbol;
          }
        }
        ConsDistinct(groups[0], rest);
      }
    }
  }

  /** In groups with distinct symbols, each group holds everything collected under its symbol. */
  lemma {:induction false} GroupAt(groups: seq<Group>, i: nat)
    requires DistinctSymbols(groups) && i < |groups|
    ensures groups[i].alerts == AlertsOf(groups, groups[i].symbol)
    decreases i
  {
    if i > 0 {
      assert groups[0].symbol != groups[i].symbol;
      GroupAt(groups[1..], i - 1);
    }
  }

  /** `groups` is a grouping of `alerts` by symbol: one group per distinct
      symbol, none empty, each holding exactly that symbol's alerts in order. */
  ghost predicate GroupsOf(groups: seq<Group>, alerts: seq<Alert>) {
    && DistinctSymbols(groups)
    && NonEmptyGroups(groups)
    && (forall a :: a in alerts ==> a.symbol in Symbols(groups))
    && (forall s :: AlertsOf(groups, s) == OfSymbol(alerts, s))
  }

  lemma GroupStep(before: seq<Group>, init: seq<Alert>, last: Alert)
    requires GroupsOf(before, init)
    ensures GroupsOf(AddToGroups(before, last), init + [last])
  {
    var groups := AddToGroups(before, last);
    AddToGroupsShape(before, last);
    AddToGroupsSymbols(before, last);
    forall s
      ensures AlertsOf(groups, s) == OfSymbol(init + [last], s)
    {
      AddToGroupsAlerts(before, last, s);
      OfSymbolSnoc(init, last, s);
    }
  }

  /** The grouping loop over the pending alerts, in the order they were read. */
  function GroupBySymbol(alerts: seq<Alert>): seq<Group>
    decreases |alerts|
  {
    if |alerts| == 0 then []
    else AddToGroups(GroupBySymbol(alerts[..|alerts| - 1]), alerts[|alerts| - 1])
  }

  lemma {:induction false} GroupBySymbolGroups(alerts: seq<Alert>)
    ensures GroupsOf(GroupBySymbol(alerts), alerts)
    decreases |alerts|
  {
    if |alerts| > 0 {
      var init := alerts[..|alerts| - 1];
      var last := alerts[|alerts| - 1];
      GroupBySymbolGroups(init);
      GroupStep(GroupBySymbol(init), init, last);
      assert alerts == init + [last];
    }
  }

  /** The grouping loop gives each distinct symbol exactly one group, in
      order of first appearance, holding exactly that symbol's alerts in
      their original order; so one lookup per group is one per symbol. */
  lemma GroupBySymbolSpec(alerts: seq<Alert>)
    ensures DistinctSymbols(GroupBySymbol(alerts))
    ensures forall s :: s in Symbols(GroupBySymbol(alerts)) <==> exists a :: a in alerts && a.symbol == s
    ensures forall i :: 0 <= i < |GroupBySymbol(alerts)| ==>
              && |GroupBySymbol(alerts)[i].alerts| > 0
              && GroupBySymbol(alerts)[i].alerts == OfSymbol(alerts, GroupBySymbol(alerts)[i].symbol)
  {
    GroupBySymbolGroups(alerts);
    GroupsIndexed(GroupBySymbol(alerts), alerts);
  }

  /** What a grouping says group by group. */
  lemma GroupsIndexed(groups: seq<Group>, alerts: seq<Alert>)
    requires GroupsOf(groups, alerts)
    ensures forall s :: s in Symbols(groups) <==> exists a :: a in alerts && a.symbol == s
    ensures forall i :: 0 <= i < |groups| ==>
              |groups[i].alerts| > 0 && groups[i].alerts == OfSymbol(alerts, groups[i].symbol)
  {
    forall i | 0 <= i < |groups|
      ensures groups[i].alerts == OfSymbol(alerts, groups[i].symbol)
    {
      GroupAt(groups, i);
    }
    forall s | s in Symbols(groups)
      ensures exists a :: a in alerts && a.symbol == s
    {
      var i :| 0 <= i < |groups| && Symbols(groups)[i] == s;
      assert groups[i].alerts[0] in OfSymbol(alerts, s);
    }
  }

  /** All the groups' alerts, concatenated. */
  function Flatten(groups: seq<Group>): seq<Alert> {
    if |groups| == 0 then [] else groups[0].alerts + Flatten(groups[1..])
  }

  lemma {:induction false} AddToGroupsAddsOne(groups: seq<Group>, a: Alert)
    ensures multiset(Flatten(AddToGroups(groups, a))) == multiset(Flatten(groups)) + multiset{a}
    decreases |groups|
  {
    if |groups| > 0 {
      var r := AddToGroups(groups, a);
      if groups[0].symbol == a.symbol {
        assert r[1..] == groups[1..];
      } else {
        AddToGroupsAddsOne(groups[1..], a);
        assert r[1..] == AddToGroups(groups[1..], a);
      }
    }
  }

  /** The groups partition their input: concatenated, they are a permutation of it. */
  lemma {:induction false} GroupsPartition(alerts: seq<Alert>)
    ensures multiset(Flatten(GroupBySymbol(alerts))) == multiset(alerts)
    decreases |alerts|
  {
    if |alerts| > 0 {
      var init := alerts[..|alerts| - 1];
      var last := alerts[|alerts| - 1];
      var groups := GroupBySymbol(init);
      GroupsPartition(init);
      AddToGroupsAddsOne(groups, last);
      assert alerts == init + [last];
      calc {
        multiset(Flatten(GroupBySymbol(alerts)));
        multiset(Flatten(AddToGroups(groups, last)));
        multiset(Flatten(groups)) + multiset{last};
        multiset(init) + multiset{last};
        multiset(alerts);
      }
    }
  }

  // ---------------------------------------------------------------------
  // The evaluation pass
  // ---------------------------------------------------------------------

  /** A returned copy identifies the pending alert it was made from. */
  lemma StampIdentifies(a: Alert, b: Alert, now: Timestamp)
    requires IsPending(a) && IsPending(b) && Stamp(a, now) == Stamp(b, now)
    ensures a == b
  {
  }

  lemma AppendKeepsDistinctIds(xs: seq<Alert>, x: Alert)
    requires DistinctIds(xs)
    requires forall t :: t in xs ==> t.id != x.id
    ensures DistinctIds(xs + [x])
  {
    var r := xs + [x];
    forall i, j | 0 <= i < j < |r|
      ensures r[i].id != r[j].id
    {
      if j == |xs| {
        assert r[i] in xs;
      } else {
        assert r[i] == xs[i] && r[j] == xs[j];
      }
    }
  }

  /** A pass over a table with nothing pending leaves it as it is. */
  lemma NothingPendingNothingChanges(rows: seq<Alert>, fetch: string -> Response, now: Timestamp)
    requires Pending(rows) == []
    ensures EvaluateRows(rows, fetch, now) == rows
  {
    forall i | 0 <= i < |rows|
      ensures Evaluate(rows[i], fetch, now) == rows[i]
    {
      assert rows[i] in rows;
      assert rows[i] !in Pending(rows);
    }
  }

  /** A pass changes no id, so the primary key keeps holding. */
  lemma EvaluateKeepsValid(store: Store, fetch: string -> Response, now: Timestamp)
    requires ValidStore(store)
    ensures ValidStore(Store(EvaluateRows(store.rows, fetch, now), store.nextId))
  {
    var r := EvaluateRows(store.rows, fetch, now);
    assert forall i :: 0 <= i < |r| ==> r[i].id == store.rows[i].id;
  }

  /** `rows` is `original` after the pass has dealt with the alerts whose ids are in `done`. */
  ghost predicate RowsAfter(rows: seq<Alert>, original: seq<Alert>, done: set<nat>, fetch: string -> Response, now: Timestamp) {
    && |rows| == |original|
    && forall i :: 0 <= i < |rows| ==>
         rows[i] == if original[i].id in done then Evaluate(original[i], fetch, now) else original[i]
  }

  /** `triggered` holds a stamped copy of exactly the alerts in `done` that fire, once each. */
  ghost predicate ReturnedSoFar(triggered: seq<Alert>, pending: seq<Alert>, done: set<nat>, fetch: string -> Response, now: Timestamp) {
    && DistinctIds(triggered)
    && (forall t :: t in triggered ==>
          exists a :: a in pending && a.id in done && Fires(a, fetch) && t == Stamp(a, now))
    && (forall a :: a in pending && a.id in done && Fires(a, fetch) ==> Stamp(a, now) in triggered)
  }

  /** Touching a pending alert of a quoted symbol, and marking it triggered
      if it fires, brings its row to its state after the pass. */
  lemma RowsStep(original: seq<Alert>, rows: seq<Alert>, rows': seq<Alert>, done: set<nat>, a: Alert,
                 fetch: string -> Response, now: Timestamp)
    requires DistinctIds(original) && a in original && IsPending(a) && HasMeta(fetch(a.symbol))
    requires RowsAfter(rows, original, done, fetch, now)
    requires |rows'| == |rows|
    requires forall i :: 0 <= i < |rows| ==>
               rows'[i] == if rows[i].id == a.id
                           then rows[i].(lastCheckedAt := Some(now),
                                         triggeredAt := if Fires(a, fetch) then Some(now) else rows[i].triggeredAt)
                           else rows[i]
    ensures RowsAfter(rows', original, done + {a.id}, fetch, now)
  {
    forall i | 0 <= i < |rows|
      ensures rows'[i] == if original[i].id in done + {a.id} then Evaluate(original[i], fetch, now) else original[i]
    {
      assert rows[i].id == original[i].id;
      if original[i].id == a.id {
        SameIdSameRow(original, original[i], a);
      }
    }
  }

  /** Dealing with one more alert extends the returned list by its copy if it fires. */
  lemma ReturnedStep(triggered: seq<Alert>, pending: seq<Alert>, done: set<nat>, a: Alert,
                     fetch: string -> Response, now: Timestamp)
    requires DistinctIds(pending) && a in pending && a.id !in done
    requires ReturnedSoFar(triggered, pending, done, fetch, now)
    ensures ReturnedSoFar(triggered + (if Fires(a, fetch) then [Stamp(a, now)] else []), pending, done + {a.id}, fetch, now)
  {
    var triggered' := triggered + (if Fires(a, fetch) then [Stamp(a, now)] else []);
    forall b | b in pending && b.id in done + {a.id} && Fires(b, fetch)
      ensures Stamp(b, now) in triggered'
    {
      if b.id == a.id {
        SameIdSameRow(pending, a, b);
      }
    }
    if Fires(a, fetch) {
      forall t | t in triggered
        ensures t.id != a.id
      {
        var b :| b in pending && b.id in done && Fires(b, fetch) && t == Stamp(b, now);
      }
      AppendKeepsDistinctIds(triggered, Stamp(a, now));
    }
  }

  /** Dealing with the next alert of a group adds exactly that alert to those dealt with. */
  lemma DoneStep(pending: seq<Alert>, done: set<nat>, fetched: seq<string>, alerts: seq<Alert>, j: nat,
                 fetch: string -> Response)
    requires DistinctIds(pending) && j < |alerts| && alerts[j] in pending
    requires forall a :: a in pending ==>
               (a.id in done <==> (a.symbol in fetched && HasMeta(fetch(a.symbol))) || a in alerts[..j])
    ensures forall a :: a in pending ==>
              (a.id in done + {alerts[j].id} <==> (a.symbol in fetched && HasMeta(fetch(a.symbol))) || a in alerts[..j + 1])
  {
    assert alerts[..j + 1] == alerts[..j] + [alerts[j]];
    forall b | b in pending && b.id == alerts[j].id
      ensures b == alerts[j]
    {
      SameIdSameRow(pending, alerts[j], b);
    }
  }

  /** The body of the per-symbol loop once the symbol's quote has passed its
      checks: every alert of the group is touched, and those that fire are
      marked triggered and their stamped copies appended to the result. */
  method CheckGroup(original: seq<Alert>, pending: seq<Alert>, g: Group, price: JsonNumber,
                    fetched: seq<string>, rows: seq<Alert>, triggered: seq<Alert>, ghost done: set<nat>,
                    fetch: string -> Response, storeNow: Timestamp, clientNow: Timestamp)
    returns (rows': seq<Alert>, triggered': seq<Alert>, ghost done': set<nat>)
    requires DistinctIds(original) && pending == Pending(original)
    requires g.alerts == OfSymbol(pending, g.symbol) && g.symbol !in fetched
    requires HasMeta(fetch(g.symbol)) && price == MetaOf(fetch(g.symbol)).regularMarketPrice
    requires forall a :: a in pending ==> (a.id in done <==> a.symbol in fetched && HasMeta(fetch(a.symbol)))
    requires RowsAfter(rows, original, done, fetch, storeNow)
    requires ReturnedSoFar(triggered, pending, done, fetch, clientNow)
    ensures forall a :: a in pending ==> (a.id in done' <==> a.symbol in fetched + [g.symbol] && HasMeta(fetch(a.symbol)))
    ensures RowsAfter(rows', original, done', fetch, storeNow)
    ensures ReturnedSoFar(triggered', pending, done', fetch, clientNow)
    // only this symbol's rows change, and the returned list only grows
    ensures |rows'| == |rows| && forall i :: 0 <= i < |rows| && rows[i].symbol != g.symbol ==> rows'[i] == rows[i]
    ensures |triggered'| >= |triggered| && triggered'[..|triggered|] == triggered
  {
    FilterKeepsDistinctIds(original, IsPending);
    FilterKeepsDistinctIds(pending, (a: Alert) => a.symbol == g.symbol);
    rows', triggered', done' := rows, triggered, done;
    for j := 0 to |g.alerts|
      invariant forall a :: a in pending ==>
                  (a.id in done' <==> (a.symbol in fetched && HasMeta(fetch(a.symbol))) || a in g.alerts[..j])
      invariant RowsAfter(rows', original, done', fetch, storeNow)
      invariant ReturnedSoFar(triggered', pending, done', fetch, clientNow)
      invariant |triggered'| >= |triggered| && triggered'[..|triggered|] == triggered
    {
      var a := g.alerts[j];
      assert a in pending && a.symbol == g.symbol;
      assert a !in g.alerts[..j];
      var fires := ConditionMet(a.condition, price, a.targetPrice);
      assert fires == Fires(a, fetch);
      ghost var before := rows';
      rows' := UpdateWhereId(rows', a.id, (r: Alert) => r.(lastCheckedAt := Some(storeNow)));
      if fires {
        rows' := UpdateWhereId(rows', a.id, (r: Alert) => r.(triggeredAt := Some(storeNow)));
      }
      RowsStep(original, before, rows', done', a, fetch, storeNow);
      ReturnedStep(triggered', pending, done', a, fetch, clientNow);
      if fires {
        triggered' := triggered' + [Stamp(a, clientNow)];
      }
      DoneStep(pending, done', fetched, g.alerts, j, fetch);
      done' := done' + {a.id};
    }
    assert g.alerts[..|g.alerts|] == g.alerts;
    forall i | 0 <= i < |rows| && rows[i].symbol != g.symbol
      ensures rows'[i] == rows[i]
    {
      if IsPending(original[i]) {
        assert original[i] in pending;
      }
    }
  }

  /** Once every pending symbol has been looked up, the pass has produced the
      per-row table and the exact returned list. */
  lemma PassComplete(store: Store, rows: seq<Alert>, triggered: seq<Alert>, done: set<nat>, fetched: seq<string>,
                     fetch: string -> Response, storeNow: Timestamp, clientNow: Timestamp)
    requires ValidStore(store)
    requires forall a :: a in Pending(store.rows) ==> a.symbol in fetched
    requires forall a :: a in Pending(store.rows) ==> (a.id in done <==> a.symbol in fetched && HasMeta(fetch(a.symbol)))
    requires RowsAfter(rows, store.rows, done, fetch, storeNow)
    requires ReturnedSoFar(triggered, Pending(store.rows), done, fetch, clientNow)
    ensures rows == EvaluateRows(store.rows, fetch, storeNow)
    ensures ValidStore(Store(rows, store.nextId))
    ensures forall a :: a in Pending(store.rows) ==> (Stamp(a, clientNow) in triggered <==> Fires(a, fetch))
    ensures forall t :: t in triggered ==>
              exists a :: a in Pending(store.rows) && Fires(a, fetch) && t == Stamp(a, clientNow)
  {
    var pending := Pending(store.rows);
    forall i | 0 <= i < |rows|
      ensures rows[i] == Evaluate(store.rows[i], fetch, storeNow)
    {
      if IsPending(store.rows[i]) {
        assert store.rows[i] in pending;
      }
    }
    EvaluateKeepsValid(store, fetch, storeNow);
    forall a | a in pending && Stamp(a, clientNow) in triggered
      ensures Fires(a, fetch)
    {
      var b :| b in pending && b.id in done && Fires(b, fetch) && Stamp(a, clientNow) == Stamp(b, clientNow);
      StampIdentifies(a, b, clientNow);
    }
  }

  /** The per-symbol loop: one lookup per group, in group order; a group
      whose lookup fails is skipped, any other is handed to `CheckGroup`. */
  method CheckGroups(original: seq<Alert>, pending: seq<Alert>, groups: seq<Group>,
                     fetch: string -> Response, storeNow: Timestamp, clientNow: Timestamp)
    returns (rows: seq<Alert>, triggered: seq<Alert>, fetched: seq<string>, ghost done: set<nat>)
    requires DistinctIds(original) && pending == Pending(original)
    requires DistinctSymbols(groups)
    requires forall k :: 0 <= k < |groups| ==> groups[k].alerts == OfSymbol(pending, groups[k].symbol)
    ensures |fetched| == |groups| && forall m :: 0 <= m < |groups| ==> fetched[m] == groups[m].symbol
    ensures forall a :: a in pending ==> (a.id in done <==> a.symbol in fetched && HasMeta(fetch(a.symbol)))
    ensures RowsAfter(rows, original, done, fetch, storeNow)
    ensures ReturnedSoFar(triggered, pending, done, fetch, clientNow)
  {
    rows := original;
    triggered, fetched := [], [];
    done := {};
    for k := 0 to |groups|
      invariant |fetched| == k && forall m :: 0 <= m < k ==> fetched[m] == groups[m].symbol
      invariant forall a :: a in pending ==> (a.id in done <==> a.symbol in fetched && HasMeta(fetch(a.symbol)))
      invariant RowsAfter(rows, original, done, fetch, storeNow)
      invariant ReturnedSoFar(triggered, pending, done, fetch, clientNow)
    {
      var g := groups[k];
      assert g.symbol !in fetched;
      // the one lookup for this symbol
      var response := fetch(g.symbol);
      if HasMeta(response) {
        var price := MetaOf(response).regularMarketPrice;
        rows, triggered, done :=
          CheckGroup(original, pending, g, price, fetched, rows, triggered, done, fetch, storeNow, clientNow);
      }
      fetched := fetched + [g.symbol];
    }
  }

  /** `checkAlerts()`. The initial read of the pending alerts succeeds iff
      `readOk`; `fetch` stands for the quote request of each symbol, and
      `storeNow`/`clientNow` for the store's and the server's clocks. Yields
      the table after the pass, the alerts returned to the caller, and the
      symbols looked up, in lookup order. */
  method CheckAlerts(store: Store, readOk: bool, fetch: string -> Response, storeNow: Timestamp, clientNow: Timestamp)
    returns (updated: Store, triggered: seq<Alert>, fetched: seq<string>)
    requires ValidStore(store)
    // a failed read, or nothing pending, is an empty pass without lookups
    ensures !readOk ==> updated == store && triggered == [] && fetched == []
    ensures Pending(store.rows) == [] ==> updated == store && triggered == [] && fetched == []
    // the table afterwards: touched and possibly triggered pending rows of quoted symbols, nothing else
    ensures readOk ==> updated == Store(EvaluateRows(store.rows, fetch, storeNow), store.nextId)
    ensures ValidStore(updated)
    // exactly one lookup per distinct pending symbol
    ensures forall i, j :: 0 <= i < j < |fetched| ==> fetched[i] != fetched[j]
    ensures readOk ==> forall s :: s in fetched <==> exists a :: a in Pending(store.rows) && a.symbol == s
    // the returned list: one stamped copy of each pending alert that fires, and nothing else
    ensures readOk ==> forall a :: a in Pending(store.rows) ==> (Stamp(a, clientNow) in triggered <==> Fires(a, fetch))
    ensures forall t :: t in triggered ==>
              exists a :: a in Pending(store.rows) && Fires(a, fetch) && t == Stamp(a, clientNow)
    ensures DistinctIds(triggered)
  {
    if !readOk {
      return store, [], [];
    }
    var pending := Pending(store.rows);
    if |pending| == 0 {
      NothingPendingNothingChanges(store.rows, fetch, storeNow);
      return store, [], [];
    }
    FilterKeepsDistinctIds(store.rows, IsPending);
    var groups := GroupBySymbol(pending);
    GroupBySymbolSpec(pending);
    ghost var done;
    var rows;
    rows, triggered, fetched, done := CheckGroups(store.rows, pending, groups, fetch, storeNow, clientNow);
    assert fetched == Symbols(groups);
    PassComplete(store, rows, triggered, done, fetched, fetch, storeNow, clientNow);
    updated := Store(rows, store.nextId);
  }

  // ---------------------------------------------------------------------
  // Properties of passes
  // ---------------------------------------------------------------------

  /** What a pass does to each row: a pending row of a quoted symbol gets
      `last_checked_at`, and `triggered_at` exactly when it fires; any other
      row is left as it was; identity, threshold, creation time and the
      active flag never change. */
  lemma PassRowEffects(rows: seq<Alert>, fetch: string -> Response, now: Timestamp)
    ensures forall i :: 0 <= i < |rows| ==>
              var r := EvaluateRows(rows, fetch, now)[i];
              && r.(lastCheckedAt := rows[i].lastCheckedAt, triggeredAt := rows[i].triggeredAt) == rows[i]
              && (IsPending(rows[i]) && HasMeta(fetch(rows[i].symbol)) ==>
                    r.lastCheckedAt == Some(now) && (r.triggeredAt.Some? <==> Fires(rows[i], fetch)))
              && (!(IsPending(rows[i]) && HasMeta(fetch(rows[i].symbol))) ==> r == rows[i])
  {
  }

  /** A failed lookup for one symbol does not change what happens to the
      alerts of any other symbol. */
  lemma FailureIsolated(rows: seq<Alert>, fetch: string -> Response, fetch': string -> Response, now: Timestamp)
    ensures forall i :: 0 <= i < |rows| && fetch(rows[i].symbol) == fetch'(rows[i].symbol) ==>
              EvaluateRows(rows, fetch, now)[i] == EvaluateRows(rows, fetch', now)[i]
  {
  }

  /** Once a pass has triggered an alert it is no longer pending: no later
      pass touches its row again, and no later pass returns it again. */
  lemma NoRetrigger(rows: seq<Alert>, fetch: string -> Response, now: Timestamp,
                    fetch': string -> Response, later: Timestamp)
    requires DistinctIds(rows)
    ensures forall i :: 0 <= i < |rows| && IsPending(rows[i]) && Fires(rows[i], fetch) ==>
              && !IsPending(EvaluateRows(rows, fetch, now)[i])
              && EvaluateRows(EvaluateRows(rows, fetch, now), fetch', later)[i] == EvaluateRows(rows, fetch, now)[i]
    ensures forall a, b :: a in Pending(rows) && Fires(a, fetch) && b in Pending(EvaluateRows(rows, fetch, now)) ==>
              a.id != b.id
  {
    var after := EvaluateRows(rows, fetch, now);
    forall a, b | a in Pending(rows) && Fires(a, fetch) && b in Pending(after)
      ensures a.id != b.id
    {
      var i :| 0 <= i < |rows| && rows[i] == a;
      var j :| 0 <= j < |after| && after[j] == b;
      assert after[i].triggeredAt.Some?;
      assert i != j;
      assert after[j].id == rows[j].id;
    }
  }

  /** An active `above 100` alert on a symbol quoted at 105 is stamped and
      stays active; quoted at exactly 100 it is only touched. */
  lemma AboveHundredScenario(a: Alert, fetch: string -> Response, now: Timestamp)
    requires IsPending(a) && a.condition == Above && a.targetPrice == 100.0
    requires HasMeta(fetch(a.symbol))
    ensures MetaOf(fetch(a.symbol)).regularMarketPrice == Number(105.0) ==>
              var r := EvaluateRows([a], fetch, now)[0];
              r.triggeredAt == Some(now) && r.isActive && r.lastCheckedAt == Some(now)
    ensures MetaOf(fetch(a.symbol)).regularMarketPrice == Number(100.0) ==>
              var r := EvaluateRows([a], fetch, now)[0];
              r.triggeredAt.None? && r.isActive && r.lastCheckedAt == Some(now)
  {
  }
}
