/** The `Alerts` table as an immutable value, and the three store operations
    the server actions perform on it: create, list active, deactivate. */
module AlertStore {
  import opened Wrappers
  import opened Sequences

  /** An opaque, ordered point in time (the table's `CURRENT_TIMESTAMP`). */
  type Timestamp = nat

  datatype Condition = Above | Below

  /** What the alert form submits. */
  datatype AlertInput = AlertInput(symbol: string, targetPrice: real, condition: Condition)

  /** One row of the `Alerts` table. */
  datatype Alert = Alert(
    id: nat,
    symbol: string,
    targetPrice: real,
    condition: Condition,
    createdAt: Timestamp,
    lastCheckedAt: Option<Timestamp>,
    triggeredAt: Option<Timestamp>,
    isActive: bool)

  /** The table: rows in insertion order, and the id the next insert receives. */
  datatype Store = Store(rows: seq<Alert>, nextId: nat)

  /** The errors re-thrown to the caller: "Failed to create alert." and "Failed to update alert." */
  datatype StoreError = CreateFailed | UpdateFailed

  predicate DistinctIds(xs: seq<Alert>) {
    forall i, j :: 0 <= i < j < |xs| ==> xs[i].id != xs[j].id
  }

  /** The primary key holds: ids are distinct and below the next id to assign. */
  predicate ValidStore(s: Store) {
    DistinctIds(s.rows) && forall i :: 0 <= i < |s.rows| ==> s.rows[i].id < s.nextId
  }

  predicate IsActive(a: Alert) {
    a.isActive
  }

  /** `is_active = true AND triggered_at IS NULL`: the alerts still to be evaluated. */
  predicate IsPending(a: Alert) {
    a.isActive && a.triggeredAt.None?
  }

  function Active(rows: seq<Alert>): seq<Alert> {
    Filter(rows, IsActive)
  }

  function Pending(rows: seq<Alert>): seq<Alert> {
    Filter(rows, IsPending)
  }

  /** In a table with distinct ids, two rows with the same id are the same row. */
  lemma SameIdSameRow(rows: seq<Alert>, a: Alert, b: Alert)
    requires DistinctIds(rows)
    requires a in rows && b in rows && a.id == b.id
    ensures a == b
  {
    var i :| 0 <= i < |rows| && rows[i] == a;
    var j :| 0 <= j < |rows| && rows[j] == b;
  }

  /** A subsequence chosen by a filter keeps ids distinct. */
  lemma {:induction false} FilterKeepsDistinctIds(xs: seq<Alert>, p: Alert -> bool)
    requires DistinctIds(xs)
    ensures DistinctIds(Filter(xs, p))
    decreases |xs|
  {
    if |xs| > 0 {
      var init := xs[..|xs| - 1];
      var last := xs[|xs| - 1];
      assert DistinctIds(init);
      FilterKeepsDistinctIds(init, p);
      assert xs == init + [last];
      FilterSnoc(init, last, p);
      var f := Filter(init, p);
      forall k | 0 <= k < |f|
        ensures f[k].id != last.id
      {
        assert f[k] in init;
        var m :| 0 <= m < |init| && init[m] == f[k];
        assert xs[m].id != xs[|xs| - 1].id;
      }
    }
  }

  /** `createAlert(input)`: inserts an active row with a fresh id, creation
      time `now` and both nullable timestamps unset; a failed write is re-thrown. */
  function CreateAlert(s: Store, input: AlertInput, now: Timestamp, writeOk: bool): (r: Result<Store, StoreError>)
    ensures !writeOk <==> r == Failure(CreateFailed)
    ensures r.Success? ==>
              && |r.value.rows| == |s.rows| + 1
              && r.value.rows[..|s.rows|] == s.rows
              && r.value.nextId > s.nextId
    ensures r.Success? ==>
              var a := r.value.rows[|s.rows|];
              && a.symbol == input.symbol && a.targetPrice == input.targetPrice
              && a.condition == input.condition && a.createdAt == now
              && IsPending(a) && a.lastCheckedAt.None?
              && (ValidStore(s) ==> forall i :: 0 <= i < |s.rows| ==> s.rows[i].id != a.id)
    ensures ValidStore(s) && r.Success? ==> ValidStore(r.value)
  {
    if !writeOk then Failure(CreateFailed)
    else
      var a := Alert(s.nextId, input.symbol, input.targetPrice, input.condition, now, None, None, true);
      Success(Store(s.rows + [a], s.nextId + 1))
  }

  /** Newest-created first. */
  predicate NewestFirst(xs: seq<Alert>) {
    forall i, j :: 0 <= i < j < |xs| ==> xs[i].createdAt >= xs[j].createdAt
  }

  function InsertNewestFirst(a: Alert, xs: seq<Alert>): (r: seq<Alert>)
    requires NewestFirst(xs)
    ensures NewestFirst(r)
    ensures multiset(r) == multiset(xs) + multiset{a}
  {
    if |xs| == 0 then [a]
    else if a.createdAt >= xs[0].createdAt then [a] + xs
    else
      var rest := InsertNewestFirst(a, xs[1..]);
      assert xs == [xs[0]] + xs[1..];
      assert forall k :: 0 <= k < |rest| ==> rest[k] in multiset(xs[1..]) + multiset{a};
      assert forall k :: 0 <= k < |rest| ==> xs[0].createdAt >= rest[k].createdAt;
      ConsNewestFirst(xs[0], rest);
      [xs[0]] + rest
  }

  /** Prepending an element no older than the rest keeps the order. */
  lemma ConsNewestFirst(x: Alert, xs: seq<Alert>)
    requires NewestFirst(xs)
    requires forall k :: 0 <= k < |xs| ==> x.createdAt >= xs[k].createdAt
    ensures NewestFirst([x] + xs)
  {
    var r := [x] + xs;
    forall i, j | 0 <= i < j < |r|
      ensures r[i].createdAt >= r[j].createdAt
    {
      if i > 0 {
        assert r[i] == xs[i - 1] && r[j] == xs[j - 1];
      }
    }
  }

  /** `ORDER BY created_at DESC`: a permutation of `xs`, newest first. Ties
      keep their table order here; SQL leaves their order unspecified. */
  function SortNewestFirst(xs: seq<Alert>): (r: seq<Alert>)
    ensures NewestFirst(r)
    ensures multiset(r) == multiset(xs)
  {
    if |xs| == 0 then []
    else
      assert xs == [xs[0]] + xs[1..];
      InsertNewestFirst(xs[0], SortNewestFirst(xs[1..]))
  }

  /** `getActiveAlerts()`: every active row and nothing else, newest first;
      a failed read yields the empty list instead of an error. */
  function GetActiveAlerts(s: Store, readOk: bool): (r: seq<Alert>)
    ensures !readOk ==> r == []
    ensures readOk ==> NewestFirst(r) && multiset(r) == multiset(Active(s.rows))
    ensures forall a :: a in r ==> a in s.rows && a.isActive
    ensures readOk ==> forall a :: a in s.rows && a.isActive ==> a in r
  {
    if !readOk then []
    else
      var r := SortNewestFirst(Active(s.rows));
      assert forall a :: a in r <==> a in multiset(Active(s.rows));
      assert forall a :: a in Active(s.rows) <==> a in s.rows && IsActive(a);
      assert forall a :: a in r ==> a in Active(s.rows);
      r
  }

  /** `UPDATE Alerts SET ... WHERE id = ?`: applies `f` to the rows with that id. */
  function UpdateWhereId(rows: seq<Alert>, id: nat, f: Alert -> Alert): (r: seq<Alert>)
    ensures |r| == |rows|
    ensures forall i :: 0 <= i < |rows| ==> r[i] == (if rows[i].id == id then f(rows[i]) else rows[i])
  {
    seq(|rows|, i requires 0 <= i < |rows| => if rows[i].id == id then f(rows[i]) else rows[i])
  }

  /** `markAlertAsInactive(id)`: clears `is_active` on the row with that id
      (if any) and changes nothing else; a failed write is re-thrown. */
  function MarkAlertAsInactive(s: Store, id: nat, writeOk: bool): (r: Result<Store, StoreError>)
    ensures !writeOk <==> r == Failure(UpdateFailed)
    ensures r.Success? ==> r.value.nextId == s.nextId && |r.value.rows| == |s.rows|
    ensures r.Success? ==> forall i :: 0 <= i < |s.rows| ==>
              && r.value.rows[i].(isActive := s.rows[i].isActive) == s.rows[i]
              && (r.value.rows[i].isActive <==> s.rows[i].isActive && s.rows[i].id != id)
  {
    if !writeOk then Failure(UpdateFailed)
    else Success(Store(UpdateWhereId(s.rows, id, (a: Alert) => a.(isActive := false)), s.nextId))
  }

  /** A created alert is listed as active (and is pending) with the submitted
      fields, a fresh id and both nullable timestamps unset. */
  lemma CreateThenListActive(s: Store, input: AlertInput, now: Timestamp)
    requires ValidStore(s)
    ensures
      var s' := CreateAlert(s, input, now, true).value;
      exists a :: a in GetActiveAlerts(s', true) && a in Pending(s'.rows)
        && a.symbol == input.symbol && a.targetPrice == input.targetPrice
        && a.condition == input.condition && a.isActive
        && a.lastCheckedAt.None? && a.triggeredAt.None?
        && forall b :: b in s.rows ==> b.id != a.id
  {
    var s' := CreateAlert(s, input, now, true).value;
    var a := s'.rows[|s.rows|];
    assert a in s'.rows;
    forall b | b in s.rows
      ensures b.id != a.id
    {
      var i :| 0 <= i < |s.rows| && s.rows[i] == b;
    }
  }

  /** After deactivation the alert is neither listed nor pending, whatever its
      trigger state, while every other active row is still listed. */
  lemma DeactivateHides(s: Store, id: nat)
    ensures
      var s' := MarkAlertAsInactive(s, id, true).value;
      && (forall a :: a in GetActiveAlerts(s', true) ==> a.id != id)
      && (forall a :: a in Pending(s'.rows) ==> a.id != id)
      && (forall a :: a in GetActiveAlerts(s, true) && a.id != id ==> a in GetActiveAlerts(s', true))
  {
    var s' := MarkAlertAsInactive(s, id, true).value;
    forall a | a in s'.rows && a.isActive
      ensures a.id != id
    {
      var i :| 0 <= i < |s'.rows| && s'.rows[i] == a;
    }
    forall a | a in GetActiveAlerts(s, true) && a.id != id
      ensures a in s'.rows
    {
      var i :| 0 <= i < |s.rows| && s.rows[i] == a;
      assert s'.rows[i] == a;
    }
  }
}
