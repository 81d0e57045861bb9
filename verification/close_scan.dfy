/** The backward scan over a close series shared by the detail view and the
    dashboard: the latest price is the newest non-null close, the previous
    price is the entry just before it, with the provider's own previous close
    as the only fallback. */
module CloseScan {
  import opened Wrappers
  import opened YahooChart

  /** `i` is the newest index holding a non-null close. */
  predicate IsLatest(close: seq<Option<real>>, i: nat) {
    i < |close| && close[i].Some? && forall j :: i < j < |close| ==> close[j].None?
  }

  /** The index at which the backward scan stops, if any close is non-null. */
  function LatestIndex(close: seq<Option<real>>): (r: Option<nat>)
    ensures r.Some? ==> IsLatest(close, r.value)
    ensures r.None? <==> forall j :: 0 <= j < |close| ==> close[j].None?
    decreases |close|
  {
    if |close| == 0 then None
    else if close[|close| - 1].Some? then Some(|close| - 1)
    else LatestIndex(close[..|close| - 1])
  }

  /** Only one index can be the newest non-null one. */
  lemma LatestIsUnique(close: seq<Option<real>>, i: nat, j: nat)
    requires IsLatest(close, i) && IsLatest(close, j)
    ensures i == j
  {
  }

  /** What the scan leaves behind: the index it stopped at, the latest price
      and the previous price. */
  datatype Scan = Scan(index: Option<nat>, latest: Option<real>, previous: Option<real>)

  /** The scan of both server actions. It runs only when the close column and
      the timestamps are both present; the previous price is `close[i-1]`
      when that entry exists and is non-null, otherwise a truthy
      `chartPreviousClose`, and nothing further back is ever consulted. */
  function ScanCloses(close: Column, hasTimestamps: bool, chartPreviousClose: Option<real>): (s: Scan)
    ensures s.index.Some? <==> s.latest.Some?
    ensures s.latest.None? <==>
              close.None? || !hasTimestamps || forall j :: 0 <= j < |close.value| ==> close.value[j].None?
    ensures s.index.Some? ==>
              && close.Some? && hasTimestamps
              && IsLatest(close.value, s.index.value)
              && s.latest == close.value[s.index.value]
    ensures s.index.Some? && s.index.value > 0 && close.value[s.index.value - 1].Some? ==>
              s.previous == close.value[s.index.value - 1]
    ensures s.index.Some? && (s.index.value == 0 || close.value[s.index.value - 1].None?) ==>
              s.previous == (if Truthy(chartPreviousClose) then chartPreviousClose else None)
    ensures s.latest.None? ==> s.previous.None?
  {
    if close.None? || !hasTimestamps then Scan(None, None, None)
    else
      match LatestIndex(close.value)
      case None => Scan(None, None, None)
      case Some(i) =>
        var previous :=
          if i > 0 && close.value[i - 1].Some? then close.value[i - 1]
          else if Truthy(chartPreviousClose) then chartPreviousClose
          else None;
        Scan(Some(i), close.value[i], previous)
  }

  /** `latest - previous`, defined only when both are. */
  function Change(s: Scan): Option<real> {
    if s.latest.Some? && s.previous.Some? then Some(s.latest.value - s.previous.value) else None
  }

  /** A null entry just before the latest close is not skipped over: with no
      truthy provider fallback there is no previous price, even though an
      older close exists. */
  lemma NoFurtherBackScan()
    ensures ScanCloses(Some([Some(10.0), None, Some(12.0)]), true, None).previous == None
    ensures ScanCloses(Some([Some(10.0), None, Some(12.0)]), true, Some(0.0)).previous == None
    ensures ScanCloses(Some([Some(10.0), None, Some(12.0)]), true, Some(11.0)).previous == Some(11.0)
  {
    var close := [Some(10.0), None, Some(12.0)];
    assert LatestIndex(close) == Some(2);
  }
}
