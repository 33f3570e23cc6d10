/**
  Corroboration search and the pending-report listing: both are full scans
  of the keyspace that keep the records passing a structural test.

  The ledger hands out its keys in some order; that order is the `scan`
  parameter, and every property of a result is stated for the keys the
  scan visits. Great-circle distance is the `dist` parameter (kilometres);
  only its comparison with the 0.5 km threshold is modelled.
 */
module Matcher {
  import opened State

  const DistanceThresholdKm: real := 0.5
  /** Thirty minutes, in milliseconds. */
  const TimeWindowMs: int := 30 * 60 * 1000

  function Abs(x: int): int {
    if x < 0 then -x else x
  }

  /**
    The stored report `other` corroborates the new report `cand`: it has a
    non-empty id different from the new one, the same event type, lies
    within the distance threshold and the time window, and comes from
    another vehicle.
   */
  predicate Corroborates(dist: (Coord, Coord) -> real, other: Report, cand: Report) {
    && other.reportId != ""
    && other.reportId != cand.reportId
    && other.eventType == cand.eventType
    && dist(cand.coord, other.coord) <= DistanceThresholdKm
    && Abs(cand.timeStamp - other.timeStamp) <= TimeWindowMs
    && other.vehicleId != cand.vehicleId
  }

  /**
    Walks the scanned keys in order and keeps what `pick` extracts from the
    record under each key; keys without a record are skipped.
   */
  function Collect<T>(s: Store, scan: seq<string>, pick: Record -> Option<T>): (r: seq<T>)
    ensures |r| <= |scan|
    ensures forall x :: x in r ==> exists k :: k in scan && k in s && pick(s[k]) == Some(x)
    ensures forall k :: k in scan && k in s && pick(s[k]).Some? ==> pick(s[k]).value in r
    decreases |scan|
  {
    if |scan| == 0 then []
    else
      var rest := Collect(s, scan[1..], pick);
      assert forall k :: k in scan[1..] ==> k in scan;
      if scan[0] in s && pick(s[scan[0]]).Some? then [pick(s[scan[0]]).value] + rest
      else rest
  }

  /** The scan visits every key of the store. */
  ghost predicate Enumerates(scan: seq<string>, s: Store) {
    forall k :: k in s ==> k in scan
  }

  function SimilarId(dist: (Coord, Coord) -> real, cand: Report, rec: Record): Option<string> {
    if rec.ReportRecord? && Corroborates(dist, rec.report, cand) then Some(rec.report.reportId)
    else None
  }

  /**
    The ids of the scanned reports that corroborate `cand`: exactly the
    matching reports, never `cand` itself and never one of its own vehicle.
   */
  function FindSimilarReports(s: Store, scan: seq<string>, dist: (Coord, Coord) -> real,
                              cand: Report): (ids: seq<string>)
    ensures forall id :: id in ids ==>
              exists k :: && k in scan && IsReportAt(s, k)
                          && s[k].report.reportId == id
                          && Corroborates(dist, s[k].report, cand)
    ensures forall k :: k in scan && IsReportAt(s, k) && Corroborates(dist, s[k].report, cand) ==>
              s[k].report.reportId in ids
    ensures forall id :: id in ids ==> id != cand.reportId && id != ""
  {
    var pick := SimilarPick(dist, cand);
    var ids := Collect(s, scan, pick);
    assert forall k :: k in s ==> pick(s[k]) == SimilarId(dist, cand, s[k]);
    ids
  }

  function SimilarPick(dist: (Coord, Coord) -> real, cand: Report): Record -> Option<string> {
    (rec: Record) => SimilarId(dist, cand, rec)
  }

  /**
    When the first scanned key holds the only corroborating report, the
    search returns exactly that report's id.
   */
  lemma SoleCorroborator(s: Store, scan: seq<string>, dist: (Coord, Coord) -> real, cand: Report)
    requires |scan| > 0 && IsReportAt(s, scan[0]) && Corroborates(dist, s[scan[0]].report, cand)
    requires forall k :: k in scan[1..] && IsReportAt(s, k) ==> !Corroborates(dist, s[k].report, cand)
    ensures FindSimilarReports(s, scan, dist, cand) == [s[scan[0]].report.reportId]
  {
    var pick := SimilarPick(dist, cand);
    assert forall rec :: pick(rec) == SimilarId(dist, cand, rec);
    CollectNothing(s, scan[1..], pick);
    assert Collect(s, scan, pick) == [pick(s[scan[0]]).value] + [];
  }

  /** A scan whose visited records all fail the test keeps nothing. */
  lemma {:induction false} CollectNothing<T>(s: Store, scan: seq<string>, pick: Record -> Option<T>)
    requires forall k :: k in scan && k in s ==> pick(s[k]).None?
    ensures Collect(s, scan, pick) == []
    decreases |scan|
  {
    if |scan| > 0 {
      assert forall k :: k in scan[1..] ==> k in scan;
      CollectNothing(s, scan[1..], pick);
    }
  }

  /** Reports (records with a non-empty reportId) that are still PENDING. */
  function PendingOf(rec: Record): Option<Report> {
    if rec.ReportRecord? && rec.report.reportId != "" && rec.report.status == Pending then Some(rec.report)
    else None
  }

  /** The scanned reports still awaiting an authority's decision. */
  function GetPendingReports(s: Store, scan: seq<string>): (r: seq<Report>)
    ensures forall rep :: rep in r ==>
              && rep.status == Pending
              && rep.reportId != ""
              && exists k :: k in scan && IsReportAt(s, k) && s[k].report == rep
    ensures forall k ::
              (k in scan && IsReportAt(s, k) && s[k].report.status == Pending && s[k].report.reportId != "")
              ==> s[k].report in r
  {
    var pick := (rec: Record) => PendingOf(rec);
    var r := Collect(s, scan, pick);
    assert forall k :: k in s ==> pick(s[k]) == PendingOf(s[k]);
    r
  }

  /**
    Corroboration is symmetric between two stored reports when distance is,
    so it does not matter which of the two was submitted first.
   */
  lemma CorroborationSymmetric(dist: (Coord, Coord) -> real, a: Report, b: Report)
    requires forall x, y :: dist(x, y) == dist(y, x)
    requires a.reportId != "" && b.reportId != ""
    ensures Corroborates(dist, a, b) <==> Corroborates(dist, b, a)
  {
    assert dist(a.coord, b.coord) == dist(b.coord, a.coord);
  }

  /** Over a full scan of the store, no corroborating report is missed. */
  lemma FullScanFindsAllCorroborators(s: Store, scan: seq<string>, dist: (Coord, Coord) -> real,
                                      cand: Report, k: string)
    requires Enumerates(scan, s)
    requires IsReportAt(s, k) && Corroborates(dist, s[k].report, cand)
    ensures s[k].report.reportId in FindSimilarReports(s, scan, dist, cand)
  {
    assert k in scan;
  }
}
