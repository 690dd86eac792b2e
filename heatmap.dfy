/**
 * The heatmap overlay: every QR-scan record `{zone, count}` becomes a cell
 * `{zone, intensity}`, with the count bucketed into low, medium or high.
 * Reading `qrScans.json` and writing `heatmapOverlay.json` are file I/O and
 * are not modelled; the records are given as a sequence.
 */
module Heatmap {
  import opened Wrappers
  import opened Json

  datatype Intensity = Low | Medium | High

  /** The label `JSON.stringify` writes for a bucket. */
  function Label(i: Intensity): (r: string)
    ensures r in {"low", "medium", "high"}
  {
    match i
    case Low => "low"
    case Medium => "medium"
    case High => "high"
  }

  /** Buckets in increasing order of intensity. */
  function Rank(i: Intensity): (r: nat)
    ensures r <= 2
  {
    match i
    case Low => 0
    case Medium => 1
    case High => 2
  }

  /** `count > 150 ? 'high' : count > 75 ? 'medium' : 'low'`. */
  function IntensityOf(count: int): Intensity
  {
    if count > 150 then High else if count > 75 then Medium else Low
  }

  /** The three buckets partition the counts at 75 and 150, each boundary in the lower bucket. */
  lemma IntensityBuckets(count: int)
    ensures IntensityOf(count) == High <==> count > 150
    ensures IntensityOf(count) == Medium <==> 75 < count <= 150
    ensures IntensityOf(count) == Low <==> count <= 75
  {
  }

  /** A larger count never falls in a lower bucket. */
  lemma IntensityMonotone(a: int, b: int)
    requires a <= b
    ensures Rank(IntensityOf(a)) <= Rank(IntensityOf(b))
  {
  }

  /**
   * One scan record: the `zone` and `count` properties as read, `None` when
   * the record has no such property. The zone is whatever value the record
   * holds and is copied as it is.
   */
  datatype Scan = Scan(zone: Option<Json>, count: Option<int>)

  /** One overlay cell; a cell whose zone is `None` is written without a `zone` key. */
  datatype Cell = Cell(zone: Option<Json>, intensity: Intensity)

  /** The bucket of a scan: a missing count fails both `>` tests, so it is low. */
  function ScanIntensity(count: Option<int>): Intensity
  {
    if count.Some? then IntensityOf(count.value) else Low
  }

  /** A scan without a count is low; one with a count is bucketed by it. */
  lemma ScanIntensityMissing(count: Option<int>)
    ensures count.None? ==> ScanIntensity(count) == Low
    ensures count.Some? ==> (ScanIntensity(count) == High <==> count.value > 150)
    ensures count.Some? ==> (ScanIntensity(count) == Low <==> count.value <= 75)
  {
  }

  /** `scans.map(...)`: one cell per scan, in the same order. */
  function Overlay(scans: seq<Scan>): (r: seq<Cell>)
    ensures |r| == |scans|
    ensures forall i :: 0 <= i < |scans| ==> r[i].zone == scans[i].zone
    ensures forall i :: 0 <= i < |scans| ==> r[i].intensity == ScanIntensity(scans[i].count)
    decreases |scans|
  {
    if scans == [] then []
    else [Cell(scans[0].zone, ScanIntensity(scans[0].count))] + Overlay(scans[1..])
  }

  /** Building the overlay of two runs of scans one after the other gives the two overlays joined. */
  lemma {:induction false} OverlayAppend(a: seq<Scan>, b: seq<Scan>)
    ensures Overlay(a + b) == Overlay(a) + Overlay(b)
    decreases |a|
  {
    if a != [] {
      assert (a + b)[1..] == a[1..] + b;
      OverlayAppend(a[1..], b);
    }
  }

  /** Counts 10, 100 and 250 in zones A, B and C give low, medium and high. */
  lemma OverlayExample()
    ensures Overlay([Scan(Some(JStr("A")), Some(10)), Scan(Some(JStr("B")), Some(100)), Scan(Some(JStr("C")), Some(250))])
      == [Cell(Some(JStr("A")), Low), Cell(Some(JStr("B")), Medium), Cell(Some(JStr("C")), High)]
  {
  }
}
