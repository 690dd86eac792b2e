/**
 * The drop-anchor rule of the dashboard's drag and drop: the widget whose
 * bounding-box centre is nearest to the pointer, the earliest one on a tie.
 *
 * Coordinates are integers. The centre `left + width / 2` is kept integral by
 * doubling every coordinate, and distances are compared squared, which picks
 * the same widget as comparing `Math.hypot` of the undoubled offsets.
 */
module DropTarget {
  import opened Wrappers

  /** A bounding client rectangle, as `getBoundingClientRect()` reports it. */
  datatype Rect = Rect(left: int, top: int, width: int, height: int)

  /** The squared distance between the doubled centre of `r` and the doubled pointer `(x, y)`. */
  function CentreDistance(r: Rect, x: int, y: int): (d: nat)
    ensures d == 0 <==> 2 * r.left + r.width == 2 * x && 2 * r.top + r.height == 2 * y
  {
    var dx := 2 * r.left + r.width - 2 * x;
    var dy := 2 * r.top + r.height - 2 * y;
    SquareIsZero(dx);
    SquareIsZero(dy);
    dx * dx + dy * dy
  }

  lemma SquareIsZero(a: int)
    ensures a * a >= 0
    ensures a * a == 0 <==> a == 0
  {
    if a > 0 {
      assert a * a >= a;
    } else if a < 0 {
      assert a * a == (-a) * (-a) >= -a;
    }
  }

  /** The distance of each candidate, in candidate order. */
  function Distances(cands: seq<string>, box: string -> Rect, x: int, y: int): (ds: seq<nat>)
    ensures |ds| == |cands|
    ensures forall i :: 0 <= i < |cands| ==> ds[i] == CentreDistance(box(cands[i]), x, y)
  {
    if cands == [] then [] else Distances(cands[..|cands| - 1], box, x, y) + [CentreDistance(box(cands[|cands| - 1]), x, y)]
  }

  /**
   * The index the `closest` scan ends on: the running best is replaced only
   * by a strictly smaller distance.
   */
  function FirstMin(ds: seq<int>): (k: nat)
    requires |ds| > 0
    ensures k < |ds|
  {
    if |ds| == 1 then 0
    else
      var k := FirstMin(ds[..|ds| - 1]);
      if ds[|ds| - 1] < ds[k] then |ds| - 1 else k
  }

  /** `k` holds a minimal distance and every earlier index holds a larger one. */
  ghost predicate IsFirstMinimum(ds: seq<int>, k: nat)
  {
    && k < |ds|
    && (forall j :: 0 <= j < |ds| ==> ds[k] <= ds[j])
    && (forall j :: 0 <= j < k ==> ds[k] < ds[j])
  }

  /** The scan finds the first minimum. */
  lemma {:induction false} FirstMinIsFirstMinimum(ds: seq<int>)
    requires |ds| > 0
    ensures IsFirstMinimum(ds, FirstMin(ds))
    decreases |ds|
  {
    if |ds| > 1 {
      var init := ds[..|ds| - 1];
      FirstMinIsFirstMinimum(init);
      assert forall j :: 0 <= j < |init| ==> init[j] == ds[j];
    }
  }

  /**
   * `getDragAfterElement`'s answer over the widgets that are not being
   * dragged: `None` (null) when there are none, else the nearest one.
   */
  function Anchor(cands: seq<string>, box: string -> Rect, x: int, y: int): Option<string>
  {
    if cands == [] then None else Some(cands[FirstMin(Distances(cands, box, x, y))])
  }

  /**
   * The anchor is null exactly without candidates; otherwise a first minimum
   * of the distances exists and the anchor is the candidate at every one.
   */
  lemma AnchorIsNearest(cands: seq<string>, box: string -> Rect, x: int, y: int)
    ensures Anchor(cands, box, x, y).None? <==> cands == []
    ensures cands != [] ==> exists k: nat :: IsFirstMinimum(Distances(cands, box, x, y), k)
    ensures forall k: nat :: IsFirstMinimum(Distances(cands, box, x, y), k) ==>
      k < |cands| && Anchor(cands, box, x, y) == Some(cands[k])
  {
    if cands != [] {
      var ds := Distances(cands, box, x, y);
      FirstMinIsFirstMinimum(ds);
      // Two first minima cannot differ: the earlier would be strictly smaller.
      assert forall k: nat :: IsFirstMinimum(ds, k) ==> k == FirstMin(ds);
    }
  }

  /** The anchor is never closer than any candidate: no candidate is strictly nearer. */
  lemma AnchorIsClosest(cands: seq<string>, box: string -> Rect, x: int, y: int, other: string)
    requires other in cands
    ensures Anchor(cands, box, x, y).Some?
    ensures CentreDistance(box(Anchor(cands, box, x, y).value), x, y) <= CentreDistance(box(other), x, y)
  {
    var ds := Distances(cands, box, x, y);
    FirstMinIsFirstMinimum(ds);
    var j :| 0 <= j < |cands| && cands[j] == other;
    assert ds[FirstMin(ds)] <= ds[j];
  }

  /** Centres at (0, 0) and (100, 100) with the pointer at (10, 10): the first widget is the anchor. */
  lemma AnchorExample(box: string -> Rect)
    requires box("near") == Rect(-5, -5, 10, 10) && box("far") == Rect(95, 95, 10, 10)
    ensures Anchor(["near", "far"], box, 10, 10) == Some("near")
  {
    var ds := Distances(["near", "far"], box, 10, 10);
    assert ds[0] == 800 && ds[1] == 64800;
    assert ds[..1] == [800];
  }
}
