/**
 * Box overlap for the tracking experiments. Boxes arrive as
 * (top-left x, top-left y, width, height); the overlap is computed on their
 * corners, and a union of zero area is the division by zero that the
 * compiled helper raises.
 */
module Geometry {
  import opened Wrappers

  /** A bounding box in (tlx, tly, w, h) form. */
  datatype Box = Box(x: real, y: real, w: real, h: real)
  {
    /** The bottom-right corner, reached by adding the size to the top-left corner. */
    function Right(): real { x + w }
    function Bottom(): real { y + h }

    function Area(): real { (Right() - x) * (Bottom() - y) }

    predicate PositiveArea() { w > 0.0 && h > 0.0 }
  }

  function Max(a: real, b: real): real { if a >= b then a else b }
  function Min(a: real, b: real): real { if a <= b then a else b }

  /** The corners of the intersection rectangle (possibly empty). */
  function InterLeft(a: Box, b: Box): real { Max(a.x, b.x) }
  function InterTop(a: Box, b: Box): real { Max(a.y, b.y) }
  function InterRight(a: Box, b: Box): real { Min(a.Right(), b.Right()) }
  function InterBottom(a: Box, b: Box): real { Min(a.Bottom(), b.Bottom()) }

  /** The intersection is empty on one of the two axes. */
  predicate Apart(a: Box, b: Box) {
    InterLeft(a, b) > InterRight(a, b) || InterTop(a, b) > InterBottom(a, b)
  }

  function InterArea(a: Box, b: Box): real {
    (InterRight(a, b) - InterLeft(a, b)) * (InterBottom(a, b) - InterTop(a, b))
  }

  function UnionArea(a: Box, b: Box): real {
    a.Area() + b.Area() - InterArea(a, b)
  }

  /**
   * calc_frame_iou: zero for boxes apart on an axis, otherwise intersection
   * over union; `None` where the union has zero area.
   */
  function FrameIoU(gt: Box, target: Box): (r: Option<real>)
    ensures Apart(gt, target) ==> r == Some(0.0)
    ensures r.None? <==> !Apart(gt, target) && UnionArea(gt, target) == 0.0
  {
    if Apart(gt, target) then Some(0.0)
    else if UnionArea(gt, target) == 0.0 then None
    else Some(InterArea(gt, target) / UnionArea(gt, target))
  }

  /** The overlap does not depend on which box is the ground truth. */
  lemma FrameIoUSymmetric(a: Box, b: Box)
    ensures FrameIoU(a, b) == FrameIoU(b, a)
  {
    assert InterLeft(a, b) == InterLeft(b, a) && InterRight(a, b) == InterRight(b, a);
    assert InterTop(a, b) == InterTop(b, a) && InterBottom(a, b) == InterBottom(b, a);
    SameProduct(InterRight(a, b) - InterLeft(a, b), InterBottom(a, b) - InterTop(a, b),
                InterRight(b, a) - InterLeft(b, a), InterBottom(b, a) - InterTop(b, a));
    assert InterArea(a, b) == InterArea(b, a);
    assert UnionArea(a, b) == UnionArea(b, a);
  }

  lemma SameProduct(x: real, y: real, x': real, y': real)
    requires x == x' && y == y'
    ensures x * y == x' * y'
  {
  }

  lemma MulMonotone(x: real, y: real, xMax: real, yMax: real)
    requires 0.0 <= x <= xMax && 0.0 <= y <= yMax
    ensures 0.0 <= x * y <= xMax * yMax
  {
    assert x * y <= xMax * y;
    assert xMax * y <= xMax * yMax;
  }

  /** The common part of two boxes of positive area is no larger than either box. */
  lemma InterAreaBounds(a: Box, b: Box)
    requires a.PositiveArea() && b.PositiveArea() && !Apart(a, b)
    ensures 0.0 <= InterArea(a, b) <= a.Area() && InterArea(a, b) <= b.Area()
    ensures a.Area() > 0.0
  {
    var iw := InterRight(a, b) - InterLeft(a, b);
    var ih := InterBottom(a, b) - InterTop(a, b);
    assert InterArea(a, b) == iw * ih;
    AreaIsProduct(a);
    AreaIsProduct(b);
    assert 0.0 <= iw <= a.w && iw <= b.w;
    assert 0.0 <= ih <= a.h && ih <= b.h;
    MulMonotone(iw, ih, a.w, a.h);
    MulMonotone(iw, ih, b.w, b.h);
  }

  lemma AreaIsProduct(a: Box)
    requires a.PositiveArea()
    ensures a.Area() == a.w * a.h && a.Area() > 0.0
  {
    assert a.Right() - a.x == a.w && a.Bottom() - a.y == a.h;
  }

  lemma RatioBounds(i: real, areaA: real, areaB: real)
    requires 0.0 <= i <= areaA && i <= areaB && areaA > 0.0
    ensures areaA + areaB - i > 0.0
    ensures 0.0 <= i / (areaA + areaB - i) <= 1.0
  {
    var u := areaA + areaB - i;
    assert u >= areaA;
    assert i <= u;
  }

  /** Boxes of positive area always have a defined overlap, and it lies in [0, 1]. */
  lemma FrameIoUBounds(a: Box, b: Box)
    requires a.PositiveArea() && b.PositiveArea()
    ensures FrameIoU(a, b).Some?
    ensures 0.0 <= FrameIoU(a, b).value <= 1.0
  {
    if !Apart(a, b) {
      InterAreaBounds(a, b);
      RatioBounds(InterArea(a, b), a.Area(), b.Area());
    }
  }

  /** A box of positive area overlaps itself completely. */
  lemma FrameIoUSelf(a: Box)
    requires a.PositiveArea()
    ensures FrameIoU(a, a) == Some(1.0)
  {
    assert !Apart(a, a);
    assert InterArea(a, a) == a.Area();
    assert a.Area() == a.w * a.h > 0.0;
    assert UnionArea(a, a) == a.Area();
    assert a.Area() / a.Area() == 1.0;
  }

  /** Two 10-by-10 boxes with no common point have overlap zero. */
  lemma FrameIoUDisjointExample()
    ensures FrameIoU(Box(0.0, 0.0, 10.0, 10.0), Box(20.0, 20.0, 30.0, 30.0)) == Some(0.0)
  {
    assert Apart(Box(0.0, 0.0, 10.0, 10.0), Box(20.0, 20.0, 30.0, 30.0));
  }

  /**
   * sample_ious: one overlap per pre-drawn pair of row indices (the pairs are
   * the generator's `randint` draws); `None` where some overlap is undefined.
   */
  method SampleIoUs(boxes: seq<Box>, pairs: seq<(nat, nat)>) returns (r: Option<seq<real>>)
    requires forall k :: 0 <= k < |pairs| ==> pairs[k].0 < |boxes| && pairs[k].1 < |boxes|
    ensures r.Some? <==> forall k :: 0 <= k < |pairs| ==> FrameIoU(boxes[pairs[k].0], boxes[pairs[k].1]).Some?
    ensures r.Some? ==> (|r.value| == |pairs| &&
      forall k :: 0 <= k < |pairs| ==> Some(r.value[k]) == FrameIoU(boxes[pairs[k].0], boxes[pairs[k].1]))
    ensures (forall k :: 0 <= k < |boxes| ==> boxes[k].PositiveArea()) ==>
      (r.Some? && forall k :: 0 <= k < |r.value| ==> 0.0 <= r.value[k] <= 1.0)
  {
    var ious: seq<real> := [];
    for i := 0 to |pairs|
      invariant |ious| == i
      invariant forall k :: 0 <= k < i ==> Some(ious[k]) == FrameIoU(boxes[pairs[k].0], boxes[pairs[k].1])
      invariant (forall k :: 0 <= k < |boxes| ==> boxes[k].PositiveArea()) ==>
        forall k :: 0 <= k < i ==> 0.0 <= ious[k] <= 1.0
    {
      var box1 := boxes[pairs[i].0];
      var box2 := boxes[pairs[i].1];
      var iou := FrameIoU(box1, box2);
      if iou.None? {
        if forall k :: 0 <= k < |boxes| ==> boxes[k].PositiveArea() {
          FrameIoUBounds(box1, box2);
        }
        return None;
      }
      if box1.PositiveArea() && box2.PositiveArea() {
        FrameIoUBounds(box1, box2);
      }
      ious := ious + [iou.value];
    }
    return Some(ious);
  }
}
