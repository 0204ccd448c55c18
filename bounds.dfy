/**
 * `BoundingBox.expand` (identical in `src/model.ts` and `src/triangles.ts`):
 * an axis-aligned box that grows to take in each point it is given.
 */
module Bounds {
  import opened Wrappers
  import opened Geometry

  datatype Box = Box(topLeft: Position, bottomRight: Position)

  predicate Inside(p: Position, b: Box) {
    b.topLeft.x <= p.x <= b.bottomRight.x && b.topLeft.y <= p.y <= b.bottomRight.y
  }

  /** Every point inside `inner` is inside `outer`. */
  predicate Within(inner: Box, outer: Box) {
    && outer.topLeft.x <= inner.topLeft.x && inner.bottomRight.x <= outer.bottomRight.x
    && outer.topLeft.y <= inner.topLeft.y && inner.bottomRight.y <= outer.bottomRight.y
  }

  function Min(a: real, b: real): real { if a <= b then a else b }

  /** The box after `expand(p)`; `None` is the box that has not seen a point yet. */
  function Expanded(b: Option<Box>, p: Position): (r: Box)
    ensures Inside(p, r)
    ensures b.Some? ==> Within(b.value, r)
  {
    match b
    case None => Box(p, p)
    case Some(box) =>
      Box(Position(Min(box.topLeft.x, p.x), Min(box.topLeft.y, p.y)),
          Position(Max(box.bottomRight.x, p.x), Max(box.bottomRight.y, p.y)))
  }

  /** `Expanded` grows no more than it must: any box that holds the old box
      and the new point holds the result. */
  lemma ExpandedIsSmallest(b: Option<Box>, p: Position, c: Box)
    requires Inside(p, c) && (b.Some? ==> Within(b.value, c))
    ensures Within(Expanded(b, p), c)
  {
  }

  /** The box after expanding `start` by each of `points` in turn. */
  function BoxOf(start: Option<Box>, points: seq<Position>): Option<Box>
    decreases |points|
  {
    if points == [] then start else BoxOf(Some(Expanded(start, points[0])), points[1..])
  }

  /** Expanding by `p + q` is expanding by `p`, then by `q`. */
  lemma {:induction false} BoxOfAppend(start: Option<Box>, p: seq<Position>, q: seq<Position>)
    ensures BoxOf(start, p + q) == BoxOf(BoxOf(start, p), q)
    decreases |p|
  {
    if p != [] {
      assert (p + q)[1..] == p[1..] + q;
      BoxOfAppend(Some(Expanded(start, p[0])), p[1..], q);
    } else {
      assert p + q == q;
    }
  }

  /** Expanding by one more point. */
  lemma BoxOfSnoc(start: Option<Box>, points: seq<Position>, p: Position)
    ensures BoxOf(start, points + [p]) == Some(Expanded(BoxOf(start, points), p))
  {
    BoxOfAppend(start, points, [p]);
  }

  /** The accumulated box contains every point it was given and the box it started from. */
  lemma {:induction false} BoxOfCovers(start: Option<Box>, points: seq<Position>)
    ensures points != [] ==> BoxOf(start, points).Some?
    ensures BoxOf(start, points).Some? ==>
              (forall i :: 0 <= i < |points| ==> Inside(points[i], BoxOf(start, points).value))
    ensures start.Some? ==> BoxOf(start, points).Some? && Within(start.value, BoxOf(start, points).value)
    decreases |points|
  {
    if points != [] {
      var next := Some(Expanded(start, points[0]));
      BoxOfCovers(next, points[1..]);
      var r := BoxOf(start, points).value;
      forall i | 0 <= i < |points| ensures Inside(points[i], r) {
        if i > 0 {
          assert points[i] == points[1..][i - 1];
        }
      }
    }
  }

  /** The accumulated box is the smallest one holding the start box and every point. */
  lemma {:induction false} BoxOfIsSmallest(start: Option<Box>, points: seq<Position>, c: Box)
    requires start.Some? ==> Within(start.value, c)
    requires forall i :: 0 <= i < |points| ==> Inside(points[i], c)
    ensures BoxOf(start, points).Some? ==> Within(BoxOf(start, points).value, c)
    decreases |points|
  {
    if points != [] {
      ExpandedIsSmallest(start, points[0], c);
      BoxOfIsSmallest(Some(Expanded(start, points[0])), points[1..], c);
    }
  }

  /** The source's `BoundingBox`: both corners unset until the first `expand`. */
  class BoundingBox {
    var topLeft: Option<Position>
    var bottomRight: Option<Position>

    ghost predicate Valid()
      reads this
    {
      topLeft.Some? == bottomRight.Some?
    }

    /** The box as a value. */
    function Value(): Option<Box>
      reads this
    {
      if topLeft.Some? && bottomRight.Some? then Some(Box(topLeft.value, bottomRight.value)) else None
    }

    constructor ()
      ensures Valid() && Value() == None
    {
      topLeft := None;
      bottomRight := None;
    }

    /** `expand(position)`: grow the corners in place to take in `position`. */
    method Expand(position: Position)
      requires Valid()
      modifies this
      ensures Valid() && Value() == Some(Expanded(old(Value()), position))
    {
      if topLeft == None {
        topLeft := Some(position);
        bottomRight := Some(position);
      } else {
        topLeft := Some(Position(Min(topLeft.value.x, position.x), Min(topLeft.value.y, position.y)));
        bottomRight := Some(Position(Max(bottomRight.value.x, position.x), Max(bottomRight.value.y, position.y)));
      }
    }
  }
}
