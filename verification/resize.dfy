/** The responsive canvas: when the window changes size the canvas becomes
    a square nine tenths of the smaller window side, and every network point
    is moved proportionally so it keeps its place relative to the canvas. */
module Resize {
  import opened Network

  /** One coordinate carried from a canvas side of `from` to one of `to`. */
  function Rescale(x: real, from: real, to: real): (r: real)
    requires from > 0.0
    ensures r * from == x * to
    ensures 0.0 <= x <= from && to >= 0.0 ==> 0.0 <= r <= to
  {
    var f := x / from;
    assert 0.0 <= x <= from ==> 0.0 <= f <= 1.0;
    ScaledWithin(f, to);
    f * to
  }

  lemma ScaledWithin(f: real, to: real)
    ensures 0.0 <= f <= 1.0 && to >= 0.0 ==> 0.0 <= f * to <= to
  {
    if 0.0 <= f <= 1.0 && to >= 0.0 {
      NonNegativeProduct(f, to);
      NonNegativeProduct(1.0 - f, to);
      assert to - f * to == (1.0 - f) * to;
    }
  }

  /** Resizing back to the original side restores the coordinate. */
  lemma RescaleInverse(x: real, from: real, to: real)
    requires from > 0.0 && to > 0.0
    ensures Rescale(Rescale(x, from, to), to, from) == x
  {
    var y := Rescale(x, from, to);
    var z := Rescale(y, to, from);
    assert z * to * from == y * from * from == x * to * from;
    CancelPositive(z, x, to * from);
  }

  /** Two resizes in a row are one resize from the first side to the last. */
  lemma RescaleCompose(x: real, a: real, b: real, c: real)
    requires a > 0.0 && b > 0.0
    ensures Rescale(Rescale(x, a, b), b, c) == Rescale(x, a, c)
  {
    var y := Rescale(x, a, b);
    var z := Rescale(y, b, c);
    var w := Rescale(x, a, c);
    assert z * b * a == y * c * a == x * b * c;
    assert w * a * b == x * c * b;
    CancelPositive(z, w, a * b);
  }

  lemma CancelPositive(u: real, v: real, k: real)
    requires k > 0.0 && u * k == v * k
    ensures u == v
  {
    assert (u - v) * k == 0.0;
  }

  /** The new canvas side: `min(innerWidth * 0.9, innerHeight * 0.9)`. */
  function CanvasSide(innerWidth: real, innerHeight: real): (side: real)
    ensures side <= innerWidth * 0.9 && side <= innerHeight * 0.9
    ensures side == innerWidth * 0.9 || side == innerHeight * 0.9
  {
    if innerWidth * 0.9 <= innerHeight * 0.9 then innerWidth * 0.9 else innerHeight * 0.9
  }

  /** One point after the canvas goes from `oldW` x `oldH` to `newW` x `newH`. */
  function ResizePoint(p: Point, oldW: real, oldH: real, newW: real, newH: real): (r: Point)
    requires oldW > 0.0 && oldH > 0.0
    ensures r.vel == p.vel && r.size == p.size && r.filled == p.filled && r.targetSize == p.targetSize
    ensures r.pos.x * oldW == p.pos.x * newW && r.pos.y * oldH == p.pos.y * newH
    ensures newW >= 0.0 && newH >= 0.0 && InCanvas(p.pos, oldW, oldH) ==> InCanvas(r.pos, newW, newH)
  {
    p.(pos := Vec(Rescale(p.pos.x, oldW, newW), Rescale(p.pos.y, oldH, newH)))
  }

  /** The `for (let p of points)` loop of `windowResized`: the points keep
      their order and every field but the position. */
  method ResizePoints(ps: seq<Point>, oldW: real, oldH: real, newW: real, newH: real)
    returns (qs: seq<Point>)
    requires oldW > 0.0 && oldH > 0.0
    ensures |qs| == |ps|
    ensures forall i :: 0 <= i < |ps| ==> qs[i] == ResizePoint(ps[i], oldW, oldH, newW, newH)
    ensures newW >= 0.0 && newH >= 0.0 ==>
      forall i :: 0 <= i < |ps| && InCanvas(ps[i].pos, oldW, oldH) ==> InCanvas(qs[i].pos, newW, newH)
  {
    qs := [];
    var k := 0;
    while k < |ps|
      invariant 0 <= k <= |ps| && |qs| == k
      invariant forall i :: 0 <= i < k ==> qs[i] == ResizePoint(ps[i], oldW, oldH, newW, newH)
    {
      qs := qs + [ResizePoint(ps[k], oldW, oldH, newW, newH)];
      k := k + 1;
    }
  }

  /** `windowResized`: the canvas becomes a square of side `CanvasSide`, and
      every point inside the old canvas lands inside the new one. */
  method WindowResized(ps: seq<Point>, oldW: real, oldH: real, innerWidth: real, innerHeight: real)
    returns (side: real, qs: seq<Point>)
    requires oldW > 0.0 && oldH > 0.0
    requires innerWidth >= 0.0 && innerHeight >= 0.0
    ensures side == CanvasSide(innerWidth, innerHeight) && side >= 0.0
    ensures |qs| == |ps|
    ensures forall i :: 0 <= i < |ps| ==> qs[i] == ResizePoint(ps[i], oldW, oldH, side, side)
    ensures forall i :: 0 <= i < |ps| && InCanvas(ps[i].pos, oldW, oldH) ==> InCanvas(qs[i].pos, side, side)
  {
    side := CanvasSide(innerWidth, innerHeight);
    qs := ResizePoints(ps, oldW, oldH, side, side);
  }

  /** Resizing to a canvas and back again restores every point. */
  lemma ResizeRoundTrip(p: Point, oldW: real, oldH: real, newW: real, newH: real)
    requires oldW > 0.0 && oldH > 0.0 && newW > 0.0 && newH > 0.0
    ensures ResizePoint(ResizePoint(p, oldW, oldH, newW, newH), newW, newH, oldW, oldH) == p
  {
    RescaleInverse(p.pos.x, oldW, newW);
    RescaleInverse(p.pos.y, oldH, newH);
  }
}
