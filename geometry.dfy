// Plane geometry shared by the transform code: points, axis-aligned boxes and
// rotations given by an evaluated (cos, sin) pair.
module Geometry {
  import opened Types

  datatype Point = Point(x: real, y: real)

  function Add(a: Point, b: Point): Point { Point(a.x + b.x, a.y + b.y) }
  function Sub(a: Point, b: Point): Point { Point(a.x - b.x, a.y - b.y) }

  /** Squared length. */
  function Norm2(p: Point): real { p.x * p.x + p.y * p.y }

  /** An axis-aligned rectangle by its top-left corner and size. */
  datatype Box = Box(x: real, y: real, width: real, height: real)

  /** A layer's unrotated box. */
  function LayerBox(l: Layer): Box { Box(l.x, l.y, l.width, l.height) }

  function Center(b: Box): Point { Point(b.x + b.width / 2.0, b.y + b.height / 2.0) }

  /** The box of the given size centred on `c`. */
  function BoxAround(c: Point, width: real, height: real): (b: Box)
    ensures Center(b) == c && b.width == width && b.height == height
  {
    Box(c.x - width / 2.0, c.y - height / 2.0, width, height)
  }

  /** A world-space pointer delta expressed in a frame rotated by `r`
    * (`dx*cos + dy*sin`, `-dx*sin + dy*cos`). */
  function ToLocal(r: Rot, d: Point): Point {
    Point(d.x * r.c + d.y * r.s, -d.x * r.s + d.y * r.c)
  }

  /** A local offset of a frame rotated by `r`, expressed in world space
    * (`x*cos - y*sin`, `x*sin + y*cos`). */
  function ToWorld(r: Rot, p: Point): Point {
    Point(p.x * r.c - p.y * r.s, p.x * r.s + p.y * r.c)
  }

  lemma ToWorldAdd(r: Rot, a: Point, b: Point)
    ensures ToWorld(r, Add(a, b)) == Add(ToWorld(r, a), ToWorld(r, b))
  {
    assert (a.x + b.x) * r.c == a.x * r.c + b.x * r.c;
    assert (a.y + b.y) * r.s == a.y * r.s + b.y * r.s;
    assert (a.x + b.x) * r.s == a.x * r.s + b.x * r.s;
    assert (a.y + b.y) * r.c == a.y * r.c + b.y * r.c;
  }

  /** For a unit (cos, sin) pair the two changes of frame undo each other. */
  lemma LocalWorldInverse(r: Rot, d: Point)
    requires IsUnit(r)
    ensures ToWorld(r, ToLocal(r, d)) == d
    ensures ToLocal(r, ToWorld(r, d)) == d
  {
    var l := ToLocal(r, d);
    calc {
      l.x * r.c - l.y * r.s;
      d.x * (r.c * r.c + r.s * r.s) + d.y * (r.s * r.c - r.c * r.s);
      d.x;
    }
    calc {
      l.x * r.s + l.y * r.c;
      d.y * (r.c * r.c + r.s * r.s) + d.x * (r.c * r.s - r.s * r.c);
      d.y;
    }
    var w := ToWorld(r, d);
    calc {
      w.x * r.c + w.y * r.s;
      d.x * (r.c * r.c + r.s * r.s) + d.y * (r.s * r.c - r.c * r.s);
      d.x;
    }
    calc {
      -w.x * r.s + w.y * r.c;
      d.y * (r.c * r.c + r.s * r.s) + d.x * (r.c * r.s - r.s * r.c);
      d.y;
    }
  }

  /** A unit (cos, sin) pair changes no lengths. */
  lemma ToLocalNorm(r: Rot, d: Point)
    requires IsUnit(r)
    ensures Norm2(ToLocal(r, d)) == Norm2(d)
  {
    var l := ToLocal(r, d);
    calc {
      l.x * l.x + l.y * l.y;
      (d.x * d.x + d.y * d.y) * (r.c * r.c + r.s * r.s);
      d.x * d.x + d.y * d.y;
    }
  }

  /** A unit (cos, sin) pair changes no lengths, in this direction either. */
  lemma ToWorldNorm(r: Rot, d: Point)
    requires IsUnit(r)
    ensures Norm2(ToWorld(r, d)) == Norm2(d)
  {
    var w := ToWorld(r, d);
    calc {
      w.x * w.x + w.y * w.y;
      (d.x * d.x + d.y * d.y) * (r.c * r.c + r.s * r.s);
      d.x * d.x + d.y * d.y;
    }
  }

  /** Turning by `b` and then by `a` is turning by the pair the angle-sum
    * formulas give for the sum. */
  lemma ToWorldCompose(a: Rot, b: Rot, p: Point)
    ensures ToWorld(Rot(a.c * b.c - a.s * b.s, a.s * b.c + a.c * b.s), p) == ToWorld(a, ToWorld(b, p))
  {
    var q := ToWorld(b, p);
    calc {
      q.x * a.c - q.y * a.s;
      (p.x * b.c - p.y * b.s) * a.c - (p.x * b.s + p.y * b.c) * a.s;
      p.x * (a.c * b.c - a.s * b.s) - p.y * (a.s * b.c + a.c * b.s);
    }
    calc {
      q.x * a.s + q.y * a.c;
      (p.x * b.c - p.y * b.s) * a.s + (p.x * b.s + p.y * b.c) * a.c;
      p.x * (a.s * b.c + a.c * b.s) + p.y * (a.c * b.c - a.s * b.s);
    }
  }

  /** `rotatePoint(x, y, cx, cy, angle)` with `(cos, sin)` of the angle given. */
  function RotatePoint(p: Point, pivot: Point, r: Rot): Point {
    Point(r.c * (p.x - pivot.x) + r.s * (p.y - pivot.y) + pivot.x,
          r.c * (p.y - pivot.y) - r.s * (p.x - pivot.x) + pivot.y)
  }

  /** The pivot stays where it is, whatever the angle. */
  lemma RotatePivotFixed(pivot: Point, r: Rot)
    ensures RotatePoint(pivot, pivot, r) == pivot
  {
  }

  /** For a true rotation every point keeps its distance to the pivot. */
  lemma RotatePreservesDistance(p: Point, pivot: Point, r: Rot)
    requires IsUnit(r)
    ensures Norm2(Sub(RotatePoint(p, pivot, r), pivot)) == Norm2(Sub(p, pivot))
  {
    var d := Sub(p, pivot);
    assert Sub(RotatePoint(p, pivot, r), pivot) == ToLocal(r, d);
    ToLocalNorm(r, d);
  }

  /** The four corners of a box of the given size whose centre is `c` and which is
    * turned by `r` about its centre. */
  function Corners(c: Point, width: real, height: real, r: Rot): seq<Point> {
    [Add(c, ToWorld(r, Point(-width / 2.0, -height / 2.0))),
     Add(c, ToWorld(r, Point(width / 2.0, -height / 2.0))),
     Add(c, ToWorld(r, Point(width / 2.0, height / 2.0))),
     Add(c, ToWorld(r, Point(-width / 2.0, height / 2.0)))]
  }
}
