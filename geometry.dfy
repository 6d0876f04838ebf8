/**
 * The plane geometry the editor uses, over exact reals: points, the
 * axis-aligned ellipses and rectangles of java.awt.geom with the hit tests
 * those classes define, line segments, and the quarter turn that
 * src/pcbPart/Part.java applies to pad positions.
 */
module Geometry {

  /** A java.awt.geom.Point2D.Double, as a value. */
  datatype Point = Point(x: real, y: real)

  function Plus(a: Point, b: Point): Point {
    Point(a.x + b.x, a.y + b.y)
  }

  function Minus(a: Point, b: Point): Point {
    Point(a.x - b.x, a.y - b.y)
  }

  /** A java.awt.geom.Ellipse2D.Double: the corner of its bounding box, its width and its height. */
  datatype Ellipse = Ellipse(x: real, y: real, w: real, h: real)

  /** The point a round pad's ring is centred on, from the corner of the ring and its width. */
  function Middle(e: Ellipse): Point {
    Point(e.x + e.w / 2.0, e.y + e.w / 2.0)
  }

  /** A java.awt.geom.Rectangle2D.Double: its corner, width and height. */
  datatype Rect = Rect(x: real, y: real, w: real, h: real)

  /** The ellipse `e` moved `n` times by `d`, as `n` calls of `translate(d)` leave a pad's ring. */
  function Shift(e: Ellipse, d: Point, n: nat): (r: Ellipse)
    ensures r.w == e.w && r.h == e.h
  {
    if n == 0 then e else Shifted(Shift(e, d, n - 1), d)
  }

  /** The ellipse `e` moved once by `d`. */
  function Shifted(e: Ellipse, d: Point): Ellipse {
    Ellipse(e.x + d.x, e.y + d.y, e.w, e.h)
  }

  /** Moving once and then `n` times is moving `n + 1` times. */
  lemma {:induction false} ShiftFirst(e: Ellipse, d: Point, n: nat)
    ensures Shift(Shifted(e, d), d, n) == Shift(e, d, n + 1)
  {
    if n > 0 {
      ShiftFirst(e, d, n - 1);
    }
  }

  /** Moving `n` times by `d` moves by `n` times `d`. */
  lemma {:induction false} ShiftBy(e: Ellipse, d: Point, n: nat)
    ensures Shift(e, d, n) == Ellipse(e.x + (n as real) * d.x, e.y + (n as real) * d.y, e.w, e.h)
  {
    if n > 0 {
      ShiftBy(e, d, n - 1);
      assert (n as real) * d.x == ((n - 1) as real) * d.x + d.x;
      assert (n as real) * d.y == ((n - 1) as real) * d.y + d.y;
    }
  }

  /** A java.awt.geom.Line2D.Double from `p` to `q`. */
  datatype Line = Line(p: Point, q: Point)

  /** The shapes the design rule check compares: a stroked outline, a stroked trace, or a padded ring. */
  datatype Outline = StrokedRect(rect: Rect, stroke: real) | StrokedLine(line: Line, stroke: real) | Oval(oval: Ellipse)

  /** The circle of diameter `d` centred on `c`, as `new Ellipse2D.Double(c.x - d/2, c.y - d/2, d, d)`. */
  function Circle(c: Point, d: real): (e: Ellipse)
    ensures e.w == e.h == d
    ensures Point(e.x + e.w / 2.0, e.y + e.h / 2.0) == c
  {
    Ellipse(c.x - d / 2.0, c.y - d / 2.0, d, d)
  }

  /** `Ellipse2D.contains(q)`: empty when a side is not positive, else a strict test on normalised coordinates. */
  predicate InEllipse(e: Ellipse, q: Point) {
    if e.w <= 0.0 then false
    else
      var nx := (q.x - e.x) / e.w - 0.5;
      if e.h <= 0.0 then false
      else
        var ny := (q.y - e.y) / e.h - 0.5;
        nx * nx + ny * ny < 0.25
  }

  /** A point lies in a circle exactly when it is closer to the centre than half the diameter. */
  lemma InCircle(c: Point, d: real, q: Point)
    requires d > 0.0
    ensures InEllipse(Circle(c, d), q) <==> (q.x - c.x) * (q.x - c.x) + (q.y - c.y) * (q.y - c.y) < d * d / 4.0
  {
    var e := Circle(c, d);
    var dx, dy := q.x - c.x, q.y - c.y;
    var nx := (q.x - e.x) / e.w - 0.5;
    var ny := (q.y - e.y) / e.h - 0.5;
    assert nx * d == dx;
    assert ny * d == dy;
    assert (nx * nx + ny * ny) * d * d == dx * dx + dy * dy;
    MonotoneScale(nx * nx + ny * ny, 0.25, d);
    MonotoneScale((nx * nx + ny * ny) * d, 0.25 * d, d);
  }

  /** Scaling by a positive factor keeps a strict order in both directions. */
  lemma MonotoneScale(a: real, b: real, k: real)
    requires k > 0.0
    ensures a < b <==> a * k < b * k
  {
    if a < b {
      assert (b - a) * k > 0.0;
    }
    if a * k < b * k {
      assert (b - a) * k > 0.0;
    }
  }

  /** `Rectangle2D.contains(q)`: the closed left and top edges belong to the rectangle, the right and bottom ones do not. */
  predicate InRect(r: Rect, q: Point) {
    q.x >= r.x && q.y >= r.y && q.x < r.x + r.w && q.y < r.y + r.h
  }

  /** Moving a rectangle and a point by the same offset keeps the point in or out. */
  lemma InRectShifted(r: Rect, q: Point, d: Point)
    ensures InRect(Rect(r.x + d.x, r.y + d.y, r.w, r.h), Plus(q, d)) == InRect(r, q)
  {
  }

  /** The point halfway along a segment, written as `getP` of src/pcbPrimitives/Segment.java computes it. */
  function Midpoint(a: Point, b: Point): (m: Point)
    ensures Minus(m, a) == Minus(b, m)
  {
    Point(0.5 * (b.x + a.x), 0.5 * (b.y + a.y))
  }

  /** The midpoint follows both ends when they move together. */
  lemma MidpointShifted(a: Point, b: Point, d: Point)
    ensures Midpoint(Plus(a, d), Plus(b, d)) == Plus(Midpoint(a, b), d)
  {
  }

  /**
   * The new position of a pad at `p` when its part turns a quarter about `c`:
   * `p` plus the offset `rot90` of src/pcbPart/Part.java hands to `translate`.
   * Clockwise, the offset from `c` goes from (dx, dy) to (dy, -dx); counter
   * clockwise to (-dy, dx).
   */
  function QuarterTurn(clockwise: bool, c: Point, p: Point): (r: Point)
    ensures clockwise ==> Minus(r, c) == Point(p.y - c.y, -(p.x - c.x))
    ensures !clockwise ==> Minus(r, c) == Point(-(p.y - c.y), p.x - c.x)
  {
    Plus(p, TurnOffset(clockwise, c, p))
  }

  /** The offset `rot90` hands to `translate` for a pad at `p`. */
  function TurnOffset(clockwise: bool, c: Point, p: Point): Point {
    if clockwise then Point(c.x - c.y + p.y - p.x, c.x + c.y - p.x - p.y)
    else Point(c.x + c.y - p.x - p.y, c.y - c.x + p.x - p.y)
  }

  /** `n` quarter turns in the same direction. */
  function Turns(clockwise: bool, c: Point, p: Point, n: nat): Point {
    if n == 0 then p else QuarterTurn(clockwise, c, Turns(clockwise, c, p, n - 1))
  }

  /** A quarter turn one way undoes a quarter turn the other way. */
  lemma TurnBack(clockwise: bool, c: Point, p: Point)
    ensures QuarterTurn(!clockwise, c, QuarterTurn(clockwise, c, p)) == p
  {
    var q := QuarterTurn(clockwise, c, p);
    assert Minus(QuarterTurn(!clockwise, c, q), c) == Minus(p, c);
  }

  /** Four quarter turns in one direction bring every point back. */
  lemma FourTurns(clockwise: bool, c: Point, p: Point)
    ensures Turns(clockwise, c, p, 4) == p
  {
    var p2 := Turns(clockwise, c, p, 2);
    assert Turns(clockwise, c, p, 1) == QuarterTurn(clockwise, c, p);
    assert Minus(p2, c) == Point(-(p.x - c.x), -(p.y - c.y));
    assert Turns(clockwise, c, p, 4) == QuarterTurn(clockwise, c, QuarterTurn(clockwise, c, p2));
    assert Minus(Turns(clockwise, c, p, 4), c) == Minus(p, c);
  }

  /** A quarter turn keeps the distance to the centre. */
  lemma TurnKeepsDistance(clockwise: bool, c: Point, p: Point)
    ensures var r := Minus(QuarterTurn(clockwise, c, p), c);
      r.x * r.x + r.y * r.y == (p.x - c.x) * (p.x - c.x) + (p.y - c.y) * (p.y - c.y)
  {
  }

  /** `n` quarter turns one way are undone by `n` quarter turns the other way. */
  lemma {:induction false} TurnsBack(clockwise: bool, c: Point, p: Point, n: nat)
    ensures Turns(!clockwise, c, Turns(clockwise, c, p, n), n) == p
  {
    if n > 0 {
      var q := Turns(clockwise, c, p, n - 1);
      TurnBack(clockwise, c, q);
      TurnsFirst(!clockwise, c, QuarterTurn(clockwise, c, q), n);
      TurnsBack(clockwise, c, p, n - 1);
    }
  }

  /** `n` quarter turns are one turn followed by `n - 1` more. */
  lemma {:induction false} TurnsFirst(clockwise: bool, c: Point, p: Point, n: nat)
    requires n > 0
    ensures Turns(clockwise, c, p, n) == Turns(clockwise, c, QuarterTurn(clockwise, c, p), n - 1)
  {
    if n > 1 {
      TurnsFirst(clockwise, c, p, n - 1);
    }
  }
}
