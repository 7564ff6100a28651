/** Plain coordinate data standing in for Android's PointF, Rect and Path.
    A frame's geometry is a list of path commands, segments or circles that an
    external drawing collaborator consumes. */
module Geometry {

  datatype Point = Point(x: real, y: real)

  const Origin: Point := Point(0.0, 0.0)

  /** A point given by its distance from the view centre and its angle in
      degrees; the drawing collaborator applies cos and sin. */
  datatype Polar = Polar(radius: int, degrees: real)

  /** One command of a path over points of type P. */
  datatype Cmd<P> =
    | MoveTo(to: P)
    | LineTo(to: P)
    | CubicTo(c1: P, c2: P, to: P)
    | Close

  datatype Segment<P> = Segment(from: P, to: P)

  /** A clip rectangle in integer canvas coordinates. */
  datatype Rect = Rect(left: int, top: int, right: int, bottom: int)

  /** What a frame reads from the canvas it draws on. */
  datatype Canvas = Canvas(width: nat, height: nat, clip: Rect)

  /** The view's own laid-out size, which the ring shapes read besides the
      canvas. */
  datatype View = View(width: nat, height: nat)

  /** The view centre, from integer halves of its size. */
  function Center(v: View): Point
  {
    Point((v.width / 2) as real, (v.height / 2) as real)
  }

  /** The x-coordinates of a list of points. */
  function Xs(ps: seq<Point>): (xs: seq<real>)
    ensures |xs| == |ps|
    ensures forall i :: 0 <= i < |ps| ==> xs[i] == ps[i].x
  {
    seq(|ps|, i requires 0 <= i < |ps| => ps[i].x)
  }

  /** The y-coordinates of a list of points. */
  function Ys(ps: seq<Point>): (ys: seq<real>)
    ensures |ys| == |ps|
    ensures forall i :: 0 <= i < |ps| ==> ys[i] == ps[i].y
  {
    seq(|ps|, i requires 0 <= i < |ps| => ps[i].y)
  }

  /** Pairs coordinate lists back into points; the inverse of Xs and Ys. */
  function Zip(xs: seq<real>, ys: seq<real>): (ps: seq<Point>)
    requires |xs| == |ys|
    ensures Xs(ps) == xs && Ys(ps) == ys
  {
    seq(|xs|, i requires 0 <= i < |xs| => Point(xs[i], ys[i]))
  }

  /** The point at distance `radius` from `center` in direction `dir(degrees)`,
      where `dir` gives (cos, sin) of an angle in degrees. */
  function OnRing(center: Point, radius: real, dir: real -> Point, degrees: real): Point
  {
    Point(center.x + radius * dir(degrees).x, center.y + radius * dir(degrees).y)
  }
}
