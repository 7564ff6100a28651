/** The blob shape: N knots on a ring, each moving a fixed step per frame
    towards a radius set by the waveform, closed into a loop of cubic Bézier
    segments by the spline solver. Angles are in degrees; `dir` gives the
    unit vector (cos, sin) of an angle, which the model does not compute. */
module Blob {
  import opened Outcome
  import opened AVConstants
  import opened Geometry
  import opened Sampling
  import opened BezierSpline
  import Ring
  import Base = BaseVisualizer

  const MaxPoints: nat := 60
  const MinPoints: nat := 3

  /** Point count N, the ring radius (None while the sentinel is -1), the
      angle between knots, the per-frame step, the N + 2 knots and the
      spline's control-point arrays. */
  datatype State = State(
    n: nat,
    radius: Option<int>,
    angleOffset: real,
    changeFactor: real,
    knots: seq<Point>,
    spline: Spline)

  predicate Valid(s: State)
  {
    && s.n > 0 && |s.knots| == s.n + 2
    && |s.spline.first| == s.n + 1 && |s.spline.second| == s.n + 1
  }

  /** Step per frame per unit of height. */
  function Rate(speed: AnimSpeed): real
  {
    match speed
    case Slow => 0.003
    case Medium => 0.006
    case Fast => 0.01
  }

  /** `updateChangeFactor`: the rate times 1, or times the view height when
      asked to use it (1000 before the view is laid out). */
  function UpdateChangeFactor(speed: AnimSpeed, useHeight: bool, viewHeight: int): (cf: real)
    ensures cf > 0.0
    ensures !useHeight ==> cf == Rate(speed)
  {
    var h := if !useHeight then 1 else if viewHeight > 0 then viewHeight else 1000;
    h as real * Rate(speed)
  }

  /** `init`: clamp the point count, forget the radius, spread the angles and
      size the knots and the spline for N + 2 knots. */
  function Init(cfg: Base.Config): (s: State)
    ensures Valid(s) && s.n >= MinPoints
    ensures s.n == PointCount(MaxPoints, MinPoints, cfg.density)
    ensures s.radius.None?
    ensures s.angleOffset * s.n as real == 360.0
    ensures s.changeFactor == Rate(cfg.speed)
  {
    var n := PointCount(MaxPoints, MinPoints, cfg.density);
    var sp := NewSpline(n + 2);
    State(n, None, 360.0 / n as real, UpdateChangeFactor(cfg.speed, false, 0),
          seq(n + 2, _ => Origin), sp.value)
  }

  /** `setDensity`: store the density and rerun `init`. */
  function SetDensity(cfg: Base.Config, density: real): (res: (Base.Config, State))
    ensures res.0 == Base.SetDensity(cfg, density)
    ensures res.1.n == PointCount(MaxPoints, MinPoints, density) && res.1.radius.None?
    ensures res.1 == Init(res.0)
  {
    var c := Base.SetDensity(cfg, density);
    (c, Init(c))
  }

  /** `setAnimationSpeed`: the step is recomputed from the current view
      height. */
  function SetAnimationSpeed(cfg: Base.Config, s: State, speed: AnimSpeed, viewHeight: int): (res: (Base.Config, State))
    ensures res.0 == Base.SetAnimationSpeed(cfg, speed)
    ensures res.1 == s.(changeFactor := UpdateChangeFactor(speed, true, viewHeight))
  {
    (Base.SetAnimationSpeed(cfg, speed), s.(changeFactor := UpdateChangeFactor(speed, true, viewHeight)))
  }

  /** The angle of knot i, in degrees. */
  function KnotAngle(s: State, i: int): real
  {
    i as real * s.angleOffset
  }

  /** Knots 0..N-1 placed on the ring of radius r, the rest kept. */
  function PlaceOnRing(s: State, center: Point, r: real, dir: real -> Point): (ks: seq<Point>)
    requires Valid(s)
    ensures |ks| == |s.knots|
    ensures forall i :: 0 <= i < s.n ==> ks[i] == OnRing(center, r, dir, KnotAngle(s, i))
    ensures ks[s.n..] == s.knots[s.n..]
  {
    var ks := seq(|s.knots|, i requires 0 <= i < |s.knots| =>
                    if i < s.n then OnRing(center, r, dir, KnotAngle(s, i)) else s.knots[i]);
    assert ks[s.n..] == s.knots[s.n..];
    ks
  }

  /** The first-frame block: while the radius is unknown, fix it, scale the
      step by the view height, and put knots 0..N-1 on the ring. */
  function FirstDraw(s: State, v: View, dir: real -> Point): (s': State)
    requires Valid(s)
    ensures Valid(s') && s'.n == s.n && s'.angleOffset == s.angleOffset && s'.spline == s.spline
    ensures s'.radius.Some?
    ensures s.radius.Some? ==> s' == s
    ensures s.radius.None? ==>
              && s'.radius == Some(Ring.Radius(v))
              && s'.changeFactor == s.changeFactor * v.height as real
              && s'.knots == PlaceOnRing(s, Center(v), Ring.Radius(v) as real, dir)
  {
    if s.radius.Some? then s
    else
      var r := Ring.Radius(v);
      s.(radius := Some(r), changeFactor := s.changeFactor * v.height as real,
         knots := PlaceOnRing(s, Center(v), r as real, dir))
  }

  /** One coordinate moves by exactly cf: up when the target is above,
      down otherwise, including when it is already there. */
  function Approach(cur: real, target: real, cf: real): real
  {
    if target - cur > 0.0 then cur + cf else cur - cf
  }

  /** Where knot i heads this frame: the ring radius pushed out by the
      waveform's inset magnitude, at the knot's angle. */
  function Goal(s: State, v: View, levels: seq<int>, dir: real -> Point, i: nat): Point
    requires s.radius.Some? && i < |levels|
  {
    OnRing(Center(v), (s.radius.value + levels[i]) as real, dir, KnotAngle(s, i))
  }

  /** Every knot takes one step towards its goal; knots N and N + 1 then
      repeat knot 0 so the spline closes the loop. */
  function StepKnots(s: State, v: View, levels: seq<int>, dir: real -> Point): (ks: seq<Point>)
    requires Valid(s) && s.radius.Some? && |levels| == s.n
    ensures |ks| == s.n + 2
    ensures forall i :: 0 <= i < s.n ==>
              ks[i] == Point(Approach(s.knots[i].x, Goal(s, v, levels, dir, i).x, s.changeFactor),
                             Approach(s.knots[i].y, Goal(s, v, levels, dir, i).y, s.changeFactor))
    ensures ks[s.n] == ks[0] && ks[s.n + 1] == ks[0]
  {
    var moved := seq(s.n, i requires 0 <= i < s.n =>
                       var g := Goal(s, v, levels, dir, i);
                       Point(Approach(s.knots[i].x, g.x, s.changeFactor), Approach(s.knots[i].y, g.y, s.changeFactor)));
    moved + [moved[0], moved[0]]
  }

  /** The blob path: a move to knot 0, one cubic per spline segment ending at
      the next knot, and for FILL a line to the view centre. */
  function BlobPath(knots: seq<Point>, sp: Spline, style: PaintStyle, v: View): (p: seq<Cmd<Point>>)
    requires |knots| >= 1 && |sp.first| == |sp.second| == |knots| - 1
    ensures |p| == |knots| + (if style == Fill then 1 else 0)
    ensures p[0] == MoveTo(knots[0])
    ensures forall i :: 0 <= i < |sp.first| ==> p[i + 1] == CubicTo(sp.first[i], sp.second[i], knots[i + 1])
    ensures style == Fill ==> p[|knots|] == LineTo(Center(v))
  {
    var curve := [MoveTo(knots[0])] +
                 seq(|sp.first|, i requires 0 <= i < |sp.first| => CubicTo(sp.first[i], sp.second[i], knots[i + 1]));
    if style == Fill then curve + [LineTo(Center(v))] else curve
  }

  /** `onDraw`. A hidden view or a null or empty buffer emits nothing and
      leaves the knots alone. Otherwise every knot steps towards its goal,
      the loop is closed, the spline is solved and the path is built; the
      reads fault exactly when the buffer is shorter than the horizon. */
  method Draw(cfg: Base.Config, s: State, v: View, canvas: Canvas, dir: real -> Point)
    returns (res: Result<(State, seq<Cmd<Point>>)>)
    requires Valid(s)
    ensures !Base.Active(cfg) ==> res == Ok((FirstDraw(s, v, dir), []))
    ensures Base.Active(cfg) ==> (res.Ok? <==> |cfg.buffer.value| >= Horizon)
    ensures res.Err? ==> res.fault == IndexOutOfRange
    ensures Base.Active(cfg) && res.Ok? ==>
              var (s', path) := res.value;
              var s1 := FirstDraw(s, v, dir);
              var levels := Window(cfg.buffer.value, s.n, 1, s.n, Inset, canvas.height).value;
              && Valid(s') && s'.n == s.n && s'.radius == s1.radius && s'.changeFactor == s1.changeFactor
              && s' == s1.(knots := s'.knots, spline := s'.spline)
              && s'.knots == StepKnots(s1, v, levels, dir)
              && s'.knots[s.n] == s'.knots[0] && s'.knots[s.n + 1] == s'.knots[0]
              && NaturalSpline(Xs(s'.knots), Xs(s'.spline.first), Xs(s'.spline.second))
              && NaturalSpline(Ys(s'.knots), Ys(s'.spline.first), Ys(s'.spline.second))
              && path == BlobPath(s'.knots, s'.spline, cfg.style, v)
  {
    var s1 := FirstDraw(s, v, dir);
    if !Base.Active(cfg) {
      return Ok((s1, []));
    }
    var buf := cfg.buffer.value;
    WindowOkIff(buf, s.n, s.n, Inset, canvas.height);
    var w := Window(buf, s.n, 1, s.n, Inset, canvas.height);
    if w.Err? {
      return Err(w.fault);
    }
    var knots := StepKnots(s1, v, w.value, dir);
    var sp := UpdateCurveControlPoints(s1.spline, knots);
    var s' := s1.(knots := knots, spline := sp.value);
    assert s'.spline.first[..s.n + 1] == s'.spline.first;
    assert s'.spline.second[..s.n + 1] == s'.spline.second;
    return Ok((s', BlobPath(knots, sp.value, cfg.style, v)));
  }

  // ---------------------------------------------------------------------------
  // Properties

  /** A faster speed gives a larger step for the same height. */
  lemma FasterMovesFurther(useHeight: bool, viewHeight: int)
    ensures UpdateChangeFactor(Slow, useHeight, viewHeight) < UpdateChangeFactor(Medium, useHeight, viewHeight)
    ensures UpdateChangeFactor(Medium, useHeight, viewHeight) < UpdateChangeFactor(Fast, useHeight, viewHeight)
  {
    var h := if !useHeight then 1 else if viewHeight > 0 then viewHeight else 1000;
    assert h > 0;
  }

  /** A knot far from its goal gets exactly one step closer. */
  lemma ApproachCloses(cur: real, target: real, cf: real)
    requires 0.0 <= cf
    requires cur + cf <= target || target <= cur - cf
    ensures Dist(target, Approach(cur, target, cf)) == Dist(target, cur) - cf
  {
  }

  /** Once within one step of its goal a knot stays within one step: it
      oscillates around the goal instead of settling on it. */
  lemma ApproachStaysNear(cur: real, target: real, cf: real)
    requires 0.0 <= cf && Dist(target, cur) <= cf
    ensures Dist(target, Approach(cur, target, cf)) <= cf
    ensures cur == target && cf > 0.0 ==> Approach(cur, target, cf) != target
  {
  }

  function Dist(a: real, b: real): real
  {
    if a <= b then b - a else a - b
  }

  /** A larger amplitude draws the goal closer to the ring. */
  lemma LouderSitsCloser(b1: SByte, b2: SByte, height: nat)
    requires Abs(b1) <= Abs(b2)
    ensures 0 <= Magnitude(Inset, b2, height) <= Magnitude(Inset, b1, height) <= height / 4
  {
    MagnitudeMonotone(Inset, b1, b2, height);
  }

  /** A speed set before the first frame is scaled by the height twice: the
      setter already multiplies by the view height, and the first frame
      multiplies by it again. */
  lemma SpeedBeforeFirstDrawScalesTwice(cfg: Base.Config, s: State, speed: AnimSpeed, v: View, dir: real -> Point)
    requires Valid(s) && s.radius.None? && v.height > 0
    ensures var s' := SetAnimationSpeed(cfg, s, speed, v.height).1;
            FirstDraw(s', v, dir).changeFactor == v.height as real * v.height as real * Rate(speed)
  {
  }
}
