/** The wave shape: N + 1 knots spread across the clip width, their heights
    tweened batch by batch like the bars, joined by cubic segments whose
    control points sit at the horizontal midpoints. */
module Wave {
  import opened Outcome
  import opened AVConstants
  import opened Geometry
  import opened Sampling
  import opened Tween
  import Base = BaseVisualizer

  const MaxPoints: nat := 54
  const MinPoints: nat := 3

  /** Captured on the first frame: the knot spacing and the clip bounds. */
  datatype Layout = Layout(widthOffset: real, clip: Rect)

  /** Point count N, frames per batch, the tween over N + 1 slots and the
      lazy layout (None while the offset sentinel is -1). */
  datatype State = State(n: nat, maxBatch: nat, batch: Batch, layout: Option<Layout>)

  predicate Valid(s: State)
  {
    s.n > 0 && s.maxBatch > 0 && |s.batch.src| == s.n + 1 && |s.batch.dest| == s.n + 1
  }

  /** `init`: clamp the point count, reset layout and counter, and allocate
      N + 1 zeroed slots. */
  function Init(cfg: Base.Config): (s: State)
    ensures Valid(s) && s.n >= MinPoints
    ensures s.n == PointCount(MaxPoints, MinPoints, cfg.density)
    ensures s.maxBatch == MaxBatch(cfg.speed)
    ensures s.batch.count == 0 && s.layout.None?
    ensures forall i :: 0 <= i <= s.n ==> s.batch.src[i] == 0.0 && s.batch.dest[i] == 0.0
  {
    var n := PointCount(MaxPoints, MinPoints, cfg.density);
    State(n, MaxBatch(cfg.speed), Batch(seq(n + 1, _ => 0.0), seq(n + 1, _ => 0.0), 0), None)
  }

  /** `setDensity`: store the density and rerun `init`. */
  function SetDensity(cfg: Base.Config, density: real): (res: (Base.Config, State))
    ensures res.0 == Base.SetDensity(cfg, density)
    ensures res.1.n == PointCount(MaxPoints, MinPoints, density)
    ensures res.1.batch.count == 0 && res.1.layout.None?
    ensures res.1 == Init(res.0)
  {
    var c := Base.SetDensity(cfg, density);
    (c, Init(c))
  }

  /** `setAnimationSpeed` as written: the running counter is kept. */
  function SetAnimationSpeed(cfg: Base.Config, s: State, speed: AnimSpeed): (res: (Base.Config, State))
    ensures res.0 == Base.SetAnimationSpeed(cfg, speed)
    ensures res.1 == s.(maxBatch := MaxBatch(speed))
  {
    (Base.SetAnimationSpeed(cfg, speed), s.(maxBatch := MaxBatch(speed)))
  }

  /** `setAnimationSpeed` with the counter reset, as `init` does. */
  function SetAnimationSpeedResetting(cfg: Base.Config, s: State, speed: AnimSpeed): (res: (Base.Config, State))
    requires Valid(s)
    ensures Valid(res.1) && res.1.batch.count < res.1.maxBatch
    ensures res.1.maxBatch == MaxBatch(speed)
    ensures res.1.batch.src == s.batch.src && res.1.batch.dest == s.batch.dest
  {
    (Base.SetAnimationSpeed(cfg, speed), s.(maxBatch := MaxBatch(speed), batch := s.batch.(count := 0)))
  }

  /** The x-coordinate of knot i. */
  function KnotX(l: Layout, i: nat): real
  {
    l.clip.left as real + i as real * l.widthOffset
  }

  /** The knots of a frame: fixed x-coordinates, heights as shown. */
  function Knots(l: Layout, ys: seq<real>): (ks: seq<Point>)
    ensures |ks| == |ys|
    ensures forall i :: 0 <= i < |ys| ==> ks[i] == Point(KnotX(l, i), ys[i])
  {
    seq(|ys|, i requires 0 <= i < |ys| => Point(KnotX(l, i), ys[i]))
  }

  function Mid(a: real, b: real): real
  {
    (a + b) / 2.0
  }

  /** The cubic from knot i - 1 to knot i: both controls at the horizontal
      midpoint, the first at the height of knot i - 1, the second at the
      height of knot i. */
  function Arc(knots: seq<Point>, i: nat): Cmd<Point>
    requires 1 <= i < |knots|
  {
    var mx := Mid(knots[i].x, knots[i - 1].x);
    CubicTo(Point(mx, knots[i - 1].y), Point(mx, knots[i].y), knots[i])
  }

  /** The wave path: a move to knot 0, one cubic per later knot, and for FILL
      two lines down to the clip's bottom corners and a close. */
  function WavePath(knots: seq<Point>, style: PaintStyle, clip: Rect): (p: seq<Cmd<Point>>)
    requires |knots| >= 1
    ensures |p| == |knots| + (if style == Fill then 3 else 0)
    ensures p[0] == MoveTo(knots[0])
    ensures forall i :: 1 <= i < |knots| ==> p[i] == Arc(knots, i)
    ensures forall i :: 0 <= i < |knots| ==> !p[i].Close? && p[i].to == knots[i]
    ensures style == Fill ==>
              p[|knots|..] == [LineTo(Point(clip.right as real, clip.bottom as real)),
                               LineTo(Point(clip.left as real, clip.bottom as real)), Close]
  {
    var curve := [MoveTo(knots[0])] + seq(|knots| - 1, j requires 0 <= j < |knots| - 1 => Arc(knots, j + 1));
    if style == Fill then
      curve + [LineTo(Point(clip.right as real, clip.bottom as real)),
               LineTo(Point(clip.left as real, clip.bottom as real)), Close]
    else curve
  }

  /** The first-frame block: runs only while no layout exists, and then rests
      every slot on the baseline. */
  function EnsureLayout(cfg: Base.Config, s: State, canvas: Canvas): (s': State)
    requires Valid(s)
    ensures Valid(s') && s'.n == s.n && s'.maxBatch == s.maxBatch && s'.batch.count == s.batch.count
    ensures s'.layout.Some?
    ensures s.layout.Some? ==> s' == s
    ensures s.layout.None? ==>
              && s'.layout == Some(Layout(canvas.width as real / s.n as real, canvas.clip))
              && forall i :: 0 <= i <= s.n ==>
                   s'.batch.src[i] == Baseline(cfg.gravity, canvas.clip) && s'.batch.dest[i] == Baseline(cfg.gravity, canvas.clip)
  {
    if s.layout.Some? then s
    else
      var y := Baseline(cfg.gravity, canvas.clip);
      State(s.n, s.maxBatch, Batch(seq(s.n + 1, _ => y), seq(s.n + 1, _ => y), s.batch.count),
            Some(Layout(canvas.width as real / s.n as real, canvas.clip)))
  }

  /** `onDraw`. r stands for `mRandom.nextInt(nPoints)`, so it never names
      the last slot. A hidden view or a null or empty buffer emits nothing and
      keeps the tween; otherwise the batch may restart, the counter is
      incremented, the knots take the interpolated heights and the path is
      rebuilt from scratch. */
  function Draw(cfg: Base.Config, s: State, canvas: Canvas, r: nat): (res: Result<(State, seq<Cmd<Point>>)>)
    requires Valid(s) && r < s.n
    ensures res.Err? ==> res.fault == IndexOutOfRange && Base.Active(cfg) && s.batch.count == 0
    ensures res.Ok? ==> var s' := res.value.0;
              && Valid(s') && s'.n == s.n && s'.maxBatch == s.maxBatch && s'.layout.Some?
              && (s.layout.Some? ==> s'.layout == s.layout)
              && (s.batch.count < s.maxBatch ==> s'.batch.count < s.maxBatch)
    ensures !Base.Active(cfg) ==> res.Ok? && res.value.1 == [] && res.value.0 == EnsureLayout(cfg, s, canvas)
    ensures Base.Active(cfg) && s.batch.count != 0 ==> res.Ok?
    ensures Base.Active(cfg) && s.batch.count == 0 ==> (res.Ok? <==> |cfg.buffer.value| >= Horizon)
    ensures Base.Active(cfg) && res.Ok? ==>
              var (s', path) := res.value;
              var l := s'.layout.value;
              && (s'.batch.count == 0 <==> s.batch.count + 1 == s.maxBatch)
              && |path| == s.n + 1 + (if cfg.style == Fill then 3 else 0)
              && path[0].MoveTo?
              && (forall i :: 1 <= i <= s.n ==> path[i].CubicTo?)
              && forall i :: 0 <= i <= s.n ==>
                   path[i].to == Point(KnotX(l, i), Lerp(s'.batch.src[i], s'.batch.dest[i], Fraction(s.batch.count + 1, s.maxBatch)))
    ensures Base.Active(cfg) && res.Ok? ==>
              var s1 := EnsureLayout(cfg, s, canvas);
              var l := s1.layout.value;
              var start := StartBatch(cfg.gravity, l.clip, s1.batch, cfg.buffer.value, s.n, canvas.height, r);
              && start.Ok?
              && var (b, shown) := Advance(start.value, s.maxBatch);
                 res.value == (s1.(batch := b), WavePath(Knots(l, shown), cfg.style, l.clip))
  {
    var s1 := EnsureLayout(cfg, s, canvas);
    if !Base.Active(cfg) then Ok((s1, []))
    else
      var l := s1.layout.value;
      match StartBatch(cfg.gravity, l.clip, s1.batch, cfg.buffer.value, s.n, canvas.height, r)
      case Err(e) => Err(e)
      case Ok(b) =>
        var (b', shown) := Advance(b, s.maxBatch);
        var knots := Knots(l, shown);
        var path := WavePath(knots, cfg.style, l.clip);
        Ok((s1.(batch := b'), path))
  }

  /** k frames drawn one after another with the same settings, buffer,
      canvas and random slot; the state after the last one. */
  function Replay(cfg: Base.Config, s: State, canvas: Canvas, r: nat, k: nat): (res: Result<State>)
    requires Valid(s) && r < s.n
    ensures res.Ok? ==> Valid(res.value) && res.value.n == s.n && res.value.maxBatch == s.maxBatch
    ensures res.Ok? && k > 0 ==> res.value.layout.Some?
    decreases k
  {
    if k == 0 then Ok(s)
    else
      match Replay(cfg, s, canvas, r, k - 1)
      case Err(e) => Err(e)
      case Ok(s') =>
        match Draw(cfg, s', canvas, r)
        case Err(e) => Err(e)
        case Ok(frame) => Ok(frame.0)
  }

  // ---------------------------------------------------------------------------
  // Properties

  /** With a buffer that reaches the horizon a drawn frame is exactly one
      tween frame over the laid-out state, and the path runs through the
      knots at the heights that frame shows. */
  lemma DrawIsFrame(cfg: Base.Config, s: State, canvas: Canvas, r: nat)
    requires Valid(s) && r < s.n && Base.Active(cfg) && |cfg.buffer.value| >= Horizon
    ensures var s1 := EnsureLayout(cfg, s, canvas);
            var l := s1.layout.value;
            var levels := Window(cfg.buffer.value, s.n + 1, 1, s.n, Lift, canvas.height);
            var res := Draw(cfg, s, canvas, r);
            && levels.Ok? && res.Ok?
            && var (b, shown) := Frame(s1.batch, s.maxBatch, Targets(cfg.gravity, l.clip, levels.value), r);
               res.value == (s1.(batch := b), WavePath(Knots(l, shown), cfg.style, l.clip))
  {
    WindowOkIff(cfg.buffer.value, s.n + 1, s.n, Lift, canvas.height);
  }

  /** Once laid out, drawing k frames from one buffer that reaches the horizon
      runs the tween k frames against that buffer's targets. */
  lemma {:induction false} ReplayIsRun(cfg: Base.Config, s: State, canvas: Canvas, r: nat, k: nat)
    requires Valid(s) && r < s.n && s.layout.Some?
    requires Base.Active(cfg) && |cfg.buffer.value| >= Horizon
    ensures var levels := Window(cfg.buffer.value, s.n + 1, 1, s.n, Lift, canvas.height);
            && levels.Ok?
            && Replay(cfg, s, canvas, r, k)
               == Ok(s.(batch := Run(s.batch, s.maxBatch, Targets(cfg.gravity, s.layout.value.clip, levels.value), r, k).0))
  {
    WindowOkIff(cfg.buffer.value, s.n + 1, s.n, Lift, canvas.height);
    if k > 0 {
      ReplayIsRun(cfg, s, canvas, r, k - 1);
      var s' := Replay(cfg, s, canvas, r, k - 1).value;
      DrawIsFrame(cfg, s', canvas, r);
    }
  }

  /** With the offset taken from the canvas width, knot 0 sits on the clip's
      left edge, knot N one canvas width further right, and the knots are
      evenly spaced in between. */
  lemma KnotsSpanWidth(clip: Rect, width: nat, n: nat, i: nat)
    requires n > 0
    ensures var l := Layout(width as real / n as real, clip);
            && KnotX(l, 0) == clip.left as real
            && KnotX(l, n) == (clip.left + width) as real
            && KnotX(l, i + 1) - KnotX(l, i) == l.widthOffset
  {
    var w := width as real / n as real;
    assert n as real * w == width as real;
  }

  /** No segment overshoots its knots: both control points lie in the box
      the two knots span, so the cubic stays inside it. */
  lemma SegmentStaysInBox(knots: seq<Point>, i: nat)
    requires 1 <= i < |knots| && knots[i - 1].x <= knots[i].x
    ensures var c := Arc(knots, i);
            var (a, b) := (knots[i - 1], knots[i]);
            && a.x <= c.c1.x <= b.x && a.x <= c.c2.x <= b.x
            && (a.y <= c.c1.y <= b.y || b.y <= c.c1.y <= a.y)
            && (a.y <= c.c2.y <= b.y || b.y <= c.c2.y <= a.y)
  {
  }

  /** The curve is smooth at every interior knot: the tangent arriving at
      knot i (from the second control of segment i) and the tangent leaving
      it (towards the first control of segment i + 1) are both horizontal. */
  lemma HorizontalTangentsAtKnots(knots: seq<Point>, style: PaintStyle, clip: Rect, i: nat)
    requires 1 <= i < |knots| - 1
    ensures var p := WavePath(knots, style, clip);
            p[i].c2.y == knots[i].y == p[i + 1].c1.y
  {
  }

  /** The as-written speed change can leave the counter at or beyond the new
      batch length; from then on no new targets are ever taken. */
  lemma {:induction false} SpeedChangeCanStall(cfg: Base.Config, s: State, speed: AnimSpeed, targets: seq<real>, r: nat, k: nat)
    requires Valid(s) && |targets| == s.n + 1 && r < s.n
    requires s.batch.count >= MaxBatch(speed)
    ensures var s' := SetAnimationSpeed(cfg, s, speed).1;
            var (b, restarts, _) := Run(s'.batch, s'.maxBatch, targets, r, k);
            b.count == s.batch.count + k && restarts == 0
  {
    var s' := SetAnimationSpeed(cfg, s, speed).1;
    StalledBatchNeverRestarts(s'.batch, s'.maxBatch, targets, r, k);
  }

  /** The stall as drawn: after the as-written speed change, k more frames
      from a buffer that reaches the horizon keep the tween's sources and
      destinations and only push the counter further past the batch length,
      so the drawn knots run ever further past their destinations. */
  lemma SpeedChangeStallsDrawing(cfg: Base.Config, s: State, speed: AnimSpeed, canvas: Canvas, r: nat, k: nat)
    requires Valid(s) && r < s.n && s.layout.Some? && s.batch.count >= MaxBatch(speed)
    requires Base.Active(cfg) && |cfg.buffer.value| >= Horizon
    ensures var s' := SetAnimationSpeed(cfg, s, speed).1;
            Replay(cfg, s', canvas, r, k) == Ok(s'.(batch := Batch(s.batch.src, s.batch.dest, s.batch.count + k)))
  {
    var s' := SetAnimationSpeed(cfg, s, speed).1;
    ReplayIsRun(cfg, s', canvas, r, k);
    var targets := Targets(cfg.gravity, s.layout.value.clip, Window(cfg.buffer.value, s.n + 1, 1, s.n, Lift, canvas.height).value);
    StalledBatchNeverRestarts(s'.batch, s'.maxBatch, targets, r, k);
  }

  /** With the resetting speed change the batches keep cycling. */
  lemma ResettingSpeedChangeKeepsCycling(cfg: Base.Config, s: State, speed: AnimSpeed, targets: seq<real>, r: nat, k: nat)
    requires Valid(s) && |targets| == s.n + 1 && r < s.n
    ensures var s' := SetAnimationSpeedResetting(cfg, s, speed).1;
            var (b, restarts, _) := Run(s'.batch, s'.maxBatch, targets, r, k);
            b.count == k % MaxBatch(speed) && restarts == CeilDiv(k, MaxBatch(speed))
  {
    var s' := SetAnimationSpeedResetting(cfg, s, speed).1;
    BatchCycling(s'.batch, s'.maxBatch, targets, r, k);
  }

  /** The cycling as drawn: after the resetting speed change, k frames from a
      buffer that reaches the horizon leave the counter at k mod the new batch
      length, so the wave keep taking new targets. */
  lemma ResettingKeepsDrawingCycling(cfg: Base.Config, s: State, speed: AnimSpeed, canvas: Canvas, r: nat, k: nat)
    requires Valid(s) && r < s.n && s.layout.Some?
    requires Base.Active(cfg) && |cfg.buffer.value| >= Horizon
    ensures var s' := SetAnimationSpeedResetting(cfg, s, speed).1;
            && Replay(cfg, s', canvas, r, k).Ok?
            && Replay(cfg, s', canvas, r, k).value.batch.count == k % MaxBatch(speed)
  {
    var s' := SetAnimationSpeedResetting(cfg, s, speed).1;
    ReplayIsRun(cfg, s', canvas, r, k);
    var targets := Targets(cfg.gravity, s.layout.value.clip, Window(cfg.buffer.value, s.n + 1, 1, s.n, Lift, canvas.height).value);
    BatchCycling(s'.batch, s'.maxBatch, targets, r, k);
  }
}
