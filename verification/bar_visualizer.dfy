/** The bar shape: N vertical bars whose tops tween, batch by batch, towards
    targets derived from the waveform. */
module Bar {
  import opened Outcome
  import opened AVConstants
  import opened Geometry
  import opened Sampling
  import opened Tween
  import Base = BaseVisualizer

  const MaxPoints: nat := 120
  const MinPoints: nat := 3

  /** Captured on the first frame: the bar width and the clip bounds. */
  datatype Layout = Layout(barWidth: real, clip: Rect)

  /** The shape's own fields: point count, frames per batch, the tween and
      the lazy layout (None while the width sentinel is -1). */
  datatype State = State(n: nat, maxBatch: nat, batch: Batch, layout: Option<Layout>)

  predicate Valid(s: State)
  {
    s.n > 0 && s.maxBatch > 0 && |s.batch.src| == s.n && |s.batch.dest| == s.n
  }

  /** `init`: clamp the point count, reset the layout and the counter, and
      allocate zeroed arrays. */
  function Init(cfg: Base.Config): (s: State)
    ensures Valid(s) && s.n >= MinPoints
    ensures s.n == PointCount(MaxPoints, MinPoints, cfg.density)
    ensures s.maxBatch == MaxBatch(cfg.speed)
    ensures s.batch.count == 0 && s.layout.None?
    ensures forall i :: 0 <= i < s.n ==> s.batch.src[i] == 0.0 && s.batch.dest[i] == 0.0
  {
    var n := PointCount(MaxPoints, MinPoints, cfg.density);
    State(n, MaxBatch(cfg.speed), Batch(seq(n, _ => 0.0), seq(n, _ => 0.0), 0), None)
  }

  /** `setDensity`: store the density and rerun `init`. */
  function SetDensity(cfg: Base.Config, density: real): (res: (Base.Config, State))
    ensures res.0 == Base.SetDensity(cfg, density)
    ensures res.1.n == PointCount(MaxPoints, MinPoints, density)
    ensures res.1.batch.count == 0 && res.1.layout.None?
    ensures res.1 == Init(res.0)
  {
    var c := Base.SetDensity(cfg, density);
    (c, Init(c))
  }

  /** `setAnimationSpeed` as written: frames per batch follow the new speed
      but the running counter is kept. */
  function SetAnimationSpeed(cfg: Base.Config, s: State, speed: AnimSpeed): (res: (Base.Config, State))
    ensures res.0 == Base.SetAnimationSpeed(cfg, speed)
    ensures res.1 == s.(maxBatch := MaxBatch(speed))
  {
    (Base.SetAnimationSpeed(cfg, speed), s.(maxBatch := MaxBatch(speed)))
  }

  /** `setAnimationSpeed` with the counter reset, as `init` does: the counter
      is back in range for the new batch length. */
  function SetAnimationSpeedResetting(cfg: Base.Config, s: State, speed: AnimSpeed): (res: (Base.Config, State))
    requires Valid(s)
    ensures Valid(res.1) && res.1.batch.count < res.1.maxBatch
    ensures res.1.maxBatch == MaxBatch(speed)
    ensures res.1.batch.src == s.batch.src && res.1.batch.dest == s.batch.dest
  {
    (Base.SetAnimationSpeed(cfg, speed), s.(maxBatch := MaxBatch(speed), batch := s.batch.(count := 0)))
  }

  /** The horizontal centre of bar i. */
  function BarX(i: nat, barWidth: real): real
  {
    i as real * barWidth + barWidth / 2.0
  }

  /** One vertical line per bar, from the canvas height to the shown value. */
  function Bars(barWidth: real, height: nat, shown: seq<real>): (segs: seq<Segment<Point>>)
    ensures |segs| == |shown|
    ensures forall i :: 0 <= i < |shown| ==>
              segs[i] == Segment(Point(BarX(i, barWidth), height as real), Point(BarX(i, barWidth), shown[i]))
  {
    seq(|shown|, i requires 0 <= i < |shown| =>
          Segment(Point(BarX(i, barWidth), height as real), Point(BarX(i, barWidth), shown[i])))
  }

  /** The first-frame block: runs only while no layout exists, and then puts
      every bar at rest on the baseline. */
  function EnsureLayout(cfg: Base.Config, s: State, canvas: Canvas): (s': State)
    requires Valid(s)
    ensures Valid(s') && s'.n == s.n && s'.maxBatch == s.maxBatch && s'.batch.count == s.batch.count
    ensures s'.layout.Some?
    ensures s.layout.Some? ==> s' == s
    ensures s.layout.None? ==>
              && s'.layout == Some(Layout(canvas.width as real / s.n as real, canvas.clip))
              && forall i :: 0 <= i < s.n ==>
                   s'.batch.src[i] == Baseline(cfg.gravity, canvas.clip) && s'.batch.dest[i] == Baseline(cfg.gravity, canvas.clip)
  {
    if s.layout.Some? then s
    else
      var y := Baseline(cfg.gravity, canvas.clip);
      State(s.n, s.maxBatch, Batch(seq(s.n, _ => y), seq(s.n, _ => y), s.batch.count),
            Some(Layout(canvas.width as real / s.n as real, canvas.clip)))
  }

  /** `onDraw`. r stands for `mRandom.nextInt(nPoints)`. A hidden view or a
      null or empty buffer draws nothing and leaves the tween alone; otherwise
      the batch may restart, the counter is incremented, every bar is drawn at
      the interpolated height, and the counter wraps at maxBatch. */
  function Draw(cfg: Base.Config, s: State, canvas: Canvas, r: nat): (res: Result<(State, seq<Segment<Point>>)>)
    requires Valid(s) && r < s.n
    ensures res.Err? ==> res.fault == IndexOutOfRange && Base.Active(cfg) && s.batch.count == 0
    ensures res.Ok? ==> var s' := res.value.0;
              && Valid(s') && s'.n == s.n && s'.maxBatch == s.maxBatch && s'.layout.Some?
              && (s.layout.Some? ==> s'.layout == s.layout)
              && (s.batch.count < s.maxBatch ==> s'.batch.count < s.maxBatch)
    ensures !Base.Active(cfg) ==> res.Ok? && res.value.1 == [] && res.value.0 == EnsureLayout(cfg, s, canvas)
    ensures Base.Active(cfg) && s.batch.count != 0 ==> res.Ok?
    ensures Base.Active(cfg) && s.batch.count == 0 ==>
              (res.Ok? <==> |cfg.buffer.value| >= Horizon)
    ensures Base.Active(cfg) && res.Ok? ==>
              var (s', segs) := res.value;
              && (s'.batch.count == 0 <==> s.batch.count + 1 == s.maxBatch)
              && |segs| == s.n
              && forall i :: 0 <= i < s.n ==>
                   && segs[i].from == Point(BarX(i, s'.layout.value.barWidth), canvas.height as real)
                   && segs[i].to.x == segs[i].from.x
                   && segs[i].to.y == Lerp(s'.batch.src[i], s'.batch.dest[i], Fraction(s.batch.count + 1, s.maxBatch))
    ensures Base.Active(cfg) && res.Ok? ==>
              var s1 := EnsureLayout(cfg, s, canvas);
              var start := StartBatch(cfg.gravity, s1.layout.value.clip, s1.batch, cfg.buffer.value, s.n, canvas.height, r);
              start.Ok? && res.value.0 == s1.(batch := Advance(start.value, s.maxBatch).0)
  {
    var s1 := EnsureLayout(cfg, s, canvas);
    if !Base.Active(cfg) then Ok((s1, []))
    else
      match StartBatch(cfg.gravity, s1.layout.value.clip, s1.batch, cfg.buffer.value, s.n, canvas.height, r)
      case Err(e) => Err(e)
      case Ok(b) =>
        var (b', shown) := Advance(b, s.maxBatch);
        Ok((s1.(batch := b'), Bars(s1.layout.value.barWidth, canvas.height, shown)))
  }

  /** k frames drawn one after another with the same settings, buffer,
      canvas and random slot; the state after the last one. */
  function Replay(cfg: Base.Config, s: State, canvas: Canvas, r: nat, k: nat): (res: Result<State>)
    requires Valid(s) && r < s.n
    ensures res.Ok? ==> Valid(res.value) && res.value.n == s.n && res.value.maxBatch == s.maxBatch
    ensures res.Ok? && k > 0 ==> res.value.layout.Some?
    decreases k
  {
    if k == 0 then Ok(s)
    else
      match Replay(cfg, s, canvas, r, k - 1)
      case Err(e) => Err(e)
      case Ok(s') =>
        match Draw(cfg, s', canvas, r)
        case Err(e) => Err(e)
        case Ok(frame) => Ok(frame.0)
  }

  // ---------------------------------------------------------------------------
  // Properties

  /** With a buffer that reaches the horizon a drawn frame is exactly one
      tween frame over the laid-out state: the batch restarts from the
      window's targets when the counter is zero and then advances, and each
      bar ends at the value that frame shows. */
  lemma DrawIsFrame(cfg: Base.Config, s: State, canvas: Canvas, r: nat)
    requires Valid(s) && r < s.n && Base.Active(cfg) && |cfg.buffer.value| >= Horizon
    ensures var s1 := EnsureLayout(cfg, s, canvas);
            var levels := Window(cfg.buffer.value, s.n, 1, s.n, Lift, canvas.height);
            var res := Draw(cfg, s, canvas, r);
            && levels.Ok? && res.Ok?
            && var (b, shown) := Frame(s1.batch, s.maxBatch, Targets(cfg.gravity, s1.layout.value.clip, levels.value), r);
               && res.value.0 == s1.(batch := b)
               && forall i :: 0 <= i < s.n ==> res.value.1[i].to.y == shown[i]
  {
    WindowOkIff(cfg.buffer.value, s.n, s.n, Lift, canvas.height);
  }

  /** Once laid out, drawing k frames from one buffer that reaches the horizon
      runs the tween k frames against that buffer's targets, so the batch
      results of the tween hold of the drawn frames. */
  lemma {:induction false} ReplayIsRun(cfg: Base.Config, s: State, canvas: Canvas, r: nat, k: nat)
    requires Valid(s) && r < s.n && s.layout.Some?
    requires Base.Active(cfg) && |cfg.buffer.value| >= Horizon
    ensures var levels := Window(cfg.buffer.value, s.n, 1, s.n, Lift, canvas.height);
            && levels.Ok?
            && Replay(cfg, s, canvas, r, k)
               == Ok(s.(batch := Run(s.batch, s.maxBatch, Targets(cfg.gravity, s.layout.value.clip, levels.value), r, k).0))
  {
    WindowOkIff(cfg.buffer.value, s.n, s.n, Lift, canvas.height);
    if k > 0 {
      ReplayIsRun(cfg, s, canvas, r, k - 1);
      var s' := Replay(cfg, s, canvas, r, k - 1).value;
      DrawIsFrame(cfg, s', canvas, r);
    }
  }

  /** For a positive canvas width the bars are spaced by exactly one bar
      width and every centre lies strictly inside the canvas. */
  lemma BarsInsideCanvas(width: nat, n: nat, i: nat)
    requires 0 < n && i < n && width > 0
    ensures var w := width as real / n as real;
            && BarX(i + 1, w) - BarX(i, w) == w
            && 0.0 < BarX(i, w) < width as real
  {
    var w := width as real / n as real;
    assert w * n as real == width as real;
    assert w > 0.0;
    assert BarX(i, w) == (i as real + 0.5) * w;
    assert (i as real + 0.5) * w < n as real * w by {
      assert n as real - (i as real + 0.5) >= 0.5;
      assert (n as real - (i as real + 0.5)) * w > 0.0;
    }
  }

  /** The as-written speed change can leave the counter at or beyond the new
      batch length; from then on the counter only grows, and no new targets
      are ever taken. */
  lemma {:induction false} SpeedChangeCanStall(cfg: Base.Config, s: State, speed: AnimSpeed, targets: seq<real>, r: nat, k: nat)
    requires Valid(s) && |targets| == s.n && r < s.n
    requires s.batch.count >= MaxBatch(speed)
    ensures var s' := SetAnimationSpeed(cfg, s, speed).1;
            var (b, restarts, _) := Run(s'.batch, s'.maxBatch, targets, r, k);
            b.count == s.batch.count + k && restarts == 0
  {
    var s' := SetAnimationSpeed(cfg, s, speed).1;
    StalledBatchNeverRestarts(s'.batch, s'.maxBatch, targets, r, k);
  }

  /** The stall as drawn: after the as-written speed change, k more frames
      from a buffer that reaches the horizon keep the tween's sources and
      destinations and only push the counter further past the batch length,
      so the drawn bars run ever further past their destinations. */
  lemma SpeedChangeStallsDrawing(cfg: Base.Config, s: State, speed: AnimSpeed, canvas: Canvas, r: nat, k: nat)
    requires Valid(s) && r < s.n && s.layout.Some? && s.batch.count >= MaxBatch(speed)
    requires Base.Active(cfg) && |cfg.buffer.value| >= Horizon
    ensures var s' := SetAnimationSpeed(cfg, s, speed).1;
            Replay(cfg, s', canvas, r, k) == Ok(s'.(batch := Batch(s.batch.src, s.batch.dest, s.batch.count + k)))
  {
    var s' := SetAnimationSpeed(cfg, s, speed).1;
    ReplayIsRun(cfg, s', canvas, r, k);
    var targets := Targets(cfg.gravity, s.layout.value.clip, Window(cfg.buffer.value, s.n, 1, s.n, Lift, canvas.height).value);
    StalledBatchNeverRestarts(s'.batch, s'.maxBatch, targets, r, k);
  }

  /** A concrete instance: three frames into a SLOW batch, switching to FAST
      leaves count 3 against a batch length of 2. The next frame draws the bar
      at src + 2 (dest - src), past its destination, and the counter moves to
      4, which never again equals 2. */
  lemma SpeedChangeOvershoots(cfg: Base.Config)
    requires Base.Active(cfg)
    ensures var s := State(3, MaxBatch(Slow), Batch([0.0, 0.0, 0.0], [10.0, 10.0, 10.0], 3), Some(Layout(1.0, Rect(0, 0, 3, 10))));
            var s' := SetAnimationSpeed(cfg, s, Fast).1;
            var res := Draw(cfg, s', Canvas(3, 10, Rect(0, 0, 3, 10)), 0);
            && res.Ok? && res.value.0.batch.count == 4
            && res.value.1[0].to.y == 20.0
  {
    var s := State(3, MaxBatch(Slow), Batch([0.0, 0.0, 0.0], [10.0, 10.0, 10.0], 3), Some(Layout(1.0, Rect(0, 0, 3, 10))));
    var s' := SetAnimationSpeed(cfg, s, Fast).1;
    assert s'.maxBatch == 2;
    var res := Draw(cfg, s', Canvas(3, 10, Rect(0, 0, 3, 10)), 0);
    assert Fraction(4, 2) == 2.0;
    assert res.value.1[0].to.y == Lerp(0.0, 10.0, 2.0);
  }

  /** With the resetting speed change a batch keeps cycling: after k frames
      the counter is k mod maxBatch and ceil(k / maxBatch) batches have
      started. */
  lemma ResettingSpeedChangeKeepsCycling(cfg: Base.Config, s: State, speed: AnimSpeed, targets: seq<real>, r: nat, k: nat)
    requires Valid(s) && |targets| == s.n && r < s.n
    ensures var s' := SetAnimationSpeedResetting(cfg, s, speed).1;
            var (b, restarts, _) := Run(s'.batch, s'.maxBatch, targets, r, k);
            b.count == k % MaxBatch(speed) && restarts == CeilDiv(k, MaxBatch(speed))
  {
    var s' := SetAnimationSpeedResetting(cfg, s, speed).1;
    BatchCycling(s'.batch, s'.maxBatch, targets, r, k);
  }

  /** The cycling as drawn: after the resetting speed change, k frames from a
      buffer that reaches the horizon leave the counter at k mod the new batch
      length, so the bars keep taking new targets. */
  lemma ResettingKeepsDrawingCycling(cfg: Base.Config, s: State, speed: AnimSpeed, canvas: Canvas, r: nat, k: nat)
    requires Valid(s) && r < s.n && s.layout.Some?
    requires Base.Active(cfg) && |cfg.buffer.value| >= Horizon
    ensures var s' := SetAnimationSpeedResetting(cfg, s, speed).1;
            && Replay(cfg, s', canvas, r, k).Ok?
            && Replay(cfg, s', canvas, r, k).value.batch.count == k % MaxBatch(speed)
  {
    var s' := SetAnimationSpeedResetting(cfg, s, speed).1;
    ReplayIsRun(cfg, s', canvas, r, k);
    var targets := Targets(cfg.gravity, s.layout.value.clip, Window(cfg.buffer.value, s.n, 1, s.n, Lift, canvas.height).value);
    BatchCycling(s'.batch, s'.maxBatch, targets, r, k);
  }
}
