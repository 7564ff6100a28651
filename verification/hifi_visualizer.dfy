/** The HiFi shape: two rings of P points mirrored about a base circle of
    radius R, each ring a chain of cubic arcs, with a straight spoke between
    the two points of every pair. Angles are visited by the integer loop of
    the Ring module. The source measures angles counter-clockwise on screen
    (it subtracts the sine), so every Polar here carries the negated angle. */
module HiFi {
  import opened Outcome
  import opened AVConstants
  import opened Geometry
  import opened Sampling
  import Ring
  import Base = BaseVisualizer

  const MaxPoints: nat := 240
  const MinPoints: nat := 30

  /** The point count, the lazily computed radius (None while the sentinel
      is -1), the control-point distance `R / cos(pi / P)` computed with it,
      and the per-point heights. */
  datatype State = State(p: nat, radius: Option<nat>, controlLen: int, heights: seq<int>)

  predicate Valid(s: State)
  {
    s.p > 0 && |s.heights| == s.p
  }

  /** `init`: clamp the point count, reset the radius sentinel and zero the
      heights. The control length is not reset. */
  function Init(cfg: Base.Config, controlLen: int): (s: State)
    ensures Valid(s) && s.p >= MinPoints && s.radius.None? && s.controlLen == controlLen
    ensures s.p == PointCount(MaxPoints, MinPoints, cfg.density)
    ensures forall i :: 0 <= i < s.p ==> s.heights[i] == 0
  {
    var p := PointCount(MaxPoints, MinPoints, cfg.density);
    State(p, None, controlLen, seq(p, _ => 0))
  }

  /** `setDensity`: store the density and rerun `init`. */
  function SetDensity(cfg: Base.Config, s: State, density: real): (res: (Base.Config, State))
    ensures res.0 == Base.SetDensity(cfg, density)
    ensures Valid(res.1) && res.1.p == PointCount(MaxPoints, MinPoints, density)
    ensures res.1.radius.None? && res.1.controlLen == s.controlLen
    ensures res.1 == Init(res.0, s.controlLen)
  {
    var c := Base.SetDensity(cfg, density);
    (c, Init(c, s.controlLen))
  }

  /** The overridden `setPaintStyle` ignores its argument, where the base
      setter would have stored it. */
  function SetPaintStyle(cfg: Base.Config, style: PaintStyle): (d: Base.Config)
    ensures d.style == cfg.style
    ensures style != cfg.style ==> d != Base.SetPaintStyle(cfg, style)
    ensures d == cfg
  {
    cfg
  }

  /** The first-frame block: radius and control length are fixed once. The
      control length involves a cosine and is supplied by the caller. */
  function EnsureRadius(s: State, v: View, controlLen: int): (s': State)
    ensures s'.p == s.p && s'.heights == s.heights && s'.radius.Some?
    ensures s.radius.Some? ==> s' == s
    ensures s.radius.None? ==> s'.radius == Some(Ring.HalvedRadius(v)) && s'.controlLen == controlLen
  {
    if s.radius.Some? then s else s.(radius := Some(Ring.HalvedRadius(v)), controlLen := controlLen)
  }

  /** `updateData`: hidden, or a null or empty buffer, keeps the heights;
      otherwise height i is minus the Spread magnitude of index
      ceil((i + 1) * len / P), which faults below 1024 past the buffer end. */
  function UpdateData(cfg: Base.Config, s: State): (res: Result<State>)
    requires Valid(s) && s.radius.Some?
    ensures res.Err? ==> res.fault == IndexOutOfRange
    ensures !Base.Active(cfg) ==> res == Ok(s)
    ensures Base.Active(cfg) ==> (res.Ok? <==> |cfg.buffer.value| >= Horizon)
    ensures res.Ok? ==> Valid(res.value) && res.value.(heights := s.heights) == s
    ensures Base.Active(cfg) && res.Ok? ==> forall i :: 0 <= i < s.p ==>
              res.value.heights[i] ==
                -Level(Spread, ProbeAt(cfg.buffer.value, SampleIndex(i, 1, |cfg.buffer.value|, s.p)), s.radius.value)
  {
    if !Base.Active(cfg) then Ok(s)
    else
      WindowOkIff(cfg.buffer.value, s.p, s.p, Spread, s.radius.value);
      match Window(cfg.buffer.value, s.p, 1, s.p, Spread, s.radius.value)
      case Err(e) => Err(e)
      case Ok(t) => Ok(s.(heights := Negate(t)))
  }

  // ---------------------------------------------------------------------------
  // The angle loop

  /** Everything one frame's loop reads. */
  datatype Wheel = Wheel(p: nat, step: nat, radius: nat, controlLen: int, heights: seq<int>)

  predicate WheelOk(w: Wheel)
  {
    w.p > 0 && w.step > 0 && |w.heights| == w.p
  }

  /** How the previous point of an arc is chosen: as the source does
      (P - 1 first, then the current slot minus one), or as the slot the
      previous iteration actually read. */
  datatype LastRule = AsWritten | PreviousSlot

  function LastOf(p: nat, step: nat, k: nat, rule: LastRule): (last: int)
    requires p > 0 && step > 0 && k < Ring.Iterations(step)
    ensures last < p
    ensures rule == PreviousSlot ==> last >= 0
  {
    if k == 0 then p - 1
    else
      Ring.SlotInRange(p, step, k);
      Ring.SlotInRange(p, step, k - 1);
      match rule
      case AsWritten => Ring.SlotAt(p, step, k) - 1
      case PreviousSlot => Ring.SlotAt(p, step, k - 1)
  }

  /** Every iteration of the loop over P points has a previous point in
      range; false when the loop step is zero. */
  predicate AllLastInRange(p: nat, rule: LastRule)
    requires p > 0
  {
    Ring.Step(p) > 0 &&
    forall k :: 0 <= k < Ring.Iterations(Ring.Step(p)) ==> LastOf(p, Ring.Step(p), k, rule) >= 0
  }

  /** The ring point at loop iteration k: sign +1 for the ring the source
      calls outward (R + h), -1 for the inward one (R - h). */
  function Tip(w: Wheel, k: nat, sign: int): Polar
    requires WheelOk(w) && k < Ring.Iterations(w.step)
  {
    Ring.SlotInRange(w.p, w.step, k);
    Polar(w.radius + sign * w.heights[Ring.SlotAt(w.p, w.step, k)], Ring.Deg(Ring.AngleAt(w.step, k)))
  }

  /** Both rings start at point P - 1, placed at 360 - 360 / P degrees. */
  function StartTip(w: Wheel, sign: int): Polar
    requires WheelOk(w)
  {
    Polar(w.radius + sign * w.heights[w.p - 1], Ring.Deg(360 - 360 / w.p))
  }

  /** The arc of iteration k: both control points at the control length
      plus (or minus) a height, half a point-step before the angle. */
  function Arc(w: Wheel, k: nat, last: nat, sign: int): Cmd<Polar>
    requires WheelOk(w) && k < Ring.Iterations(w.step) && last < w.p
  {
    Ring.SlotInRange(w.p, w.step, k);
    var slot := Ring.SlotAt(w.p, w.step, k);
    var cd := Ring.Deg(Ring.AngleAt(w.step, k) - 180 / w.p);
    CubicTo(Polar(w.controlLen + sign * w.heights[last], cd),
            Polar(w.controlLen + sign * w.heights[slot], cd),
            Tip(w, k, sign))
  }

  /** What a successful frame draws: the two rings and the spokes. */
  datatype Rings = Rings(outward: seq<Cmd<Polar>>, inward: seq<Cmd<Polar>>, spokes: seq<Segment<Polar>>)

  /** f holds, in order, the arcs of both rings and the spokes of the first
      `count` iterations. */
  predicate Swept(w: Wheel, rule: LastRule, count: nat, f: Rings)
    requires WheelOk(w) && count <= Ring.Iterations(w.step)
  {
    && |f.outward| == count && |f.inward| == count && |f.spokes| == count
    && forall k :: 0 <= k < count ==>
         && LastOf(w.p, w.step, k, rule) >= 0
         && f.outward[k] == Arc(w, k, LastOf(w.p, w.step, k, rule), 1)
         && f.inward[k] == Arc(w, k, LastOf(w.p, w.step, k, rule), -1)
         && f.spokes[k] == Segment(Tip(w, k, 1), Tip(w, k, -1))
  }

  /** The loop over the first `count` iterations; a negative previous point
      faults at the array read. */
  function Sweep(w: Wheel, count: nat, rule: LastRule): (r: Result<Rings>)
    requires WheelOk(w) && count <= Ring.Iterations(w.step)
    ensures r.Err? ==> r.fault == IndexOutOfRange
    ensures r.Ok? <==> forall k :: 0 <= k < count ==> LastOf(w.p, w.step, k, rule) >= 0
    ensures r.Ok? ==> Swept(w, rule, count, r.value)
    decreases count
  {
    if count == 0 then Ok(Rings([], [], []))
    else
      var k := count - 1;
      var last := LastOf(w.p, w.step, k, rule);
      match Sweep(w, k, rule)
      case Err(e) => Err(e)
      case Ok(f) =>
        if last < 0 then Err(IndexOutOfRange)
        else Ok(Rings(f.outward + [Arc(w, k, last, 1)], f.inward + [Arc(w, k, last, -1)],
                      f.spokes + [Segment(Tip(w, k, 1), Tip(w, k, -1))]))
  }

  /** Both rings start with a MoveTo to point P - 1 and continue with one
      arc per loop iteration. */
  function Trace(w: Wheel, rule: LastRule): (r: Result<Rings>)
    requires WheelOk(w)
    ensures r.Err? ==> r.fault == IndexOutOfRange
    ensures r.Ok? <==> forall k :: 0 <= k < Ring.Iterations(w.step) ==> LastOf(w.p, w.step, k, rule) >= 0
    ensures r.Ok? ==>
              var f := r.value;
              && |f.outward| > 0 && |f.inward| > 0
              && f.outward[0] == MoveTo(StartTip(w, 1))
              && f.inward[0] == MoveTo(StartTip(w, -1))
              && Swept(w, rule, Ring.Iterations(w.step), Rings(f.outward[1..], f.inward[1..], f.spokes))
  {
    match Sweep(w, Ring.Iterations(w.step), rule)
    case Err(e) => Err(e)
    case Ok(f) =>
      var o, i := [MoveTo(StartTip(w, 1))] + f.outward, [MoveTo(StartTip(w, -1))] + f.inward;
      assert o[1..] == f.outward && i[1..] == f.inward;
      Ok(Rings(o, i, f.spokes))
  }

  /** The wheel a frame reads once the heights are updated. */
  function WheelOf(s: State): (w: Wheel)
    requires Valid(s) && s.radius.Some?
  {
    Wheel(s.p, Ring.Step(s.p), s.radius.value, s.controlLen, s.heights)
  }

  /** `onDraw` under either rule for the previous point: fix the radius,
      update the heights, then run the loop `0 until 360 step 360 / P`, whose
      zero step (P > 360) is rejected. */
  function Render(cfg: Base.Config, s: State, v: View, controlLen: int, rule: LastRule)
    : (res: Result<(State, Rings)>)
    requires Valid(s)
    ensures var u := UpdateData(cfg, EnsureRadius(s, v, controlLen));
            && (res.Err? ==> res.fault == IndexOutOfRange || res.fault == IllegalArgument)
            && (u.Err? ==> res == Err(u.fault))
            && (u.Ok? ==> (res == Err(IllegalArgument) <==> s.p > 360))
            && (res.Ok? <==> u.Ok? && AllLastInRange(s.p, rule))
            && (res.Ok? ==> res.value == (u.value, Trace(WheelOf(u.value), rule).value))
  {
    var s1 := EnsureRadius(s, v, controlLen);
    Ring.StepZeroIff(s.p);
    match UpdateData(cfg, s1)
    case Err(e) => Err(e)
    case Ok(s2) =>
      if Ring.Step(s.p) == 0 then Err(IllegalArgument)
      else
        match Trace(WheelOf(s2), rule)
        case Err(e) => Err(e)
        case Ok(f) => Ok((s2, f))
  }

  /** The source's `onDraw`: it succeeds exactly when the heights update and
      P divides 360. A P above 360 is rejected by the zero step; any other
      P that does not divide 360 reads index -1 on the second iteration. */
  function Draw(cfg: Base.Config, s: State, v: View, controlLen: int): (res: Result<(State, Rings)>)
    requires Valid(s)
    ensures var u := UpdateData(cfg, EnsureRadius(s, v, controlLen));
            && (res.Ok? <==> u.Ok? && 360 % s.p == 0)
            && (u.Ok? && s.p <= 360 && 360 % s.p != 0 ==> res == Err(IndexOutOfRange))
            && (res.Ok? ==> |res.value.1.outward| == s.p + 1 && |res.value.1.spokes| == s.p)
  {
    var res := Render(cfg, s, v, controlLen, AsWritten);
    if s.p <= 360 then
      AsWrittenLastIff(s.p);
      if res.Ok? then
        Ring.DividingVisitsEachSlot(s.p, 0);
        res
      else res
    else res
  }

  /** `onDraw` with the previous point taken as the slot the previous
      iteration read: it succeeds whenever the heights update and P <= 360. */
  function DrawCorrected(cfg: Base.Config, s: State, v: View, controlLen: int): (res: Result<(State, Rings)>)
    requires Valid(s)
    ensures var u := UpdateData(cfg, EnsureRadius(s, v, controlLen));
            && (res.Ok? <==> u.Ok? && s.p <= 360)
            && (res.Ok? ==> |res.value.1.spokes| == Ring.Iterations(Ring.Step(s.p)))
  {
    Render(cfg, s, v, controlLen, PreviousSlot)
  }

  // ---------------------------------------------------------------------------
  // Properties

  /** For 1 <= P <= 360, every iteration's previous point is in range under
      the source's rule exactly when P divides 360. */
  lemma AsWrittenLastIff(p: nat)
    requires 0 < p <= 360
    ensures AllLastInRange(p, AsWritten) <==> 360 % p == 0
  {
    var step := Ring.Step(p);
    if 360 % p == 0 {
      forall k | 0 <= k < Ring.Iterations(step)
        ensures LastOf(p, step, k, AsWritten) >= 0
      {
        Ring.DividingVisitsEachSlot(p, 0);
        Ring.DividingVisitsEachSlot(p, k);
      }
    } else {
      Ring.NonDividingRevisitsSlotZero(p);
      assert LastOf(p, step, 1, AsWritten) == -1;
    }
  }

  /** When P divides 360 the corrected rule picks the same previous point,
      so both draws agree. */
  lemma CorrectionAgreesWhenDividing(cfg: Base.Config, s: State, v: View, controlLen: int)
    requires Valid(s) && 360 % s.p == 0
    ensures Draw(cfg, s, v, controlLen) == DrawCorrected(cfg, s, v, controlLen)
  {
    var step := Ring.Step(s.p);
    Ring.DividingVisitsEachSlot(s.p, 0);
    forall k | 0 <= k < Ring.Iterations(step)
      ensures LastOf(s.p, step, k, AsWritten) == LastOf(s.p, step, k, PreviousSlot)
    {
      if k > 0 {
        Ring.DividingVisitsEachSlot(s.p, k);
        Ring.DividingVisitsEachSlot(s.p, k - 1);
      }
    }
    var u := UpdateData(cfg, EnsureRadius(s, v, controlLen));
    if u.Ok? {
      SweepRulesAgree(WheelOf(u.value), Ring.Iterations(step));
    }
  }

  /** Two rules that pick the same previous points give the same loop. */
  lemma {:induction false} SweepRulesAgree(w: Wheel, count: nat)
    requires WheelOk(w) && count <= Ring.Iterations(w.step)
    requires forall k :: 0 <= k < count ==> LastOf(w.p, w.step, k, AsWritten) == LastOf(w.p, w.step, k, PreviousSlot)
    ensures Sweep(w, count, AsWritten) == Sweep(w, count, PreviousSlot)
    decreases count
  {
    if count > 0 {
      SweepRulesAgree(w, count - 1);
    }
  }

  /** The default count of the largest density, 240 points, does not divide
      360: a frame faults at index -1 even with nothing to read. */
  lemma FullDensityFaults(cfg: Base.Config, v: View, controlLen: int)
    requires cfg.density == 1.0 && !Base.Active(cfg)
    ensures Init(cfg, controlLen).p == 240
    ensures Draw(cfg, Init(cfg, controlLen), v, controlLen) == Err(IndexOutOfRange)
    ensures DrawCorrected(cfg, Init(cfg, controlLen), v, controlLen).Ok?
  {
  }

  /** The two rings mirror each other about the base circle: every pair of
      ring points sums to 2R and every pair of control points to twice the
      control length, at equal angles. */
  lemma RingsMirror(cfg: Base.Config, s: State, v: View, controlLen: int, rule: LastRule, k: nat)
    requires Valid(s)
    requires Render(cfg, s, v, controlLen, rule).Ok?
    requires k < |Render(cfg, s, v, controlLen, rule).value.1.spokes|
    ensures var (s', f) := Render(cfg, s, v, controlLen, rule).value;
            var r := s'.radius.value;
            var (o, i) := (f.outward[k + 1], f.inward[k + 1]);
            && f.spokes[k].from.radius + f.spokes[k].to.radius == 2 * r
            && f.spokes[k].from.degrees == f.spokes[k].to.degrees
            && f.outward[0].to.radius + f.inward[0].to.radius == 2 * r
            && o.CubicTo? && i.CubicTo?
            && o.to.radius + i.to.radius == 2 * r
            && o.c1.radius + i.c1.radius == 2 * s'.controlLen
            && o.c2.radius + i.c2.radius == 2 * s'.controlLen
            && o.c1.degrees == i.c1.degrees && o.c2.degrees == i.c2.degrees && o.to.degrees == i.to.degrees
  {
  }

  /** When P divides 360 each ring closes: the last arc ends on the point the
      ring started from. */
  lemma RingsClose(cfg: Base.Config, s: State, v: View, controlLen: int)
    requires Valid(s)
    requires Draw(cfg, s, v, controlLen).Ok?
    ensures var f := Draw(cfg, s, v, controlLen).value.1;
            && f.outward[s.p].to == f.outward[0].to
            && f.inward[s.p].to == f.inward[0].to
  {
    var u := UpdateData(cfg, EnsureRadius(s, v, controlLen));
    Ring.DividingVisitsEachSlot(s.p, 0);
    TraceCloses(WheelOf(u.value));
  }

  lemma TraceCloses(w: Wheel)
    requires WheelOk(w) && w.step == Ring.Step(w.p) && 360 % w.p == 0
    requires Trace(w, AsWritten).Ok?
    ensures var f := Trace(w, AsWritten).value;
            var n := Ring.Iterations(w.step);
            && f.outward[n].to == f.outward[0].to
            && f.inward[n].to == f.inward[0].to
  {
    var f := Trace(w, AsWritten).value;
    var k := w.p - 1;
    Ring.DividingVisitsEachSlot(w.p, k);
    var swept := Rings(f.outward[1..], f.inward[1..], f.spokes);
    assert Swept(w, AsWritten, w.p, swept);
    SweptEndsAtTips(w, AsWritten, w.p, swept, k);
    LastTipIsStart(w, 1);
    LastTipIsStart(w, -1);
    assert f.outward[w.p].to == Tip(w, k, 1) == StartTip(w, 1) == f.outward[0].to;
    assert f.inward[w.p].to == Tip(w, k, -1) == StartTip(w, -1) == f.inward[0].to;
  }

  /** With a dividing P the last iteration lands on the start point. */
  lemma LastTipIsStart(w: Wheel, sign: int)
    requires WheelOk(w) && w.step == Ring.Step(w.p) && 360 % w.p == 0
    ensures w.p - 1 < Ring.Iterations(w.step)
    ensures Tip(w, w.p - 1, sign) == StartTip(w, sign)
  {
    Ring.DividingVisitsEachSlot(w.p, w.p - 1);
    assert Ring.AngleAt(w.step, w.p - 1) == 360 - 360 / w.p;
  }

  /** Arc k of a sweep ends on the tip of iteration k. */
  lemma SweptEndsAtTips(w: Wheel, rule: LastRule, count: nat, f: Rings, k: nat)
    requires WheelOk(w) && count <= Ring.Iterations(w.step)
    requires Swept(w, rule, count, f) && k < count
    ensures f.outward[k].CubicTo? && f.outward[k].to == Tip(w, k, 1)
    ensures f.inward[k].CubicTo? && f.inward[k].to == Tip(w, k, -1)
  {
  }

  /** Heights are never positive: a read sample gives between -2R and -R,
      an index at or beyond 1024 gives 0. So the ring the source calls
      outward runs at R + h <= R and the inward one at R - h >= R. */
  lemma HeightsBand(cfg: Base.Config, s: State, i: nat)
    requires Valid(s) && s.radius.Some? && i < s.p && Base.Active(cfg)
    requires UpdateData(cfg, s).Ok?
    ensures var h := UpdateData(cfg, s).value.heights[i];
            var r: int := s.radius.value;
            var x := SampleIndex(i, 1, |cfg.buffer.value|, s.p);
            && (x >= Horizon ==> h == 0)
            && (x < Horizon ==> -2 * r <= h <= -r)
  {
    var buf := cfg.buffer.value;
    var pr := ProbeAt(buf, SampleIndex(i, 1, |buf|, s.p));
    assert UpdateData(cfg, s).value.heights[i] == -Level(Spread, pr, s.radius.value);
    if pr.Sample? {
      var t := Magnitude(Spread, pr.b, s.radius.value);
      assert s.radius.value <= t <= 2 * s.radius.value;
    }
  }
}
