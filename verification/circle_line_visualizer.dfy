/** The circle-line shape: a fixed ring of dots, a bar with a round end cap
    for every angle whose slot holds a nonzero value, and, when switched on,
    a translucent ray per angle. Angles come from the integer loop of the
    Ring module and, as in the source, run counter-clockwise on screen, so
    each Polar carries the negated angle. */
module CircleLine {
  import opened Outcome
  import opened AVConstants
  import opened Geometry
  import opened Sampling
  import Ring
  import Base = BaseVisualizer

  const MaxPoints: nat := 240
  const MinPoints: nat := 30

  /** Ray length in units of the dot radius. */
  const RayFactor: nat := 14

  /** The point count, the ring radius and dot radius set on a size change,
      the per-slot values and the public ray switch. */
  datatype State = State(p: nat, radius: nat, pointRadius: nat, srcY: seq<int>, drawLine: bool)

  predicate Valid(s: State)
  {
    s.p > 0 && |s.srcY| == s.p
  }

  /** `init`: clamp the point count and zero the slots; radius, dot radius
      and the ray switch are not touched. */
  function Init(cfg: Base.Config, s: State): (s': State)
    ensures Valid(s') && s'.p >= MinPoints
    ensures s'.p == PointCount(MaxPoints, MinPoints, cfg.density)
    ensures forall i :: 0 <= i < s'.p ==> s'.srcY[i] == 0
    ensures s'.(p := s.p, srcY := s.srcY) == s
  {
    var p := PointCount(MaxPoints, MinPoints, cfg.density);
    s.(p := p, srcY := seq(p, _ => 0))
  }

  /** `setDensity`: store the density and rerun `init`. */
  function SetDensity(cfg: Base.Config, s: State, density: real): (res: (Base.Config, State))
    ensures res.0 == Base.SetDensity(cfg, density)
    ensures Valid(res.1) && res.1.p == PointCount(MaxPoints, MinPoints, density)
    ensures res.1.radius == s.radius && res.1.pointRadius == s.pointRadius
    ensures res.1 == Init(res.0, s)
  {
    var c := Base.SetDensity(cfg, density);
    (c, Init(c, s))
  }

  /** `onSizeChanged`: the ring radius is a quarter of the smaller side in
      integer arithmetic. The dot radius involves a sine and is supplied by
      the caller. */
  function OnSizeChanged(s: State, v: View, pointRadius: nat): (s': State)
    ensures 4 * s'.radius <= Ring.Side(v) < 4 * s'.radius + 4
    ensures s'.pointRadius == pointRadius
    ensures s'.(radius := s.radius, pointRadius := s.pointRadius) == s
  {
    s.(radius := Ring.Side(v) / 4, pointRadius := pointRadius)
  }

  /** `updateData`: hidden, or a null or empty buffer, keeps the slots;
      otherwise slot i is minus the Spread magnitude of index
      ceil((i + 1) * len / P), which faults below 1024 past the buffer end. */
  function UpdateData(cfg: Base.Config, s: State): (res: Result<State>)
    requires Valid(s)
    ensures res.Err? ==> res.fault == IndexOutOfRange
    ensures !Base.Active(cfg) ==> res == Ok(s)
    ensures Base.Active(cfg) ==> (res.Ok? <==> |cfg.buffer.value| >= Horizon)
    ensures res.Ok? ==> Valid(res.value) && res.value.(srcY := s.srcY) == s
    ensures Base.Active(cfg) && res.Ok? ==> forall i :: 0 <= i < s.p ==>
              res.value.srcY[i] ==
                -Level(Spread, ProbeAt(cfg.buffer.value, SampleIndex(i, 1, |cfg.buffer.value|, s.p)), s.radius)
  {
    if !Base.Active(cfg) then Ok(s)
    else
      WindowOkIff(cfg.buffer.value, s.p, s.p, Spread, s.radius);
      match Window(cfg.buffer.value, s.p, 1, s.p, Spread, s.radius)
      case Err(e) => Err(e)
      case Ok(t) => Ok(s.(srcY := Negate(t)))
  }

  // ---------------------------------------------------------------------------
  // What a frame draws

  /** A filled circle. */
  datatype Dot = Dot(center: Polar, radius: nat)

  /** A triangle pointing outward along an angle: its base, of half-width
      `halfWidth`, lies at radius `base`, its tip at radius `tip`. */
  datatype Ray = Ray(degrees: real, base: int, tip: int, halfWidth: nat)

  /** A rectangle of half-width `halfWidth` along an angle from radius
      `inner` to radius `outer`, capped by a circle of the same radius
      centred at `outer`. */
  datatype Bar = Bar(degrees: real, inner: int, outer: int, halfWidth: nat)

  datatype Picture = Picture(dots: seq<Dot>, rays: seq<Ray>, bars: seq<Bar>)

  /** The slot value iteration k reads. */
  function Value(s: State, step: nat, k: nat): int
    requires Valid(s) && step > 0 && k < Ring.Iterations(step)
  {
    Ring.SlotInRange(s.p, step, k);
    s.srcY[Ring.SlotAt(s.p, step, k)]
  }

  function DotAt(s: State, step: nat, k: nat): Dot
  {
    Dot(Polar(s.radius, Ring.Deg(Ring.AngleAt(step, k))), s.pointRadius)
  }

  function RayAt(s: State, step: nat, k: nat): Ray
    requires Valid(s) && step > 0 && k < Ring.Iterations(step)
  {
    var base := s.radius + Value(s, step, k);
    Ray(Ring.Deg(Ring.AngleAt(step, k)), base, base + RayFactor * s.pointRadius, s.pointRadius)
  }

  function BarAt(s: State, step: nat, k: nat): Bar
    requires Valid(s) && step > 0 && k < Ring.Iterations(step)
  {
    Bar(Ring.Deg(Ring.AngleAt(step, k)), s.radius, s.radius + Value(s, step, k), s.pointRadius)
  }

  /** The bar loop over the first `count` iterations: a zero slot is
      skipped, any other slot gives its bar, in loop order. */
  function Bars(s: State, step: nat, count: nat): (bars: seq<Bar>)
    requires Valid(s) && step > 0 && count <= Ring.Iterations(step)
    ensures |bars| <= count
    ensures forall b :: b in bars ==>
              exists k :: 0 <= k < count && Value(s, step, k) != 0 && b == BarAt(s, step, k)
    ensures forall k :: 0 <= k < count && Value(s, step, k) != 0 ==> BarAt(s, step, k) in bars
    decreases count
  {
    if count == 0 then []
    else
      var k := count - 1;
      var prefix := Bars(s, step, k);
      if Value(s, step, k) == 0 then prefix else prefix + [BarAt(s, step, k)]
  }

  /** `onDraw`: update the slots, then the dot loop, the optional ray loop
      and the bar loop, each `0 until 360 step 360 / P`; a zero step
      (P > 360) is rejected. Every slot read is in range. */
  function Draw(cfg: Base.Config, s: State): (res: Result<(State, Picture)>)
    requires Valid(s)
    ensures var u := UpdateData(cfg, s);
            && (res.Err? ==> res.fault == IndexOutOfRange || res.fault == IllegalArgument)
            && (u.Err? ==> res == Err(u.fault))
            && (res.Ok? <==> u.Ok? && s.p <= 360)
            && (u.Ok? && s.p > 360 ==> res == Err(IllegalArgument))
    ensures res.Ok? ==>
              var (s', pic) := res.value;
              var step := Ring.Step(s.p);
              var count := Ring.Iterations(step);
              && s' == UpdateData(cfg, s).value
              && step > 0
              && |pic.dots| == count
              && (forall k :: 0 <= k < count ==> pic.dots[k] == DotAt(s', step, k))
              && (!s.drawLine ==> pic.rays == [])
              && (s.drawLine ==> |pic.rays| == count && forall k :: 0 <= k < count ==> pic.rays[k] == RayAt(s', step, k))
              && pic.bars == Bars(s', step, count)
  {
    Ring.StepZeroIff(s.p);
    match UpdateData(cfg, s)
    case Err(e) => Err(e)
    case Ok(s') =>
      var step := Ring.Step(s.p);
      if step == 0 then Err(IllegalArgument)
      else
        var count := Ring.Iterations(step);
        var dots := seq(count, k requires 0 <= k < count => DotAt(s', step, k));
        var rays := if s.drawLine then seq(count, k requires 0 <= k < count => RayAt(s', step, k)) else [];
        Ok((s', Picture(dots, rays, Bars(s', step, count))))
  }

  // ---------------------------------------------------------------------------
  // Properties

  /** When P divides 360 there is one dot per slot, evenly spaced, and
      slot k's bar is drawn exactly when slot k is nonzero. */
  lemma DividingDrawsEverySlot(cfg: Base.Config, s: State, k: nat)
    requires Valid(s) && 360 % s.p == 0 && k < s.p
    requires Draw(cfg, s).Ok?
    ensures var (s', pic) := Draw(cfg, s).value;
            && |pic.dots| == s.p
            && pic.dots[k].center == Polar(s.radius, Ring.Deg(k * (360 / s.p)))
            && (BarAt(s', Ring.Step(s.p), k) in pic.bars <==> s'.srcY[k] != 0)
  {
    var (s', pic) := Draw(cfg, s).value;
    var step := Ring.Step(s.p);
    Ring.DividingVisitsEachSlot(s.p, k);
    assert Value(s', step, k) == s'.srcY[k];
    if BarAt(s', step, k) in pic.bars {
      var j :| 0 <= j < Ring.Iterations(step) && Value(s', step, j) != 0 && BarAt(s', step, k) == BarAt(s', step, j);
      assert Ring.AngleAt(step, j) == Ring.AngleAt(step, k);
      AngleDetermines(step, j, k);
    }
  }

  /** Distinct iterations visit distinct angles. */
  lemma AngleDetermines(step: nat, j: nat, k: nat)
    requires step > 0 && Ring.AngleAt(step, j) == Ring.AngleAt(step, k)
    ensures j == k
  {
    if k < j {
      MulLeft(k + 1, j, step);
    }
  }

  /** While a buffer is shown, the slot read from a sample lies between -2R
      and -R, and one whose index is at or beyond 1024 is 0. So with a
      positive radius a bar is drawn exactly for the angles whose index was
      read, and it runs from the ring inwards, its cap between the centre
      and the opposite side of the ring. */
  lemma BarsFollowReadSamples(cfg: Base.Config, s: State, k: nat)
    requires Valid(s) && Base.Active(cfg) && s.radius > 0
    requires Draw(cfg, s).Ok?
    requires k < Ring.Iterations(Ring.Step(s.p))
    ensures var (s', pic) := Draw(cfg, s).value;
            var step := Ring.Step(s.p);
            var slot := Ring.SlotAt(s.p, step, k);
            var x := SampleIndex(slot, 1, |cfg.buffer.value|, s.p);
            && (BarAt(s', step, k) in pic.bars <==> x < Horizon)
            && (x < Horizon ==> -(s.radius as int) <= BarAt(s', step, k).outer <= 0)
  {
    var (s', pic) := Draw(cfg, s).value;
    var step := Ring.Step(s.p);
    Ring.SlotInRange(s.p, step, k);
    var slot := Ring.SlotAt(s.p, step, k);
    var buf := cfg.buffer.value;
    var pr := ProbeAt(buf, SampleIndex(slot, 1, |buf|, s.p));
    assert Value(s', step, k) == -Level(Spread, pr, s.radius);
    if pr.Sample? {
      var t := Magnitude(Spread, pr.b, s.radius);
      assert s.radius <= t <= 2 * s.radius;
    }
    if BarAt(s', step, k) in pic.bars {
      var j :| 0 <= j < Ring.Iterations(step) && Value(s', step, j) != 0 && BarAt(s', step, k) == BarAt(s', step, j);
      assert Ring.AngleAt(step, j) == Ring.AngleAt(step, k);
      AngleDetermines(step, j, k);
    }
  }

  /** Every ray is fourteen dot radii long and starts where the bar of the
      same angle ends. */
  lemma RaysMeetBars(cfg: Base.Config, s: State, k: nat)
    requires Valid(s) && s.drawLine
    requires Draw(cfg, s).Ok?
    requires k < Ring.Iterations(Ring.Step(s.p))
    ensures var (s', pic) := Draw(cfg, s).value;
            && pic.rays[k].tip - pic.rays[k].base == 14 * s.pointRadius
            && pic.rays[k].base == BarAt(s', Ring.Step(s.p), k).outer
            && pic.rays[k].degrees == pic.dots[k].center.degrees
  {
  }

  /** With nothing to show every slot keeps its value; after `init` they
      are all zero, so a frame draws its dots and no bar. */
  lemma FreshViewDrawsNoBars(cfg: Base.Config, s: State)
    requires !Base.Active(cfg) && Init(cfg, s).p <= 360
    ensures Draw(cfg, Init(cfg, s)).Ok?
    ensures Draw(cfg, Init(cfg, s)).value.1.bars == []
  {
    var s0 := Init(cfg, s);
    var step := Ring.Step(s0.p);
    ZeroSlotsDrawNoBars(s0, step, Ring.Iterations(step));
  }

  lemma {:induction false} ZeroSlotsDrawNoBars(s: State, step: nat, count: nat)
    requires Valid(s) && step > 0 && count <= Ring.Iterations(step)
    requires forall i :: 0 <= i < s.p ==> s.srcY[i] == 0
    ensures Bars(s, step, count) == []
    decreases count
  {
    if count > 0 {
      ZeroSlotsDrawNoBars(s, step, count - 1);
      Ring.SlotInRange(s.p, step, count - 1);
    }
  }
}
