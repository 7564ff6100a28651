/** The blast shape: a closed polygon of N spikes around a ring. Each spike
    sits at the ring radius plus a magnitude that shrinks as the sample gets
    louder. Points are Polar values relative to the view centre. */
module Blast {
  import opened Outcome
  import opened AVConstants
  import opened Geometry
  import opened Sampling
  import Ring
  import Base = BaseVisualizer

  const MaxPoints: nat := 1000
  const MinPoints: nat := 3

  /** The point count and the lazily computed ring radius (None while the
      sentinel is -1). */
  datatype State = State(n: nat, radius: Option<int>)

  predicate Valid(s: State)
  {
    s.n > 0
  }

  /** `init`: clamp the point count and reset the radius sentinel. */
  function Init(cfg: Base.Config): (s: State)
    ensures Valid(s) && s.n >= MinPoints && s.radius.None?
    ensures s.n == PointCount(MaxPoints, MinPoints, cfg.density)
  {
    State(PointCount(MaxPoints, MinPoints, cfg.density), None)
  }

  /** `setDensity`: store the density and rerun `init`. */
  function SetDensity(cfg: Base.Config, density: real): (res: (Base.Config, State))
    ensures res.0 == Base.SetDensity(cfg, density)
    ensures res.1.n == PointCount(MaxPoints, MinPoints, density) && res.1.radius.None?
    ensures res.1 == Init(res.0)
  {
    var c := Base.SetDensity(cfg, density);
    (c, Init(c))
  }

  /** The angle of spike i: i steps of 360 / N degrees. */
  function SpikeAngle(i: nat, n: nat): real
    requires n > 0
  {
    i as real * (360.0 / n as real)
  }

  /** MoveTo the first spike, LineTo every other, then Close. */
  function Spikes(radius: int, levels: seq<int>): (path: seq<Cmd<Polar>>)
    requires |levels| > 0
    ensures |path| == |levels| + 1
    ensures path[0] == MoveTo(Polar(radius + levels[0], 0.0))
    ensures forall i :: 0 < i < |levels| ==>
              path[i] == LineTo(Polar(radius + levels[i], SpikeAngle(i, |levels|)))
    ensures path[|levels|] == Close
  {
    var n := |levels|;
    [MoveTo(Polar(radius + levels[0], 0.0))]
      + seq(n - 1, j requires 0 <= j < n - 1 => LineTo(Polar(radius + levels[j + 1], SpikeAngle(j + 1, n))))
      + [Close]
  }

  /** The first-frame block: the radius is computed once from the view. */
  function EnsureRadius(s: State, v: View): (s': State)
    ensures s'.n == s.n && s'.radius.Some?
    ensures s.radius.Some? ==> s' == s
    ensures s.radius.None? ==> s'.radius == Some(Ring.Radius(v))
  {
    if s.radius.Some? then s else s.(radius := Some(Ring.Radius(v)))
  }

  /** `onDraw`: after the radius is fixed, a hidden view or a null or empty
      buffer draws nothing; otherwise spike i reads index ceil(i * len / N)
      and the polygon is closed. A read past the buffer end below index 1024
      faults, which happens exactly when the buffer is shorter than both N
      and 1024. */
  function Draw(cfg: Base.Config, s: State, v: View, canvas: Canvas): (res: Result<(State, seq<Cmd<Polar>>)>)
    requires Valid(s)
    ensures res.Err? ==> res.fault == IndexOutOfRange && Base.Active(cfg)
    ensures res.Ok? ==> res.value.0 == EnsureRadius(s, v)
    ensures !Base.Active(cfg) ==> res.Ok? && res.value.1 == []
    ensures Base.Active(cfg) ==>
              (res.Ok? <==> |cfg.buffer.value| >= s.n || |cfg.buffer.value| >= Horizon)
    ensures Base.Active(cfg) && res.Ok? ==>
              var path := res.value.1;
              var r := res.value.0.radius.value;
              && |path| == s.n + 1
              && path[0].MoveTo? && path[0].to.degrees == 0.0 && path[s.n] == Close
              && (var w := Window(cfg.buffer.value, s.n, 0, s.n, Inset, canvas.height);
                  w.Ok? && path == Spikes(r, w.value))
              && (forall i :: 0 < i < s.n ==> path[i].LineTo? && path[i].to.degrees == SpikeAngle(i, s.n))
              && (forall i :: 0 <= i < s.n ==>
                    r <= path[i].to.radius <= r + canvas.height / 4
                    && path[i].to.radius == r + Level(Inset, ProbeAt(cfg.buffer.value, SampleIndex(i, 0, |cfg.buffer.value|, s.n)), canvas.height))
  {
    var s1 := EnsureRadius(s, v);
    if !Base.Active(cfg) then Ok((s1, []))
    else
      var buf := cfg.buffer.value;
      BlastWindowOkIff(buf, s.n, Inset, canvas.height);
      match Window(buf, s.n, 0, s.n, Inset, canvas.height)
      case Err(e) => Err(e)
      case Ok(levels) => Ok((s1, Spikes(s1.radius.value, levels)))
  }

  // ---------------------------------------------------------------------------
  // Properties

  /** Drawing is stateless after the first frame: the returned state is a
      fixed point, and the same buffer on the same canvas gives the same
      polygon whatever view size is passed later. */
  lemma DrawIsRepeatable(cfg: Base.Config, s: State, v: View, v': View, canvas: Canvas)
    requires Valid(s)
    requires Draw(cfg, s, v, canvas).Ok?
    ensures var (s1, path) := Draw(cfg, s, v, canvas).value;
            Draw(cfg, s1, v', canvas) == Ok((s1, path))
  {
  }

  /** A silent sample, or a spike whose index lies at or beyond 1024, reaches
      the outer edge, a quarter of the canvas height beyond the ring; a full
      scale sample sits on the ring. */
  lemma SpikeExtremes(cfg: Base.Config, s: State, v: View, canvas: Canvas, i: nat)
    requires Valid(s) && i < s.n && Base.Active(cfg)
    requires Draw(cfg, s, v, canvas).Ok?
    ensures var buf := cfg.buffer.value;
            var x := SampleIndex(i, 0, |buf|, s.n);
            var p := Draw(cfg, s, v, canvas).value.1[i].to;
            var r := Draw(cfg, s, v, canvas).value.0.radius.value;
            && (x >= Horizon ==> p.radius == r)
            && (x < Horizon && buf[x] == 0 ==> p.radius == r + canvas.height / 4)
            && (x < Horizon && (buf[x] == -128) ==> p.radius == r)
  {
    var buf := cfg.buffer.value;
    var x := SampleIndex(i, 0, |buf|, s.n);
    if x < Horizon && buf[x] == 0 {
      assert Abs(buf[x]) == 0;
      assert 128 * (canvas.height / 4) / 128 == canvas.height / 4;
    }
  }

  /** Of two buffers that agree in length, the louder sample at a spike's
      index puts that spike no further out. */
  lemma LouderSpikeIsShorter(cfg: Base.Config, buf': seq<SByte>, s: State, v: View, canvas: Canvas, i: nat)
    requires Valid(s) && i < s.n && Base.Active(cfg) && |buf'| == |cfg.buffer.value|
    requires Draw(cfg, s, v, canvas).Ok?
    requires var x := SampleIndex(i, 0, |buf'|, s.n);
             x < Horizon ==> Abs(cfg.buffer.value[x]) <= Abs(buf'[x])
    ensures var cfg' := Base.SetRawAudioBytes(cfg, Some(buf'));
            && Draw(cfg', s, v, canvas).Ok?
            && Draw(cfg', s, v, canvas).value.1[i].to.radius <= Draw(cfg, s, v, canvas).value.1[i].to.radius
  {
    var x := SampleIndex(i, 0, |buf'|, s.n);
    if x < Horizon {
      MagnitudeMonotone(Inset, cfg.buffer.value[x], buf'[x], canvas.height);
    }
  }
}
