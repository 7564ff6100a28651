/** The sample-windowing arithmetic every visualizer repeats: which byte of
    the waveform buffer a point reads, whether that read is in range, and the
    integer magnitude formulas that turn the byte into a screen offset. */
module Sampling {
  import opened Outcome

  /** A Kotlin `Byte`: a signed 8-bit sample. */
  type SByte = b: int | -128 <= b <= 127

  /** Only indices below this horizon are ever read from a buffer. */
  const Horizon: nat := 1024

  /** `abs(b.toInt())`: the byte is widened first, so -128 gives 128. */
  function Abs(b: SByte): (r: nat)
    ensures r <= 128
    ensures r == b as int || r == -(b as int)
  {
    if b < 0 then -(b as int) else b as int
  }

  /** The exact ceiling of a / d for a non-negative numerator. */
  function CeilDiv(a: nat, d: nat): (q: nat)
    requires d > 0
    ensures a <= q * d < a + d
  {
    (a + d - 1) / d
  }

  /** `ceil((i + shift) * (len.toFloat() / n))`, read as the exact ceiling of
      a rational: shift is 1 for every shape except Blast, which uses 0. */
  function SampleIndex(i: nat, shift: nat, len: nat, n: nat): nat
    requires n > 0
  {
    CeilDiv((i + shift) * len, n)
  }

  /** What a read at index x produces: nothing past the horizon (the source
      skips the read), the byte when it exists, and a fault otherwise. */
  datatype Probe = Beyond | Sample(b: SByte) | Missing

  function ProbeAt(buf: seq<SByte>, x: nat): (p: Probe)
    ensures p.Beyond? <==> x >= Horizon
    ensures p.Missing? <==> |buf| <= x < Horizon
    ensures p.Sample? ==> x < |buf| && p.b == buf[x]
  {
    if x >= Horizon then Beyond
    else if x < |buf| then Sample(buf[x])
    else Missing
  }

  /** The three integer magnitude formulas of the source. */
  datatype Formula =
    | Lift    // Bar, Wave:     h + (|b| + 128) * h / 128
    | Inset   // Blob, Blast:   (128 - |b|) * (h / 4) / 128
    | Spread  // HiFi, CircleLine: (|b| + 128) * R / 128

  function Magnitude(f: Formula, b: SByte, scale: nat): (t: int)
    ensures f == Lift ==> 2 * scale <= t <= 3 * scale
    ensures f == Inset ==> 0 <= t <= scale / 4
    ensures f == Spread ==> scale <= t <= 2 * scale
  {
    ScaledBounds(Abs(b), scale);
    ScaledBounds(128 - Abs(b), scale / 4);
    match f
    case Lift => scale + (Abs(b) + 128) * scale / 128
    case Inset => (128 - Abs(b)) * (scale / 4) / 128
    case Spread => (Abs(b) + 128) * scale / 128
  }

  /** The magnitude a probe contributes: zero unless a byte was read. */
  function Level(f: Formula, p: Probe, scale: nat): int
  {
    if p.Sample? then Magnitude(f, p.b, scale) else 0
  }

  /** One magnitude per point 0 <= i < count, reading index
      SampleIndex(i, shift, |buf|, n); a read past the end of the buffer and
      below the horizon faults, as the array access in the source does. */
  function Window(buf: seq<SByte>, count: nat, shift: nat, n: nat, f: Formula, scale: nat)
    : (r: Result<seq<int>>)
    requires n > 0
    ensures r.Ok? <==> forall i :: 0 <= i < count ==> !ProbeAt(buf, SampleIndex(i, shift, |buf|, n)).Missing?
    ensures r.Err? ==> r.fault == IndexOutOfRange
    ensures r.Ok? ==> |r.value| == count
    ensures r.Ok? ==> forall i :: 0 <= i < count ==>
                        r.value[i] == Level(f, ProbeAt(buf, SampleIndex(i, shift, |buf|, n)), scale)
    decreases count
  {
    if count == 0 then Ok([])
    else
      var p := ProbeAt(buf, SampleIndex(count - 1, shift, |buf|, n));
      match Window(buf, count - 1, shift, n, f, scale)
      case Err(e) => Err(e)
      case Ok(prefix) =>
        if p.Missing? then Err(IndexOutOfRange) else Ok(prefix + [Level(f, p, scale)])
  }

  // ---------------------------------------------------------------------------
  // Bounds of the magnitude formulas

  /** (a + 128) * s / 128 lies in [s, 2s] and a * s / 128 in [0, s]. */
  lemma ScaledBounds(a: nat, s: nat)
    requires a <= 128
    ensures s <= (a + 128) * s / 128 <= 2 * s
    ensures 0 <= a * s / 128 <= s
  {
    assert a * s <= 128 * s by { MulLeft(a, 128, s); }
    assert (a + 128) * s == a * s + 128 * s;
    DivLeft(a * s, 128 * s, 128);
    assert (a * s + 128 * s) / 128 == a * s / 128 + s;
  }

  /** A larger amplitude never lowers Lift or Spread and never raises Inset. */
  lemma MagnitudeMonotone(f: Formula, b1: SByte, b2: SByte, scale: nat)
    requires Abs(b1) <= Abs(b2)
    ensures f == Inset ==> Magnitude(f, b1, scale) >= Magnitude(f, b2, scale)
    ensures f != Inset ==> Magnitude(f, b1, scale) <= Magnitude(f, b2, scale)
  {
    MulLeft(Abs(b1) + 128, Abs(b2) + 128, scale);
    DivLeft((Abs(b1) + 128) * scale, (Abs(b2) + 128) * scale, 128);
    MulLeft(128 - Abs(b2), 128 - Abs(b1), scale / 4);
    DivLeft((128 - Abs(b2)) * (scale / 4), (128 - Abs(b1)) * (scale / 4), 128);
  }

  lemma MulLeft(a: nat, b: nat, c: nat)
    requires a <= b
    ensures a * c <= b * c
  {
    assert b * c == a * c + (b - a) * c;
  }

  lemma DivLeft(a: nat, b: nat, d: nat)
    requires a <= b && d > 0
    ensures a / d <= b / d
  {
    var qa, qb := a / d, b / d;
    assert a == qa * d + a % d && b == qb * d + b % d;
    if qa > qb {
      MulLeft(qb + 1, qa, d);
      assert false;
    }
  }

  // ---------------------------------------------------------------------------
  // Index arithmetic

  /** CeilDiv(a, d) <= m exactly when a <= m * d. */
  lemma CeilDivAtMost(a: nat, d: nat, m: nat)
    requires d > 0
    ensures CeilDiv(a, d) <= m <==> a <= m * d
  {
    var q := CeilDiv(a, d);
    if q <= m {
      MulLeft(q, m, d);
    } else {
      MulLeft(m + 1, q, d);
    }
  }

  /** With shift 1 and i < n the index never passes len, and the last point
      reads exactly index len. */
  lemma IndexAtMostLen(i: nat, len: nat, n: nat)
    requires i < n
    ensures SampleIndex(i, 1, len, n) <= len
    ensures i == n - 1 ==> SampleIndex(i, 1, len, n) == len
  {
    MulLeft(i + 1, n, len);
    CeilDivAtMost((i + 1) * len, n, len);
    if i == n - 1 && len > 0 {
      CeilDivAtMost((i + 1) * len, n, len - 1);
      assert (len - 1) * n < n * len;
    }
  }

  /** Blast's index ceil(i * len / n) for i < n is at most len - floor(len / n),
      so it stays below len whenever len >= n. */
  lemma BlastIndexBound(i: nat, len: nat, n: nat)
    requires i < n
    ensures SampleIndex(i, 0, len, n) <= len - len / n
    ensures len >= n ==> SampleIndex(i, 0, len, n) < len
  {
    var m := len - len / n;
    assert (len / n) * n <= len;
    assert m * n == len * n - (len / n) * n;
    MulLeft(i, n - 1, len);
    assert (n - 1) * len == len * n - len;
    CeilDivAtMost(i * len, n, m);
    if len >= n {
      assert len / n >= 1 by { DivLeft(n, len, n); }
    }
  }

  /** With fewer bytes than points (and below the horizon) Blast's last point
      reads index len, one past the end. */
  lemma BlastLastIndex(len: nat, n: nat)
    requires 0 < n && len < n
    ensures SampleIndex(n - 1, 0, len, n) == len
  {
    assert len / n == 0;
    BlastIndexBound(n - 1, len, n);
    if len > 0 {
      CeilDivAtMost((n - 1) * len, n, len - 1);
      assert (n - 1) * len == n * len - len;
      assert (len - 1) * n == n * len - n;
    }
  }

  // ---------------------------------------------------------------------------
  // When a window faults

  /** For the (i + 1) windowing over at least n points, every read succeeds
      exactly when the buffer reaches the horizon: the point n - 1 reads index
      len, which only the horizon guard skips. */
  lemma WindowOkIff(buf: seq<SByte>, count: nat, n: nat, f: Formula, scale: nat)
    requires 0 < n <= count
    ensures Window(buf, count, 1, n, f, scale).Ok? <==> |buf| >= Horizon
  {
    var len := |buf|;
    if len < Horizon {
      IndexAtMostLen(n - 1, len, n);
      assert ProbeAt(buf, SampleIndex(n - 1, 1, len, n)).Missing?;
    } else {
      forall i | 0 <= i < count
        ensures !ProbeAt(buf, SampleIndex(i, 1, len, n)).Missing?
      {
      }
    }
  }

  /** Blast's i * len / n windowing over n points succeeds exactly when the
      buffer holds at least n bytes or reaches the horizon. */
  lemma BlastWindowOkIff(buf: seq<SByte>, n: nat, f: Formula, scale: nat)
    requires 0 < n
    ensures Window(buf, n, 0, n, f, scale).Ok? <==> |buf| >= n || |buf| >= Horizon
  {
    var len := |buf|;
    if len < n && len < Horizon {
      BlastLastIndex(len, n);
      assert ProbeAt(buf, SampleIndex(n - 1, 0, len, n)).Missing?;
    } else if len >= n {
      forall i | 0 <= i < n
        ensures !ProbeAt(buf, SampleIndex(i, 0, len, n)).Missing?
      {
        BlastIndexBound(i, len, n);
      }
    }
  }

  // ---------------------------------------------------------------------------
  // The window with the read guarded by the buffer length

  /** The ring shapes store each level negated. */
  function Negate(t: seq<int>): (u: seq<int>)
    ensures |u| == |t|
    ensures forall i :: 0 <= i < |t| ==> u[i] == -t[i]
  {
    seq(|t|, i requires 0 <= i < |t| => -t[i])
  }

  /** The window as the horizon guard evidently means it: a byte is read
      only below both 1024 and the buffer length, and any other index
      contributes 0, as an index beyond 1024 does. It never faults. */
  function GuardedWindow(buf: seq<SByte>, count: nat, shift: nat, n: nat, f: Formula, scale: nat)
    : (r: seq<int>)
    requires n > 0
    ensures |r| == count
    ensures forall i :: 0 <= i < count ==>
              var x := SampleIndex(i, shift, |buf|, n);
              r[i] == if x < |buf| && x < Horizon then Magnitude(f, buf[x], scale) else 0
  {
    seq(count, i requires 0 <= i < count => Level(f, ProbeAt(buf, SampleIndex(i, shift, |buf|, n)), scale))
  }

  /** Wherever the source's window succeeds, the guarded one gives the same
      magnitudes; it differs only by succeeding where the source faults. */
  lemma GuardedWindowAgrees(buf: seq<SByte>, count: nat, shift: nat, n: nat, f: Formula, scale: nat)
    requires n > 0
    requires Window(buf, count, shift, n, f, scale).Ok?
    ensures Window(buf, count, shift, n, f, scale).value == GuardedWindow(buf, count, shift, n, f, scale)
  {
  }
}
