/** The batch tween shared by the Bar and Wave shapes: per-point source and
    destination values plus a frame counter. A new destination set is taken
    when the counter is zero; every frame first increments the counter and then
    shows src + (count / maxBatch) * (dest - src). */
module Tween {
  import opened Outcome
  import opened AVConstants
  import opened Geometry
  import opened Sampling

  datatype Batch = Batch(src: seq<real>, dest: seq<real>, count: nat)

  /** `MAX_ANIM_BATCH_COUNT - speed.ordinal`: frames per batch. */
  function MaxBatch(speed: AnimSpeed): (m: nat)
    ensures 2 <= m <= MaxAnimBatchCount
  {
    MaxAnimBatchCount - speed.Ordinal()
  }

  /** Linear interpolation from a (at t = 0) to b (at t = 1). */
  function Lerp(a: real, b: real, t: real): real
  {
    a + t * (b - a)
  }

  function Fraction(k: nat, m: nat): real
    requires m > 0
  {
    k as real / m as real
  }

  /** Batch start: src takes the old destinations, dest the fresh targets,
      except that the last slot receives the old destination at index r,
      which was read before any slot changed. */
  function Restart(b: Batch, targets: seq<real>, r: nat): (b': Batch)
    requires |targets| == |b.dest| > 0 && r < |b.dest|
    ensures b'.src == b.dest && b'.count == b.count
    ensures |b'.dest| == |targets|
    ensures forall i :: 0 <= i < |targets| - 1 ==> b'.dest[i] == targets[i]
    ensures b'.dest[|targets| - 1] == b.dest[r]
  {
    Batch(b.dest, targets[|targets| - 1 := b.dest[r]], b.count)
  }

  /** One frame of tweening: increment, interpolate, wrap at maxBatch. */
  function Advance(b: Batch, maxBatch: nat): (res: (Batch, seq<real>))
    requires maxBatch > 0 && |b.src| == |b.dest|
    ensures res.0.src == b.src && res.0.dest == b.dest
    ensures res.0.count == 0 <==> b.count + 1 == maxBatch
    ensures res.0.count != 0 ==> res.0.count == b.count + 1
    ensures |res.1| == |b.src|
    ensures forall i :: 0 <= i < |b.src| ==>
              res.1[i] == Lerp(b.src[i], b.dest[i], Fraction(b.count + 1, maxBatch))
  {
    var k := b.count + 1;
    var shown := seq(|b.src|, i requires 0 <= i < |b.src| =>
                       Lerp(b.src[i], b.dest[i], Fraction(k, maxBatch)));
    (Batch(b.src, b.dest, if k == maxBatch then 0 else k), shown)
  }

  /** A whole frame with a fixed target set: restart when the counter is zero,
      then advance. */
  function Frame(b: Batch, maxBatch: nat, targets: seq<real>, r: nat): (res: (Batch, seq<real>))
    requires maxBatch > 0 && |b.src| == |b.dest| == |targets| > 0 && r < |targets|
    ensures |res.0.src| == |res.0.dest| == |res.1| == |targets|
    ensures b.count < maxBatch ==> res.0.count < maxBatch
    ensures b.count >= maxBatch ==> res.0.count == b.count + 1 && res.0.src == b.src && res.0.dest == b.dest
  {
    Advance(if b.count == 0 then Restart(b, targets, r) else b, maxBatch)
  }

  /** k frames with a fixed target set; also counts the batch restarts and
      returns the values shown by the last frame. */
  function Run(b: Batch, maxBatch: nat, targets: seq<real>, r: nat, k: nat): (res: (Batch, nat, seq<real>))
    requires maxBatch > 0 && |b.src| == |b.dest| == |targets| > 0 && r < |targets|
    ensures |res.0.src| == |res.0.dest| == |targets|
    ensures k > 0 ==> |res.2| == |targets|
    decreases k
  {
    if k == 0 then (b, 0, [])
    else
      var (b1, restarts, _) := Run(b, maxBatch, targets, r, k - 1);
      var (b2, shown) := Frame(b1, maxBatch, targets, r);
      (b2, restarts + (if b1.count == 0 then 1 else 0), shown)
  }

  // ---------------------------------------------------------------------------
  // Targets from the waveform (Bar and Wave)

  /** The resting line: the clip's top edge for TOP, its bottom edge for BOTTOM. */
  function Baseline(g: PositionGravity, clip: Rect): real
  {
    if g == Top then clip.top as real else clip.bottom as real
  }

  /** The target y of each slot: measured up from the clip's bottom edge for
      TOP and down from its top edge for BOTTOM. */
  function Targets(g: PositionGravity, clip: Rect, levels: seq<int>): (ys: seq<real>)
    ensures |ys| == |levels|
    ensures forall i :: 0 <= i < |levels| ==>
              ys[i] == (if g == Top then clip.bottom - levels[i] else clip.top + levels[i]) as real
  {
    seq(|levels|, i requires 0 <= i < |levels| =>
          (if g == Top then clip.bottom - levels[i] else clip.top + levels[i]) as real)
  }

  /** The batch-start step: when the counter is zero every slot gets a target
      from the (i + 1) windowing over n points, and then the last slot gets
      the old destination at r; otherwise the batch is kept. A start faults
      exactly when the buffer is shorter than the horizon. */
  function StartBatch(g: PositionGravity, clip: Rect, b: Batch, buf: seq<SByte>, n: nat, height: nat, r: nat)
    : (res: Result<Batch>)
    requires 0 < n <= |b.dest| && |b.src| == |b.dest| && r < n
    ensures b.count != 0 ==> res == Ok(b)
    ensures b.count == 0 ==> (res.Ok? <==> |buf| >= Horizon)
    ensures res.Err? ==> res.fault == IndexOutOfRange
    ensures res.Ok? ==> |res.value.src| == |res.value.dest| == |b.dest| && res.value.count == b.count
    ensures res.Ok? && b.count == 0 ==>
              res.value == Restart(b, Targets(g, clip, Window(buf, |b.dest|, 1, n, Lift, height).value), r)
  {
    if b.count != 0 then Ok(b)
    else
      WindowOkIff(buf, |b.dest|, n, Lift, height);
      match Window(buf, |b.dest|, 1, n, Lift, height)
      case Err(e) => Err(e)
      case Ok(levels) => Ok(Restart(b, Targets(g, clip, levels), r))
  }

  /** A target lies on the clip edge when its sample is past the horizon and
      otherwise between two and three canvas heights beyond that edge. */
  lemma TargetBand(g: PositionGravity, clip: Rect, buf: seq<SByte>, count: nat, n: nat, height: nat, i: nat)
    requires 0 < n && i < count && Window(buf, count, 1, n, Lift, height).Ok?
    ensures var y := Targets(g, clip, Window(buf, count, 1, n, Lift, height).value)[i];
            var edge := if g == Top then clip.bottom as real else clip.top as real;
            var x := SampleIndex(i, 1, |buf|, n);
            && (x >= Horizon ==> y == edge)
            && (x < Horizon && g == Top ==> edge - 3.0 * height as real <= y <= edge - 2.0 * height as real)
            && (x < Horizon && g == Bottom ==> edge + 2.0 * height as real <= y <= edge + 3.0 * height as real)
  {
    var levels := Window(buf, count, 1, n, Lift, height).value;
    var p := ProbeAt(buf, SampleIndex(i, 1, |buf|, n));
    assert levels[i] == Level(Lift, p, height);
  }

  // ---------------------------------------------------------------------------
  // Properties

  /** A faster speed means fewer frames per batch. */
  lemma FasterMeansShorterBatch(s1: AnimSpeed, s2: AnimSpeed)
    ensures s1.Ordinal() < s2.Ordinal() <==> MaxBatch(s1) > MaxBatch(s2)
  {
  }

  /** While the counter is in range every shown value lies between its source
      and destination, and the frame that wraps the counter shows dest. */
  lemma AdvanceShowsBetween(b: Batch, maxBatch: nat)
    requires 0 < maxBatch && b.count < maxBatch && |b.src| == |b.dest|
    ensures forall i :: 0 <= i < |b.src| ==>
              var v := Advance(b, maxBatch).1[i];
              (b.src[i] <= v <= b.dest[i]) || (b.dest[i] <= v <= b.src[i])
    ensures b.count + 1 == maxBatch ==> Advance(b, maxBatch).1 == b.dest
  {
    var t := Fraction(b.count + 1, maxBatch);
    FractionInUnit(b.count + 1, maxBatch);
    forall i | 0 <= i < |b.src|
      ensures var v := Lerp(b.src[i], b.dest[i], t);
              (b.src[i] <= v <= b.dest[i]) || (b.dest[i] <= v <= b.src[i])
    {
      LerpBetween(b.src[i], b.dest[i], t);
    }
    if b.count + 1 == maxBatch {
      assert t == 1.0;
      var shown := Advance(b, maxBatch).1;
      assert forall i :: 0 <= i < |b.src| ==> shown[i] == b.dest[i];
    }
  }

  /** k / m for 0 < k <= m lies in (0, 1], and is 1 exactly at k == m. */
  lemma FractionInUnit(k: nat, m: nat)
    requires 0 < k <= m
    ensures 0.0 < Fraction(k, m) <= 1.0
    ensures k == m ==> Fraction(k, m) == 1.0
  {
    var f, kr, mr := Fraction(k, m), k as real, m as real;
    assert f * mr == kr;
    assert (1.0 - f) * mr == mr - kr;
    NonNegativeFactor(1.0 - f, mr);
  }

  /** A product that is not negative, with a positive right factor, has a
      left factor that is not negative. */
  lemma NonNegativeFactor(a: real, b: real)
    requires 0.0 < b && 0.0 <= a * b
    ensures 0.0 <= a
  {
  }

  lemma LerpBetween(a: real, b: real, t: real)
    requires 0.0 <= t <= 1.0
    ensures (a <= Lerp(a, b, t) <= b) || (b <= Lerp(a, b, t) <= a)
  {
    var d := b - a;
    var s := 1.0 - t;
    assert Lerp(a, b, t) == a + t * d;
    assert a + d - Lerp(a, b, t) == s * d;
    if a <= b {
      assert t * d >= 0.0 && s * d >= 0.0;
    } else {
      assert t * d <= 0.0 && s * d <= 0.0;
    }
  }

  /** Starting from a zero counter, frame k (1 <= k <= maxBatch) shows the
      tween at k / maxBatch between the old destinations and the new ones;
      exactly one batch start happens, and frame maxBatch shows the new
      destinations exactly and leaves the counter at zero again. */
  lemma {:induction false} OneBatchCycle(b: Batch, maxBatch: nat, targets: seq<real>, r: nat, k: nat)
    requires maxBatch > 0 && |b.src| == |b.dest| == |targets| > 0 && r < |targets|
    requires b.count == 0 && 1 <= k <= maxBatch
    ensures var next := Restart(b, targets, r);
            var (b', restarts, shown) := Run(b, maxBatch, targets, r, k);
            && b'.src == next.src && b'.dest == next.dest
            && b'.count == (if k == maxBatch then 0 else k)
            && restarts == 1
            && (forall i :: 0 <= i < |targets| ==> shown[i] == Lerp(next.src[i], next.dest[i], Fraction(k, maxBatch)))
            && (k == maxBatch ==> shown == next.dest)
  {
    var next := Restart(b, targets, r);
    if k > 1 {
      OneBatchCycle(b, maxBatch, targets, r, k - 1);
    }
    var (b', _, shown) := Run(b, maxBatch, targets, r, k);
    if k == maxBatch {
      assert Fraction(k, maxBatch) == 1.0;
      assert shown == next.dest;
    }
  }

  /** From a zero counter, after any number k of frames the counter is
      k mod maxBatch and exactly ceil(k / maxBatch) batches have started: a
      new destination set is taken once every maxBatch frames. */
  lemma {:induction false} BatchCycling(b: Batch, maxBatch: nat, targets: seq<real>, r: nat, k: nat)
    requires maxBatch > 0 && |b.src| == |b.dest| == |targets| > 0 && r < |targets|
    requires b.count == 0
    ensures Run(b, maxBatch, targets, r, k).0.count == k % maxBatch
    ensures Run(b, maxBatch, targets, r, k).1 == Sampling.CeilDiv(k, maxBatch)
  {
    if k == 0 {
      CeilDivUnique(0, maxBatch, 0);
    } else {
      BatchCycling(b, maxBatch, targets, r, k - 1);
      CycleArithmetic(k - 1, maxBatch);
    }
  }

  /** The counter and restart arithmetic of one more frame:
      c = (k mod m) steps to (k + 1) mod m, and a restart at c = 0 adds one to
      ceil(k / m). */
  lemma CycleArithmetic(k: nat, m: nat)
    requires m > 0
    ensures (if k % m + 1 == m then 0 else k % m + 1) == (k + 1) % m
    ensures Sampling.CeilDiv(k, m) + (if k % m == 0 then 1 else 0) == Sampling.CeilDiv(k + 1, m)
  {
    ModStep(k, m);
    CeilStep(k, m);
  }

  lemma ModStep(k: nat, m: nat)
    requires m > 0
    ensures (if k % m + 1 == m then 0 else k % m + 1) == (k + 1) % m
  {
    var q, c := k / m, k % m;
    assert k == q * m + c;
    assert (q + 1) * m == q * m + m;
    if c + 1 == m {
      ModOfMultiple(q + 1, m);
    } else {
      ModOfRemainder(q, m, c + 1);
    }
  }

  lemma CeilStep(k: nat, m: nat)
    requires m > 0
    ensures Sampling.CeilDiv(k, m) + (if k % m == 0 then 1 else 0) == Sampling.CeilDiv(k + 1, m)
  {
    var q, c := k / m, k % m;
    assert k == q * m + c;
    assert (q + 1) * m == q * m + m;
    CeilDivUnique(k + 1, m, q + 1);
    if c == 0 {
      CeilDivUnique(k, m, q);
    } else {
      CeilDivUnique(k, m, q + 1);
    }
  }

  /** Once the counter is at or beyond maxBatch it never wraps again: every
      frame increments it and no new destination set is ever taken. */
  lemma {:induction false} StalledBatchNeverRestarts(b: Batch, maxBatch: nat, targets: seq<real>, r: nat, k: nat)
    requires maxBatch > 0 && |b.src| == |b.dest| == |targets| > 0 && r < |targets|
    requires b.count >= maxBatch
    ensures Run(b, maxBatch, targets, r, k).0 == Batch(b.src, b.dest, b.count + k)
    ensures Run(b, maxBatch, targets, r, k).1 == 0
  {
    if k > 0 {
      StalledBatchNeverRestarts(b, maxBatch, targets, r, k - 1);
    }
  }

  // ---------------------------------------------------------------------------
  // Division helpers

  lemma CeilDivUnique(a: nat, d: nat, q: nat)
    requires d > 0 && a <= q * d < a + d
    ensures Sampling.CeilDiv(a, d) == q
  {
    var c := Sampling.CeilDiv(a, d);
    if c < q {
      Sampling.MulLeft(c + 1, q, d);
    } else if c > q {
      Sampling.MulLeft(q + 1, c, d);
    }
  }

  lemma ModOfMultiple(q: nat, d: nat)
    requires d > 0
    ensures (q * d) % d == 0
  {
    var r := (q * d) % d;
    var p := (q * d) / d;
    assert q * d == p * d + r;
    if p < q {
      Sampling.MulLeft(p + 1, q, d);
    } else if p > q {
      Sampling.MulLeft(q + 1, p, d);
    }
  }

  lemma ModOfRemainder(q: nat, d: nat, m: nat)
    requires m < d
    ensures (q * d + m) % d == m
  {
    var r := (q * d + m) % d;
    var p := (q * d + m) / d;
    assert q * d + m == p * d + r;
    if p < q {
      Sampling.MulLeft(p + 1, q, d);
    } else if p > q {
      Sampling.MulLeft(q + 1, p, d);
    }
  }
}
