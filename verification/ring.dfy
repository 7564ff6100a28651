/** The angle loop shared by the HiFi and CircleLine shapes: integer degrees
    `0 until 360 step 360 / P`, and the slot `i * P / 360` each angle reads
    from a P-entry array. */
module Ring {
  import opened AVConstants
  import opened Geometry
  import opened Sampling

  /** The smaller side of the view. */
  function Side(v: View): nat
  {
    if v.height < v.width then v.height else v.width
  }

  /** The blob and blast ring radius: 65 % of the smaller side, halved, then
      truncated. */
  function Radius(v: View): (r: int)
    ensures 0 <= r <= Side(v) / 2
    ensures Side(v) <= IntMax ==> r as real <= Side(v) as real * 0.325 < r as real + 1.0
  {
    var r := TruncToInt(Side(v) as real * 0.65 / 2.0);
    assert r as real <= Side(v) as real / 2.0;
    r
  }

  /** The HiFi ring radius: the smaller side is halved in integer arithmetic
      first, then scaled by 65 % and truncated. */
  function HalvedRadius(v: View): (r: int)
    ensures 0 <= r <= Side(v) / 2
    ensures Side(v) <= IntMax ==> r as real <= (Side(v) / 2) as real * 0.65 < r as real + 1.0
  {
    TruncToInt((Side(v) / 2) as real * 0.65)
  }

  /** The two radius formulas agree on an even side. */
  lemma RadiiAgreeOnEvenSide(v: View)
    requires Side(v) % 2 == 0
    ensures Radius(v) == HalvedRadius(v)
  {
    var h := Side(v) / 2;
    assert Side(v) as real * 0.65 / 2.0 == h as real * 0.65;
  }

  /** On an odd side they can differ: a 7 by 7 view gives 2 for one and 1
      for the other. */
  lemma RadiiDifferOnOddSide()
    ensures Radius(View(7, 7)) == 2 && HalvedRadius(View(7, 7)) == 1
  {
    assert Side(View(7, 7)) as real * 0.65 / 2.0 == 2.275;
    assert (Side(View(7, 7)) / 2) as real * 0.65 == 1.95;
  }

  /** Degrees turned counter-clockwise, as a Polar angle: the shapes that
      subtract the sine record their angles negated. */
  function Deg(a: int): real
  {
    -(a as real)
  }

  /** The loop step; zero when P > 360, which the loop rejects. */
  function Step(p: nat): nat
    requires p > 0
  {
    360 / p
  }

  /** The step is zero exactly when P exceeds 360. */
  lemma StepZeroIff(p: nat)
    requires p > 0
    ensures Step(p) == 0 <==> p > 360
  {
    if p <= 360 {
      assert 360 == Step(p) * p + 360 % p;
    }
  }

  /** How many angles the loop visits. */
  function Iterations(step: nat): (k: nat)
    requires step > 0
    ensures k > 0
  {
    CeilDiv(360, step)
  }

  /** The angle of iteration k, in whole degrees. */
  function AngleAt(step: nat, k: nat): nat
  {
    k * step
  }

  /** `i * P / 360`: the slot iteration k reads. */
  function SlotAt(p: nat, step: nat, k: nat): nat
  {
    AngleAt(step, k) * p / 360
  }

  /** Every visited angle is below 360, so every slot it reads is in range. */
  lemma SlotInRange(p: nat, step: nat, k: nat)
    requires step > 0 && k < Iterations(step)
    ensures AngleAt(step, k) < 360
    ensures SlotAt(p, step, k) <= k * step * p / 360
    ensures p > 0 ==> SlotAt(p, step, k) < p
  {
    var K := Iterations(step);
    MulLeft(k, K - 1, step);
    assert (K - 1) * step == K * step - step;
    if p > 0 {
      var x := AngleAt(step, k) * p;
      MulLeft(AngleAt(step, k), 359, p);
      var q := x / 360;
      assert q * 360 <= x;
    }
  }

  /** When P divides 360 the loop makes exactly P iterations and iteration k
      reads slot k: every slot once, in order. */
  lemma DividingVisitsEachSlot(p: nat, k: nat)
    requires 0 < p && 360 % p == 0 && k < p
    ensures Step(p) * p == 360
    ensures Iterations(Step(p)) == p
    ensures SlotAt(p, Step(p), k) == k
  {
    var s := Step(p);
    assert 360 == s * p + 360 % p;
    assert s > 0;
    CeilDivExact(360, s, p);
    assert AngleAt(s, k) * p == k * (s * p);
    assert k * 360 / 360 == k;
  }

  /** When P does not divide 360 (and 2 <= P <= 360) the second iteration
      already reads slot 0 again. */
  lemma NonDividingRevisitsSlotZero(p: nat)
    requires 2 <= p <= 360 && 360 % p != 0
    ensures Step(p) > 0
    ensures Iterations(Step(p)) >= 2
    ensures SlotAt(p, Step(p), 1) == 0
  {
    var s := Step(p);
    assert 360 == s * p + 360 % p;
    assert s * p < 360;
    assert s >= 1;
    assert s <= 180 by {
      MulLeft(2, p, s);
    }
    CeilDivAtMost(360, s, 1);
  }

  lemma CeilDivExact(a: nat, d: nat, q: nat)
    requires d > 0 && q * d == a
    ensures CeilDiv(a, d) == q
  {
    var c := CeilDiv(a, d);
    if c < q {
      MulLeft(c + 1, q, d);
    } else if c > q {
      MulLeft(q + 1, c, d);
    }
  }
}
