/** The library-wide constants, the three configuration enums and the
    density-to-point-count arithmetic every visualizer's `init` performs. */
module AVConstants {

  /** Animation speed. The enum source is not part of this model; the
      ordinals are taken in declaration order SLOW, MEDIUM, FAST. */
  datatype AnimSpeed = Slow | Medium | Fast {
    function Ordinal(): (k: nat)
      ensures k <= 2
      ensures this == Slow <==> k == 0
      ensures this == Fast <==> k == 2
    {
      match this
      case Slow => 0
      case Medium => 1
      case Fast => 2
    }
  }

  /** Whether a generated path is closed back to a baseline or centre. */
  datatype PaintStyle = Fill | Outline

  /** Which edge the bar and wave shapes rest on. */
  datatype PositionGravity = Top | Bottom

  const DefaultDensity: real := 0.25
  const DefaultStrokeWidth: real := 8.0
  const MaxAnimBatchCount: nat := 4

  /** Bounds of a 32-bit Kotlin `Int`. */
  const IntMax: int := 0x7fff_ffff
  const IntMin: int := -0x8000_0000

  /** `Float.toInt()`: truncation toward zero, saturating at the `Int` range. */
  function TruncToInt(x: real): (r: int)
    ensures IntMin <= r <= IntMax
    ensures 0.0 <= x < IntMax as real ==> 0 <= r && r as real <= x < r as real + 1.0
    ensures IntMin as real < x <= 0.0 ==> r <= 0 && r as real - 1.0 < x <= r as real
    ensures x >= IntMax as real ==> r == IntMax
    ensures x <= IntMin as real ==> r == IntMin
  {
    if x >= IntMax as real then IntMax
    else if x <= IntMin as real then IntMin
    else if x >= 0.0 then x.Floor
    else -((-x).Floor)
  }

  /** `nPoints = (MAX * density).toInt(); if (nPoints < MIN) nPoints = MIN`:
      a lower clamp only, so a density above one gives more than MAX points. */
  function PointCount(maxPoints: nat, minPoints: nat, density: real): (n: nat)
    ensures n >= minPoints
    ensures minPoints <= maxPoints && 0.0 <= density <= 1.0 ==> n <= maxPoints
    ensures minPoints <= maxPoints <= IntMax && density == 1.0 ==> n == maxPoints
    ensures maxPoints as real * density < minPoints as real ==> n == minPoints
    ensures minPoints as real <= maxPoints as real * density < IntMax as real ==>
              n as real <= maxPoints as real * density < n as real + 1.0
  {
    var k := TruncToInt(maxPoints as real * density);
    if 0.0 <= density <= 1.0 then
      FractionTruncAtMost(maxPoints, density);
      if k < minPoints then minPoints else k
    else if k < minPoints then minPoints else k
  }

  /** Truncating a fraction in [0, 1] of m never exceeds m. */
  lemma FractionTruncAtMost(m: nat, d: real)
    requires 0.0 <= d <= 1.0
    ensures TruncToInt(m as real * d) <= m
  {
    var mr := m as real;
    MulNonNegative(mr, d);
    MulNonNegative(mr, 1.0 - d);
    assert mr * d + mr * (1.0 - d) == mr;
    if mr * d < IntMax as real {
      assert TruncToInt(mr * d) as real <= mr;
    }
  }

  lemma MulNonNegative(a: real, b: real)
    requires 0.0 <= a && 0.0 <= b
    ensures 0.0 <= a * b
  {
  }
}
