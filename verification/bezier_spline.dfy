/** The open cubic Bézier spline through a list of knots. For n + 1 knots the
    first control point of each of the n segments solves, per axis, the
    tridiagonal system with diagonal 2, 4, ..., 4, 3.5 and unit off-diagonals;
    the second control points follow algebraically. Arithmetic is over `real`
    (the source uses `Float`). */
module BezierSpline {
  import opened Outcome
  import opened Geometry

  // ---------------------------------------------------------------------------
  // The tridiagonal system

  /** Diagonal coefficient of row i of the n-row system. */
  function Diag(i: nat, n: nat): real
  {
    if i == 0 then 2.0 else if i < n - 1 then 4.0 else 3.5
  }

  /** x[i + 1], or 0 past the last row. */
  function Next(x: seq<real>, i: nat): real
    requires i < |x|
  {
    if i + 1 < |x| then x[i + 1] else 0.0
  }

  /** Row i of the matrix-vector product. */
  function RowValue(x: seq<real>, i: nat): real
    requires i < |x|
  {
    (if i > 0 then x[i - 1] else 0.0) + Diag(i, |x|) * x[i] + Next(x, i)
  }

  /** x solves the system with right-hand side r. */
  ghost predicate Solves(r: seq<real>, x: seq<real>)
  {
    |x| == |r| && forall i :: 0 <= i < |r| ==> RowValue(x, i) == r[i]
  }

  /** The elimination pivot `b` after row i: 2 for row 0, then
      Diag(i) - 1 / Pivot(i - 1). It never leaves [2, 4], so no division
      by zero occurs. */
  function Pivot(i: nat, n: nat): (p: real)
    ensures 2.0 <= p <= 4.0
    ensures i > 0 ==> 3.0 <= p
  {
    if i == 0 then 2.0
    else
      var q := Pivot(i - 1, n);
      ReciprocalBounds(q);
      Diag(i, n) - 1.0 / q
  }

  lemma ReciprocalBounds(p: real)
    requires 2.0 <= p <= 4.0
    ensures 0.25 <= 1.0 / p <= 0.5
  {
    var q := 1.0 / p;
    assert p * q == 1.0;
    assert (p - 2.0) * q == 1.0 - 2.0 * q;
    assert (4.0 - p) * q == 4.0 * q - 1.0;
  }

  lemma ReciprocalTimes(p: real, t: real, a: real)
    requires p != 0.0 && t == 1.0 / p
    ensures t * a == a / p
  {
  }

  /** Forward elimination: the value the solution array holds for row i once
      the first loop has passed it. */
  function Forward(r: seq<real>, i: nat): real
    requires i < |r|
  {
    if i == 0 then r[0] / 2.0 else (r[i] - Forward(r, i - 1)) / Pivot(i, |r|)
  }

  /** Back-substitution: x[n - 1] = y[n - 1], x[i] = y[i] - x[i + 1] / Pivot(i). */
  function Back(r: seq<real>, i: nat): real
    requires i < |r|
    decreases |r| - i
  {
    if i == |r| - 1 then Forward(r, i) else Forward(r, i) - Back(r, i + 1) / Pivot(i, |r|)
  }

  /** The vector elimination and back-substitution produce. */
  function Solution(r: seq<real>): (x: seq<real>)
    ensures |x| == |r|
    ensures forall i :: 0 <= i < |r| ==> x[i] == Back(r, i)
  {
    seq(|r|, i requires 0 <= i < |r| => Back(r, i))
  }

  /** `getFirstControlPoints`: the specialised Thomas algorithm. The result
      solves the system, and it is the only vector that does. */
  method SolveFirstControls(rhs: seq<real>) returns (x: seq<real>)
    requires |rhs| >= 1
    ensures Solves(rhs, x)
    ensures forall z :: Solves(rhs, z) <==> z == x
  {
    var y, tmp := Decompose(rhs);
    x := BackSubstitute(rhs, y, tmp);
    SolvesIffSolution(rhs, x);
    forall z
      ensures Solves(rhs, z) <==> z == x
    {
      SolvesIffSolution(rhs, z);
    }
  }

  /** The first loop of `getFirstControlPoints`: decomposition and forward
      substitution. tmp[i] keeps the reciprocal of the previous pivot. */
  method Decompose(rhs: seq<real>) returns (y: seq<real>, tmp: seq<real>)
    requires |rhs| >= 1
    ensures |y| == |tmp| == |rhs|
    ensures forall j :: 0 <= j < |rhs| ==> y[j] == Forward(rhs, j)
    ensures forall j :: 1 <= j < |rhs| ==> tmp[j] == 1.0 / Pivot(j - 1, |rhs|)
  {
    var n := |rhs|;
    y := seq(n, _ => 0.0);
    tmp := seq(n, _ => 0.0);
    var b := 2.0;
    y := y[0 := rhs[0] / b];
    var i := 1;
    while i < n
      invariant 1 <= i <= n
      invariant |y| == |tmp| == n
      invariant b == Pivot(i - 1, n)
      invariant forall j :: 1 <= j < i ==> tmp[j] == 1.0 / Pivot(j - 1, n)
      invariant forall j :: 0 <= j < i ==> y[j] == Forward(rhs, j)
    {
      tmp := tmp[i := 1.0 / b];
      b := Diag(i, n) - tmp[i];
      y := y[i := (rhs[i] - y[i - 1]) / b];
      i := i + 1;
    }
  }

  /** The second loop of `getFirstControlPoints`: back-substitution in place,
      from the next-to-last row up to row 0. */
  method BackSubstitute(rhs: seq<real>, y: seq<real>, tmp: seq<real>) returns (x: seq<real>)
    requires |y| == |tmp| == |rhs| >= 1
    requires forall j :: 0 <= j < |rhs| ==> y[j] == Forward(rhs, j)
    requires forall j :: 1 <= j < |rhs| ==> tmp[j] == 1.0 / Pivot(j - 1, |rhs|)
    ensures x == Solution(rhs)
  {
    var n := |rhs|;
    x := y;
    var i := 1;
    while i < n
      invariant 1 <= i <= n
      invariant |x| == n
      invariant forall j :: 0 <= j < n - i ==> x[j] == Forward(rhs, j)
      invariant forall j :: n - i <= j < n ==> x[j] == Back(rhs, j)
    {
      var j := n - i - 1;
      var t, w, p := tmp[n - i], x[n - i], Pivot(j, n);
      ReciprocalTimes(p, t, w);
      assert Back(rhs, j) == Forward(rhs, j) - w / p;
      x := x[j := x[j] - t * w];
      i := i + 1;
    }
  }

  // ---------------------------------------------------------------------------
  // Correctness and uniqueness of the solve

  /** Row i after elimination: Pivot(i) * x[i] + x[i + 1] == Pivot(i) * y[i]. */
  ghost predicate Eliminated(r: seq<real>, x: seq<real>, i: nat)
    requires |x| == |r| && i < |r|
  {
    Pivot(i, |r|) * x[i] + Next(x, i) == Pivot(i, |r|) * Forward(r, i)
  }

  /** A vector solves the system exactly when it is the computed solution. */
  lemma SolvesIffSolution(r: seq<real>, x: seq<real>)
    requires |r| >= 1
    ensures Solves(r, x) <==> x == Solution(r)
  {
    if |x| == |r| {
      SolvesIffEliminated(r, x, |r| - 1);
      EliminatedIffBack(r, x, 0);
      if x == Solution(r) {
        assert forall j :: 0 <= j < |r| ==> x[j] == Back(r, j);
      } else {
        var j :| 0 <= j < |r| && x[j] != Solution(r)[j];
        assert x[j] != Back(r, j);
      }
    }
  }

  /** Rows 0..m hold exactly when the eliminated rows 0..m hold. */
  lemma {:induction false} SolvesIffEliminated(r: seq<real>, x: seq<real>, m: nat)
    requires |x| == |r| && m < |r|
    ensures (forall i :: 0 <= i <= m ==> RowValue(x, i) == r[i]) <==>
            (forall i :: 0 <= i <= m ==> Eliminated(r, x, i))
  {
    if m == 0 {
      assert RowValue(x, 0) == 2.0 * x[0] + Next(x, 0);
      assert Pivot(0, |r|) == 2.0 && Forward(r, 0) == r[0] / 2.0;
      assert Eliminated(r, x, 0) <==> 2.0 * x[0] + Next(x, 0) == 2.0 * (r[0] / 2.0);
    } else {
      SolvesIffEliminated(r, x, m - 1);
      if forall i :: 0 <= i <= m - 1 ==> Eliminated(r, x, i) {
        EliminationStep(r, x, m);
      }
    }
  }

  /** Once row m - 1 is eliminated, row m holds exactly when its eliminated
      form does. */
  lemma EliminationStep(r: seq<real>, x: seq<real>, m: nat)
    requires |x| == |r| && 0 < m < |r|
    requires Eliminated(r, x, m - 1)
    ensures (RowValue(x, m) == r[m]) <==> Eliminated(r, x, m)
  {
    var n := |r|;
    var pm, p, d := Pivot(m - 1, n), Pivot(m, n), Diag(m, n);
    var ym, y := Forward(r, m - 1), Forward(r, m);
    assert p == d - 1.0 / pm;
    assert y == (r[m] - ym) / p;
    assert pm * x[m - 1] + x[m] == pm * ym;
    RowStep(pm, p, d, x[m - 1], x[m], Next(x, m), ym, y, r[m]);
    assert RowValue(x, m) == x[m - 1] + d * x[m] + Next(x, m);
  }

  /** The algebra of one elimination step. With pm the previous pivot and
      p = d - 1 / pm the current one, the previous eliminated row turns row
      equation xm + d x + xp = r into the eliminated form p x + xp = p y. */
  lemma RowStep(pm: real, p: real, d: real, xm: real, x: real, xp: real, ym: real, y: real, r: real)
    requires pm >= 2.0 && p >= 2.0
    requires p == d - 1.0 / pm
    requires y == (r - ym) / p
    requires pm * xm + x == pm * ym
    ensures (xm + d * x + xp == r) <==> (p * x + xp == p * y)
  {
    var q := 1.0 / pm;
    assert pm * q == 1.0;
    assert q * (pm * xm) == q * (pm * ym) - q * x;
    assert q * (pm * xm) == (q * pm) * xm;
    assert q * (pm * ym) == (q * pm) * ym;
    assert xm == ym - q * x;
    assert d == p + q;
    assert d * x == p * x + q * x;
    assert xm + d * x + xp == ym + p * x + xp;
    assert p * y == r - ym;
  }

  /** The eliminated rows i..n-1 hold exactly when x agrees with the
      back-substituted solution on i..n-1. */
  lemma {:induction false} EliminatedIffBack(r: seq<real>, x: seq<real>, i: nat)
    requires |x| == |r| && i < |r|
    ensures (forall j :: i <= j < |r| ==> Eliminated(r, x, j)) <==>
            (forall j :: i <= j < |r| ==> x[j] == Back(r, j))
    decreases |r| - i
  {
    var n := |r|;
    var p := Pivot(i, n);
    if i == n - 1 {
      assert Eliminated(r, x, i) <==> p * x[i] == p * Forward(r, i);
      CancelNonZero(p, x[i], Forward(r, i));
    } else {
      EliminatedIffBack(r, x, i + 1);
      if forall j :: i + 1 <= j < n ==> x[j] == Back(r, j) {
        assert x[i + 1] == Back(r, i + 1);
        DivideOut(p, x[i], x[i + 1], Forward(r, i));
        assert Eliminated(r, x, i) <==> x[i] == Back(r, i);
      }
    }
  }

  lemma CancelNonZero(p: real, a: real, b: real)
    requires p != 0.0
    ensures p * a == p * b <==> a == b
  {
    if p * a == p * b {
      assert p * (a - b) == 0.0;
    }
  }

  /** p * x + z == p * y exactly when x == y - z / p. */
  lemma DivideOut(p: real, x: real, z: real, y: real)
    requires p != 0.0
    ensures p * x + z == p * y <==> x == y - z / p
  {
    assert p * (z / p) == z;
    assert p * (y - z / p) == p * y - z;
    CancelNonZero(p, x, y - z / p);
  }

  // ---------------------------------------------------------------------------
  // Control points along one axis

  /** The right-hand side built from one coordinate of n + 1 >= 3 knots:
      k0 + 2 k1, then 4 ki + 2 k(i+1) for interior rows, then
      (8 k(n-1) + kn) / 2. With n = 2 there is no interior row. */
  function Rhs(k: seq<real>): (r: seq<real>)
    requires |k| >= 3
    ensures |r| == |k| - 1
  {
    var n := |k| - 1;
    seq(n, i requires 0 <= i < n =>
          if i == 0 then k[0] + 2.0 * k[1]
          else if i < n - 1 then 4.0 * k[i] + 2.0 * k[i + 1]
          else (8.0 * k[n - 1] + k[n]) / 2.0)
  }

  /** The second control points: 2 k(i+1) - f(i+1) for all but the last
      segment, (kn + f(n-1)) / 2 for the last. */
  function Seconds(k: seq<real>, f: seq<real>): (s: seq<real>)
    requires |k| >= 2 && |f| == |k| - 1
    ensures |s| == |f|
  {
    var n := |f|;
    seq(n, i requires 0 <= i < n =>
          if i < n - 1 then 2.0 * k[i + 1] - f[i + 1] else (k[n] + f[n - 1]) / 2.0)
  }

  /** What `updateCurveControlPoints` computes along one axis: the closed
      form for two knots, the solved system otherwise. */
  ghost predicate AxisControls(k: seq<real>, f: seq<real>, s: seq<real>)
  {
    && |k| >= 2 && |f| == |k| - 1 && |s| == |k| - 1
    && if |k| == 2 then f[0] == (2.0 * k[0] + k[1]) / 3.0 && s[0] == 2.0 * f[0] - k[0]
       else Solves(Rhs(k), f) && s == Seconds(k, f)
  }

  /** The geometric meaning: segment i runs from k[i] via f[i], s[i] to
      k[i + 1]; the curve has zero second derivative at both ends, and first
      and second derivatives agree on both sides of every interior knot. */
  ghost predicate NaturalSpline(k: seq<real>, f: seq<real>, s: seq<real>)
  {
    && |k| >= 2 && |f| == |k| - 1 && |s| == |k| - 1
    && k[0] - 2.0 * f[0] + s[0] == 0.0
    && f[|f| - 1] - 2.0 * s[|f| - 1] + k[|k| - 1] == 0.0
    && (forall i :: 0 <= i < |f| - 1 ==> s[i] + f[i + 1] == 2.0 * k[i + 1])
    && (forall i :: 0 <= i < |f| - 1 ==>
          f[i] - 2.0 * s[i] + k[i + 1] == k[i + 1] - 2.0 * f[i + 1] + s[i + 1])
  }

  /** The computed control points are exactly those of the natural C2 spline
      through the knots. */
  lemma AxisControlsIffNatural(k: seq<real>, f: seq<real>, s: seq<real>)
    requires |k| >= 2 && |f| == |k| - 1 && |s| == |k| - 1
    ensures AxisControls(k, f, s) <==> NaturalSpline(k, f, s)
  {
    if |k| > 2 {
      if AxisControls(k, f, s) {
        ControlsAreNatural(k, f, s);
      }
      if NaturalSpline(k, f, s) {
        NaturalIsControls(k, f, s);
      }
    }
  }

  lemma ControlsAreNatural(k: seq<real>, f: seq<real>, s: seq<real>)
    requires |k| >= 3 && AxisControls(k, f, s)
    ensures NaturalSpline(k, f, s)
  {
    var n := |f|;
    var r := Rhs(k);
    assert RowValue(f, 0) == r[0];
    forall i | 0 <= i < n - 1
      ensures f[i] - 2.0 * s[i] + k[i + 1] == k[i + 1] - 2.0 * f[i + 1] + s[i + 1]
    {
      assert RowValue(f, i + 1) == r[i + 1];
    }
  }

  lemma NaturalIsControls(k: seq<real>, f: seq<real>, s: seq<real>)
    requires |k| >= 3 && NaturalSpline(k, f, s)
    ensures AxisControls(k, f, s)
  {
    var n := |f|;
    var r := Rhs(k);
    forall i | 0 <= i < n
      ensures RowValue(f, i) == r[i]
    {
      if i > 0 {
        assert f[i - 1] - 2.0 * s[i - 1] + k[i] == k[i] - 2.0 * f[i] + s[i];
      }
    }
    assert s == Seconds(k, f);
  }

  /** Along one axis the control points are determined by the knots. */
  lemma AxisControlsUnique(k: seq<real>, f: seq<real>, s: seq<real>, f': seq<real>, s': seq<real>)
    requires AxisControls(k, f, s) && AxisControls(k, f', s')
    ensures f == f' && s == s'
  {
    if |k| > 2 {
      SolvesIffSolution(Rhs(k), f);
      SolvesIffSolution(Rhs(k), f');
    } else {
      assert f == [f[0]] && f' == [f'[0]];
      assert s == [s[0]] && s' == [s'[0]];
    }
  }

  // ---------------------------------------------------------------------------
  // The spline object

  /** `BezierSpline(size)`: control-point arrays of size - 1 entries, fixed at
      construction. */
  datatype Spline = Spline(first: seq<Point>, second: seq<Point>)

  function NewSpline(size: int): (r: Result<Spline>)
    ensures size < 1 <==> r == Err(NegativeArraySize)
    ensures r.Ok? ==> |r.value.first| == size - 1 && |r.value.second| == size - 1
  {
    if size < 1 then Err(NegativeArraySize)
    else Ok(Spline(seq(size - 1, _ => Origin), seq(size - 1, _ => Origin)))
  }

  /** Both axes of the output follow AxisControls. */
  ghost predicate Controls(knots: seq<Point>, first: seq<Point>, second: seq<Point>)
  {
    && AxisControls(Xs(knots), Xs(first), Xs(second))
    && AxisControls(Ys(knots), Ys(first), Ys(second))
  }

  /** `updateCurveControlPoints`: fewer than two knots is rejected before
      anything is written; more knots than the arrays allow faults on the
      first write past their end; otherwise entries 0..n-1 of both arrays
      become the natural spline's control points and later entries keep
      their values. */
  method UpdateCurveControlPoints(sp: Spline, knots: seq<Point>) returns (res: Result<Spline>)
    requires |sp.first| == |sp.second|
    ensures |knots| < 2 ==> res == Err(IllegalArgument)
    ensures |knots| >= 2 && |knots| - 1 > |sp.first| ==> res == Err(IndexOutOfRange)
    ensures 2 <= |knots| <= |sp.first| + 1 ==> res.Ok?
    ensures res.Ok? ==>
              var n := |knots| - 1;
              && 1 <= n <= |sp.first|
              && |res.value.first| == |sp.first| && |res.value.second| == |sp.second|
              && res.value.first[n..] == sp.first[n..]
              && res.value.second[n..] == sp.second[n..]
              && Controls(knots, res.value.first[..n], res.value.second[..n])
              && NaturalSpline(Xs(knots), Xs(res.value.first[..n]), Xs(res.value.second[..n]))
              && NaturalSpline(Ys(knots), Ys(res.value.first[..n]), Ys(res.value.second[..n]))
  {
    if |knots| < 2 {
      return Err(IllegalArgument);
    }
    var n := |knots| - 1;
    var kx, ky := Xs(knots), Ys(knots);
    var f: seq<Point>, s: seq<Point>;
    if n == 1 {
      if |sp.first| < 1 {
        return Err(IndexOutOfRange);
      }
      var p := Point((2.0 * kx[0] + kx[1]) / 3.0, (2.0 * ky[0] + ky[1]) / 3.0);
      f := [p];
      s := [Point(2.0 * p.x - kx[0], 2.0 * p.y - ky[0])];
      assert Xs(f) == [p.x] && Ys(f) == [p.y];
      assert Xs(s) == [s[0].x] && Ys(s) == [s[0].y];
    } else {
      var x := SolveFirstControls(Rhs(kx));
      var y := SolveFirstControls(Rhs(ky));
      if |sp.first| < n {
        return Err(IndexOutOfRange);
      }
      f := Zip(x, y);
      s := Zip(Seconds(kx, x), Seconds(ky, y));
    }
    assert Controls(knots, f, s);
    AxisControlsIffNatural(kx, Xs(f), Xs(s));
    AxisControlsIffNatural(ky, Ys(f), Ys(s));
    var first, second := f + sp.first[n..], s + sp.second[n..];
    assert first[..n] == f && second[..n] == s;
    return Ok(Spline(first, second));
  }

  // ---------------------------------------------------------------------------
  // Further properties

  /** With two knots the segment is the straight line between them, its
      control points at one and two thirds of the way. */
  lemma TwoKnotsGiveThirds(k: seq<real>, f: seq<real>, s: seq<real>)
    requires |k| == 2 && AxisControls(k, f, s)
    ensures f[0] == k[0] + (k[1] - k[0]) / 3.0
    ensures s[0] == k[0] + 2.0 * (k[1] - k[0]) / 3.0
  {
  }

  /** The axes are solved independently: knot lists with the same
      x-coordinates give control points with the same x-coordinates, and
      likewise for y. */
  lemma AxesIndependent(k1: seq<Point>, f1: seq<Point>, s1: seq<Point>,
                        k2: seq<Point>, f2: seq<Point>, s2: seq<Point>)
    requires Controls(k1, f1, s1) && Controls(k2, f2, s2)
    ensures Xs(k1) == Xs(k2) ==> Xs(f1) == Xs(f2) && Xs(s1) == Xs(s2)
    ensures Ys(k1) == Ys(k2) ==> Ys(f1) == Ys(f2) && Ys(s1) == Ys(s2)
  {
    if Xs(k1) == Xs(k2) {
      AxisControlsUnique(Xs(k1), Xs(f1), Xs(s1), Xs(f2), Xs(s2));
    }
    if Ys(k1) == Ys(k2) {
      AxisControlsUnique(Ys(k1), Ys(f1), Ys(s1), Ys(f2), Ys(s2));
    }
  }
}
