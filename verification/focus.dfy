/** Focus transforms: the Gaussian-like remapping of the unit square that
    concentrates grid resolution around a position along one axis
    (`_approximate_erf`, `_FocusPoint` and `Focus` in grid.py). */
module Focus {
  import opened Results
  import opened Arrays

  datatype Axis = X | Y

  /** A validated focus point: position in [0, 1], axis, factor and extent. */
  datatype FocusPoint = FocusPoint(pos: real, axis: Axis, factor: real, extent: real)

  /** An ordered list of focus points, applied first to last. */
  datatype Focus = Focus(points: seq<FocusPoint>)

  /** ASCII lower-casing, the part of `str.lower` axis names exercise. */
  function LowerChar(ch: char): char {
    if 'A' <= ch <= 'Z' then (ch as int + 32) as char else ch
  }

  function Lower(s: string): (r: string)
    ensures |r| == |s|
    ensures forall k :: 0 <= k < |s| ==> r[k] == LowerChar(s[k])
  {
    seq(|s|, k requires 0 <= k < |s| => LowerChar(s[k]))
  }

  /** The axis a (case-insensitive) name selects, if any. */
  function ParseAxis(name: string): (r: Option<Axis>)
    ensures r == Some(X) <==> name == "x" || name == "X"
    ensures r == Some(Y) <==> name == "y" || name == "Y"
  {
    var low := Lower(name);
    if low == "x" then Some(X) else if low == "y" then Some(Y) else None
  }

  /** The `_FocusPoint` constructor: the position is checked before the axis. */
  function NewFocusPoint(pos: real, axis: string, factor: real, extent: real): (r: Result<FocusPoint>)
    ensures r.Ok? <==> 0.0 <= pos <= 1.0 && axis in {"x", "X", "y", "Y"}
    ensures (pos < 0.0 || 1.0 < pos) ==> r == Err(PosOutOfRange)
    ensures 0.0 <= pos <= 1.0 && axis !in {"x", "X", "y", "Y"} ==> r == Err(BadAxis)
    ensures r.Ok? ==> r.value.pos == pos && r.value.factor == factor && r.value.extent == extent
    ensures r.Ok? ==> (r.value.axis == X <==> axis in {"x", "X"})
  {
    if pos > 1.0 || pos < 0.0 then Err(PosOutOfRange)
    else match ParseAxis(axis)
      case None => Err(BadAxis)
      case Some(a) => Ok(FocusPoint(pos, a, factor, extent))
  }

  // ---------------------------------------------------------------------
  // The error-function approximation.

  /** `numpy.sign(x) * s`: `s`, `-s` or 0 by the sign of `x`. */
  function Signed(x: real, s: real): real {
    if x > 0.0 then s else if x < 0.0 then -s else 0.0
  }

  /** The constant `a` of the approximation. */
  const ErfA: real := -(8.0 * (Pi - 3.0) / (3.0 * Pi * (Pi - 4.0)))

  lemma ErfAPositive()
    ensures ErfA > 0.0
  {
    assert 3.0 * Pi * (Pi - 4.0) < 0.0;
  }

  /** The exponent of the approximation; its denominator never vanishes. */
  function ErfGuts(x: real): real {
    ErfAPositive();
    assert 0.0 <= ErfA * (x * x);
    -1.0 * (x * x) * (4.0 / Pi + ErfA * (x * x)) / (1.0 + ErfA * (x * x))
  }

  /** `sign(x) * sqrt(1 - exp(guts))`, with sqrt and exp left open. */
  function ApproximateErf(num: Numerics, x: real): (r: real)
    ensures x == 0.0 ==> r == 0.0
  {
    Signed(x, num.sqrt(1.0 - num.exp(ErfGuts(x))))
  }

  /** The approximation is odd, whatever sqrt and exp are. */
  lemma ApproximateErfOdd(num: Numerics, x: real)
    ensures ApproximateErf(num, -x) == -ApproximateErf(num, x)
  {
    assert (-x) * (-x) == x * x;
    assert ErfGuts(-x) == ErfGuts(x);
  }

  /** The numerics pygridgen runs with: the given sqrt, exp and arctan2,
      and the approximation above as the error function. */
  function WithApproximateErf(num: Numerics): (n: Numerics)
    ensures n.sqrt == num.sqrt && n.exp == num.exp && n.atan2 == num.atan2
    ensures n.erf(0.0) == 0.0
    ensures forall x {:trigger n.erf(x)} :: n.erf(-x) == -n.erf(x)
  {
    var n := num.(erf := x => ApproximateErf(num, x));
    forall x ensures n.erf(-x) == -n.erf(x) {
      ApproximateErfOdd(num, x);
    }
    n
  }

  // ---------------------------------------------------------------------
  // One focus point.

  predicate InUnit(s: seq<real>) {
    forall k :: 0 <= k < |s| ==> 0.0 <= s[k] <= 1.0
  }

  /** `b` is `a` transformed elementwise with 0 and 1 kept in place. */
  predicate FixesEndpoints(a: seq<real>, b: seq<real>) {
    |a| == |b| &&
    forall k :: 0 <= k < |a| ==> (a[k] == 0.0 ==> b[k] == 0.0) && (a[k] == 1.0 ==> b[k] == 1.0)
  }

  /** `_reposition_point`. */
  function Reposition(num: Numerics, p: FocusPoint, t: real): (r: real)
    requires p.factor != 0.0 && p.extent != 0.0
    ensures p.factor == 1.0 ==> r == t
  {
    var alpha := 1.0 - 1.0 / p.factor;
    var erf := num.erf((t - p.pos) / p.extent);
    Stretch(t, num.sqrt(Pi), p.extent, alpha, erf)
  }

  /** `pnt - 0.5 * (sqrt(pi) * extent * alpha * erf)`, with sqrt(pi) and the
      value of erf given. */
  function Stretch(t: real, sqrtPi: real, extent: real, alpha: real, erf: real): real {
    t - 0.5 * (sqrtPi * extent * alpha * erf)
  }

  /** `_do_focus`: reposition, then renormalise by the images of 0 and 1. */
  function DoFocus(num: Numerics, p: FocusPoint, a: seq<real>): (r: Result<seq<real>>)
    ensures r.Ok? ==> FixesEndpoints(a, r.value)
    ensures r.Err? ==> r.error == DivisionByZero || r.error == DegenerateFocus
    ensures p.factor == 0.0 || p.extent == 0.0 ==> r == Err(DivisionByZero)
  {
    if p.factor == 0.0 || p.extent == 0.0 then Err(DivisionByZero)
    else
      var f0 := Reposition(num, p, 0.0);
      var f1 := Reposition(num, p, 1.0);
      if f1 == f0 then Err(DegenerateFocus)
      else Ok(seq(|a|, k requires 0 <= k < |a| => Renormalise(Reposition(num, p, a[k]), f0, f1)))
  }

  /** `_do_focus` fails for a well-defined point exactly when the stretched
      images of 0 and 1 coincide, so that renormalising would divide by zero. */
  lemma DoFocusDegenerate(num: Numerics, p: FocusPoint, a: seq<real>)
    ensures DoFocus(num, p, a) == Err(DegenerateFocus) <==>
      p.factor != 0.0 && p.extent != 0.0 && Reposition(num, p, 1.0) == Reposition(num, p, 0.0)
  {
  }

  /** Map `f0` to 0 and `f1` to 1 linearly. */
  function Renormalise(v: real, f0: real, f1: real): (r: real)
    requires f1 != f0
    ensures v == f0 ==> r == 0.0
    ensures v == f1 ==> r == 1.0
  {
    DivSelf(f1 - f0);
    (v - f0) / (f1 - f0)
  }

  lemma DivSelf(d: real)
    requires d != 0.0
    ensures d / d == 1.0
  {
    assert (d / d) * d == d;
  }

  /** `_FocusPoint.__call__`: both coordinates are range-checked, x first,
      then only the point's own axis is transformed. */
  function ApplyPoint(num: Numerics, p: FocusPoint, xs: seq<real>, ys: seq<real>): (r: Result<(seq<real>, seq<real>)>)
    ensures r == Err(XOutOfRange) <==> !InUnit(xs)
    ensures r == Err(YOutOfRange) <==> InUnit(xs) && !InUnit(ys)
    ensures r.Ok? ==> InUnit(xs) && InUnit(ys)
    ensures r.Ok? ==> FixesEndpoints(xs, r.value.0) && FixesEndpoints(ys, r.value.1)
    ensures r.Ok? && p.axis == X ==> r.value.1 == ys
    ensures r.Ok? && p.axis == Y ==> r.value.0 == xs
  {
    if !InUnit(xs) then Err(XOutOfRange)
    else if !InUnit(ys) then Err(YOutOfRange)
    else if p.axis == Y then
      match DoFocus(num, p, ys)
      case Err(e) => Err(e)
      case Ok(fy) => Ok((xs, fy))
    else
      match DoFocus(num, p, xs)
      case Err(e) => Err(e)
      case Ok(fx) => Ok((fx, ys))
  }

  /** A point with factor 1 does not move anything: alpha is 0. */
  lemma FactorOneIsIdentity(num: Numerics, p: FocusPoint, xs: seq<real>, ys: seq<real>)
    requires p.factor == 1.0 && p.extent != 0.0
    requires InUnit(xs) && InUnit(ys)
    ensures ApplyPoint(num, p, xs, ys) == Ok((xs, ys))
  {
    var a := if p.axis == Y then ys else xs;
    var r := DoFocus(num, p, a);
    assert r.Ok?;
    assert r.value == a;
  }

  // ---------------------------------------------------------------------
  // Staying inside the unit interval.

  /** The error function never decreases. */
  ghost predicate ErfMonotone(erf: real -> real) {
    forall a, b :: a <= b ==> erf(a) <= erf(b)
  }

  /** The error function rises no faster than its slope at 0, which is
      2 / sqrt(pi). */
  ghost predicate ErfSlopeBounded(num: Numerics) {
    forall a, b :: a <= b ==> num.sqrt(Pi) * (num.erf(b) - num.erf(a)) <= 2.0 * (b - a)
  }

  /** What keeps a point's stretch monotone: a positive extent and factor,
      a monotone erf, and for a factor above 1 (the point concentrates
      resolution) the slope bound as well. */
  ghost predicate Stretchable(num: Numerics, p: FocusPoint) {
    SqrtLike(num.sqrt) && ErfMonotone(num.erf) && 0.0 < p.factor && 0.0 < p.extent &&
    (1.0 < p.factor ==> ErfSlopeBounded(num))
  }

  lemma ScaledOrdered(t: real, u: real, pos: real, e: real)
    requires 0.0 < e && t < u
    ensures (t - pos) / e < (u - pos) / e
    ensures e * ((u - pos) / e - (t - pos) / e) == u - t
  {
    assert e * ((u - pos) / e) == u - pos;
    assert e * ((t - pos) / e) == t - pos;
  }

  lemma AlphaBounds(f: real)
    requires 0.0 < f
    ensures f <= 1.0 ==> 1.0 - 1.0 / f <= 0.0
    ensures 1.0 < f ==> 0.0 < 1.0 - 1.0 / f < 1.0
  {
    assert f * (1.0 / f) == 1.0;
  }

  lemma GapOfStretch(t: real, u: real, m: real, fa: real, fb: real)
    ensures (u - 0.5 * (m * fb)) - (t - 0.5 * (m * fa)) == (u - t) - 0.5 * (m * (fb - fa))
  {
  }

  /** A shrinking stretch (alpha <= 0) only pushes points further apart. */
  lemma NonPositiveStretch(s: real, e: real, alpha: real, d: real)
    requires 0.0 < s && 0.0 < e && alpha <= 0.0 && 0.0 <= d
    ensures s * e * alpha * d <= 0.0
  {
    assert 0.0 < s * e;
    assert s * e * alpha <= 0.0;
  }

  /** A concentrating stretch (0 < alpha < 1) with the slope bound moves
      points closer by less than their distance. */
  lemma BoundedStretch(s: real, e: real, alpha: real, d: real, w: real, g: real)
    requires 0.0 < s && 0.0 < e && 0.0 < alpha < 1.0 && 0.0 < w
    requires s * d <= 2.0 * g && e * g == w
    ensures 0.5 * (s * e * alpha * d) < w
  {
    var ea := e * alpha;
    assert 0.0 < ea;
    assert s * e * alpha * d == ea * (s * d);
    assert ea * (s * d) <= ea * (2.0 * g);
    assert ea * (2.0 * g) == 2.0 * alpha * w;
    var m := s * e * alpha * d;
    assert m <= 2.0 * alpha * w;
    assert alpha * w < w;
    assert 0.5 * m < w;
  }


  /** The arithmetic core of the monotonicity: with erf values `fa <= fb`
      at the scaled arguments `a` and `b`, the stretched points keep their
      order. */
  lemma StretchKeepsOrder(t: real, u: real, s: real, e: real, f: real, fa: real, fb: real, a: real, b: real)
    requires t < u && 0.0 < s && 0.0 < e && 0.0 < f && fa <= fb && e * (b - a) == u - t
    requires 1.0 < f ==> s * (fb - fa) <= 2.0 * (b - a)
    ensures Stretch(t, s, e, 1.0 - 1.0 / f, fa) < Stretch(u, s, e, 1.0 - 1.0 / f, fb)
  {
    var alpha := 1.0 - 1.0 / f;
    var m := s * e * alpha;
    assert Stretch(u, s, e, alpha, fb) - Stretch(t, s, e, alpha, fa) == (u - t) - 0.5 * (m * (fb - fa)) by {
      GapOfStretch(t, u, m, fa, fb);
    }
    if f <= 1.0 {
      assert m * (fb - fa) <= 0.0 by {
        AlphaBounds(f);
        NonPositiveStretch(s, e, alpha, fb - fa);
      }
    } else {
      assert 0.5 * (m * (fb - fa)) < u - t by {
        AlphaBounds(f);
        BoundedStretch(s, e, alpha, fb - fa, u - t, b - a);
      }
    }
  }

  /** `_reposition_point` is strictly increasing for a stretchable point. */
  lemma RepositionIncreasing(num: Numerics, p: FocusPoint, t: real, u: real)
    requires Stretchable(num, p) && t < u
    ensures Reposition(num, p, t) < Reposition(num, p, u)
  {
    var s, e, f := num.sqrt(Pi), p.extent, p.factor;
    var a, b := (t - p.pos) / e, (u - p.pos) / e;
    assert 0.0 < s;
    ScaledOrdered(t, u, p.pos, e);
    assert num.erf(a) <= num.erf(b);
    assert 1.0 < f ==> s * (num.erf(b) - num.erf(a)) <= 2.0 * (b - a);
    StretchKeepsOrder(t, u, s, e, f, num.erf(a), num.erf(b), a, b);
  }





  lemma RepositionBetween(num: Numerics, p: FocusPoint, t: real)
    requires Stretchable(num, p) && 0.0 <= t <= 1.0
    ensures Reposition(num, p, 0.0) <= Reposition(num, p, t) <= Reposition(num, p, 1.0)
    ensures Reposition(num, p, 0.0) < Reposition(num, p, 1.0)
  {
    RepositionIncreasing(num, p, 0.0, 1.0);
    if 0.0 < t {
      RepositionIncreasing(num, p, 0.0, t);
    }
    if t < 1.0 {
      RepositionIncreasing(num, p, t, 1.0);
    }
  }

  lemma UnitQuotient(n: real, d: real)
    requires 0.0 <= n <= d && 0.0 < d
    ensures 0.0 <= n / d <= 1.0
  {
    assert d * (n / d) == n;
  }

  /** `_do_focus` of a stretchable point maps [0, 1] into [0, 1]. */
  lemma DoFocusInUnit(num: Numerics, p: FocusPoint, a: seq<real>)
    requires Stretchable(num, p) && InUnit(a)
    ensures DoFocus(num, p, a).Ok? && InUnit(DoFocus(num, p, a).value)
  {
    var f0, f1 := Reposition(num, p, 0.0), Reposition(num, p, 1.0);
    RepositionBetween(num, p, 0.0);
    var r := DoFocus(num, p, a).value;
    forall k | 0 <= k < |a| ensures 0.0 <= r[k] <= 1.0 {
      RepositionBetween(num, p, a[k]);
      UnitQuotient(Reposition(num, p, a[k]) - f0, f1 - f0);
    }
  }

  /** A stretchable point accepts coordinates in range and keeps them there. */
  lemma ApplyPointInUnit(num: Numerics, p: FocusPoint, xs: seq<real>, ys: seq<real>)
    requires Stretchable(num, p) && InUnit(xs) && InUnit(ys)
    ensures ApplyPoint(num, p, xs, ys).Ok?
    ensures InUnit(ApplyPoint(num, p, xs, ys).value.0) && InUnit(ApplyPoint(num, p, xs, ys).value.1)
  {
    if p.axis == Y {
      DoFocusInUnit(num, p, ys);
    } else {
      DoFocusInUnit(num, p, xs);
    }
  }

  /** Points on different axes commute when both are stretchable. */
  lemma StretchableAxesCommute(num: Numerics, p: FocusPoint, q: FocusPoint, xs: seq<real>, ys: seq<real>)
    requires p.axis == X && q.axis == Y
    requires Stretchable(num, p) && Stretchable(num, q) && InUnit(xs) && InUnit(ys)
    ensures ApplyPoints(num, [p, q], xs, ys) == ApplyPoints(num, [q, p], xs, ys)
    ensures ApplyPoints(num, [p, q], xs, ys).Ok?
  {
    ApplyPointInUnit(num, p, xs, ys);
    ApplyPointInUnit(num, q, xs, ys);
    DifferentAxesCommute(num, p, q, xs, ys);
  }

  // ---------------------------------------------------------------------
  // The Focus container.

  /** Feed a (possibly failed) coordinate pair through one more point. */
  function Then(num: Numerics, r: Result<(seq<real>, seq<real>)>, p: FocusPoint): Result<(seq<real>, seq<real>)> {
    match r
    case Err(e) => Err(e)
    case Ok(xy) => ApplyPoint(num, p, xy.0, xy.1)
  }

  /** `Focus.__call__`: each point transforms the output of the previous one. */
  function ApplyPoints(num: Numerics, ps: seq<FocusPoint>, xs: seq<real>, ys: seq<real>): (r: Result<(seq<real>, seq<real>)>)
    decreases |ps|
    ensures |ps| == 0 ==> r == Ok((xs, ys))
    ensures r.Ok? ==> FixesEndpoints(xs, r.value.0) && FixesEndpoints(ys, r.value.1)
    ensures r.Ok? && (forall k :: 0 <= k < |ps| ==> ps[k].axis == Y) ==> r.value.0 == xs
    ensures r.Ok? && (forall k :: 0 <= k < |ps| ==> ps[k].axis == X) ==> r.value.1 == ys
  {
    if |ps| == 0 then Ok((xs, ys))
    else
      match ApplyPoint(num, ps[0], xs, ys)
      case Err(e) => Err(e)
      case Ok(xy) =>
        var r := ApplyPoints(num, ps[1..], xy.0, xy.1);
        assert forall k :: 1 <= k < |ps| ==> ps[1..][k - 1] == ps[k];
        r
  }

  function Apply(num: Numerics, f: Focus, xs: seq<real>, ys: seq<real>): Result<(seq<real>, seq<real>)> {
    ApplyPoints(num, f.points, xs, ys)
  }

  /** `Focus.add_focus`: validate a new point and put it last. */
  function AddFocus(f: Focus, pos: real, axis: string, factor: real := 2.0, extent: real := 0.1): (r: Result<Focus>)
    ensures r.Ok? <==> 0.0 <= pos <= 1.0 && axis in {"x", "X", "y", "Y"}
    ensures r.Err? ==> r.error == NewFocusPoint(pos, axis, factor, extent).error
    ensures r.Ok? ==> |r.value.points| == |f.points| + 1 && r.value.points[..|f.points|] == f.points
    ensures r.Ok? ==> r.value.points[|f.points|] == FocusPoint(pos, if axis in {"x", "X"} then X else Y, factor, extent)
  {
    match NewFocusPoint(pos, axis, factor, extent)
    case Err(e) => Err(e)
    case Ok(p) => Ok(Focus(f.points + [p]))
  }

  /** Appending a point runs it after everything already in the list. */
  lemma {:induction false} ApplyAppended(num: Numerics, ps: seq<FocusPoint>, p: FocusPoint, xs: seq<real>, ys: seq<real>)
    ensures ApplyPoints(num, ps + [p], xs, ys) == Then(num, ApplyPoints(num, ps, xs, ys), p)
    decreases |ps|
  {
    if |ps| == 0 {
      assert ps + [p] == [p];
      assert [p][1..] == [];
      match ApplyPoint(num, p, xs, ys)
      case Err(e) =>
      case Ok(xy) =>
    } else {
      assert (ps + [p])[0] == ps[0];
      assert (ps + [p])[1..] == ps[1..] + [p];
      match ApplyPoint(num, ps[0], xs, ys)
      case Err(e) =>
      case Ok(xy) => ApplyAppended(num, ps[1..], p, xy.0, xy.1);
    }
  }

  /** Running two lists back to back is running their concatenation. */
  lemma {:induction false} ApplyConcatenated(num: Numerics, ps: seq<FocusPoint>, qs: seq<FocusPoint>, xs: seq<real>, ys: seq<real>)
    ensures ApplyPoints(num, ps + qs, xs, ys) ==
      match ApplyPoints(num, ps, xs, ys)
      case Err(e) => Err(e)
      case Ok(xy) => ApplyPoints(num, qs, xy.0, xy.1)
    decreases |ps|
  {
    if |ps| == 0 {
      assert ps + qs == qs;
    } else {
      assert (ps + qs)[0] == ps[0];
      assert (ps + qs)[1..] == ps[1..] + qs;
      match ApplyPoint(num, ps[0], xs, ys)
      case Err(e) =>
      case Ok(xy) => ApplyConcatenated(num, ps[1..], qs, xy.0, xy.1);
    }
  }

  /** A list of factor-1 points is the identity on coordinates in range. */
  lemma {:induction false} UnitFactorsAreIdentity(num: Numerics, ps: seq<FocusPoint>, xs: seq<real>, ys: seq<real>)
    requires forall k :: 0 <= k < |ps| ==> ps[k].factor == 1.0 && ps[k].extent != 0.0
    requires InUnit(xs) && InUnit(ys)
    ensures ApplyPoints(num, ps, xs, ys) == Ok((xs, ys))
    decreases |ps|
  {
    if |ps| > 0 {
      FactorOneIsIdentity(num, ps[0], xs, ys);
      UnitFactorsAreIdentity(num, ps[1..], xs, ys);
    }
  }

  /** A focus whose every point is stretchable accepts coordinates in range,
      keeps them in range, and so never fails. */
  lemma {:induction false} ApplyPointsInUnit(num: Numerics, ps: seq<FocusPoint>, xs: seq<real>, ys: seq<real>)
    requires forall k :: 0 <= k < |ps| ==> Stretchable(num, ps[k])
    requires InUnit(xs) && InUnit(ys)
    ensures ApplyPoints(num, ps, xs, ys).Ok?
    ensures InUnit(ApplyPoints(num, ps, xs, ys).value.0) && InUnit(ApplyPoints(num, ps, xs, ys).value.1)
    decreases |ps|
  {
    if |ps| > 0 {
      ApplyPointInUnit(num, ps[0], xs, ys);
      var xy := ApplyPoint(num, ps[0], xs, ys).value;
      assert forall k :: 0 <= k < |ps[1..]| ==> ps[1..][k] == ps[k + 1];
      ApplyPointsInUnit(num, ps[1..], xy.0, xy.1);
    }
  }

  /** Points on different axes commute as long as neither pushes its own
      axis out of [0, 1], which the other point would reject. */
  lemma DifferentAxesCommute(num: Numerics, p: FocusPoint, q: FocusPoint, xs: seq<real>, ys: seq<real>)
    requires p.axis == X && q.axis == Y
    requires ApplyPoint(num, p, xs, ys).Ok? && InUnit(ApplyPoint(num, p, xs, ys).value.0)
    requires ApplyPoint(num, q, xs, ys).Ok? && InUnit(ApplyPoint(num, q, xs, ys).value.1)
    ensures ApplyPoints(num, [p, q], xs, ys) == ApplyPoints(num, [q, p], xs, ys)
    ensures ApplyPoints(num, [p, q], xs, ys) ==
      Ok((ApplyPoint(num, p, xs, ys).value.0, ApplyPoint(num, q, xs, ys).value.1))
  {
    var fx := ApplyPoint(num, p, xs, ys).value.0;
    var fy := ApplyPoint(num, q, xs, ys).value.1;
    assert [p, q][1..] == [q];
    assert [q, p][1..] == [p];
    assert DoFocus(num, p, xs) == Ok(fx);
    assert DoFocus(num, q, ys) == Ok(fy);
  }
}
