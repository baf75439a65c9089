/** Numpy-style arrays: masked entries, matrices, n-dimensional input arrays,
    and the floating-point functions the engine uses but does not define. */
module Arrays {

  /** One entry of a numpy masked array: a number or a masked (invalid) slot. */
  datatype Val = Num(v: real) | Masked

  /** One entry of an input coordinate array: numpy tells a visible NaN apart
      from a slot hidden by the array's mask. */
  datatype Coord = Finite(v: real) | NotANumber | MaskedOut

  // Masked arithmetic: a result is masked when any operand is.

  function Add(a: Val, b: Val): (r: Val)
    ensures r.Num? <==> a.Num? && b.Num?
    ensures r.Num? ==> r.v == a.v + b.v
  {
    if a.Num? && b.Num? then Num(a.v + b.v) else Masked
  }

  function Sub(a: Val, b: Val): (r: Val)
    ensures r.Num? <==> a.Num? && b.Num?
    ensures r.Num? ==> r.v == a.v - b.v
  {
    if a.Num? && b.Num? then Num(a.v - b.v) else Masked
  }

  function Scale(k: real, a: Val): (r: Val)
    ensures r.Num? <==> a.Num?
    ensures r.Num? ==> r.v == k * a.v
  {
    if a.Num? then Num(k * a.v) else Masked
  }

  /** Midpoint of two entries, `0.5 * (a + b)`. */
  function Mid(a: Val, b: Val): (r: Val)
    ensures r.Num? <==> a.Num? && b.Num?
    ensures r.Num? ==> r.v == 0.5 * (a.v + b.v)
  {
    Scale(0.5, Add(a, b))
  }

  lemma MidSymmetric(a: Val, b: Val)
    ensures Mid(a, b) == Mid(b, a)
  {
  }

  /** Mean of four entries, `0.25 * (a + b + c + d)`. */
  function Mean4(a: Val, b: Val, c: Val, d: Val): (r: Val)
    ensures r.Num? <==> a.Num? && b.Num? && c.Num? && d.Num?
    ensures r.Num? ==> r.v == 0.25 * (a.v + b.v + c.v + d.v)
  {
    Scale(0.25, Add(Add(Add(a, b), c), d))
  }

  /** Shift a valid entry by `d`. */
  function Shift(a: Val, d: real): Val {
    if a.Num? then Num(a.v + d) else Masked
  }

  /** Length of the slices `a[1:]` and `a[:-1]` of an axis of length n. */
  function Pred(n: nat): nat {
    if n == 0 then 0 else n - 1
  }

  /** Length of the slice `a[1:-1]` of an axis of length n. */
  function Inner(n: nat): nat {
    if n < 2 then 0 else n - 2
  }

  /** `m` is a rectangular r-by-c matrix. */
  predicate IsMat<T>(m: seq<seq<T>>, r: nat, c: nat) {
    |m| == r && forall j :: 0 <= j < r ==> |m[j]| == c
  }

  /** Every entry of the matrix is valid. */
  predicate AllValid(m: seq<seq<Val>>) {
    forall j, i :: 0 <= j < |m| && 0 <= i < |m[j]| ==> m[j][i].Num?
  }

  /** Every entry is 0.0 or 1.0. */
  predicate IsBinary(m: seq<seq<real>>) {
    forall j, i :: 0 <= j < |m| && 0 <= i < |m[j]| ==> m[j][i] == 0.0 || m[j][i] == 1.0
  }

  function Transpose<T>(m: seq<seq<T>>, r: nat, c: nat): (t: seq<seq<T>>)
    requires IsMat(m, r, c)
    ensures IsMat(t, c, r)
    ensures forall i, j {:trigger t[i][j]} :: 0 <= i < c && 0 <= j < r ==> t[i][j] == m[j][i]
  {
    seq(c, i requires 0 <= i < c => seq(r, j requires 0 <= j < r => m[j][i]))
  }

  lemma TransposeTwice<T>(m: seq<seq<T>>, r: nat, c: nat)
    requires IsMat(m, r, c)
    ensures Transpose(Transpose(m, r, c), c, r) == m
  {
    var t := Transpose(Transpose(m, r, c), c, r);
    forall j | 0 <= j < r ensures t[j] == m[j] { }
  }

  /** Shift every valid entry of a matrix by `d` (a translation of the grid). */
  function Translate(m: seq<seq<Val>>, r: nat, c: nat, d: real): (t: seq<seq<Val>>)
    requires IsMat(m, r, c)
    ensures IsMat(t, r, c)
    ensures forall j, i {:trigger t[j][i]} :: 0 <= j < r && 0 <= i < c ==> t[j][i] == Shift(m[j][i], d)
  {
    seq(r, j requires 0 <= j < r => seq(c, i requires 0 <= i < c => Shift(m[j][i], d)))
  }

  // ---------------------------------------------------------------------
  // Row-major flat indexing, as numpy's `.flat` and `reshape` use it.

  /** Position of entry (j, i) of an r-by-c matrix in its row-major flattening. */
  function FlatIndex(j: nat, i: nat, c: nat): nat {
    j * c + i
  }

  lemma FlatIndexBound(j: nat, i: nat, r: nat, c: nat)
    requires j < r && i < c
    ensures FlatIndex(j, i, c) < r * c
  {
    assert (j + 1) * c <= r * c by {
      MulMonotone(j + 1, r, c);
    }
  }

  lemma FlatIndexBoundAll(r: nat, c: nat)
    ensures forall j: nat, i: nat {:trigger FlatIndex(j, i, c)} :: j < r && i < c ==> FlatIndex(j, i, c) < r * c
  {
    forall j: nat, i: nat | j < r && i < c ensures FlatIndex(j, i, c) < r * c {
      FlatIndexBound(j, i, r, c);
    }
  }

  lemma MulMonotone(a: nat, b: nat, c: nat)
    requires a <= b
    ensures a * c <= b * c
  {
  }


  /** A numpy ndarray: its shape and its row-major data. */
  datatype NdArray<T> = NdArray(shape: seq<nat>, flat: seq<T>) {

    function Ndim(): nat {
      |shape|
    }

    predicate WellFormed() {
      |flat| == Product(shape)
    }

    /** The rows of a 2-D array. */
    function AsMatrix(): (m: seq<seq<T>>)
      requires WellFormed() && Ndim() == 2
      ensures IsMat(m, shape[0], shape[1])
      ensures forall j, i {:trigger m[j][i]} :: 0 <= j < shape[0] && 0 <= i < shape[1] ==>
        FlatIndex(j, i, shape[1]) < |flat| && m[j][i] == flat[FlatIndex(j, i, shape[1])]
    {
      var r, c := shape[0], shape[1];
      ProductOfPair(shape);
      FlatIndexBoundAll(r, c);
      seq(r, j requires 0 <= j < r =>
        seq(c, i requires 0 <= i < c =>
          FlatIndexBound(j, i, r, c); flat[FlatIndex(j, i, c)]))
    }
  }

  function Product(s: seq<nat>): nat {
    if |s| == 0 then 1 else s[0] * Product(s[1..])
  }

  lemma ProductOfPair(s: seq<nat>)
    requires |s| == 2
    ensures Product(s) == s[0] * s[1]
  {
    assert s[1..][1..] == [];
    assert Product(s[1..]) == s[1] * Product(s[1..][1..]);
  }

  /** A 2-D array built from a matrix. */
  function FromMatrix<T>(m: seq<seq<T>>, r: nat, c: nat): (a: NdArray<T>)
    requires IsMat(m, r, c)
    ensures a.WellFormed() && a.Ndim() == 2 && a.shape == [r, c]
    ensures a.AsMatrix() == m
  {
    var a := NdArray([r, c], Flatten(m, r, c));
    ProductOfPair(a.shape);
    var back := a.AsMatrix();
    forall j | 0 <= j < r ensures back[j] == m[j] {
      forall i | 0 <= i < c ensures back[j][i] == m[j][i] {
        FlattenAt(m, r, c, j, i);
      }
    }
    a
  }

  function Flatten<T>(m: seq<seq<T>>, r: nat, c: nat): (f: seq<T>)
    requires IsMat(m, r, c)
    ensures |f| == r * c
  {
    if r == 0 then [] else Flatten(m[..r-1], r - 1, c) + m[r-1]
  }

  lemma FlattenAt<T>(m: seq<seq<T>>, r: nat, c: nat, j: nat, i: nat)
    requires IsMat(m, r, c) && j < r && i < c
    ensures FlatIndex(j, i, c) < r * c
    ensures Flatten(m, r, c)[FlatIndex(j, i, c)] == m[j][i]
  {
    FlatIndexBound(j, i, r, c);
    if j < r - 1 {
      FlattenAt(m[..r-1], r - 1, c, j, i);
      FlatIndexBound(j, i, r - 1, c);
    } else {
      assert FlatIndex(j, i, c) == (r - 1) * c + i;
    }
  }

  // ---------------------------------------------------------------------
  // Floating-point functions the engine calls but the model leaves open.

  /** numpy's sqrt, exp and arctan2, supplied by the caller, and the error
      function the focus points use (pygridgen's own approximation is built
      from sqrt and exp by `Focus.WithApproximateErf`). */
  datatype Numerics = Numerics(sqrt: real -> real, exp: real -> real, atan2: (real, real) -> real, erf: real -> real)

  /** What the model assumes of sqrt where it needs anything: it is
      non-negative, and zero exactly at zero. */
  ghost predicate SqrtLike(sqrt: real -> real) {
    forall t :: 0.0 <= t ==> 0.0 <= sqrt(t) && (sqrt(t) == 0.0 <==> t == 0.0)
  }

  /** numpy.pi: the shortest decimal that rounds to the double nearest to pi. */
  const Pi: real := 3.141592653589793
}
