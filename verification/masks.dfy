/** Land/water masks of a C-grid: the cell mask built from vertex validity,
    and the u-, v- and psi-masks that are products of neighbouring cell
    mask entries (grid.py mask_rho, mask_u, mask_v, mask_psi, uvp_masks). */
module Masks {
  import opened Results
  import opened Arrays
  import opened Stagger

  function Ones(r: nat, c: nat): (o: seq<seq<real>>)
    ensures IsMat(o, r, c)
    ensures forall j, i {:trigger o[j][i]} :: 0 <= j < r && 0 <= i < c ==> o[j][i] == 1.0
  {
    seq(r, j requires 0 <= j < r => seq(c, i requires 0 <= i < c => 1.0))
  }

  /** One update step of the mask: a cell stays wet only if it was wet and
      all four of its corners are valid in the coordinate array `v`. */
  function AndCornerValidity(m: seq<seq<real>>, v: seq<seq<Val>>, r: nat, c: nat): (o: seq<seq<real>>)
    requires 0 < r && 0 < c && IsMat(v, r, c) && IsMat(m, r - 1, c - 1)
    ensures IsMat(o, r - 1, c - 1) && IsBinary(o)
    ensures forall j, i {:trigger o[j][i]} :: 0 <= j < r - 1 && 0 <= i < c - 1 ==>
      (o[j][i] == 1.0 <==> m[j][i] != 0.0 && CornersValid(v, r, c, j, i))
  {
    seq(r - 1, j requires 0 <= j < r - 1 =>
      seq(c - 1, i requires 0 <= i < c - 1 =>
        if m[j][i] != 0.0 && CornersValid(v, r, c, j, i) then 1.0 else 0.0))
  }

  /** Clearing the cells with an invalid corner in one array and then in
      another gives the same mask in either order. */
  lemma AndCornerValidityCommutes(m: seq<seq<real>>, x: seq<seq<Val>>, y: seq<seq<Val>>, r: nat, c: nat)
    requires 0 < r && 0 < c && IsMat(x, r, c) && IsMat(y, r, c) && IsMat(m, r - 1, c - 1)
    ensures AndCornerValidity(AndCornerValidity(m, x, r, c), y, r, c) ==
      AndCornerValidity(AndCornerValidity(m, y, r, c), x, r, c)
  {
    var a := AndCornerValidity(AndCornerValidity(m, x, r, c), y, r, c);
    var b := AndCornerValidity(AndCornerValidity(m, y, r, c), x, r, c);
    forall j | 0 <= j < r - 1 ensures a[j] == b[j] {
      forall i | 0 <= i < c - 1 ensures a[j][i] == b[j][i] {
        assert a[j][i] == 1.0 <==> b[j][i] == 1.0;
      }
    }
  }

  /** Clearing the cells with an invalid corner in the same array a second
      time changes nothing. */
  lemma AndCornerValidityIdempotent(m: seq<seq<real>>, v: seq<seq<Val>>, r: nat, c: nat)
    requires 0 < r && 0 < c && IsMat(v, r, c) && IsMat(m, r - 1, c - 1)
    ensures AndCornerValidity(AndCornerValidity(m, v, r, c), v, r, c) == AndCornerValidity(m, v, r, c)
  {
    var a := AndCornerValidity(m, v, r, c);
    var b := AndCornerValidity(a, v, r, c);
    forall j | 0 <= j < r - 1 ensures b[j] == a[j] {
      forall i | 0 <= i < c - 1 ensures b[j][i] == a[j][i] {
        assert b[j][i] == 1.0 <==> a[j][i] == 1.0;
      }
    }
  }

  /** The cell mask of an r-by-c vertex grid: start from all ones, then
      clear every cell with an invalid corner in x, then in y. */
  function MaskRhoFromVertices(x: seq<seq<Val>>, y: seq<seq<Val>>, r: nat, c: nat): (o: seq<seq<real>>)
    requires 0 < r && 0 < c && IsMat(x, r, c) && IsMat(y, r, c)
    ensures IsMat(o, r - 1, c - 1) && IsBinary(o)
    ensures forall j, i {:trigger o[j][i]} :: 0 <= j < r - 1 && 0 <= i < c - 1 ==>
      (o[j][i] == 1.0 <==> CornersValid(x, r, c, j, i) && CornersValid(y, r, c, j, i))
    ensures AllValid(x) && AllValid(y) ==> o == Ones(r - 1, c - 1)
  {
    var o := AndCornerValidity(AndCornerValidity(Ones(r - 1, c - 1), x, r, c), y, r, c);
    assert AllValid(x) && AllValid(y) ==> o == Ones(r - 1, c - 1) by {
      if AllValid(x) && AllValid(y) {
        var ones := Ones(r - 1, c - 1);
        forall j | 0 <= j < r - 1 ensures o[j] == ones[j] { }
      }
    }
    o
  }

  // ---------------------------------------------------------------------
  // Sub-masks of an r-by-c cell mask.

  /** mask_u: products of horizontally adjacent cells, `m[:, 1:] * m[:, :-1]`. */
  function MaskU(m: seq<seq<real>>, r: nat, c: nat): (o: seq<seq<real>>)
    requires IsMat(m, r, c)
    ensures IsMat(o, r, Pred(c))
    ensures forall j, i {:trigger o[j][i]} :: 0 <= j < r && 0 <= i < Pred(c) ==>
      (m[j][i] == 0.0 || m[j][i + 1] == 0.0 ==> o[j][i] == 0.0)
    ensures IsBinary(m) ==> IsBinary(o)
    ensures IsBinary(m) ==> forall j, i {:trigger o[j][i]} :: 0 <= j < r && 0 <= i < Pred(c) ==>
      (o[j][i] == 1.0 <==> m[j][i] == 1.0 && m[j][i + 1] == 1.0)
  {
    seq(r, j requires 0 <= j < r =>
      seq(Pred(c), i requires 0 <= i < Pred(c) => m[j][i + 1] * m[j][i]))
  }

  /** mask_v: products of vertically adjacent cells, `m[1:, :] * m[:-1, :]`. */
  function MaskV(m: seq<seq<real>>, r: nat, c: nat): (o: seq<seq<real>>)
    requires IsMat(m, r, c)
    ensures IsMat(o, Pred(r), c)
    ensures forall j, i {:trigger o[j][i]} :: 0 <= j < Pred(r) && 0 <= i < c ==>
      (m[j][i] == 0.0 || m[j + 1][i] == 0.0 ==> o[j][i] == 0.0)
    ensures IsBinary(m) ==> IsBinary(o)
    ensures IsBinary(m) ==> forall j, i {:trigger o[j][i]} :: 0 <= j < Pred(r) && 0 <= i < c ==>
      (o[j][i] == 1.0 <==> m[j][i] == 1.0 && m[j + 1][i] == 1.0)
  {
    seq(Pred(r), j requires 0 <= j < Pred(r) =>
      seq(c, i requires 0 <= i < c => m[j + 1][i] * m[j][i]))
  }

  /** Product of four numbers, each 0 or 1, is 1 exactly when all are. */
  function Product4(a: real, b: real, d: real, e: real): (p: real)
    ensures a == 0.0 || b == 0.0 || d == 0.0 || e == 0.0 ==> p == 0.0
    ensures (a == 0.0 || a == 1.0) && (b == 0.0 || b == 1.0) && (d == 0.0 || d == 1.0) && (e == 0.0 || e == 1.0) ==>
      (p == 0.0 || p == 1.0) && (p == 1.0 <==> a == 1.0 && b == 1.0 && d == 1.0 && e == 1.0)
  {
    a * b * d * e
  }

  /** mask_psi: products of the four cells around each interior vertex. */
  function MaskPsi(m: seq<seq<real>>, r: nat, c: nat): (o: seq<seq<real>>)
    requires IsMat(m, r, c)
    ensures IsMat(o, Pred(r), Pred(c))
    ensures forall j, i {:trigger o[j][i]} :: 0 <= j < Pred(r) && 0 <= i < Pred(c) ==>
      (m[j][i] == 0.0 || m[j][i + 1] == 0.0 || m[j + 1][i] == 0.0 || m[j + 1][i + 1] == 0.0 ==> o[j][i] == 0.0)
  {
    seq(Pred(r), j requires 0 <= j < Pred(r) =>
      seq(Pred(c), i requires 0 <= i < Pred(c) => m[j + 1][i + 1] * m[j][i + 1] * m[j + 1][i] * m[j][i]))
  }

  /** For a binary cell mask the psi-mask is binary, and a psi-point is
      wet exactly when all four cells around it are. */
  lemma MaskPsiBinary(m: seq<seq<real>>, r: nat, c: nat)
    requires IsMat(m, r, c) && IsBinary(m)
    ensures IsBinary(MaskPsi(m, r, c))
    ensures forall j, i {:trigger MaskPsi(m, r, c)[j][i]} :: 0 <= j < Pred(r) && 0 <= i < Pred(c) ==>
      (MaskPsi(m, r, c)[j][i] == 1.0 <==> m[j][i] == 1.0 && m[j][i + 1] == 1.0 && m[j + 1][i] == 1.0 && m[j + 1][i + 1] == 1.0)
  {
    forall j, i {:trigger MaskPsi(m, r, c)[j][i]} | 0 <= j < Pred(r) && 0 <= i < Pred(c)
      ensures (MaskPsi(m, r, c)[j][i] == 0.0 || MaskPsi(m, r, c)[j][i] == 1.0) &&
        (MaskPsi(m, r, c)[j][i] == 1.0 <==> m[j][i] == 1.0 && m[j][i + 1] == 1.0 && m[j + 1][i] == 1.0 && m[j + 1][i + 1] == 1.0)
    {
      MaskPsiAt(m, r, c, j, i);
    }
  }

  /** Regrouping a product of four factors. */
  lemma Regroup4(a: real, b: real, d: real, e: real)
    ensures e * b * d * a == (e * d) * (b * a)
    ensures e * b * d * a == (e * b) * (d * a)
    ensures a * b * d * e == e * b * d * a
  {
  }

  /** The psi-mask is the u-mask of the v-mask rows, and the v-mask of the
      u-mask columns: the sub-masks are consistent with each other. */
  lemma MaskPsiFromUAndV(m: seq<seq<real>>, r: nat, c: nat)
    requires IsMat(m, r, c)
    ensures forall j, i {:trigger MaskPsi(m, r, c)[j][i]} :: 0 <= j < Pred(r) && 0 <= i < Pred(c) ==>
      MaskPsi(m, r, c)[j][i] == MaskU(m, r, c)[j + 1][i] * MaskU(m, r, c)[j][i] &&
      MaskPsi(m, r, c)[j][i] == MaskV(m, r, c)[j][i + 1] * MaskV(m, r, c)[j][i]
  {
    forall j, i | 0 <= j < Pred(r) && 0 <= i < Pred(c)
      ensures MaskPsi(m, r, c)[j][i] == MaskU(m, r, c)[j + 1][i] * MaskU(m, r, c)[j][i]
      ensures MaskPsi(m, r, c)[j][i] == MaskV(m, r, c)[j][i + 1] * MaskV(m, r, c)[j][i]
    {
      MaskPsiCell(m, r, c, j, i);
    }
  }

  lemma MaskPsiCell(m: seq<seq<real>>, r: nat, c: nat, j: nat, i: nat)
    requires IsMat(m, r, c) && j < Pred(r) && i < Pred(c)
    ensures MaskPsi(m, r, c)[j][i] == MaskU(m, r, c)[j + 1][i] * MaskU(m, r, c)[j][i]
    ensures MaskPsi(m, r, c)[j][i] == MaskV(m, r, c)[j][i + 1] * MaskV(m, r, c)[j][i]
  {
    MaskPsiAt(m, r, c, j, i);
    MaskUAt(m, r, c, j, i);
    MaskUAt(m, r, c, j + 1, i);
    MaskVAt(m, r, c, j, i);
    MaskVAt(m, r, c, j, i + 1);
    Regroup4(m[j][i], m[j][i + 1], m[j + 1][i], m[j + 1][i + 1]);
  }

  lemma MaskUAt(m: seq<seq<real>>, r: nat, c: nat, j: nat, i: nat)
    requires IsMat(m, r, c) && j < r && i < Pred(c)
    ensures MaskU(m, r, c)[j][i] == m[j][i + 1] * m[j][i]
  {
  }

  lemma MaskVAt(m: seq<seq<real>>, r: nat, c: nat, j: nat, i: nat)
    requires IsMat(m, r, c) && j < Pred(r) && i < c
    ensures MaskV(m, r, c)[j][i] == m[j + 1][i] * m[j][i]
  {
  }

  lemma MaskPsiAt(m: seq<seq<real>>, r: nat, c: nat, j: nat, i: nat)
    requires IsMat(m, r, c) && j < Pred(r) && i < Pred(c)
    ensures MaskPsi(m, r, c)[j][i] == Product4(m[j + 1][i + 1], m[j][i + 1], m[j + 1][i], m[j][i])
  {
  }

  // ---------------------------------------------------------------------
  // uvp_masks: the same sub-masks from a user-supplied rho-mask.

  predicate FlatBinary(s: seq<real>) {
    forall k :: 0 <= k < |s| ==> s[k] == 0.0 || s[k] == 1.0
  }

  /** Validate a rho-mask (2-D, zeros and ones only), then return its u-,
      v- and psi-masks, multiplied in the order `uvp_masks` uses. */
  function UvpMasks(rmask: NdArray<real>): (res: Result<(seq<seq<real>>, seq<seq<real>>, seq<seq<real>>)>)
    requires rmask.WellFormed()
    ensures res.Ok? <==> rmask.Ndim() == 2 && FlatBinary(rmask.flat)
    ensures rmask.Ndim() != 2 ==> res == Err(MaskNotTwoDimensional)
    ensures rmask.Ndim() == 2 && !FlatBinary(rmask.flat) ==> res == Err(MaskNotBinary)
    ensures res.Ok? ==>
      var m, r, c := rmask.AsMatrix(), rmask.shape[0], rmask.shape[1];
      IsBinary(m) && res.value == (MaskU(m, r, c), MaskV(m, r, c), MaskPsi(m, r, c))
  {
    if rmask.Ndim() != 2 then Err(MaskNotTwoDimensional)
    else if !FlatBinary(rmask.flat) then Err(MaskNotBinary)
    else
      var m, r, c := rmask.AsMatrix(), rmask.shape[0], rmask.shape[1];
      FlatBinaryIsBinary(rmask);
      SameProducts(m, r, c);
      Ok((UvpU(m, r, c), UvpV(m, r, c), UvpPsi(m, r, c)))
  }

  /** `rmask[:, :-1] * rmask[:, 1:]` */
  function UvpU(m: seq<seq<real>>, r: nat, c: nat): (o: seq<seq<real>>)
    requires IsMat(m, r, c)
  {
    seq(r, j requires 0 <= j < r => seq(Pred(c), i requires 0 <= i < Pred(c) => m[j][i] * m[j][i + 1]))
  }

  /** `rmask[:-1, :] * rmask[1:, :]` */
  function UvpV(m: seq<seq<real>>, r: nat, c: nat): (o: seq<seq<real>>)
    requires IsMat(m, r, c)
  {
    seq(Pred(r), j requires 0 <= j < Pred(r) => seq(c, i requires 0 <= i < c => m[j][i] * m[j + 1][i]))
  }

  /** `rmask[:-1, :-1] * rmask[:-1, 1:] * rmask[1:, :-1] * rmask[1:, 1:]` */
  function UvpPsi(m: seq<seq<real>>, r: nat, c: nat): (o: seq<seq<real>>)
    requires IsMat(m, r, c)
  {
    seq(Pred(r), j requires 0 <= j < Pred(r) =>
      seq(Pred(c), i requires 0 <= i < Pred(c) => m[j][i] * m[j][i + 1] * m[j + 1][i] * m[j + 1][i + 1]))
  }

  /** uvp_masks multiplies in another order than the mask_* properties,
      with the same results. */
  lemma SameProducts(m: seq<seq<real>>, r: nat, c: nat)
    requires IsMat(m, r, c)
    ensures UvpU(m, r, c) == MaskU(m, r, c)
    ensures UvpV(m, r, c) == MaskV(m, r, c)
    ensures UvpPsi(m, r, c) == MaskPsi(m, r, c)
  {
    SameUProducts(m, r, c);
    SameVProducts(m, r, c);
    SamePsiProducts(m, r, c);
  }

  lemma SameUProducts(m: seq<seq<real>>, r: nat, c: nat)
    requires IsMat(m, r, c)
    ensures UvpU(m, r, c) == MaskU(m, r, c)
  {
    var umask, u := UvpU(m, r, c), MaskU(m, r, c);
    forall j | 0 <= j < r ensures umask[j] == u[j] {
      forall i | 0 <= i < Pred(c) ensures umask[j][i] == u[j][i] {
        assert u[j][i] == m[j][i + 1] * m[j][i];
      }
    }
  }

  lemma SameVProducts(m: seq<seq<real>>, r: nat, c: nat)
    requires IsMat(m, r, c)
    ensures UvpV(m, r, c) == MaskV(m, r, c)
  {
    var vmask, w := UvpV(m, r, c), MaskV(m, r, c);
    forall j | 0 <= j < Pred(r) ensures vmask[j] == w[j] {
      forall i | 0 <= i < c ensures vmask[j][i] == w[j][i] {
        assert w[j][i] == m[j + 1][i] * m[j][i];
      }
    }
  }

  lemma SamePsiProducts(m: seq<seq<real>>, r: nat, c: nat)
    requires IsMat(m, r, c)
    ensures UvpPsi(m, r, c) == MaskPsi(m, r, c)
  {
    var pmask, p := UvpPsi(m, r, c), MaskPsi(m, r, c);
    forall j | 0 <= j < Pred(r) ensures pmask[j] == p[j] {
      forall i | 0 <= i < Pred(c) ensures pmask[j][i] == p[j][i] {
        SamePsiCell(m, r, c, j, i);
      }
    }
  }

  lemma SamePsiCell(m: seq<seq<real>>, r: nat, c: nat, j: nat, i: nat)
    requires IsMat(m, r, c) && j < Pred(r) && i < Pred(c)
    ensures UvpPsi(m, r, c)[j][i] == MaskPsi(m, r, c)[j][i]
  {
    MaskPsiAt(m, r, c, j, i);
    UvpPsiAt(m, r, c, j, i);
    Regroup4(m[j][i], m[j][i + 1], m[j + 1][i], m[j + 1][i + 1]);
  }

  lemma UvpPsiAt(m: seq<seq<real>>, r: nat, c: nat, j: nat, i: nat)
    requires IsMat(m, r, c) && j < Pred(r) && i < Pred(c)
    ensures UvpPsi(m, r, c)[j][i] == m[j][i] * m[j][i + 1] * m[j + 1][i] * m[j + 1][i + 1]
  {
  }

  /** The binary check on the flat data is the binary check on the rows. */
  lemma FlatBinaryIsBinary(a: NdArray<real>)
    requires a.WellFormed() && a.Ndim() == 2
    ensures FlatBinary(a.flat) ==> IsBinary(a.AsMatrix())
  {
  }
}
