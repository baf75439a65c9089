/** The staggered point sets of an Arakawa C-grid, computed from one
    coordinate (x or y) of an r-by-c vertex matrix: cell centres (rho),
    u-points, v-points and psi-points (grid.py, x_rho .. y_psi). */
module Stagger {
  import opened Arrays

  /** All four corners of cell (j, i) are valid. */
  predicate CornersValid(v: seq<seq<Val>>, r: nat, c: nat, j: nat, i: nat)
    requires IsMat(v, r, c) && j + 1 < r && i + 1 < c
  {
    v[j][i].Num? && v[j][i + 1].Num? && v[j + 1][i].Num? && v[j + 1][i + 1].Num?
  }

  /** Midpoints of the edges joining vertex rows j and j+1,
      `0.5 * (v[1:, :] + v[:-1, :])`. */
  function RowMid(v: seq<seq<Val>>, r: nat, c: nat): (o: seq<seq<Val>>)
    requires IsMat(v, r, c)
    ensures IsMat(o, Pred(r), c)
    ensures forall j, i {:trigger o[j][i]} :: 0 <= j < Pred(r) && 0 <= i < c ==>
      (o[j][i].Num? <==> v[j][i].Num? && v[j + 1][i].Num?)
  {
    var o := seq(Pred(r), j requires 0 <= j < Pred(r) =>
      seq(c, i requires 0 <= i < c => Mid(v[j + 1][i], v[j][i])));
    assert forall j, i {:trigger o[j][i]} :: 0 <= j < Pred(r) && 0 <= i < c ==> o[j][i] == Mid(v[j + 1][i], v[j][i]);
    o
  }

  /** Midpoints of the edges joining vertex columns i and i+1,
      `0.5 * (v[:, 1:] + v[:, :-1])`. */
  function ColMid(v: seq<seq<Val>>, r: nat, c: nat): (o: seq<seq<Val>>)
    requires IsMat(v, r, c)
    ensures IsMat(o, r, Pred(c))
    ensures forall j, i {:trigger o[j][i]} :: 0 <= j < r && 0 <= i < Pred(c) ==>
      (o[j][i].Num? <==> v[j][i].Num? && v[j][i + 1].Num?)
  {
    seq(r, j requires 0 <= j < r =>
      seq(Pred(c), i requires 0 <= i < Pred(c) => Mid(v[j][i + 1], v[j][i])))
  }

  /** Cell centres: the mean of each cell's four corners (x_rho, y_rho). */
  function RhoPoints(v: seq<seq<Val>>, r: nat, c: nat): (o: seq<seq<Val>>)
    requires IsMat(v, r, c)
    ensures IsMat(o, Pred(r), Pred(c))
    ensures forall j, i {:trigger o[j][i]} :: 0 <= j < Pred(r) && 0 <= i < Pred(c) ==>
      (o[j][i].Num? <==> CornersValid(v, r, c, j, i))
  {
    seq(Pred(r), j requires 0 <= j < Pred(r) =>
      seq(Pred(c), i requires 0 <= i < Pred(c) =>
        if CornersValid(v, r, c, j, i) then Mean4(v[j + 1][i + 1], v[j + 1][i], v[j][i + 1], v[j][i]) else Masked))
  }

  /** u-points: midpoints of the interior vertical edges (x_u, y_u). */
  function UPoints(v: seq<seq<Val>>, r: nat, c: nat): (o: seq<seq<Val>>)
    requires IsMat(v, r, c)
    ensures IsMat(o, Pred(r), Inner(c))
    ensures forall j, i {:trigger o[j][i]} :: 0 <= j < Pred(r) && 0 <= i < Inner(c) ==>
      (o[j][i].Num? <==> v[j][i + 1].Num? && v[j + 1][i + 1].Num?)
  {
    var o := seq(Pred(r), j requires 0 <= j < Pred(r) =>
      seq(Inner(c), i requires 0 <= i < Inner(c) => Mid(v[j][i + 1], v[j + 1][i + 1])));
    assert forall j, i {:trigger o[j][i]} :: 0 <= j < Pred(r) && 0 <= i < Inner(c) ==>
      o[j][i] == Mid(v[j][i + 1], v[j + 1][i + 1]);
    o
  }

  /** v-points: midpoints of the interior horizontal edges (x_v, y_v). */
  function VPoints(v: seq<seq<Val>>, r: nat, c: nat): (o: seq<seq<Val>>)
    requires IsMat(v, r, c)
    ensures IsMat(o, Inner(r), Pred(c))
    ensures forall j, i {:trigger o[j][i]} :: 0 <= j < Inner(r) && 0 <= i < Pred(c) ==>
      (o[j][i].Num? <==> v[j + 1][i].Num? && v[j + 1][i + 1].Num?)
  {
    seq(Inner(r), j requires 0 <= j < Inner(r) =>
      seq(Pred(c), i requires 0 <= i < Pred(c) => Mid(v[j + 1][i], v[j + 1][i + 1])))
  }

  /** psi-points: the interior vertices, `v[1:-1, 1:-1]` (x_psi, y_psi). */
  function PsiPoints(v: seq<seq<Val>>, r: nat, c: nat): (o: seq<seq<Val>>)
    requires IsMat(v, r, c)
    ensures IsMat(o, Inner(r), Inner(c))
    ensures forall j, i {:trigger o[j][i]} :: 0 <= j < Inner(r) && 0 <= i < Inner(c) ==> o[j][i] == v[j + 1][i + 1]
  {
    seq(Inner(r), j requires 0 <= j < Inner(r) =>
      seq(Inner(c), i requires 0 <= i < Inner(c) => v[j + 1][i + 1]))
  }

  // ---------------------------------------------------------------------
  // How the point sets fit together.

  /** A cell centre is the midpoint of the midpoints of its left and right
      edges, and equally of its lower and upper edges. */
  lemma RhoIsMeanOfEdgeMidpoints(v: seq<seq<Val>>, r: nat, c: nat)
    requires IsMat(v, r, c)
    ensures forall j, i {:trigger RhoPoints(v, r, c)[j][i]} :: 0 <= j < Pred(r) && 0 <= i < Pred(c) ==>
      RhoPoints(v, r, c)[j][i] == Mid(RowMid(v, r, c)[j][i], RowMid(v, r, c)[j][i + 1]) &&
      RhoPoints(v, r, c)[j][i] == Mid(ColMid(v, r, c)[j][i], ColMid(v, r, c)[j + 1][i])
  {
    var o, rm, cm := RhoPoints(v, r, c), RowMid(v, r, c), ColMid(v, r, c);
    forall j, i | 0 <= j < Pred(r) && 0 <= i < Pred(c)
      ensures o[j][i] == Mid(rm[j][i], rm[j][i + 1]) && o[j][i] == Mid(cm[j][i], cm[j + 1][i])
    {
      RhoCellIsMean(v, r, c, j, i);
    }
  }

  lemma RhoCellIsMean(v: seq<seq<Val>>, r: nat, c: nat, j: nat, i: nat)
    requires IsMat(v, r, c) && j < Pred(r) && i < Pred(c)
    ensures RhoPoints(v, r, c)[j][i] == Mid(RowMid(v, r, c)[j][i], RowMid(v, r, c)[j][i + 1])
    ensures RhoPoints(v, r, c)[j][i] == Mid(ColMid(v, r, c)[j][i], ColMid(v, r, c)[j + 1][i])
  {
    RhoAt(v, r, c, j, i);
    RowMidAt(v, r, c, j, i);
    RowMidAt(v, r, c, j, i + 1);
    ColMidAt(v, r, c, j, i);
    ColMidAt(v, r, c, j + 1, i);
    MeanOfMids(v[j][i], v[j][i + 1], v[j + 1][i], v[j + 1][i + 1]);
  }

  /** The centre of cell (j, i) is the mean of its corners, masked or not. */
  lemma RhoAt(v: seq<seq<Val>>, r: nat, c: nat, j: nat, i: nat)
    requires IsMat(v, r, c) && j < Pred(r) && i < Pred(c)
    ensures RhoPoints(v, r, c)[j][i] == Mean4(v[j + 1][i + 1], v[j + 1][i], v[j][i + 1], v[j][i])
  {
    var m := Mean4(v[j + 1][i + 1], v[j + 1][i], v[j][i + 1], v[j][i]);
    if !CornersValid(v, r, c, j, i) {
      assert m == Masked;
    }
  }

  lemma ColMidAt(v: seq<seq<Val>>, r: nat, c: nat, j: nat, i: nat)
    requires IsMat(v, r, c) && j < r && i < Pred(c)
    ensures ColMid(v, r, c)[j][i] == Mid(v[j][i + 1], v[j][i])
  {
  }

  /** The mean of four corners is the midpoint of the midpoints of either
      pair of opposite sides. */
  lemma MeanOfMids(a: Val, b: Val, d: Val, e: Val)
    ensures Mean4(e, d, b, a) == Mid(Mid(d, a), Mid(e, b))
    ensures Mean4(e, d, b, a) == Mid(Mid(b, a), Mid(e, d))
  {
  }

  /** The u-points are the interior columns of the edge midpoints that the
      cell widths dx are measured between. */
  lemma UIsInteriorOfRowMid(v: seq<seq<Val>>, r: nat, c: nat)
    requires IsMat(v, r, c)
    ensures forall j, i {:trigger UPoints(v, r, c)[j][i]} :: 0 <= j < Pred(r) && 0 <= i < Inner(c) ==>
      UPoints(v, r, c)[j][i] == RowMid(v, r, c)[j][i + 1]
  {
    var u: seq<seq<Val>>, rm: seq<seq<Val>> := UPoints(v, r, c), RowMid(v, r, c);
    forall j, i | 0 <= j < Pred(r) && 0 <= i < Inner(c) ensures u[j][i] == rm[j][i + 1] {
      UAt(v, r, c, j, i);
      RowMidAt(v, r, c, j, i + 1);
      MidSymmetric(v[j][i + 1], v[j + 1][i + 1]);
    }
  }

  /** The v-points are the interior rows of the column edge midpoints. */
  lemma VIsInteriorOfColMid(v: seq<seq<Val>>, r: nat, c: nat)
    requires IsMat(v, r, c)
    ensures forall j, i {:trigger VPoints(v, r, c)[j][i]} :: 0 <= j < Inner(r) && 0 <= i < Pred(c) ==>
      VPoints(v, r, c)[j][i] == ColMid(v, r, c)[j + 1][i]
  {
    var w: seq<seq<Val>>, cm: seq<seq<Val>> := VPoints(v, r, c), ColMid(v, r, c);
    forall j, i | 0 <= j < Inner(r) && 0 <= i < Pred(c) ensures w[j][i] == cm[j + 1][i] {
      VCell(v, r, c, j, i);
      MidSymmetric(v[j + 1][i], v[j + 1][i + 1]);
    }
  }

  lemma UAt(v: seq<seq<Val>>, r: nat, c: nat, j: nat, i: nat)
    requires IsMat(v, r, c) && j < Pred(r) && i < Inner(c)
    ensures UPoints(v, r, c)[j][i] == Mid(v[j][i + 1], v[j + 1][i + 1])
  {
  }

  lemma RowMidAt(v: seq<seq<Val>>, r: nat, c: nat, j: nat, i: nat)
    requires IsMat(v, r, c) && j < Pred(r) && i < c
    ensures RowMid(v, r, c)[j][i] == Mid(v[j + 1][i], v[j][i])
  {
  }

  /** A v-point and the column-edge midpoint at the same place. */
  lemma VCell(v: seq<seq<Val>>, r: nat, c: nat, j: nat, i: nat)
    requires IsMat(v, r, c) && j < Inner(r) && i < Pred(c)
    ensures VPoints(v, r, c)[j][i] == Mid(v[j + 1][i], v[j + 1][i + 1])
    ensures ColMid(v, r, c)[j + 1][i] == Mid(v[j + 1][i + 1], v[j + 1][i])
  {
  }

  /** Away from the first and last vertex rows, a u-point is the midpoint
      of the two psi-points above and below it. */
  lemma UBetweenPsi(v: seq<seq<Val>>, r: nat, c: nat)
    requires IsMat(v, r, c)
    ensures forall j, i {:trigger UPoints(v, r, c)[j][i]} :: 1 <= j < Inner(r) && 0 <= i < Inner(c) ==>
      UPoints(v, r, c)[j][i] == Mid(PsiPoints(v, r, c)[j - 1][i], PsiPoints(v, r, c)[j][i])
  {
    var u, p := UPoints(v, r, c), PsiPoints(v, r, c);
    forall j, i | 1 <= j < Inner(r) && 0 <= i < Inner(c) ensures u[j][i] == Mid(p[j - 1][i], p[j][i]) {
      assert p[j - 1][i] == v[j][i + 1] && p[j][i] == v[j + 1][i + 1];
    }
  }

  /** Away from the first and last vertex columns, a v-point is the
      midpoint of the two psi-points left and right of it. */
  lemma VBetweenPsi(v: seq<seq<Val>>, r: nat, c: nat)
    requires IsMat(v, r, c)
    ensures forall j, i {:trigger VPoints(v, r, c)[j][i]} :: 0 <= j < Inner(r) && 1 <= i < Inner(c) ==>
      VPoints(v, r, c)[j][i] == Mid(PsiPoints(v, r, c)[j][i - 1], PsiPoints(v, r, c)[j][i])
  {
    var w, p := VPoints(v, r, c), PsiPoints(v, r, c);
    forall j, i | 0 <= j < Inner(r) && 1 <= i < Inner(c) ensures w[j][i] == Mid(p[j][i - 1], p[j][i]) {
      assert p[j][i - 1] == v[j + 1][i] && p[j][i] == v[j + 1][i + 1];
    }
  }
}
