/** Spacing metrics of a C-grid, all computed from the vertex coordinates:
    the cell widths dx and dy, their reciprocals pm and pn, the rim-zero
    central differences dndx and dmde, and the vertex angle field
    (grid.py dx .. angle). */
module Metrics {
  import opened Results
  import opened Arrays
  import opened Stagger

  /** `sqrt(a**2 + b**2)`. */
  function Dist(num: Numerics, a: real, b: real): real {
    num.sqrt(a * a + b * b)
  }

  /** `sqrt(a**2 + b**2)` on masked entries. */
  function Hypot(num: Numerics, a: Val, b: Val): (h: Val)
    ensures h.Num? <==> a.Num? && b.Num?
  {
    if a.Num? && b.Num? then Num(Dist(num, a.v, b.v)) else Masked
  }

  /** A width is never negative, and two coinciding points are at
      distance zero. */
  lemma HypotProperties(num: Numerics, a: Val, b: Val)
    requires SqrtLike(num.sqrt) && a.Num? && b.Num?
    ensures Hypot(num, a, b).v >= 0.0
    ensures a.v == 0.0 && b.v == 0.0 ==> Hypot(num, a, b).v == 0.0
  {
    HypotUnfold(num, a, b);
    SquareSign(a.v);
    SquareSign(b.v);
  }

  lemma HypotUnfold(num: Numerics, a: Val, b: Val)
    requires a.Num? && b.Num?
    ensures Hypot(num, a, b) == Num(Dist(num, a.v, b.v))
  {
  }

  lemma SquareSign(t: real)
    ensures 0.0 <= t * t
  {
    if t < 0.0 {
      MulPos(-t, -t);
      assert t * t == (-t) * (-t);
    } else if t > 0.0 {
      MulPos(t, t);
    }
  }

  lemma MulPos(a: real, b: real)
    requires 0.0 < a && 0.0 < b
    ensures 0.0 < a * b
  {
  }

  /** A common shift of both operands cancels in their difference. */
  lemma SubShift(p: Val, q: Val, d: real)
    ensures Sub(Shift(p, d), Shift(q, d)) == Sub(p, q)
  {
  }

  /** The midpoint of two shifted entries is the shifted midpoint. */
  lemma MidShift(p: Val, q: Val, d: real)
    ensures Mid(Shift(p, d), Shift(q, d)) == Shift(Mid(p, q), d)
  {
  }

  /** The distance between the midpoints of the edges p0-p1 and q0-q1 of a
      cell, from the x and y coordinates of the four corners:
      `sqrt(diff(xt)**2 + diff(yt)**2)` at one cell. */
  function Gap(num: Numerics, xp0: real, xp1: real, xq0: real, xq1: real, yp0: real, yp1: real, yq0: real, yq1: real): real {
    var dx := 0.5 * (xq0 + xq1) - 0.5 * (xp0 + xp1);
    var dy := 0.5 * (yq0 + yq1) - 0.5 * (yp0 + yp1);
    Dist(num, dx, dy)
  }

  /** dx: for each cell, the distance between the midpoints of its two
      edges that join vertex rows j and j+1 (`diff` along the columns of
      `0.5 * (v[1:, :] + v[:-1, :])`). Masked arithmetic masks a width
      exactly when one of the cell's corners is masked in x or y. */
  function Dx(num: Numerics, x: seq<seq<Val>>, y: seq<seq<Val>>, r: nat, c: nat): (d: seq<seq<Val>>)
    requires IsMat(x, r, c) && IsMat(y, r, c)
    ensures IsMat(d, Pred(r), Pred(c))
    ensures forall j, i {:trigger d[j][i]} :: 0 <= j < Pred(r) && 0 <= i < Pred(c) ==>
      (d[j][i].Num? <==> CornersValid(x, r, c, j, i) && CornersValid(y, r, c, j, i))
  {
    seq(Pred(r), j requires 0 <= j < Pred(r) =>
      seq(Pred(c), i requires 0 <= i < Pred(c) =>
        if CornersValid(x, r, c, j, i) && CornersValid(y, r, c, j, i)
        then Num(Gap(num, x[j + 1][i].v, x[j][i].v, x[j + 1][i + 1].v, x[j][i + 1].v,
                          y[j + 1][i].v, y[j][i].v, y[j + 1][i + 1].v, y[j][i + 1].v))
        else Masked))
  }

  /** dy: for each cell, the distance between the midpoints of its two
      edges that join vertex columns i and i+1 (`diff` along the rows of
      `0.5 * (v[:, 1:] + v[:, :-1])`). */
  function Dy(num: Numerics, x: seq<seq<Val>>, y: seq<seq<Val>>, r: nat, c: nat): (d: seq<seq<Val>>)
    requires IsMat(x, r, c) && IsMat(y, r, c)
    ensures IsMat(d, Pred(r), Pred(c))
    ensures forall j, i {:trigger d[j][i]} :: 0 <= j < Pred(r) && 0 <= i < Pred(c) ==>
      (d[j][i].Num? <==> CornersValid(x, r, c, j, i) && CornersValid(y, r, c, j, i))
  {
    seq(Pred(r), j requires 0 <= j < Pred(r) =>
      seq(Pred(c), i requires 0 <= i < Pred(c) =>
        if CornersValid(x, r, c, j, i) && CornersValid(y, r, c, j, i)
        then Num(Gap(num, x[j][i + 1].v, x[j][i].v, x[j + 1][i + 1].v, x[j + 1][i].v,
                          y[j][i + 1].v, y[j][i].v, y[j + 1][i + 1].v, y[j + 1][i].v))
        else Masked))
  }

  /** dx is numpy's expression evaluated in masked arithmetic: at every
      cell it is the length of the difference between the two row-edge
      midpoints RowMid that bound the cell. */
  lemma DxBetweenRowMids(num: Numerics, x: seq<seq<Val>>, y: seq<seq<Val>>, r: nat, c: nat, j: nat, i: nat)
    requires IsMat(x, r, c) && IsMat(y, r, c) && j < Pred(r) && i < Pred(c)
    ensures Dx(num, x, y, r, c)[j][i] ==
      Hypot(num, Sub(RowMid(x, r, c)[j][i + 1], RowMid(x, r, c)[j][i]), Sub(RowMid(y, r, c)[j][i + 1], RowMid(y, r, c)[j][i]))
  {
    RowMidAt(x, r, c, j, i);
    RowMidAt(x, r, c, j, i + 1);
    RowMidAt(y, r, c, j, i);
    RowMidAt(y, r, c, j, i + 1);
    DxAt(num, x, y, r, c, j, i);
    GapOfMids(num, x[j + 1][i], x[j][i], x[j + 1][i + 1], x[j][i + 1], y[j + 1][i], y[j][i], y[j + 1][i + 1], y[j][i + 1]);
  }

  /** One entry of dx. */
  lemma DxAt(num: Numerics, x: seq<seq<Val>>, y: seq<seq<Val>>, r: nat, c: nat, j: nat, i: nat)
    requires IsMat(x, r, c) && IsMat(y, r, c) && j < Pred(r) && i < Pred(c)
    ensures Dx(num, x, y, r, c)[j][i] ==
      if CornersValid(x, r, c, j, i) && CornersValid(y, r, c, j, i)
      then Num(Gap(num, x[j + 1][i].v, x[j][i].v, x[j + 1][i + 1].v, x[j][i + 1].v,
                        y[j + 1][i].v, y[j][i].v, y[j + 1][i + 1].v, y[j][i + 1].v))
      else Masked
  {
  }

  /** Gap is the masked-arithmetic distance between two edge midpoints,
      valid exactly when all eight coordinates are. */
  lemma GapOfMids(num: Numerics, xp0: Val, xp1: Val, xq0: Val, xq1: Val, yp0: Val, yp1: Val, yq0: Val, yq1: Val)
    ensures Hypot(num, Sub(Mid(xq0, xq1), Mid(xp0, xp1)), Sub(Mid(yq0, yq1), Mid(yp0, yp1))) ==
      if xp0.Num? && xp1.Num? && xq0.Num? && xq1.Num? && yp0.Num? && yp1.Num? && yq0.Num? && yq1.Num?
      then Num(Gap(num, xp0.v, xp1.v, xq0.v, xq1.v, yp0.v, yp1.v, yq0.v, yq1.v))
      else Masked
  {
    var dx, dy := Sub(Mid(xq0, xq1), Mid(xp0, xp1)), Sub(Mid(yq0, yq1), Mid(yp0, yp1));
    if dx.Num? && dy.Num? {
      assert dx.v == 0.5 * (xq0.v + xq1.v) - 0.5 * (xp0.v + xp1.v);
      assert dy.v == 0.5 * (yq0.v + yq1.v) - 0.5 * (yp0.v + yp1.v);
      HypotUnfold(num, dx, dy);
    }
  }

  /** Cell widths are distances: never negative, and zero where the two
      edge midpoints they join coincide. */
  lemma DxIsDistance(num: Numerics, x: seq<seq<Val>>, y: seq<seq<Val>>, r: nat, c: nat)
    requires IsMat(x, r, c) && IsMat(y, r, c) && SqrtLike(num.sqrt)
    ensures forall j, i {:trigger Dx(num, x, y, r, c)[j][i]} :: 0 <= j < Pred(r) && 0 <= i < Pred(c) && Dx(num, x, y, r, c)[j][i].Num? ==>
      Dx(num, x, y, r, c)[j][i].v >= 0.0 &&
      (RowMid(x, r, c)[j][i] == RowMid(x, r, c)[j][i + 1] && RowMid(y, r, c)[j][i] == RowMid(y, r, c)[j][i + 1] ==>
        Dx(num, x, y, r, c)[j][i].v == 0.0)
  {
    var d: seq<seq<Val>>, xt: seq<seq<Val>>, yt: seq<seq<Val>> := Dx(num, x, y, r, c), RowMid(x, r, c), RowMid(y, r, c);
    forall j, i | 0 <= j < Pred(r) && 0 <= i < Pred(c) && d[j][i].Num?
      ensures d[j][i].v >= 0.0 && (xt[j][i] == xt[j][i + 1] && yt[j][i] == yt[j][i + 1] ==> d[j][i].v == 0.0)
    {
      DxBetweenRowMids(num, x, y, r, c, j, i);
      HypotProperties(num, Sub(xt[j][i + 1], xt[j][i]), Sub(yt[j][i + 1], yt[j][i]));
    }
  }
  /** Cell heights are distances too: never negative. */
  lemma DyIsDistance(num: Numerics, x: seq<seq<Val>>, y: seq<seq<Val>>, r: nat, c: nat)
    requires IsMat(x, r, c) && IsMat(y, r, c) && SqrtLike(num.sqrt)
    ensures forall j, i {:trigger Dy(num, x, y, r, c)[j][i]} :: 0 <= j < Pred(r) && 0 <= i < Pred(c) && Dy(num, x, y, r, c)[j][i].Num? ==>
      Dy(num, x, y, r, c)[j][i].v >= 0.0
  {
    DyIsTransposedDx(num, x, y, r, c);
    DxIsDistance(num, Transpose(x, r, c), Transpose(y, r, c), c, r);
  }


  /** dy is dx computed on the transposed grid, transposed back: the two
      constructions are mirror images of each other. */
  lemma DyIsTransposedDx(num: Numerics, x: seq<seq<Val>>, y: seq<seq<Val>>, r: nat, c: nat)
    requires IsMat(x, r, c) && IsMat(y, r, c)
    ensures Dy(num, x, y, r, c) == Transpose(Dx(num, Transpose(x, r, c), Transpose(y, r, c), c, r), Pred(c), Pred(r))
  {
    var tx, ty := Transpose(x, r, c), Transpose(y, r, c);
    var dy, t := Dy(num, x, y, r, c), Transpose(Dx(num, tx, ty, c, r), Pred(c), Pred(r));
    forall j | 0 <= j < Pred(r) ensures dy[j] == t[j] {
      forall i | 0 <= i < Pred(c) ensures dy[j][i] == t[j][i] {
        assert tx[i][j] == x[j][i] && tx[i + 1][j] == x[j][i + 1] && tx[i][j + 1] == x[j + 1][i] && tx[i + 1][j + 1] == x[j + 1][i + 1];
        assert ty[i][j] == y[j][i] && ty[i + 1][j] == y[j][i + 1] && ty[i][j + 1] == y[j + 1][i] && ty[i + 1][j + 1] == y[j + 1][i + 1];
      }
    }
  }

  /** Shifting the whole grid does not change its cell widths. */
  lemma DxTranslationInvariant(num: Numerics, x: seq<seq<Val>>, y: seq<seq<Val>>, r: nat, c: nat, a: real, b: real)
    requires IsMat(x, r, c) && IsMat(y, r, c)
    ensures Dx(num, Translate(x, r, c, a), Translate(y, r, c, b), r, c) == Dx(num, x, y, r, c)
  {
    var d', d := Dx(num, Translate(x, r, c, a), Translate(y, r, c, b), r, c), Dx(num, x, y, r, c);
    forall j | 0 <= j < Pred(r) ensures d'[j] == d[j] {
      forall i | 0 <= i < Pred(c) ensures d'[j][i] == d[j][i] {
        DxCellShift(num, x, y, r, c, a, b, j, i);
      }
    }
  }

  lemma DxCellShift(num: Numerics, x: seq<seq<Val>>, y: seq<seq<Val>>, r: nat, c: nat, a: real, b: real, j: nat, i: nat)
    requires IsMat(x, r, c) && IsMat(y, r, c) && j < Pred(r) && i < Pred(c)
    ensures Dx(num, Translate(x, r, c, a), Translate(y, r, c, b), r, c)[j][i] == Dx(num, x, y, r, c)[j][i]
  {
    var tx: seq<seq<Val>>, ty: seq<seq<Val>> := Translate(x, r, c, a), Translate(y, r, c, b);
    TranslateCell(x, r, c, a, j, i);
    TranslateCell(y, r, c, b, j, i);
    DxAt(num, x, y, r, c, j, i);
    DxAt(num, tx, ty, r, c, j, i);
    assert CornersValid(tx, r, c, j, i) == CornersValid(x, r, c, j, i);
    assert CornersValid(ty, r, c, j, i) == CornersValid(y, r, c, j, i);
    if CornersValid(x, r, c, j, i) && CornersValid(y, r, c, j, i) {
      GapShift(num, x[j + 1][i].v, x[j][i].v, x[j + 1][i + 1].v, x[j][i + 1].v,
                    y[j + 1][i].v, y[j][i].v, y[j + 1][i + 1].v, y[j][i + 1].v, a, b);
    }
  }

  /** The four corners of a cell of a translated matrix. */
  lemma TranslateCell(v: seq<seq<Val>>, r: nat, c: nat, d: real, j: nat, i: nat)
    requires IsMat(v, r, c) && j + 1 < r && i + 1 < c
    ensures Translate(v, r, c, d)[j][i] == Shift(v[j][i], d) && Translate(v, r, c, d)[j][i + 1] == Shift(v[j][i + 1], d)
    ensures Translate(v, r, c, d)[j + 1][i] == Shift(v[j + 1][i], d) && Translate(v, r, c, d)[j + 1][i + 1] == Shift(v[j + 1][i + 1], d)
  {
  }

  lemma GapShift(num: Numerics, xp0: real, xp1: real, xq0: real, xq1: real, yp0: real, yp1: real, yq0: real, yq1: real, a: real, b: real)
    ensures Gap(num, xp0 + a, xp1 + a, xq0 + a, xq1 + a, yp0 + b, yp1 + b, yq0 + b, yq1 + b) ==
      Gap(num, xp0, xp1, xq0, xq1, yp0, yp1, yq0, yq1)
  {
    assert 0.5 * ((xq0 + a) + (xq1 + a)) - 0.5 * ((xp0 + a) + (xp1 + a)) == 0.5 * (xq0 + xq1) - 0.5 * (xp0 + xp1);
    assert 0.5 * ((yq0 + b) + (yq1 + b)) - 0.5 * ((yp0 + b) + (yp1 + b)) == 0.5 * (yq0 + yq1) - 0.5 * (yp0 + yp1);
  }

  /** pm = 1/dx and pn = 1/dy: a zero width gives an invalid entry. */
  function Reciprocal(d: seq<seq<Val>>, r: nat, c: nat): (p: seq<seq<Val>>)
    requires IsMat(d, r, c)
    ensures IsMat(p, r, c)
    ensures forall j, i {:trigger p[j][i]} :: 0 <= j < r && 0 <= i < c ==>
      (p[j][i].Num? <==> d[j][i].Num? && d[j][i].v != 0.0) &&
      (p[j][i].Num? ==> p[j][i].v * d[j][i].v == 1.0)
  {
    seq(r, j requires 0 <= j < r =>
      seq(c, i requires 0 <= i < c =>
        if d[j][i].Num? && d[j][i].v != 0.0 then Num(1.0 / d[j][i].v) else Masked))
  }

  function Pm(num: Numerics, x: seq<seq<Val>>, y: seq<seq<Val>>, r: nat, c: nat): seq<seq<Val>>
    requires IsMat(x, r, c) && IsMat(y, r, c)
  {
    Reciprocal(Dx(num, x, y, r, c), Pred(r), Pred(c))
  }

  function Pn(num: Numerics, x: seq<seq<Val>>, y: seq<seq<Val>>, r: nat, c: nat): seq<seq<Val>>
    requires IsMat(x, r, c) && IsMat(y, r, c)
  {
    Reciprocal(Dy(num, x, y, r, c), Pred(r), Pred(c))
  }

  // ---------------------------------------------------------------------
  // Central differences of the widths, zero on the rim.

  predicate OnRim(r: nat, c: nat, j: nat, i: nat) {
    j == 0 || j + 1 == r || i == 0 || i + 1 == c
  }

  /** dndx: half the difference of dy across each interior cell's columns;
      every cell on the border is zero (d is the r-by-c dy array). */
  function Dndx(d: seq<seq<Val>>, r: nat, c: nat): (o: seq<seq<Val>>)
    requires IsMat(d, r, c)
    ensures IsMat(o, r, c)
    ensures forall j, i {:trigger o[j][i]} :: 0 <= j < r && 0 <= i < c && OnRim(r, c, j, i) ==> o[j][i] == Num(0.0)
    ensures forall j, i {:trigger o[j][i]} :: 0 <= j < r && 0 <= i < c && !OnRim(r, c, j, i) ==>
      (o[j][i].Num? <==> d[j][i - 1].Num? && d[j][i + 1].Num?)
  {
    seq(r, j requires 0 <= j < r =>
      seq(c, i requires 0 <= i < c =>
        if OnRim(r, c, j, i) then Num(0.0) else Scale(0.5, Sub(d[j][i + 1], d[j][i - 1]))))
  }

  /** dmde: half the difference of dx across each interior cell's rows;
      every cell on the border is zero (d is the r-by-c dx array). */
  function Dmde(d: seq<seq<Val>>, r: nat, c: nat): (o: seq<seq<Val>>)
    requires IsMat(d, r, c)
    ensures IsMat(o, r, c)
    ensures forall j, i {:trigger o[j][i]} :: 0 <= j < r && 0 <= i < c && OnRim(r, c, j, i) ==> o[j][i] == Num(0.0)
    ensures forall j, i {:trigger o[j][i]} :: 0 <= j < r && 0 <= i < c && !OnRim(r, c, j, i) ==>
      (o[j][i].Num? <==> d[j - 1][i].Num? && d[j + 1][i].Num?)
  {
    seq(r, j requires 0 <= j < r =>
      seq(c, i requires 0 <= i < c =>
        if OnRim(r, c, j, i) then Num(0.0) else Scale(0.5, Sub(d[j + 1][i], d[j - 1][i]))))
  }

  /** dndx and dmde are the same stencil along the two grid directions. */
  lemma DndxIsTransposedDmde(d: seq<seq<Val>>, r: nat, c: nat)
    requires IsMat(d, r, c)
    ensures Dndx(d, r, c) == Transpose(Dmde(Transpose(d, r, c), c, r), c, r)
  {
    var a, b, td := Dndx(d, r, c), Transpose(Dmde(Transpose(d, r, c), c, r), c, r), Transpose(d, r, c);
    forall j | 0 <= j < r ensures a[j] == b[j] {
      forall i | 0 <= i < c ensures a[j][i] == b[j][i] {
        if !OnRim(r, c, j, i) {
          assert td[i - 1][j] == d[j][i - 1] && td[i + 1][j] == d[j][i + 1];
        }
      }
    }
  }

  /** Where the widths do not vary along a row, dndx vanishes. */
  lemma DndxZeroForRowConstantWidths(d: seq<seq<Val>>, r: nat, c: nat, w: seq<real>)
    requires IsMat(d, r, c) && |w| == r
    requires forall j, i :: 0 <= j < r && 0 <= i < c ==> d[j][i] == Num(w[j])
    ensures forall j, i {:trigger Dndx(d, r, c)[j][i]} :: 0 <= j < r && 0 <= i < c ==> Dndx(d, r, c)[j][i] == Num(0.0)
  {
  }

  // ---------------------------------------------------------------------
  // The vertex angle field.

  /** Angle of each edge joining vertex columns i and i+1 (angle_ud). */
  function AngleUD(num: Numerics, x: seq<seq<Val>>, y: seq<seq<Val>>, r: nat, c: nat): (a: seq<seq<Val>>)
    requires IsMat(x, r, c) && IsMat(y, r, c)
    ensures IsMat(a, r, Pred(c))
    ensures forall j, i {:trigger a[j][i]} :: 0 <= j < r && 0 <= i < Pred(c) ==>
      (a[j][i].Num? <==> x[j][i].Num? && x[j][i + 1].Num? && y[j][i].Num? && y[j][i + 1].Num?)
  {
    seq(r, j requires 0 <= j < r =>
      seq(Pred(c), i requires 0 <= i < Pred(c) =>
        Atan2(num, Sub(y[j][i + 1], y[j][i]), Sub(x[j][i + 1], x[j][i]))))
  }

  /** Angle of each edge joining vertex rows j and j+1, less pi/2 (angle_lr). */
  function AngleLR(num: Numerics, x: seq<seq<Val>>, y: seq<seq<Val>>, r: nat, c: nat): (a: seq<seq<Val>>)
    requires IsMat(x, r, c) && IsMat(y, r, c)
    ensures IsMat(a, Pred(r), c)
    ensures forall j, i {:trigger a[j][i]} :: 0 <= j < Pred(r) && 0 <= i < c ==>
      (a[j][i].Num? <==> x[j][i].Num? && x[j + 1][i].Num? && y[j][i].Num? && y[j + 1][i].Num?)
  {
    seq(Pred(r), j requires 0 <= j < Pred(r) =>
      seq(c, i requires 0 <= i < c =>
        Shift(Atan2(num, Sub(y[j + 1][i], y[j][i]), Sub(x[j + 1][i], x[j][i])), -(Pi / 2.0))))
  }

  function Atan2(num: Numerics, dy: Val, dx: Val): (a: Val)
    ensures a.Num? <==> dy.Num? && dx.Num?
  {
    if dy.Num? && dx.Num? then Num(num.atan2(dy.v, dx.v)) else Masked
  }

  /** The edge angles that meet at vertex (j, i): the column edges to its
      left and right and the row edges below and above it, where they exist. */
  function Touching(ud: seq<seq<Val>>, lr: seq<seq<Val>>, r: nat, c: nat, j: nat, i: nat): (t: seq<Val>)
    requires 2 <= r && 2 <= c && IsMat(ud, r, c - 1) && IsMat(lr, r - 1, c) && j < r && i < c
    ensures |t| == (if OnRim(r, c, j, i) then (if (j == 0 || j == r - 1) && (i == 0 || i == c - 1) then 2 else 3) else 4)
  {
    (if 1 <= i then [ud[j][i - 1]] else []) + (if i < c - 1 then [ud[j][i]] else []) +
    (if 1 <= j then [lr[j - 1][i]] else []) + (if j < r - 1 then [lr[j][i]] else [])
  }

  function SumVals(s: seq<Val>): (t: Val)
    ensures t.Num? <==> forall k :: 0 <= k < |s| ==> s[k].Num?
  {
    if |s| == 0 then Num(0.0) else Add(SumVals(s[..|s| - 1]), s[|s| - 1])
  }

  /** Arithmetic mean of a non-empty list of entries. */
  function MeanVals(s: seq<Val>): Val
    requires |s| > 0
  {
    Scale(1.0 / (|s| as real), SumVals(s))
  }

  /** The angle at every vertex: interior vertices average four edge
      angles, edge vertices three and the four corners two. */
  function AngleFromEdges(ud: seq<seq<Val>>, lr: seq<seq<Val>>, r: nat, c: nat): (a: seq<seq<Val>>)
    requires 2 <= r && 2 <= c && IsMat(ud, r, c - 1) && IsMat(lr, r - 1, c)
    ensures IsMat(a, r, c)
  {
    seq(r, j requires 0 <= j < r => seq(c, i requires 0 <= i < c => AngleAt(ud, lr, r, c, j, i)))
  }

  function AngleAt(ud: seq<seq<Val>>, lr: seq<seq<Val>>, r: nat, c: nat, j: nat, i: nat): Val
    requires 2 <= r && 2 <= c && IsMat(ud, r, c - 1) && IsMat(lr, r - 1, c) && j < r && i < c
  {
    var third := 1.0 / 3.0;
    // corners
    if j == 0 && i == 0 then Scale(0.5, Add(lr[0][0], ud[0][0]))
    else if j == 0 && i == c - 1 then Scale(0.5, Add(lr[0][c - 1], ud[0][c - 2]))
    else if j == r - 1 && i == 0 then Scale(0.5, Add(lr[r - 2][0], ud[r - 1][0]))
    else if j == r - 1 && i == c - 1 then Scale(0.5, Add(lr[r - 2][c - 1], ud[r - 1][c - 2]))
    // edges
    else if j == 0 then Scale(third, Add(Add(lr[0][i], ud[0][i]), ud[0][i - 1]))
    else if j == r - 1 then Scale(third, Add(Add(lr[r - 2][i], ud[r - 1][i]), ud[r - 1][i - 1]))
    else if i == 0 then Scale(third, Add(Add(ud[j][0], lr[j][0]), lr[j - 1][0]))
    else if i == c - 1 then Scale(third, Add(Add(ud[j][c - 2], lr[j][c - 1]), lr[j - 1][c - 1]))
    // domain centre
    else Scale(0.25, Add(Add(Add(ud[j][i], ud[j][i - 1]), lr[j][i]), lr[j - 1][i]))
  }

  /** Every vertex angle is the mean of exactly the edge angles that meet
      at that vertex. */
  lemma AngleIsMeanOfTouchingEdges(ud: seq<seq<Val>>, lr: seq<seq<Val>>, r: nat, c: nat)
    requires 2 <= r && 2 <= c && IsMat(ud, r, c - 1) && IsMat(lr, r - 1, c)
    ensures forall j, i {:trigger AngleFromEdges(ud, lr, r, c)[j][i]} :: 0 <= j < r && 0 <= i < c ==>
      AngleFromEdges(ud, lr, r, c)[j][i] == MeanVals(Touching(ud, lr, r, c, j, i))
  {
    forall j, i | 0 <= j < r && 0 <= i < c
      ensures AngleFromEdges(ud, lr, r, c)[j][i] == MeanVals(Touching(ud, lr, r, c, j, i))
    {
      AngleAtIsMean(ud, lr, r, c, j, i);
    }
  }

  lemma AngleAtIsMean(ud: seq<seq<Val>>, lr: seq<seq<Val>>, r: nat, c: nat, j: nat, i: nat)
    requires 2 <= r && 2 <= c && IsMat(ud, r, c - 1) && IsMat(lr, r - 1, c) && j < r && i < c
    ensures AngleAt(ud, lr, r, c, j, i) == MeanVals(Touching(ud, lr, r, c, j, i))
  {
    var t := Touching(ud, lr, r, c, j, i);
    if (j == 0 || j == r - 1) && (i == 0 || i == c - 1) {
      var u, l := ud[j][if i == 0 then 0 else c - 2], lr[if j == 0 then 0 else r - 2][i];
      assert t == [u, l];
      MeanTwo(u, l);
    } else if j == 0 || j == r - 1 {
      var u0, u1, l := ud[j][i - 1], ud[j][i], lr[if j == 0 then 0 else r - 2][i];
      assert t == [u0, u1, l];
      MeanThreeRow(u0, u1, l);
    } else if i == 0 || i == c - 1 {
      var u, l0, l1 := ud[j][if i == 0 then 0 else c - 2], lr[j - 1][i], lr[j][i];
      assert t == [u, l0, l1];
      MeanThreeCol(u, l0, l1);
    } else {
      var u0, u1, l0, l1 := ud[j][i - 1], ud[j][i], lr[j - 1][i], lr[j][i];
      assert t == [u0, u1, l0, l1];
      MeanFour(u0, u1, l0, l1);
    }
  }

  // The means over two, three and four edges, in the order the source adds them.

  lemma MeanTwo(u: Val, l: Val)
    ensures MeanVals([u, l]) == Scale(0.5, Add(l, u))
  {
    SumTwo(u, l);
  }

  lemma MeanThreeRow(u0: Val, u1: Val, l: Val)
    ensures MeanVals([u0, u1, l]) == Scale(1.0 / 3.0, Add(Add(l, u1), u0))
  {
    SumThree(u0, u1, l);
  }

  lemma MeanThreeCol(u: Val, l0: Val, l1: Val)
    ensures MeanVals([u, l0, l1]) == Scale(1.0 / 3.0, Add(Add(u, l1), l0))
  {
    SumThree(u, l0, l1);
  }

  lemma MeanFour(u0: Val, u1: Val, l0: Val, l1: Val)
    ensures MeanVals([u0, u1, l0, l1]) == Scale(0.25, Add(Add(Add(u1, u0), l1), l0))
  {
    SumFour(u0, u1, l0, l1);
  }

  lemma SumOne(a: Val)
    ensures SumVals([a]) == a
  {
    assert [a][..0] == [];
    if a.Num? {
      assert Add(Num(0.0), a) == Num(a.v);
    }
  }

  lemma SumTwo(a: Val, b: Val)
    ensures SumVals([a, b]) == Add(a, b)
  {
    assert [a, b][..1] == [a];
    SumOne(a);
  }

  lemma SumThree(a: Val, b: Val, c: Val)
    ensures SumVals([a, b, c]) == Add(Add(a, b), c)
  {
    assert [a, b, c][..2] == [a, b];
    SumTwo(a, b);
  }

  lemma SumFour(a: Val, b: Val, c: Val, d: Val)
    ensures SumVals([a, b, c, d]) == Add(Add(Add(a, b), c), d)
  {
    assert [a, b, c, d][..3] == [a, b, c];
    SumThree(a, b, c);
  }

  /** If every edge angle is the same, so is every vertex angle. */
  lemma ConstantEdgeAnglesGiveConstantField(ud: seq<seq<Val>>, lr: seq<seq<Val>>, r: nat, c: nat, k: real)
    requires 2 <= r && 2 <= c && IsMat(ud, r, c - 1) && IsMat(lr, r - 1, c)
    requires forall j, i :: 0 <= j < r && 0 <= i < c - 1 ==> ud[j][i] == Num(k)
    requires forall j, i :: 0 <= j < r - 1 && 0 <= i < c ==> lr[j][i] == Num(k)
    ensures forall j, i {:trigger AngleFromEdges(ud, lr, r, c)[j][i]} :: 0 <= j < r && 0 <= i < c ==>
      AngleFromEdges(ud, lr, r, c)[j][i] == Num(k)
  {
    forall j, i | 0 <= j < r && 0 <= i < c ensures AngleFromEdges(ud, lr, r, c)[j][i] == Num(k) {
      assert AngleFromEdges(ud, lr, r, c)[j][i] == AngleAt(ud, lr, r, c, j, i);
    }
  }

  /** The angle property: an IndexError unless the grid has at least two
      vertex rows and two vertex columns. */
  function Angle(num: Numerics, x: seq<seq<Val>>, y: seq<seq<Val>>, r: nat, c: nat): (a: Result<seq<seq<Val>>>)
    requires IsMat(x, r, c) && IsMat(y, r, c)
    ensures a.Ok? <==> 2 <= r && 2 <= c
    ensures a.Err? ==> a.error == IndexOutOfRange
    ensures a.Ok? ==> IsMat(a.value, r, c)
  {
    if r < 2 || c < 2 then Err(IndexOutOfRange)
    else Ok(AngleFromEdges(AngleUD(num, x, y, r, c), AngleLR(num, x, y, r, c), r, c))
  }

  /** Shifting the whole grid leaves every edge angle, hence the angle
      field, unchanged. */
  lemma AngleTranslationInvariant(num: Numerics, x: seq<seq<Val>>, y: seq<seq<Val>>, r: nat, c: nat, a: real, b: real)
    requires IsMat(x, r, c) && IsMat(y, r, c)
    ensures Angle(num, Translate(x, r, c, a), Translate(y, r, c, b), r, c) == Angle(num, x, y, r, c)
  {
    EdgeAnglesShift(num, x, y, r, c, a, b);
  }

  lemma EdgeAnglesShift(num: Numerics, x: seq<seq<Val>>, y: seq<seq<Val>>, r: nat, c: nat, a: real, b: real)
    requires IsMat(x, r, c) && IsMat(y, r, c)
    ensures AngleUD(num, Translate(x, r, c, a), Translate(y, r, c, b), r, c) == AngleUD(num, x, y, r, c)
    ensures AngleLR(num, Translate(x, r, c, a), Translate(y, r, c, b), r, c) == AngleLR(num, x, y, r, c)
  {
    UDShift(num, x, y, r, c, a, b);
    LRShift(num, x, y, r, c, a, b);
  }

  lemma UDShift(num: Numerics, x: seq<seq<Val>>, y: seq<seq<Val>>, r: nat, c: nat, a: real, b: real)
    requires IsMat(x, r, c) && IsMat(y, r, c)
    ensures AngleUD(num, Translate(x, r, c, a), Translate(y, r, c, b), r, c) == AngleUD(num, x, y, r, c)
  {
    var x', y' := Translate(x, r, c, a), Translate(y, r, c, b);
    var ud', ud := AngleUD(num, x', y', r, c), AngleUD(num, x, y, r, c);
    forall j | 0 <= j < r ensures ud'[j] == ud[j] {
      forall i | 0 <= i < Pred(c) ensures ud'[j][i] == ud[j][i] {
        UDAt(num, x', y', r, c, j, i);
        UDAt(num, x, y, r, c, j, i);
        EdgeAngleShift(num, x, y, r, c, a, b, j, i, j, i + 1);
      }
    }
  }

  lemma LRShift(num: Numerics, x: seq<seq<Val>>, y: seq<seq<Val>>, r: nat, c: nat, a: real, b: real)
    requires IsMat(x, r, c) && IsMat(y, r, c)
    ensures AngleLR(num, Translate(x, r, c, a), Translate(y, r, c, b), r, c) == AngleLR(num, x, y, r, c)
  {
    var x', y' := Translate(x, r, c, a), Translate(y, r, c, b);
    var lr', lr := AngleLR(num, x', y', r, c), AngleLR(num, x, y, r, c);
    forall j | 0 <= j < Pred(r) ensures lr'[j] == lr[j] {
      forall i | 0 <= i < c ensures lr'[j][i] == lr[j][i] {
        var t', t := Atan2(num, Sub(y'[j + 1][i], y'[j][i]), Sub(x'[j + 1][i], x'[j][i])),
                     Atan2(num, Sub(y[j + 1][i], y[j][i]), Sub(x[j + 1][i], x[j][i]));
        assert t' == t by {
          EdgeAngleShift(num, x, y, r, c, a, b, j, i, j + 1, i);
        }
        LRAt(num, x', y', r, c, j, i);
        LRAt(num, x, y, r, c, j, i);
      }
    }
  }

  lemma UDAt(num: Numerics, x: seq<seq<Val>>, y: seq<seq<Val>>, r: nat, c: nat, j: nat, i: nat)
    requires IsMat(x, r, c) && IsMat(y, r, c) && j < r && i < Pred(c)
    ensures AngleUD(num, x, y, r, c)[j][i] == Atan2(num, Sub(y[j][i + 1], y[j][i]), Sub(x[j][i + 1], x[j][i]))
  {
  }

  lemma LRAt(num: Numerics, x: seq<seq<Val>>, y: seq<seq<Val>>, r: nat, c: nat, j: nat, i: nat)
    requires IsMat(x, r, c) && IsMat(y, r, c) && j < Pred(r) && i < c
    ensures AngleLR(num, x, y, r, c)[j][i] == Shift(Atan2(num, Sub(y[j + 1][i], y[j][i]), Sub(x[j + 1][i], x[j][i])), -(Pi / 2.0))
  {
  }

  /** The angle of the edge from vertex (j0, i0) to vertex (j1, i1) does
      not change when the grid is translated. */
  lemma EdgeAngleShift(num: Numerics, x: seq<seq<Val>>, y: seq<seq<Val>>, r: nat, c: nat, a: real, b: real,
                       j0: nat, i0: nat, j1: nat, i1: nat)
    requires IsMat(x, r, c) && IsMat(y, r, c) && j0 < r && j1 < r && i0 < c && i1 < c
    ensures var x', y' := Translate(x, r, c, a), Translate(y, r, c, b);
      Atan2(num, Sub(y'[j1][i1], y'[j0][i0]), Sub(x'[j1][i1], x'[j0][i0])) ==
      Atan2(num, Sub(y[j1][i1], y[j0][i0]), Sub(x[j1][i1], x[j0][i0]))
  {
    SubShift(y[j1][i1], y[j0][i0], b);
    SubShift(x[j1][i1], x[j0][i0], a);
  }
}
