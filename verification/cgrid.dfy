/** The CGrid object: construction from vertex coordinates, the lazily
    cached cell mask and its setter, and masking of the cells whose
    centres fall inside a polygon (grid.py, class CGrid). */
module Grid {
  import opened Results
  import opened Arrays
  import opened Stagger
  import opened Masks

  /** A CGrid: rows-by-cols vertex coordinates and the cached cell mask,
      which stays None until mask_rho is first read. */
  datatype CGrid = CGrid(rows: nat, cols: nat, x: seq<seq<Val>>, y: seq<seq<Val>>, maskRho: Option<seq<seq<real>>>)
  {
    predicate Valid() {
      IsMat(x, rows, cols) && IsMat(y, rows, cols) &&
      (maskRho.Some? ==> IsMat(maskRho.value, Pred(rows), Pred(cols)))
    }
  }

  // ---------------------------------------------------------------------
  // Construction.

  function ToVal(c: Coord): (v: Val)
    ensures v.Num? <==> c.Finite?
    ensures v.Num? ==> v.v == c.v
  {
    if c.Finite? then Num(c.v) else Masked
  }

  /** `numpy.any(numpy.isnan(a))`: some NaN that no mask hides. */
  predicate HasNaN(a: seq<Coord>) {
    exists k :: 0 <= k < |a| && a[k].NotANumber?
  }

  /** One coordinate array after the constructor's NaN step: when `merge`
      holds, every position that is invalid in either array is masked. */
  function Merge(a: seq<seq<Coord>>, b: seq<seq<Coord>>, r: nat, c: nat, merge: bool): (m: seq<seq<Val>>)
    requires IsMat(a, r, c) && IsMat(b, r, c)
    ensures IsMat(m, r, c)
    ensures forall j, i {:trigger m[j][i]} :: 0 <= j < r && 0 <= i < c ==>
      (m[j][i].Num? <==> a[j][i].Finite? && (merge ==> b[j][i].Finite?)) &&
      (m[j][i].Num? ==> m[j][i].v == a[j][i].v)
  {
    seq(r, j requires 0 <= j < r =>
      seq(c, i requires 0 <= i < c =>
        if merge && !b[j][i].Finite? then Masked else ToVal(a[j][i])))
  }

  /** `CGrid(x, y)`. Rejects the input unless both arrays are 2-D with the
      same shape; a visible NaN anywhere masks both coordinates wherever
      either one is NaN or masked, and otherwise the arrays are kept. */
  function New(x: NdArray<Coord>, y: NdArray<Coord>): (g: Result<CGrid>)
    requires x.WellFormed() && y.WellFormed()
    ensures g.Ok? <==> x.Ndim() == 2 && y.Ndim() == 2 && x.shape == y.shape
    ensures g.Err? ==> IsValueError(g.error)
    ensures g.Err? ==> (g.error == NotTwoDimensional <==> x.Ndim() != 2 && y.Ndim() != 2)
    ensures g.Err? ==> (g.error == ShapeMismatch <==> (x.Ndim() == 2 || y.Ndim() == 2))
    ensures g.Ok? ==> (g.value.Valid() && g.value.maskRho.None? &&
      g.value.rows == x.shape[0] && g.value.cols == x.shape[1])
    ensures g.Ok? && (HasNaN(x.flat) || HasNaN(y.flat)) ==>
      forall j, i {:trigger g.value.x[j][i]} {:trigger g.value.y[j][i]} :: 0 <= j < g.value.rows && 0 <= i < g.value.cols ==>
        (g.value.x[j][i].Num? <==> x.AsMatrix()[j][i].Finite? && y.AsMatrix()[j][i].Finite?) &&
        (g.value.y[j][i].Num? <==> x.AsMatrix()[j][i].Finite? && y.AsMatrix()[j][i].Finite?) &&
        (g.value.x[j][i].Num? ==> g.value.x[j][i].v == x.AsMatrix()[j][i].v && g.value.y[j][i].v == y.AsMatrix()[j][i].v)
    ensures g.Ok? && !HasNaN(x.flat) && !HasNaN(y.flat) ==>
      forall j, i {:trigger g.value.x[j][i]} {:trigger g.value.y[j][i]} :: 0 <= j < g.value.rows && 0 <= i < g.value.cols ==>
        g.value.x[j][i] == ToVal(x.AsMatrix()[j][i]) && g.value.y[j][i] == ToVal(y.AsMatrix()[j][i])
  {
    if x.Ndim() != 2 && y.Ndim() != 2 then Err(NotTwoDimensional)
    else if x.shape != y.shape then Err(ShapeMismatch)
    else
      var r, c := x.shape[0], x.shape[1];
      var xm, ym := x.AsMatrix(), y.AsMatrix();
      var merge := HasNaN(x.flat) || HasNaN(y.flat);
      var gx, gy := Merge(xm, ym, r, c, merge), Merge(ym, xm, r, c, merge);
      assert forall j, i {:trigger gx[j][i]} :: 0 <= j < r && 0 <= i < c && !merge ==> gx[j][i] == ToVal(xm[j][i]);
      assert forall j, i {:trigger gy[j][i]} :: 0 <= j < r && 0 <= i < c && !merge ==> gy[j][i] == ToVal(ym[j][i]);
      Ok(CGrid(r, c, gx, gy, None))
  }

  /** Without a visible NaN, a NaN-free input keeps its own masks: the two
      coordinate arrays may then disagree about which vertices exist. */
  lemma NoNaNKeepsSeparateMasks()
    ensures var g := New(NdArray([1, 1], [MaskedOut]), NdArray([1, 1], [Finite(0.0)]));
      g.Ok? && g.value.x[0][0].Masked? && g.value.y[0][0] == Num(0.0)
  {
    var x, y := NdArray([1, 1], [MaskedOut]), NdArray([1, 1], [Finite(0.0)]);
    ProductOfPair(x.shape);
    assert !HasNaN(x.flat) && !HasNaN(y.flat);
    assert x.AsMatrix()[0][0] == MaskedOut && y.AsMatrix()[0][0] == Finite(0.0);
  }

  /** With a NaN in y alone, the x coordinate is masked there too. */
  lemma NaNInEitherMasksBoth()
    ensures var g := New(NdArray([1, 2], [Finite(1.0), Finite(2.0)]), NdArray([1, 2], [NotANumber, Finite(0.0)]));
      g.Ok? && g.value.x[0][0].Masked? && g.value.y[0][0].Masked? &&
      g.value.x[0][1] == Num(2.0) && g.value.y[0][1] == Num(0.0)
  {
    var x, y := NdArray([1, 2], [Finite(1.0), Finite(2.0)]), NdArray([1, 2], [NotANumber, Finite(0.0)]);
    ProductOfPair(x.shape);
    assert HasNaN(y.flat) by { assert y.flat[0].NotANumber?; }
    assert x.AsMatrix()[0][0] == Finite(1.0) && y.AsMatrix()[0][0] == NotANumber;
    assert x.AsMatrix()[0][1] == Finite(2.0) && y.AsMatrix()[0][1] == Finite(0.0);
  }

  // ---------------------------------------------------------------------
  // The cached cell mask.

  /** Reading mask_rho: the cached mask if there is one; otherwise the mask
      built from vertex validity, which is then cached. An empty vertex
      axis makes numpy.ones fail on a negative dimension. */
  function MaskRho(g: CGrid): (res: Result<(seq<seq<real>>, CGrid)>)
    requires g.Valid()
    ensures res.Err? <==> g.maskRho.None? && (g.rows == 0 || g.cols == 0)
    ensures res.Err? ==> res.error == NegativeDimensions
    ensures res.Ok? ==> (IsMat(res.value.0, Pred(g.rows), Pred(g.cols)) && res.value.1.Valid() &&
      res.value.1 == g.(maskRho := Some(res.value.0)))
    ensures res.Ok? && g.maskRho.Some? ==> res.value.0 == g.maskRho.value
    ensures res.Ok? && g.maskRho.None? ==> (IsBinary(res.value.0) &&
      forall j, i {:trigger res.value.0[j][i]} :: 0 <= j < g.rows - 1 && 0 <= i < g.cols - 1 ==>
        (res.value.0[j][i] == 1.0 <==> CornersValid(g.x, g.rows, g.cols, j, i) && CornersValid(g.y, g.rows, g.cols, j, i)))
  {
    if g.maskRho.Some? then Ok((g.maskRho.value, g))
    else if g.rows == 0 || g.cols == 0 then Err(NegativeDimensions)
    else
      var m := MaskRhoFromVertices(g.x, g.y, g.rows, g.cols);
      Ok((m, g.(maskRho := Some(m))))
  }

  /** Reading the mask twice gives the same mask and leaves the grid as the
      first read left it. */
  lemma MaskRhoIdempotent(g: CGrid)
    requires g.Valid() && MaskRho(g).Ok?
    ensures MaskRho(MaskRho(g).value.1) == MaskRho(g)
  {
  }

  /** Assigning mask_rho: it fails before the first read (the cached value
      is still None), and for an array whose shape differs from the cached
      one. Nothing is re-derived from the vertices: a successful assignment
      is what the next read returns. */
  function SetMaskRho(g: CGrid, value: NdArray<real>): (res: Result<CGrid>)
    requires g.Valid() && value.WellFormed()
    ensures res.Ok? <==> g.maskRho.Some? && value.shape == [Pred(g.rows), Pred(g.cols)]
    ensures res.Err? ==> (res.error == MaskNotYetRead <==> g.maskRho.None?)
    ensures res.Err? && g.maskRho.Some? ==> res.error == ShapeMismatch
    ensures res.Ok? ==> (res.value.Valid() && res.value.x == g.x && res.value.y == g.y &&
      res.value.rows == g.rows && res.value.cols == g.cols && res.value.maskRho == Some(value.AsMatrix()) &&
      MaskRho(res.value) == Ok((value.AsMatrix(), res.value)))
  {
    if g.maskRho.None? then Err(MaskNotYetRead)
    else if value.shape != [Pred(g.rows), Pred(g.cols)] then Err(ShapeMismatch)
    else Ok(g.(maskRho := Some(value.AsMatrix())))
  }

  /** Reading the mask and assigning it back changes nothing. */
  lemma SetWhatWasRead(g: CGrid)
    requires g.Valid() && MaskRho(g).Ok?
    ensures var (m, g') := MaskRho(g).value;
      SetMaskRho(g', FromMatrix(m, Pred(g.rows), Pred(g.cols))) == Ok(g')
  {
  }

  /** The setter does not re-apply vertex validity: a cell with a missing
      corner reads back as wet after a mask of ones is assigned. */
  lemma SetterIgnoresVertexValidity()
    ensures var g := CGrid(2, 2, [[Masked, Num(1.0)], [Num(0.0), Num(1.0)]], [[Num(0.0), Num(0.0)], [Num(1.0), Num(1.0)]], None);
      MaskRho(g).Ok? && MaskRho(g).value.0 == [[0.0]] &&
      SetMaskRho(MaskRho(g).value.1, NdArray([1, 1], [1.0])).Ok? &&
      MaskRho(SetMaskRho(MaskRho(g).value.1, NdArray([1, 1], [1.0])).value).value.0 == [[1.0]]
  {
    var g := CGrid(2, 2, [[Masked, Num(1.0)], [Num(0.0), Num(1.0)]], [[Num(0.0), Num(0.0)], [Num(1.0), Num(1.0)]], None);
    var m := MaskRho(g).value.0;
    assert !CornersValid(g.x, 2, 2, 0, 0);
    assert m[0][0] == 0.0;
    assert m[0] == [0.0];
    assert m == [[0.0]];
    var a := NdArray([1, 1], [1.0]);
    ProductOfPair(a.shape);
    assert a.AsMatrix()[0][0] == 1.0;
    assert a.AsMatrix()[0] == [1.0];
    assert a.AsMatrix() == [[1.0]];
  }

  /** When x and y agree on which vertices exist (always the case after a
      NaN was merged), a cell centre is invalid exactly where the freshly
      built cell mask is zero. */
  lemma RhoMaskedWhereMaskZero(g: CGrid)
    requires g.Valid() && g.maskRho.None? && 0 < g.rows && 0 < g.cols
    requires forall j, i :: 0 <= j < g.rows && 0 <= i < g.cols ==> (g.x[j][i].Num? <==> g.y[j][i].Num?)
    ensures MaskRho(g).Ok?
    ensures forall j, i {:trigger RhoPoints(g.x, g.rows, g.cols)[j][i]} :: 0 <= j < g.rows - 1 && 0 <= i < g.cols - 1 ==>
      (RhoPoints(g.x, g.rows, g.cols)[j][i].Masked? <==> MaskRho(g).value.0[j][i] == 0.0) &&
      (RhoPoints(g.y, g.rows, g.cols)[j][i].Masked? <==> MaskRho(g).value.0[j][i] == 0.0)
  {
    var m := MaskRho(g).value.0;
    var rx: seq<seq<Val>>, ry: seq<seq<Val>> := RhoPoints(g.x, g.rows, g.cols), RhoPoints(g.y, g.rows, g.cols);
    forall j, i | 0 <= j < g.rows - 1 && 0 <= i < g.cols - 1
      ensures (rx[j][i].Masked? <==> m[j][i] == 0.0) && (ry[j][i].Masked? <==> m[j][i] == 0.0)
    {
      assert CornersValid(g.x, g.rows, g.cols, j, i) == CornersValid(g.y, g.rows, g.cols, j, i) by {
        assert g.x[j][i].Num? <==> g.y[j][i].Num?;
        assert g.x[j + 1][i].Num? <==> g.y[j + 1][i].Num?;
        assert g.x[j][i + 1].Num? <==> g.y[j][i + 1].Num?;
        assert g.x[j + 1][i + 1].Num? <==> g.y[j + 1][i + 1].Num?;
      }
      assert m[j][i] == 1.0 <==> CornersValid(g.x, g.rows, g.cols, j, i);
    }
  }

  /** A u-point on an edge with an invalid end lies between two cells that
      are both dry, so the u-mask is zero there; likewise for v-points. */
  lemma SubMasksZeroAtInvalidPoints(g: CGrid)
    requires g.Valid() && g.maskRho.None? && 0 < g.rows && 0 < g.cols
    ensures MaskRho(g).Ok?
    ensures forall j, i {:trigger UPoints(g.x, g.rows, g.cols)[j][i]} :: 0 <= j < g.rows - 1 && 0 <= i < Inner(g.cols) ==>
      UPoints(g.x, g.rows, g.cols)[j][i].Masked? ==> MaskU(MaskRho(g).value.0, g.rows - 1, g.cols - 1)[j][i] == 0.0
    ensures forall j, i {:trigger VPoints(g.x, g.rows, g.cols)[j][i]} :: 0 <= j < Inner(g.rows) && 0 <= i < g.cols - 1 ==>
      VPoints(g.x, g.rows, g.cols)[j][i].Masked? ==> MaskV(MaskRho(g).value.0, g.rows - 1, g.cols - 1)[j][i] == 0.0
  {
    var m := MaskRho(g).value.0;
    var u := MaskU(m, g.rows - 1, g.cols - 1);
    var v := MaskV(m, g.rows - 1, g.cols - 1);
    forall j, i | 0 <= j < g.rows - 1 && 0 <= i < Inner(g.cols) && UPoints(g.x, g.rows, g.cols)[j][i].Masked?
      ensures u[j][i] == 0.0
    {
      assert !CornersValid(g.x, g.rows, g.cols, j, i);
      assert m[j][i] == 0.0;
    }
    forall j, i | 0 <= j < Inner(g.rows) && 0 <= i < g.cols - 1 && VPoints(g.x, g.rows, g.cols)[j][i].Masked?
      ensures v[j][i] == 0.0
    {
      assert !CornersValid(g.x, g.rows, g.cols, j, i);
      assert m[j][i] == 0.0;
    }
  }

  // ---------------------------------------------------------------------
  // Polygon masking.

  /** The polygon's vertices: a 2-D array of at least three rows of two
      columns. */
  function Polygon(pv: NdArray<real>): (res: Result<seq<(real, real)>>)
    requires pv.WellFormed()
    ensures res.Err? <==> pv.Ndim() != 2 || pv.shape[1] != 2 || pv.shape[0] < 3
    ensures res.Err? ==> res.error == (if pv.Ndim() != 2 then PolygonNotTwoDimensional
                                       else if pv.shape[1] != 2 then PolygonNotTwoColumns
                                       else PolygonTooFewPoints)
    ensures res.Ok? ==> (|res.value| == pv.shape[0] &&
      forall k {:trigger res.value[k]} :: 0 <= k < |res.value| ==> res.value[k] == (pv.AsMatrix()[k][0], pv.AsMatrix()[k][1]))
  {
    if pv.Ndim() != 2 then Err(PolygonNotTwoDimensional)
    else if pv.shape[1] != 2 then Err(PolygonNotTwoColumns)
    else if pv.shape[0] < 3 then Err(PolygonTooFewPoints)
    else
      var m := pv.AsMatrix();
      Ok(seq(pv.shape[0], k requires 0 <= k < pv.shape[0] => (m[k][0], m[k][1])))
  }

  /** Point-in-polygon test. It is handed a cell centre as it stands in
      the masked arrays; what it answers for a masked centre is left open. */
  type Contains = (seq<(real, real)>, (Val, Val)) -> bool

  /** For each cell in row-major order, whether the polygon contains its
      centre. */
  function Hits(g: CGrid, poly: seq<(real, real)>, contains: Contains): (h: seq<bool>)
    requires g.Valid()
    ensures |h| == Pred(g.rows) * Pred(g.cols)
    ensures forall j, i {:trigger FlatIndex(j, i, Pred(g.cols))} :: 0 <= j < Pred(g.rows) && 0 <= i < Pred(g.cols) ==>
      FlatIndex(j, i, Pred(g.cols)) < |h| &&
      h[FlatIndex(j, i, Pred(g.cols))] == CentreInside(g, poly, contains, j, i)
  {
    var r, c := Pred(g.rows), Pred(g.cols);
    var m := seq(r, j requires 0 <= j < r => seq(c, i requires 0 <= i < c => CentreInside(g, poly, contains, j, i)));
    var h := Flatten(m, r, c);
    forall j, i | 0 <= j < r && 0 <= i < c
      ensures FlatIndex(j, i, c) < |h| && h[FlatIndex(j, i, c)] == CentreInside(g, poly, contains, j, i)
    {
      FlattenAt(m, r, c, j, i);
    }
    h
  }

  predicate CentreInside(g: CGrid, poly: seq<(real, real)>, contains: Contains, j: nat, i: nat)
    requires g.Valid() && j < Pred(g.rows) && i < Pred(g.cols)
  {
    contains(poly, (RhoPoints(g.x, g.rows, g.cols)[j][i], RhoPoints(g.y, g.rows, g.cols)[j][i]))
  }

  /** `_points_inside_poly`: the indices of the points found inside, in
      increasing order. */
  function InsideIndices(hits: seq<bool>): (ks: seq<nat>)
    ensures forall k: nat :: k in ks <==> k < |hits| && hits[k]
    ensures forall a, b :: 0 <= a < b < |ks| ==> ks[a] < ks[b]
  {
    if |hits| == 0 then []
    else
      var n := |hits| - 1;
      var front := InsideIndices(hits[..n]);
      assert forall a :: 0 <= a < |front| ==> front[a] < n by {
        forall a | 0 <= a < |front| ensures front[a] < n {
          assert front[a] in front;
        }
      }
      front + (if hits[n] then [n] else [])
  }

  /** `numpy.any` of a list of indices: true when some index is non-zero. */
  predicate AnyNonzero(ks: seq<nat>) {
    exists a :: 0 <= a < |ks| && ks[a] != 0
  }

  /** `mask.flat[ks] = v` on an r-by-c mask. */
  function WriteFlat(m: seq<seq<real>>, r: nat, c: nat, ks: seq<nat>, v: real): (o: seq<seq<real>>)
    requires IsMat(m, r, c)
    ensures IsMat(o, r, c)
  {
    seq(r, j requires 0 <= j < r =>
      seq(c, i requires 0 <= i < c => if FlatIndex(j, i, c) in ks then v else m[j][i]))
  }

  function MaskNumber(b: bool): real {
    if b then 1.0 else 0.0
  }

  /** The mask after the polygon edit: cells flagged by `write` get the
      new value, all others keep the mask they had. */
  function Edited(g: CGrid, m: seq<seq<real>>, poly: seq<(real, real)>, contains: Contains, v: bool, write: bool): (o: seq<seq<real>>)
    requires g.Valid() && IsMat(m, Pred(g.rows), Pred(g.cols))
    ensures IsMat(o, Pred(g.rows), Pred(g.cols))
    ensures forall j, i {:trigger o[j][i]} :: 0 <= j < Pred(g.rows) && 0 <= i < Pred(g.cols) ==>
      o[j][i] == if write && CentreInside(g, poly, contains, j, i) then MaskNumber(v) else m[j][i]
  {
    var r, c := Pred(g.rows), Pred(g.cols);
    var ks := InsideIndices(Hits(g, poly, contains));
    var o := if write then WriteFlat(m, r, c, ks, MaskNumber(v)) else m;
    assert forall j, i {:trigger o[j][i]} :: 0 <= j < r && 0 <= i < c ==>
      o[j][i] == if write && CentreInside(g, poly, contains, j, i) then MaskNumber(v) else m[j][i];
    o
  }

  /** `mask_polygon` as written: the edit is guarded by `numpy.any(inside)`,
      which is false when the only cell inside has flat index 0. */
  function MaskPolygonAsWritten(g: CGrid, pv: NdArray<real>, contains: Contains, maskValue: bool := false): (res: Result<CGrid>)
    requires g.Valid() && pv.WellFormed()
    ensures res.Ok? <==> Polygon(pv).Ok? && MaskRho(g).Ok?
    ensures res.Err? ==> res.error == (if Polygon(pv).Err? then Polygon(pv).error else NegativeDimensions)
    ensures res.Ok? ==> (res.value.Valid() && res.value.x == g.x && res.value.y == g.y &&
      res.value.rows == g.rows && res.value.cols == g.cols && res.value.maskRho.Some? &&
      var write := AnyNonzero(InsideIndices(Hits(g, Polygon(pv).value, contains)));
      forall j, i {:trigger res.value.maskRho.value[j][i]} :: 0 <= j < Pred(g.rows) && 0 <= i < Pred(g.cols) ==>
        res.value.maskRho.value[j][i] ==
          if write && CentreInside(g, Polygon(pv).value, contains, j, i) then MaskNumber(maskValue) else MaskRho(g).value.0[j][i])
  {
    var p := Polygon(pv);
    if p.Err? then Err(p.error)
    else
      var mr := MaskRho(g);
      if mr.Err? then Err(mr.error)
      else
        var write := AnyNonzero(InsideIndices(Hits(g, p.value, contains)));
        Store(g, mr.value.1, Edited(g, mr.value.0, p.value, contains, maskValue, write))
  }

  /** `self.mask_rho = mask` after the edit: the assignment always succeeds,
      because the edited mask has the shape of the one just read. */
  function Store(g: CGrid, g1: CGrid, m: seq<seq<real>>): (res: Result<CGrid>)
    requires g.Valid() && IsMat(m, Pred(g.rows), Pred(g.cols))
    requires g1 == g.(maskRho := g1.maskRho) && g1.maskRho.Some? && g1.Valid()
    ensures res.Ok? && res.value.Valid() && res.value == g.(maskRho := Some(m))
  {
    SetMaskRho(g1, FromMatrix(m, Pred(g.rows), Pred(g.cols)))
  }

  /** `mask_polygon` with the guard it evidently intends: every cell whose
      centre is inside the polygon gets the new value and every other cell
      keeps the value it had. */
  function MaskPolygon(g: CGrid, pv: NdArray<real>, contains: Contains, maskValue: bool := false): (res: Result<CGrid>)
    requires g.Valid() && pv.WellFormed()
    ensures res.Ok? <==> Polygon(pv).Ok? && MaskRho(g).Ok?
    ensures res.Err? ==> res.error == (if Polygon(pv).Err? then Polygon(pv).error else NegativeDimensions)
    ensures res.Ok? ==> (res.value.Valid() && res.value.x == g.x && res.value.y == g.y &&
      res.value.rows == g.rows && res.value.cols == g.cols && res.value.maskRho.Some? &&
      forall j, i {:trigger res.value.maskRho.value[j][i]} :: 0 <= j < Pred(g.rows) && 0 <= i < Pred(g.cols) ==>
        res.value.maskRho.value[j][i] ==
          if CentreInside(g, Polygon(pv).value, contains, j, i) then MaskNumber(maskValue) else MaskRho(g).value.0[j][i])
  {
    var p := Polygon(pv);
    if p.Err? then Err(p.error)
    else
      var mr := MaskRho(g);
      if mr.Err? then Err(mr.error)
      else Store(g, mr.value.1, Edited(g, mr.value.0, p.value, contains, maskValue, true))
  }

  /** With no cell inside, the guarded and the unguarded edit coincide. */
  lemma EditedWithNothingInside(g: CGrid, m: seq<seq<real>>, poly: seq<(real, real)>, contains: Contains, v: bool)
    requires g.Valid() && IsMat(m, Pred(g.rows), Pred(g.cols))
    requires InsideIndices(Hits(g, poly, contains)) == []
    ensures Edited(g, m, poly, contains, v, false) == Edited(g, m, poly, contains, v, true)
  {
    var a, b := Edited(g, m, poly, contains, v, false), Edited(g, m, poly, contains, v, true);
    var h := Hits(g, poly, contains);
    forall j | 0 <= j < Pred(g.rows) ensures a[j] == b[j] {
      forall i | 0 <= i < Pred(g.cols) ensures a[j][i] == b[j][i] {
        assert h[FlatIndex(j, i, Pred(g.cols))] == CentreInside(g, poly, contains, j, i);
        assert FlatIndex(j, i, Pred(g.cols)) !in InsideIndices(h);
      }
    }
  }

  /** `numpy.any` is false on a strictly increasing index list exactly
      when the list is empty or holds the single index 0. */
  lemma AnyNonzeroOfIncreasing(ks: seq<nat>)
    requires forall a, b :: 0 <= a < b < |ks| ==> ks[a] < ks[b]
    ensures AnyNonzero(ks) <==> !(ks == [] || ks == [0])
  {
    if |ks| > 1 {
      assert ks[0] < ks[1];
      assert ks[1] != 0;
    } else if |ks| == 1 {
      assert ks == [ks[0]];
    }
  }

  /** The guard only matters when the single cell inside is cell 0: in
      every other case the code as written and the intended edit agree. */
  lemma AsWrittenAgreesUnlessOnlyFirstCell(g: CGrid, pv: NdArray<real>, contains: Contains, maskValue: bool)
    requires g.Valid() && pv.WellFormed() && Polygon(pv).Ok?
    requires InsideIndices(Hits(g, Polygon(pv).value, contains)) != [0]
    ensures MaskPolygonAsWritten(g, pv, contains, maskValue) == MaskPolygon(g, pv, contains, maskValue)
  {
    var poly := Polygon(pv).value;
    var ks := InsideIndices(Hits(g, poly, contains));
    var mr := MaskRho(g);
    if mr.Ok? && !AnyNonzero(ks) {
      AnyNonzeroOfIncreasing(ks);
      EditedWithNothingInside(g, mr.value.0, poly, contains, maskValue);
    }
  }

  /** A grid of 2-by-2 vertices, hence one cell, all vertices valid. */
  function OneCell(): (g: CGrid)
    ensures g.Valid() && g.rows == 2 && g.cols == 2 && g.maskRho.None?
  {
    CGrid(2, 2, [[Num(0.0), Num(1.0)], [Num(0.0), Num(1.0)]], [[Num(0.0), Num(0.0)], [Num(1.0), Num(1.0)]], None)
  }

  /** A right triangle with legs of length 2 at the origin. */
  function Triangle(): (pv: NdArray<real>)
    ensures pv.WellFormed() && Polygon(pv).Ok?
  {
    var pv := NdArray([3, 2], [0.0, 0.0, 2.0, 0.0, 0.0, 2.0]);
    ProductOfPair(pv.shape);
    pv
  }

  /** A containment test that finds every point inside. */
  function Everywhere(poly: seq<(real, real)>, q: (Val, Val)): bool {
    true
  }

  lemma OneCellMask()
    ensures MaskRho(OneCell()).Ok? && MaskRho(OneCell()).value.0 == [[1.0]]
  {
    var g := OneCell();
    var m := MaskRho(g).value.0;
    assert CornersValid(g.x, 2, 2, 0, 0) && CornersValid(g.y, 2, 2, 0, 0);
    assert m[0][0] == 1.0;
    assert m[0] == [1.0];
  }

  lemma OneCellInside()
    ensures InsideIndices(Hits(OneCell(), Polygon(Triangle()).value, Everywhere)) == [0]
  {
    var h := Hits(OneCell(), Polygon(Triangle()).value, Everywhere);
    assert h[FlatIndex(0, 0, 1)];
    assert h == [true];
    assert [true][..0] == [];
  }

  /** The guard at work: one cell, its centre inside the polygon, and the
      mask value False. The code as written leaves the cell wet; the
      intended edit makes it dry. */
  lemma OnlyFirstCellInsideIsSkipped()
    ensures MaskPolygonAsWritten(OneCell(), Triangle(), Everywhere, false).Ok?
    ensures MaskPolygonAsWritten(OneCell(), Triangle(), Everywhere, false).value.maskRho == Some([[1.0]])
    ensures MaskPolygon(OneCell(), Triangle(), Everywhere, false).Ok?
    ensures MaskPolygon(OneCell(), Triangle(), Everywhere, false).value.maskRho == Some([[0.0]])
  {
    OneCellAsWritten();
    OneCellIntended();
  }

  lemma OneCellAsWritten()
    ensures MaskPolygonAsWritten(OneCell(), Triangle(), Everywhere, false).Ok?
    ensures MaskPolygonAsWritten(OneCell(), Triangle(), Everywhere, false).value.maskRho == Some([[1.0]])
  {
    var g, pv := OneCell(), Triangle();
    OneCellMask();
    OneCellInside();
    assert !AnyNonzero([0]);
    var a := MaskPolygonAsWritten(g, pv, Everywhere, false).value;
    assert a.Valid() && a.rows == 2 && a.cols == 2;
    assert a.maskRho.value[0][0] == 1.0;
    assert a.maskRho.value[0] == [1.0];
    assert a.maskRho.value == [[1.0]];
  }

  lemma OneCellIntended()
    ensures MaskPolygon(OneCell(), Triangle(), Everywhere, false).Ok?
    ensures MaskPolygon(OneCell(), Triangle(), Everywhere, false).value.maskRho == Some([[0.0]])
  {
    var g, pv := OneCell(), Triangle();
    OneCellMask();
    var b := MaskPolygon(g, pv, Everywhere, false).value;
    assert b.Valid() && b.rows == 2 && b.cols == 2;
    assert CentreInside(g, Polygon(pv).value, Everywhere, 0, 0);
    assert b.maskRho.value[0][0] == 0.0;
    assert b.maskRho.value[0] == [0.0];
    assert b.maskRho.value == [[0.0]];
  }

  /** Masking the same polygon twice has the effect of masking it once. */
  lemma MaskPolygonIdempotent(g: CGrid, pv: NdArray<real>, contains: Contains, maskValue: bool)
    requires g.Valid() && pv.WellFormed() && MaskPolygon(g, pv, contains, maskValue).Ok?
    ensures MaskPolygon(MaskPolygon(g, pv, contains, maskValue).value, pv, contains, maskValue) == MaskPolygon(g, pv, contains, maskValue)
  {
    var poly := Polygon(pv).value;
    var g1 := MaskPolygon(g, pv, contains, maskValue).value;
    var g2 := MaskPolygon(g1, pv, contains, maskValue).value;
    assert g1 == g.(maskRho := g1.maskRho);
    var m1, m2 := g1.maskRho.value, g2.maskRho.value;
    forall j | 0 <= j < Pred(g.rows) ensures m2[j] == m1[j] {
      forall i | 0 <= i < Pred(g.cols) ensures m2[j][i] == m1[j][i] {
        assert CentreInside(g1, poly, contains, j, i) == CentreInside(g, poly, contains, j, i);
      }
    }
    assert m2 == m1;
    assert g2 == g1;
  }

  /** A mask of zeros and ones stays a mask of zeros and ones. */
  lemma MaskPolygonKeepsBinary(g: CGrid, pv: NdArray<real>, contains: Contains, maskValue: bool)
    requires g.Valid() && pv.WellFormed() && MaskPolygon(g, pv, contains, maskValue).Ok?
    requires g.maskRho.Some? ==> IsBinary(g.maskRho.value)
    ensures IsBinary(MaskPolygon(g, pv, contains, maskValue).value.maskRho.value)
  {
    var m := MaskPolygon(g, pv, contains, maskValue).value.maskRho.value;
    var m0 := MaskRho(g).value.0;
    assert IsBinary(m0);
    forall j, i | 0 <= j < |m| && 0 <= i < |m[j]| ensures m[j][i] == 0.0 || m[j][i] == 1.0 {
      assert m[j][i] == MaskNumber(maskValue) || m[j][i] == m0[j][i];
    }
  }
}
