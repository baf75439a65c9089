# pygridgen core, modelled in Dafny

pygridgen builds curvilinear, orthogonal Arakawa C-grids for ocean models.
This project models the part of `pygridgen/grid.py` that works on indices and
does not call into the gridgen C library:

- **Focus** (module `Focus`): the `_FocusPoint` stretching function, built on
  the closed-form `_approximate_erf`, and the `Focus` container that applies
  its points one after another to flattened x/y coordinate lists.
- **Staggered points** (module `Stagger`): from an r-by-c vertex matrix, the
  cell centres (`x_rho`/`y_rho`), the u-, v- and psi-points.
- **Masks** (module `Masks`): the cell mask derived from vertex validity, the
  u-, v- and psi-masks as products of neighbouring cell masks, and the
  module-level `uvp_masks` with its argument checks.
- **Metrics** (module `Metrics`): cell widths `dx`/`dy`, their reciprocals
  `pm`/`pn`, the width gradients `dndx`/`dmde`, and the vertex `angle` field
  averaged from the edge angles.
- **The grid object** (module `Grid`): `CGrid.__init__` (dimension and shape
  checks, merging NaNs into one shared mask), the lazily cached `mask_rho`
  property with its setter, and `mask_polygon`.
- **Gridgen** (module `Gridgen`): the check that the turning angles `beta` of
  the boundary sum to 4 within `numpy.isclose`'s default tolerance.

numpy masked arrays are modelled entry by entry: `Arrays.Val` is a number or
a masked slot, and masked arithmetic masks a result when any operand is
masked. Input arrays are `Arrays.NdArray` (a shape plus row-major data), so
dimension and shape errors stay visible. Every `ValueError` of the source is
an `Err` of `Results.Result`, and the constructor names the message.
`numpy.sqrt`, `numpy.exp` and `numpy.arctan2` are parameters of type
`Arrays.Numerics`, together with the error function a focus point uses;
`Focus.WithApproximateErf` fills that in with pygridgen's `_approximate_erf`. Where a property needs anything of sqrt, `Arrays.SqrtLike`
states it (non-negative, and zero exactly at zero). Point-in-polygon
(`matplotlib.path.Path.contains_point`) is a `Grid.Contains` parameter.
Reals are exact, so no rounding is modelled.

## Model

| member | source | states |
|---|---|---|
| Focus.ParseAxis | pygridgen/grid.py:84-89 | the axis name is case-insensitive: it gives X exactly for "x"/"X", Y exactly for "y"/"Y", and nothing for any other string |
| Focus.NewFocusPoint | pygridgen/grid.py:79-89 | a point is built iff pos lies in [0, 1] and the axis is one of x/X/y/Y; a bad position is reported before a bad axis; the built point keeps pos, factor and extent |
| Focus.ErfAPositive | pygridgen/grid.py:21-42 | the constant `a` of the approximation is positive, so the denominator `1 + a x^2` never vanishes |
| Focus.ApproximateErf | pygridgen/grid.py:21-42 | the approximation is exactly 0 at 0, whatever exp is |
| Focus.ApproximateErfOdd | pygridgen/grid.py:21-42 | the approximation is an odd function: erf(-x) = -erf(x) |
| Focus.WithApproximateErf | pygridgen/grid.py:91-94 | the numerics a focus point runs with keep the given sqrt, exp and arctan2, and their error function, `_approximate_erf`, is odd and vanishes at 0 |
| Focus.Reposition | pygridgen/grid.py:91-94 | with factor 1 (alpha = 0) a point is not moved, whatever erf and sqrt return |
| Focus.DoFocus | pygridgen/grid.py:91-99 | a zero factor or extent is a division-by-zero error; on success the result has the input's length and maps 0 to 0 and 1 to 1 |
| Focus.DoFocusDegenerate | pygridgen/grid.py:96-99 | for a non-zero factor and extent, the renormalisation fails exactly when the stretched images of 0 and 1 coincide |
| Focus.Renormalise | pygridgen/grid.py:96-99 | the rescaling sends f0 to 0 and f1 to 1 |
| Focus.ApplyPoint | pygridgen/grid.py:101-114 | x outside [0, 1] is an x error; otherwise y outside [0, 1] is a y error; on success only the point's own axis changes, keeping its length and its end values 0 and 1 |
| Focus.FactorOneIsIdentity | pygridgen/grid.py:91-114 | a point with factor 1 leaves both coordinate lists unchanged |
| Focus.ApplyPoints | pygridgen/grid.py:191-195 | no points is the identity; the ends 0 and 1 stay put; points that are all on y leave x untouched and vice versa |
| Focus.AddFocus | pygridgen/grid.py:166-189 | adding succeeds exactly when the point is valid and then appends exactly that point, with factor 2.0 and extent 0.1 by default; otherwise it fails with the point's own error |
| Focus.ApplyAppended | pygridgen/grid.py:166-195 | applying a focus with one more point is applying the old focus and then the new point |
| Focus.ApplyConcatenated | pygridgen/grid.py:191-195 | applying the points of two lists in a row is the same as applying their concatenation |
| Focus.UnitFactorsAreIdentity | pygridgen/grid.py:191-195 | a focus whose every point has factor 1 leaves in-range coordinates unchanged |
| Focus.DifferentAxesCommute | pygridgen/grid.py:101-114 | an x point and a y point give the same result in either order |
| Focus.RepositionIncreasing | pygridgen/grid.py:91-94 | for a positive extent and factor, a monotone erf, and (when the factor exceeds 1) an erf rising no faster than 2/sqrt(pi), the repositioning is strictly increasing |
| Focus.DoFocusInUnit | pygridgen/grid.py:44-52 | under those conditions a point's transform of coordinates in [0, 1] succeeds and stays in [0, 1], as the class docstring promises |
| Focus.ApplyPointInUnit | pygridgen/grid.py:101-114 | under those conditions calling a point on in-range coordinates succeeds and returns in-range coordinates |
| Focus.ApplyPointsInUnit | pygridgen/grid.py:128-136 | a focus whose every point meets those conditions accepts coordinates in [0, 1], never fails, and returns coordinates in [0, 1], so each point passes the range check of the next |
| Focus.StretchableAxesCommute | pygridgen/grid.py:101-114 | an x point and a y point meeting those conditions commute on any in-range input, with no range assumption about their outputs |
| Stagger.RowMid | pygridgen/grid.py:418-419 | the midpoints between consecutive vertex rows have one row fewer and are valid iff both ends are |
| Stagger.ColMid | pygridgen/grid.py:432-433 | the midpoints between consecutive vertex columns have one column fewer and are valid iff both ends are |
| Stagger.RhoPoints | pygridgen/grid.py:293-309 | centres have shape (r-1, c-1); a centre is valid iff all four corners are |
| Stagger.UPoints | pygridgen/grid.py:348-360 | u-points have shape (r-1, c-2) and are valid iff both ends of their vertical edge are |
| Stagger.VPoints | pygridgen/grid.py:369-381 | v-points have shape (r-2, c-1) and are valid iff both ends of their horizontal edge are |
| Stagger.PsiPoints | pygridgen/grid.py:390-402 | psi-points are exactly the interior vertices |
| Stagger.RhoIsMeanOfEdgeMidpoints | pygridgen/grid.py:293-309 | each centre is the midpoint of its left and right edge midpoints, and also of its lower and upper ones |
| Stagger.UIsInteriorOfRowMid | pygridgen/grid.py:348-353 | the u-points are the interior columns of the edge midpoints that dx is measured between |
| Stagger.VIsInteriorOfColMid | pygridgen/grid.py:369-374 | the v-points are the interior rows of the edge midpoints that dy is measured between |
| Stagger.UBetweenPsi | pygridgen/grid.py:348-353 | an interior u-point is the midpoint of the psi-points above and below it |
| Stagger.VBetweenPsi | pygridgen/grid.py:369-374 | an interior v-point is the midpoint of the psi-points left and right of it |
| Masks.AndCornerValidityCommutes | pygridgen/grid.py:324-337 | clearing the cells with an invalid corner in x and then in y gives the same mask as doing it in y and then in x |
| Masks.AndCornerValidityIdempotent | pygridgen/grid.py:324-337 | clearing the cells with an invalid corner in the same array twice gives the mask that clearing once gives |
| Masks.MaskRhoFromVertices | pygridgen/grid.py:311-339 | a cell is 1 iff its four corners are valid in both x and y and 0 otherwise; all-valid vertices give all ones |
| Masks.MaskU | pygridgen/grid.py:362-367 | the u-mask is 0 wherever a cell beside the u-point is 0; for a binary cell mask it is binary and 1 iff both cells are 1 |
| Masks.MaskV | pygridgen/grid.py:383-388 | the v-mask is 0 wherever a cell beside the v-point is 0; for a binary cell mask it is binary and 1 iff both cells are 1 |
| Masks.MaskPsi | pygridgen/grid.py:404-411 | the psi-mask has shape (r-1, c-1) and is 0 wherever a cell around the psi-point is 0 |
| Masks.MaskPsiBinary | pygridgen/grid.py:404-411 | for a binary cell mask the psi-mask is binary, and 1 iff all four cells around the psi-point are 1 |
| Masks.MaskPsiFromUAndV | pygridgen/grid.py:362-411 | the psi-mask is the product of the two u-masks beside it, and equally of the two v-masks |
| Masks.UvpMasks | pygridgen/grid.py:1038-1065 | succeeds iff the mask is 2-D and binary, reporting the dimension before the contents; on success it gives the same u-, v- and psi-masks as the CGrid properties |
| Masks.SameProducts | pygridgen/grid.py:1061-1063 | the module-level products equal the property products, although the factors are written in a different order |
| Metrics.Hypot | pygridgen/grid.py:420 | the length of a displacement is valid iff both components are |
| Metrics.HypotProperties | pygridgen/grid.py:420 | with a sqrt that behaves like sqrt, a length is never negative and is 0 for a zero displacement |
| Metrics.Dx | pygridgen/grid.py:413-421 | widths have shape (r-1, c-1) and a width is valid iff the cell's four corners are valid in x and in y |
| Metrics.Dy | pygridgen/grid.py:427-435 | the same for the widths across rows |
| Metrics.DxIsDistance | pygridgen/grid.py:413-421 | every valid width is non-negative, and 0 where the two edge midpoints coincide |
| Metrics.DyIsTransposedDx | pygridgen/grid.py:413-435 | dy of a grid is dx of the transposed grid, transposed |
| Metrics.DyIsDistance | pygridgen/grid.py:427-435 | every valid height is non-negative |
| Metrics.DxTranslationInvariant | pygridgen/grid.py:413-421 | translating the whole grid leaves every width unchanged |
| Metrics.Reciprocal | pygridgen/grid.py:423-439 | pm and pn are valid iff the width is valid and nonzero, and then multiply with it to 1 |
| Metrics.Dndx | pygridgen/grid.py:441-449 | shape of the cells; 0 on the rim; an interior value is valid iff both neighbouring widths across columns are (the half-difference itself is stated by Metrics.DndxIsTransposedDmde and Metrics.DndxZeroForRowConstantWidths, not by this contract) |
| Metrics.Dmde | pygridgen/grid.py:451-459 | shape of the cells; 0 on the rim; an interior value is valid iff both neighbouring widths across rows are |
| Metrics.DndxIsTransposedDmde | pygridgen/grid.py:441-459 | dndx of a width field is dmde of its transpose, transposed |
| Metrics.DndxZeroForRowConstantWidths | pygridgen/grid.py:441-449 | widths that are constant along each row give a zero gradient everywhere |
| Metrics.AngleUD | pygridgen/grid.py:468-469 | the column-edge angles have shape (r, c-1) and are valid iff both ends are valid in x and y |
| Metrics.AngleLR | pygridgen/grid.py:470-471 | the row-edge angles have shape (r-1, c) and are valid iff both ends are valid in x and y |
| Metrics.Touching | pygridgen/grid.py:473-499 | an interior vertex touches 4 edges, an edge vertex 3 and a corner 2 |
| Metrics.AngleIsMeanOfTouchingEdges | pygridgen/grid.py:473-499 | the angle at each vertex is the plain mean of the angles of the edges that meet there |
| Metrics.ConstantEdgeAnglesGiveConstantField | pygridgen/grid.py:473-499 | if every edge angle is k then every vertex angle is k |
| Metrics.Angle | pygridgen/grid.py:461-501 | defined iff there are at least two vertex rows and two vertex columns (otherwise an index error); the result has the vertex shape |
| Metrics.AngleTranslationInvariant | pygridgen/grid.py:461-501 | translating the whole grid leaves the angle field unchanged |
| Grid.New | pygridgen/grid.py:245-266 | fails iff the inputs are not both 2-D of one shape, reporting two non-2-D inputs as a dimension error and anything else as a shape error; with a NaN anywhere, a vertex is valid in both arrays iff it is finite in both; without one, each array keeps its own mask |
| Grid.NoNaNKeepsSeparateMasks | pygridgen/grid.py:261-263 | with no NaN, a vertex masked in x only stays valid in y |
| Grid.NaNInEitherMasksBoth | pygridgen/grid.py:261-263 | a NaN in x masks that vertex in y as well |
| Grid.MaskRho | pygridgen/grid.py:311-339 | the first read builds the cell mask from vertex validity (1 iff all corners are valid in x and y) and caches it; it fails only when a vertex axis is empty, because numpy.ones then gets a negative dimension; later reads return the cache |
| Grid.MaskRhoIdempotent | pygridgen/grid.py:316-339 | reading the mask twice gives what the first read gave |
| Grid.SetMaskRho | pygridgen/grid.py:341-346 | fails before the first read and on a shape other than the cells'; otherwise the next read returns exactly the assigned array and nothing else changes |
| Grid.SetWhatWasRead | pygridgen/grid.py:341-346 | assigning back the mask that was read changes nothing |
| Grid.SetterIgnoresVertexValidity | pygridgen/grid.py:341-346 | on a grid with a missing corner, assigning ones makes the cell read back as 1 although the getter gave 0 |
| Grid.RhoMaskedWhereMaskZero | pygridgen/grid.py:293-339 | when x and y agree on which vertices exist, a centre is masked exactly where the fresh cell mask is 0 |
| Grid.SubMasksZeroAtInvalidPoints | pygridgen/grid.py:348-388 | a u- or v-point with a missing end has mask 0 |
| Grid.Polygon | pygridgen/grid.py:575-585 | the polygon is accepted iff it is 2-D with two columns and at least 3 rows, the errors checked in that order; the result lists its rows as pairs |
| Grid.Hits | pygridgen/grid.py:586-591 | one verdict per cell centre, in row-major order, each the verdict of the containment test on that centre |
| Grid.InsideIndices | pygridgen/grid.py:16-18 | lists exactly the positions of the hits, in increasing order |
| Grid.Edited | pygridgen/grid.py:592-593 | a cell whose centre is inside gets the mask value when the write happens; every other cell keeps its value |
| Grid.MaskPolygonAsWritten | pygridgen/grid.py:553-595 | fails iff the polygon or the mask read fails; otherwise keeps the vertices and sets the cells whose centres are inside, but only when the index list is truthy |
| Grid.Store | pygridgen/grid.py:595 | storing a mask of the cells' shape after a read always succeeds and the next read returns that mask |
| Grid.MaskPolygon | pygridgen/grid.py:553-595 | fails iff the polygon or the mask read fails; otherwise keeps the vertices, gives every cell whose centre is inside the mask value and leaves every other cell as read |
| Grid.EditedWithNothingInside | pygridgen/grid.py:588-593 | when no centre is inside, the mask is unchanged |
| Grid.AnyNonzeroOfIncreasing | pygridgen/grid.py:592 | for the increasing index list, numpy.any is true iff the list is neither empty nor the single index 0 |
| Grid.AsWrittenAgreesUnlessOnlyFirstCell | pygridgen/grid.py:592-593 | the as-written and intended operations differ only when the first cell is the only one inside |
| Grid.OnlyFirstCellInsideIsSkipped | pygridgen/grid.py:592-593 | on a 2-by-2 vertex grid whose one cell is inside, the as-written code leaves the mask at 1 where 0 was asked for |
| Grid.MaskPolygonIdempotent | pygridgen/grid.py:553-595 | masking the same polygon twice gives the same grid as masking it once |
| Grid.MaskPolygonKeepsBinary | pygridgen/grid.py:553-595 | a binary mask stays binary |
| Gridgen.CheckBeta | pygridgen/grid.py:819-822 | accepted iff the sum lies within 1e-8 + 4e-5 of 4, with the values kept; otherwise the beta error |
| Gridgen.IntegerBetas | pygridgen/grid.py:820-822 | integer turning angles are accepted iff they sum to exactly 4 |
| Gridgen.ToleranceExamples | pygridgen/grid.py:821 | a sum of 4.00001 passes and 4.0001 fails |

## Left out

- The gridgen C library (`ctypes` loading, the call into it and reshaping of its results) and the `Gridgen` constructor apart from its beta check: foreign code.
- `CGrid_geo`, `orthogonality`, `calculate_orthogonality`, `angle_rho` and `rho_to_vert`: outside the modelled core.
- The `x`, `y` and `mask` aliases of `CGrid`: they only rename `x_vert`, `y_vert` and `mask_rho`.
- Floating-point rounding: reals are exact. The values of sqrt, exp and arctan2 are parameters, so nothing is said about the numeric accuracy of the erf approximation.
- Metrics.DxIsDistance: proves that a width is non-negative, and 0 where the two midpoints coincide, but not the converse (a zero width implies coincident midpoints), because that direction needs nonlinear reasoning about squares of reals.
- Metrics.HypotProperties: the same one direction, for the same reason.
- Metrics.Reciprocal: a zero width gives a masked entry. numpy gives inf for a plain array, and masks only divisors below its tiny threshold for a masked one.
- Metrics.Pm and Metrics.Pn: wrappers with no contract of their own; what they compute is stated by Metrics.Reciprocal.
- Focus.Reposition: reads the error function from its `Numerics` argument, not from a direct call to `_approximate_erf`. Its properties then hold for any erf, including pygridgen's, which `Focus.WithApproximateErf` supplies. The erf approximation divides by `1 + a x^2`, and keeping that quotient out of the focus proofs keeps them small.
- Focus.DoFocusInUnit: the range promise is proved only for a positive factor and extent, a monotone erf and, for a factor above 1, an erf whose slope is at most 2/sqrt(pi), the bound the true error function meets. That `_approximate_erf` itself meets these bounds is not proved, because it needs inequalities about exp and sqrt that the model leaves open. For a negative factor the repositioning need not be monotone, so the promise that the output always spans [0, 1] regardless of factor does not hold there, and the model makes no such claim.
- Focus.DoFocus: when the stretched ends coincide it fails with DegenerateFocus, where numpy would divide by zero and give inf or nan.
- Focus.ApplyPoint: coordinates are flattened lists of reals, so 2-D coordinate arrays are seen row-major, and NaN entries (which pass the source's range check unnoticed) are not modelled.
- Grid.MaskRho: a vertex array carried as a masked array whose mask is `nomask` makes the source raise IndexError; the model treats every input as carrying a full mask.
- Grid.Contains: the containment test of matplotlib is a parameter. Its verdict on a masked cell centre is left open.
- Grid.SetMaskRho: follows the code (grid.py:343-344), which stores the assigned array without re-applying vertex validity; Grid.SetterIgnoresVertexValidity exhibits it.
- Grid.MaskRho: the getter returns the cached array itself (grid.py:339) and Grid.SetMaskRho keeps the caller's array (grid.py:344), so in-place writes to it are seen by mask_u, mask_v and mask_psi; arrays here are values, so the model cannot express this aliasing. Nothing proved depends on it, because mask_polygon works on a copy (grid.py:586).
- The `Gridgen` grid generation itself, the GUI and the packaging files: outside the modelled core.

## Findings

| source | as written | input that shows it | evidently intended | confidence | as-written member | corrected member |
|---|---|---|---|---|---|---|
| pygridgen/grid.py:592 | `if numpy.any(inside):` tests the list of flat indices, so a list holding only index 0 counts as "nothing inside" | a 2-by-2 vertex grid (one cell) whose cell centre lies inside the polygon, `mask_value=False`: `inside == [0]`, `numpy.any([0])` is false and the mask stays 1 | skip the write only when no centre is inside, so the cell is set to 0 | not executed | Grid.OnlyFirstCellInsideIsSkipped | Grid.MaskPolygon |
