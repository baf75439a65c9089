/** Error outcomes of the grid engine. Each constructor stands for one
    exception the Python code raises (or, where noted, one numeric anomaly
    the model reports as an error). */
module Results {

  datatype Error =
    // ValueError: the vertex arrays are not two dimensional
    | NotTwoDimensional
    // ValueError: x and y shapes differ, or a new mask_rho has the wrong shape
    | ShapeMismatch
    // ValueError raised by numpy.ones when a vertex axis is empty
    | NegativeDimensions
    // AttributeError: mask_rho is assigned before it was ever read
    | MaskNotYetRead
    // IndexError: the angle stencil needs two vertex rows and two columns
    | IndexOutOfRange
    // ValueError: focus position outside [0, 1]
    | PosOutOfRange
    // ValueError: focus axis is neither 'x' nor 'y'
    | BadAxis
    // ValueError: a coordinate handed to a focus point is outside [0, 1]
    | XOutOfRange
    | YOutOfRange
    // ZeroDivisionError: focus factor or extent is zero
    | DivisionByZero
    // the two renormalisation endpoints of a focus point coincide
    | DegenerateFocus
    // ValueError: polygon vertices are not a 2-D array, not two columns, or fewer than three
    | PolygonNotTwoDimensional
    | PolygonNotTwoColumns
    | PolygonTooFewPoints
    // ValueError: the rho mask given to uvp_masks is not 2-D or not all zeros and ones
    | MaskNotTwoDimensional
    | MaskNotBinary
    // ValueError: the turning values do not sum to four
    | BetaSumNotFour

  /** The Python exception class each error is raised as. */
  predicate IsValueError(e: Error) {
    !(e.MaskNotYetRead? || e.IndexOutOfRange? || e.DivisionByZero? || e.DegenerateFocus?)
  }

  datatype Result<+T> = Ok(value: T) | Err(error: Error)

  datatype Option<+T> = None | Some(value: T)
}
