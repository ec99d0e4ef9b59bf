/** The normalized diffusion matrix D and reaction matrix R (both 2x3), the
    species index and its two derived column indices, and the error value
    raised by the species-index guard. */
module Coefficients {

  /** Species index as the helpers accept it: 0 for U, 1 for V. */
  type Species = i: int | 0 <= i < 2

  /** Column index of a 2x3 coefficient matrix. */
  type Column = c: int | 0 <= c < 3

  predicate IsSpecies(i: int)
  {
    i == 0 || i == 1
  }

  /** Column `j = i + 1`: the coefficient of the species' own quadratic
      term (A*A). */
  function Own(i: Species): (j: Column)
    ensures j != 0
  {
    i + 1
  }

  /** Column `k = 2 - i`: the coefficient of the cross term (A*B). */
  function Cross(i: Species): (k: Column)
    ensures k != 0 && k != Own(i)
    ensures Own(1 - i) == k
  {
    2 - i
  }

  /** A 2x3 real matrix; row i belongs to species i. */
  datatype Matrix = Matrix(m00: real, m01: real, m02: real,
                           m10: real, m11: real, m12: real)
  {
    function At(i: Species, c: Column): real
    {
      if i == 0 then
        (if c == 0 then m00 else if c == 1 then m01 else m02)
      else
        (if c == 0 then m10 else if c == 1 then m11 else m12)
    }
  }

  /** The failure the species-index guard reports. */
  datatype Error = InvalidSpeciesIndex(index: int)

  datatype Result<T> = Ok(value: T) | Err(error: Error)
}
