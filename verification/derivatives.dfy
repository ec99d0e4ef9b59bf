/** `mu` and `nu`: the closed-form derivatives of `border` and `center`
    with respect to the species' own concentration, used for the diagonal
    Jacobian blocks. Because both polynomials are quadratic in that
    concentration, the derivatives are exact up to a second-order term
    whose coefficient is stated below. */
module Derivatives {
  import opened Vectors
  import opened Coefficients
  import opened Residuals

  /** Node value of `mu`. */
  function MuAt(i: Species, D: Matrix, a: real, b: real): real
  {
    D.At(i, 0) + 2.0 * D.At(i, Own(i)) * a + D.At(i, Cross(i)) * b
  }

  /** Node value of `nu`. */
  function NuAt(i: Species, D: Matrix, R: Matrix, a: real, b: real): real
  {
    (1.0 - R.At(i, 0) + 2.0 * D.At(i, 0))
    + 2.0 * (R.At(i, Own(i)) + 2.0 * D.At(i, Own(i))) * a
    + (R.At(i, Cross(i)) + 2.0 * D.At(i, Cross(i))) * b
  }

  /** `mu` with its species-index guard. */
  function Mu(i: int, A: Vector, B: Vector, D: Matrix): (r: Result<Vector>)
    requires |A| == |B|
    ensures r.Ok? <==> IsSpecies(i)
    ensures r.Err? ==> r.error == InvalidSpeciesIndex(i)
    ensures r.Ok? ==> |r.value| == |A|
  {
    if IsSpecies(i) then
      Ok(seq(|A|, n requires 0 <= n < |A| => MuAt(i, D, A[n], B[n])))
    else
      Err(InvalidSpeciesIndex(i))
  }

  /** `nu` with its species-index guard. */
  function Nu(i: int, A: Vector, B: Vector, D: Matrix, R: Matrix): (r: Result<Vector>)
    requires |A| == |B|
    ensures r.Ok? <==> IsSpecies(i)
    ensures r.Err? ==> r.error == InvalidSpeciesIndex(i)
    ensures r.Ok? ==> |r.value| == |A|
  {
    if IsSpecies(i) then
      Ok(seq(|A|, n requires 0 <= n < |A| => NuAt(i, D, R, A[n], B[n])))
    else
      Err(InvalidSpeciesIndex(i))
  }

  // ---------------------------------------------------------------------
  // Scalar slopes
  // ---------------------------------------------------------------------

  lemma BorderSlope(i: Species, D: Matrix, a: real, b: real, h: real)
    ensures BorderAt(i, D, a + h, b)
            == BorderAt(i, D, a, b) + h * MuAt(i, D, a, b) + h * h * D.At(i, Own(i))
  {
    assert (a + h) * (a + h) == a * a + 2.0 * a * h + h * h;
    assert (a + h) * b == a * b + h * b;
  }

  lemma CenterSlope(i: Species, D: Matrix, R: Matrix, a: real, b: real, h: real)
    ensures CenterAt(i, D, R, a + h, b)
            == CenterAt(i, D, R, a, b) + h * NuAt(i, D, R, a, b)
               + h * h * (R.At(i, Own(i)) + 2.0 * D.At(i, Own(i)))
  {
    assert (a + h) * (a + h) == a * a + 2.0 * a * h + h * h;
    assert (a + h) * b == a * b + h * b;
  }

  // ---------------------------------------------------------------------
  // The vectors are the derivatives of the node polynomials
  // ---------------------------------------------------------------------

  /** Perturbing `A[n]` by `h` changes `border` only at node n, by
      `h * mu[n]` plus `h^2 * D[i, i+1]`. */
  lemma MuIsBorderDerivative(i: int, A: Vector, B: Vector, D: Matrix, n: int, h: real)
    requires |A| == |B| && IsSpecies(i) && 0 <= n < |A|
    ensures var bd := Border(i, A, B, D);
            Border(i, A[n := A[n] + h], B, D)
            == bd[n := bd[n] + h * Mu(i, A, B, D).value[n] + h * h * D.At(i, Own(i))]
  {
    var bd := Border(i, A, B, D);
    var after := Border(i, A[n := A[n] + h], B, D);
    forall m | 0 <= m < |A|
      ensures after[m] == bd[n := bd[n] + h * Mu(i, A, B, D).value[n] + h * h * D.At(i, Own(i))][m]
    {
      BorderAfter(i, A, B, D, n, h, m);
    }
  }

  lemma BorderAfter(i: Species, A: Vector, B: Vector, D: Matrix, n: int, h: real, m: int)
    requires |A| == |B| && 0 <= n < |A| && 0 <= m < |A|
    ensures Border(i, A[n := A[n] + h], B, D)[m]
            == if m == n then Border(i, A, B, D)[n] + h * Mu(i, A, B, D).value[n] + h * h * D.At(i, Own(i))
               else Border(i, A, B, D)[m]
  {
    if m == n {
      assert Mu(i, A, B, D).value[n] == MuAt(i, D, A[n], B[n]);
      BorderSlope(i, D, A[n], B[n], h);
    }
  }

  /** Perturbing `A[n]` by `h` changes `center` only at node n, by
      `h * nu[n]` plus `h^2 * (R[i, i+1] + 2 D[i, i+1])`. */
  lemma NuIsCenterDerivative(i: int, A: Vector, B: Vector, D: Matrix, R: Matrix, n: int, h: real)
    requires |A| == |B| && IsSpecies(i) && 0 <= n < |A|
    ensures var c := Center(i, A, B, D, R);
            Center(i, A[n := A[n] + h], B, D, R)
            == c[n := c[n] + h * Nu(i, A, B, D, R).value[n]
                      + h * h * (R.At(i, Own(i)) + 2.0 * D.At(i, Own(i)))]
  {
    var c := Center(i, A, B, D, R);
    var after := Center(i, A[n := A[n] + h], B, D, R);
    forall m | 0 <= m < |A|
      ensures after[m] == c[n := c[n] + h * Nu(i, A, B, D, R).value[n]
                                + h * h * (R.At(i, Own(i)) + 2.0 * D.At(i, Own(i)))][m]
    {
      CenterAfter(i, A, B, D, R, n, h, m);
    }
  }

  lemma CenterAfter(i: Species, A: Vector, B: Vector, D: Matrix, R: Matrix, n: int, h: real, m: int)
    requires |A| == |B| && 0 <= n < |A| && 0 <= m < |A|
    ensures Center(i, A[n := A[n] + h], B, D, R)[m]
            == if m == n then Center(i, A, B, D, R)[n] + h * Nu(i, A, B, D, R).value[n]
                              + h * h * (R.At(i, Own(i)) + 2.0 * D.At(i, Own(i)))
               else Center(i, A, B, D, R)[m]
  {
    if m == n {
      assert Nu(i, A, B, D, R).value[n] == NuAt(i, D, R, A[n], B[n]);
      CenterSlope(i, D, R, A[n], B[n], h);
    }
  }

  /** `nu - 2 mu` is the derivative of the reaction term alone: the
      diffusive parts of the diagonal and of the two neighbour entries
      cancel. */
  lemma NuMinusTwoMu(i: int, A: Vector, B: Vector, D: Matrix, R: Matrix, n: int)
    requires |A| == |B| && IsSpecies(i) && 0 <= n < |A|
    ensures Nu(i, A, B, D, R).value[n] - 2.0 * Mu(i, A, B, D).value[n]
            == (1.0 - R.At(i, 0)) + 2.0 * R.At(i, Own(i)) * A[n] + R.At(i, Cross(i)) * B[n]
  {
  }

  /** The diagonal Jacobian block of `f`: perturbing `A[n]` by `h` moves
      entry n of the residual by `h * nu[n]` and each neighbour's entry by
      `-h * mu[n]`, each up to its exact second-order term; no other entry
      moves. On rings of one or two nodes the neighbour terms add up. */
  lemma ResidualSelfPerturbation(i: Species, A: Vector, B: Vector, D: Matrix, R: Matrix, n: int, h: real, m: int)
    requires |A| == |B| && 0 <= n < |A| && 0 <= m < |A|
    ensures Residual(i, A[n := A[n] + h], B, D, R)[m] - Residual(i, A, B, D, R)[m]
            == (if m == n then h * Nu(i, A, B, D, R).value[n]
                               + h * h * (R.At(i, Own(i)) + 2.0 * D.At(i, Own(i))) else 0.0)
               - (if m == Right(n, |A|) then h * Mu(i, A, B, D).value[n] + h * h * D.At(i, Own(i)) else 0.0)
               - (if m == Left(n, |A|) then h * Mu(i, A, B, D).value[n] + h * h * D.At(i, Own(i)) else 0.0)
  {
    MuNuAt(i, A, B, D, R, n);
    var dnu := h * Nu(i, A, B, D, R).value[n];
    var dmu := h * Mu(i, A, B, D).value[n];
    assert dnu == h * NuAt(i, D, R, A[n], B[n]);
    assert dmu == h * MuAt(i, D, A[n], B[n]);
    ResidualSelfPerturbationAt(i, A, B, D, R, n, h, m);
  }

  lemma MuNuAt(i: Species, A: Vector, B: Vector, D: Matrix, R: Matrix, n: int)
    requires |A| == |B| && 0 <= n < |A|
    ensures Mu(i, A, B, D).value[n] == MuAt(i, D, A[n], B[n])
    ensures Nu(i, A, B, D, R).value[n] == NuAt(i, D, R, A[n], B[n])
  {
  }

  lemma ResidualSelfPerturbationAt(i: Species, A: Vector, B: Vector, D: Matrix, R: Matrix, n: int, h: real, m: int)
    requires |A| == |B| && 0 <= n < |A| && 0 <= m < |A|
    ensures Residual(i, A[n := A[n] + h], B, D, R)[m] - Residual(i, A, B, D, R)[m]
            == (if m == n then h * NuAt(i, D, R, A[n], B[n])
                               + h * h * (R.At(i, Own(i)) + 2.0 * D.At(i, Own(i))) else 0.0)
               - (if m == Right(n, |A|) then h * MuAt(i, D, A[n], B[n]) + h * h * D.At(i, Own(i)) else 0.0)
               - (if m == Left(n, |A|) then h * MuAt(i, D, A[n], B[n]) + h * h * D.At(i, Own(i)) else 0.0)
  {
    var k := |A|;
    LeftRightInverse(n, m, k);
    LeftRightInverse(m, n, k);
    ResidualChange(i, A, B, A[n := A[n] + h], B, D, R, m);
    CenterDelta(i, A, B, D, R, n, h, m);
    BorderDelta(i, A, B, D, n, h, Left(m, k));
    BorderDelta(i, A, B, D, n, h, Right(m, k));
  }

  lemma CenterDelta(i: Species, A: Vector, B: Vector, D: Matrix, R: Matrix, n: int, h: real, m: int)
    requires |A| == |B| && 0 <= n < |A| && 0 <= m < |A|
    ensures CenterAt(i, D, R, A[n := A[n] + h][m], B[m]) - CenterAt(i, D, R, A[m], B[m])
            == if m == n then h * NuAt(i, D, R, A[n], B[n])
                              + h * h * (R.At(i, Own(i)) + 2.0 * D.At(i, Own(i))) else 0.0
  {
    CenterSlope(i, D, R, A[n], B[n], h);
  }

  lemma BorderDelta(i: Species, A: Vector, B: Vector, D: Matrix, n: int, h: real, m: int)
    requires |A| == |B| && 0 <= n < |A| && 0 <= m < |A|
    ensures BorderAt(i, D, A[n := A[n] + h][m], B[m]) - BorderAt(i, D, A[m], B[m])
            == if m == n then h * MuAt(i, D, A[n], B[n]) + h * h * D.At(i, Own(i)) else 0.0
  {
    BorderSlope(i, D, A[n], B[n], h);
  }
}
