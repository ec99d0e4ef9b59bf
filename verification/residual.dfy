/** The residual `f(i, A, B, D, R)` of species i: a local `center`
    polynomial minus the `border` polynomial of both neighbours on the
    periodic grid. A holds species i's concentrations, B the other
    species'. */
module Residuals {
  import opened Vectors
  import opened Coefficients

  /** Node value of `center`. */
  function CenterAt(i: Species, D: Matrix, R: Matrix, a: real, b: real): real
  {
    (1.0 - R.At(i, 0) + 2.0 * D.At(i, 0)) * a
    + (R.At(i, Own(i)) + 2.0 * D.At(i, Own(i))) * (a * a)
    + (R.At(i, Cross(i)) + 2.0 * D.At(i, Cross(i))) * (a * b)
  }

  /** Node value of `border`: what a node hands to each of its neighbours. */
  function BorderAt(i: Species, D: Matrix, a: real, b: real): real
  {
    D.At(i, 0) * a + D.At(i, Own(i)) * (a * a) + D.At(i, Cross(i)) * (a * b)
  }

  /** Local kinetics alone: the reaction part of the residual, which does
      not involve D at all. */
  function ReactionAt(i: Species, R: Matrix, a: real, b: real): real
  {
    (1.0 - R.At(i, 0)) * a + R.At(i, Own(i)) * (a * a) + R.At(i, Cross(i)) * (a * b)
  }

  /** `center` exceeds the reaction term by exactly two `border` shares,
      one for each neighbour. */
  lemma CenterSplits(i: Species, D: Matrix, R: Matrix, a: real, b: real)
    ensures CenterAt(i, D, R, a, b) == ReactionAt(i, R, a, b) + 2.0 * BorderAt(i, D, a, b)
  {
  }

  /** `border` is the node's own concentration times a rate linear in both
      concentrations, so an empty node hands nothing to its neighbours. */
  lemma BorderFactors(i: Species, D: Matrix, a: real, b: real)
    ensures BorderAt(i, D, a, b) == a * (D.At(i, 0) + D.At(i, Own(i)) * a + D.At(i, Cross(i)) * b)
    ensures a == 0.0 ==> BorderAt(i, D, a, b) == 0.0
  {
  }

  /** `center`, node by node. */
  function Center(i: Species, A: Vector, B: Vector, D: Matrix, R: Matrix): (c: Vector)
    requires |A| == |B|
    ensures |c| == |A|
  {
    seq(|A|, n requires 0 <= n < |A| => CenterAt(i, D, R, A[n], B[n]))
  }

  /** `border`, node by node. */
  function Border(i: Species, A: Vector, B: Vector, D: Matrix): (c: Vector)
    requires |A| == |B|
    ensures |c| == |A|
  {
    seq(|A|, n requires 0 <= n < |A| => BorderAt(i, D, A[n], B[n]))
  }

  function Reaction(i: Species, A: Vector, B: Vector, R: Matrix): (c: Vector)
    requires |A| == |B|
    ensures |c| == |A|
  {
    seq(|A|, n requires 0 <= n < |A| => ReactionAt(i, R, A[n], B[n]))
  }

  /** `center - np.roll(border, 1) - np.roll(border, -1)`. Entry n is the
      three-point periodic stencil: its own `center` minus the `border` of
      its left and right neighbours, wrapping at both ends. */
  function Residual(i: Species, A: Vector, B: Vector, D: Matrix, R: Matrix): (r: Vector)
    requires |A| == |B|
    ensures |r| == |A|
    ensures forall n :: 0 <= n < |A| ==>
      r[n] == CenterAt(i, D, R, A[n], B[n])
              - BorderAt(i, D, A[Left(n, |A|)], B[Left(n, |A|)])
              - BorderAt(i, D, A[Right(n, |A|)], B[Right(n, |A|)])
  {
    var c := Center(i, A, B, D, R);
    var bd := Border(i, A, B, D);
    RollNeighbours(bd);
    Sub(Sub(c, Roll(bd, 1)), Roll(bd, -1))
  }

  /** `f` with its guard: any species index other than 0 or 1 fails. */
  function F(i: int, A: Vector, B: Vector, D: Matrix, R: Matrix): (r: Result<Vector>)
    requires |A| == |B|
    ensures r.Ok? <==> IsSpecies(i)
    ensures r.Err? ==> r.error == InvalidSpeciesIndex(i)
    ensures r.Ok? ==> |r.value| == |A|
    ensures r.Ok? ==> r.value == Residual(i, A, B, D, R)
  {
    if IsSpecies(i) then Ok(Residual(i, A, B, D, R)) else Err(InvalidSpeciesIndex(i))
  }

  /** How one residual entry changes between two states: the change of its
      own `center` minus the changes of its two neighbours' `border`. */
  lemma ResidualChange(i: Species, A: Vector, B: Vector, A': Vector, B': Vector, D: Matrix, R: Matrix, r: int)
    requires |A| == |B| == |A'| == |B'| && 0 <= r < |A|
    ensures var l, rt := Left(r, |A|), Right(r, |A|);
            Residual(i, A', B', D, R)[r] - Residual(i, A, B, D, R)[r]
            == (CenterAt(i, D, R, A'[r], B'[r]) - CenterAt(i, D, R, A[r], B[r]))
               - (BorderAt(i, D, A'[l], B'[l]) - BorderAt(i, D, A[l], B[l]))
               - (BorderAt(i, D, A'[rt], B'[rt]) - BorderAt(i, D, A[rt], B[rt]))
  {
  }

  // ---------------------------------------------------------------------
  // Periodicity
  // ---------------------------------------------------------------------

  lemma CenterRoll(i: Species, A: Vector, B: Vector, D: Matrix, R: Matrix, s: int)
    requires |A| == |B|
    ensures Center(i, Roll(A, s), Roll(B, s), D, R) == Roll(Center(i, A, B, D, R), s)
  {
  }

  lemma BorderRoll(i: Species, A: Vector, B: Vector, D: Matrix, s: int)
    requires |A| == |B|
    ensures Border(i, Roll(A, s), Roll(B, s), D) == Roll(Border(i, A, B, D), s)
  {
  }

  /** Translation invariance: rotating both species by `s` grid positions
      rotates the residual by the same amount. */
  lemma ResidualRotation(i: Species, A: Vector, B: Vector, D: Matrix, R: Matrix, s: int)
    requires |A| == |B|
    ensures Residual(i, Roll(A, s), Roll(B, s), D, R) == Roll(Residual(i, A, B, D, R), s)
  {
    var c := Center(i, A, B, D, R);
    var bd := Border(i, A, B, D);
    CenterRoll(i, A, B, D, R, s);
    BorderRoll(i, A, B, D, s);
    RollCompose(bd, s, 1);
    RollCompose(bd, 1, s);
    RollCompose(bd, s, -1);
    RollCompose(bd, -1, s);
    RollSub(c, Roll(bd, 1), s);
    RollSub(Sub(c, Roll(bd, 1)), Roll(bd, -1), s);
  }

  // ---------------------------------------------------------------------
  // Diffusion only moves material between nodes
  // ---------------------------------------------------------------------

  /** On a spatially uniform state the two neighbour terms cancel the
      diffusive part of `center`: every entry is the reaction term alone,
      and so vanishes at a reaction equilibrium. */
  lemma UniformResidual(i: Species, A: Vector, B: Vector, D: Matrix, R: Matrix, a: real, b: real)
    requires |A| == |B|
    requires forall n :: 0 <= n < |A| ==> A[n] == a && B[n] == b
    ensures forall n :: 0 <= n < |A| ==> Residual(i, A, B, D, R)[n] == ReactionAt(i, R, a, b)
    ensures ReactionAt(i, R, a, b) == 0.0 ==>
      forall n :: 0 <= n < |A| ==> Residual(i, A, B, D, R)[n] == 0.0
  {
    forall n | 0 <= n < |A|
      ensures Residual(i, A, B, D, R)[n] == ReactionAt(i, R, a, b)
    {
      CenterSplits(i, D, R, a, b);
    }
  }

  /** The diffusive exchange conserves the total: summed over the ring,
      the residual equals the summed reaction term, whatever D is. */
  lemma ResidualTotal(i: Species, A: Vector, B: Vector, D: Matrix, R: Matrix)
    requires |A| == |B|
    ensures Sum(Residual(i, A, B, D, R)) == Sum(Reaction(i, A, B, R))
  {
    var c := Center(i, A, B, D, R);
    var bd := Border(i, A, B, D);
    SumSub(Sub(c, Roll(bd, 1)), Roll(bd, -1));
    SumSub(c, Roll(bd, 1));
    SumRollOne(bd);
    forall n | 0 <= n < |A|
      ensures Reaction(i, A, B, R)[n] == Sub(Sub(c, bd), bd)[n]
    {
      CenterSplits(i, D, R, A[n], B[n]);
    }
    assert Reaction(i, A, B, R) == Sub(Sub(c, bd), bd);
    SumSub(Sub(c, bd), bd);
    SumSub(c, bd);
  }

  /** Corollary: the total of the residual does not depend on D. */
  lemma ResidualTotalIgnoresDiffusion(i: Species, A: Vector, B: Vector, D1: Matrix, D2: Matrix, R: Matrix)
    requires |A| == |B|
    ensures Sum(Residual(i, A, B, D1, R)) == Sum(Residual(i, A, B, D2, R))
  {
    ResidualTotal(i, A, B, D1, R);
    ResidualTotal(i, A, B, D2, R);
  }
}
