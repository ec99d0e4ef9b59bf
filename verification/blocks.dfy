/** Periodic tridiagonal Jacobian blocks in the compact five-part form that
    `_utils.py` passes around, and `block_diags`, which builds the block of
    species i's residual with respect to the other species. */
module Blocks {
  import opened Vectors
  import opened Coefficients
  import opened Residuals

  /** A K x K periodic tridiagonal matrix as five parts, in `_utils.py`'s
      list order: the top-right corner (row 0, column K-1), the super
      band, the main band, the sub band, and the bottom-left corner
      (row K-1, column 0). */
  datatype Tridiag = Tridiag(topRight: Vector, upper: Vector, main: Vector,
                             lower: Vector, bottomLeft: Vector)

  /** The part lengths of a K x K block: 1, K-1, K, K-1, 1. */
  predicate Shaped(t: Tridiag, k: int)
  {
    k >= 1
    && |t.topRight| == 1 && |t.upper| == k - 1 && |t.main| == k
    && |t.lower| == k - 1 && |t.bottomLeft| == 1
  }

  /** Entry (r, c) of the matrix the parts describe. Each part contributes
      at its own position; on grids of one or two nodes a corner shares its
      position with a band and the two contributions add. */
  function Entry(t: Tridiag, k: int, r: int, c: int): real
    requires Shaped(t, k) && 0 <= r < k && 0 <= c < k
  {
    (if r == 0 && c == k - 1 then t.topRight[0] else 0.0)
    + (if c == r + 1 then t.upper[r] else 0.0)
    + (if c == r then t.main[r] else 0.0)
    + (if r == c + 1 then t.lower[c] else 0.0)
    + (if r == k - 1 && c == 0 then t.bottomLeft[0] else 0.0)
  }

  function Row(t: Tridiag, k: int, r: int): (row: Vector)
    requires Shaped(t, k) && 0 <= r < k
    ensures |row| == k
  {
    seq(k, c requires 0 <= c < k => Entry(t, k, r, c))
  }

  /** Dense matrix-vector product: row r dotted with `e`. */
  function MatVec(t: Tridiag, e: Vector): (y: Vector)
    requires Shaped(t, |e|)
    ensures |y| == |e|
  {
    seq(|e|, r requires 0 <= r < |e| => Dot(Row(t, |e|, r), e))
  }

  /** The product of a band value and a vector entry. `SparseRow`, the
      dense-row lemmas and `Coupling` all write their products through it,
      so each proof step below rewrites one whole product at a time instead
      of re-associating real multiplications. */
  function Times(x: real, y: real): real
  {
    x * y
  }

  /** Row r of the sparse product: only the five parts are read. */
  function SparseRow(t: Tridiag, e: Vector, r: int): real
    requires Shaped(t, |e|) && 0 <= r < |e|
  {
    var k := |e|;
    Times(t.main[r], e[r])
    + (if r + 1 < k then Times(t.upper[r], e[r + 1]) else 0.0)
    + (if r > 0 then Times(t.lower[r - 1], e[r - 1]) else 0.0)
    + (if r == 0 then Times(t.topRight[0], e[k - 1]) else 0.0)
    + (if r == k - 1 then Times(t.bottomLeft[0], e[0]) else 0.0)
  }

  /** Sparse matrix-vector product that touches only the five parts. */
  function Apply(t: Tridiag, e: Vector): (y: Vector)
    requires Shaped(t, |e|)
    ensures |y| == |e|
  {
    seq(|e|, r requires 0 <= r < |e| => SparseRow(t, e, r))
  }

  /** The sparse product agrees with the dense one. */
  lemma ApplyIsMatVec(t: Tridiag, e: Vector)
    requires Shaped(t, |e|)
    ensures Apply(t, e) == MatVec(t, e)
  {
    forall r | 0 <= r < |e|
      ensures Apply(t, e)[r] == MatVec(t, e)[r]
    {
      ApplyRow(t, e, r);
    }
  }

  lemma ApplyRow(t: Tridiag, e: Vector, r: int)
    requires Shaped(t, |e|) && 0 <= r < |e|
    ensures Dot(Row(t, |e|, r), e) == SparseRow(t, e, r)
  {
    forall c | 0 <= c < |e|
      ensures Mul(Row(t, |e|, r), e)[c] == Products(t, e, r)[c]
    {
      ProductsAt(t, e, r, c);
    }
    assert Mul(Row(t, |e|, r), e) == Products(t, e, r);
    SumProducts(t, e, r);
  }

  /** The five products of row r with `e`, each placed at the column of
      the part it comes from. */
  function Products(t: Tridiag, e: Vector, r: int): (p: Vector)
    requires Shaped(t, |e|) && 0 <= r < |e|
    ensures |p| == |e|
  {
    var k := |e|;
    Add(Add(Add(Add(Unit(k, k - 1, if r == 0 then Times(t.topRight[0], e[k - 1]) else 0.0),
                    Unit(k, r + 1, if r + 1 < k then Times(t.upper[r], e[r + 1]) else 0.0)),
                Unit(k, r, Times(t.main[r], e[r]))),
            Unit(k, r - 1, if r > 0 then Times(t.lower[r - 1], e[r - 1]) else 0.0)),
        Unit(k, 0, if r == k - 1 then Times(t.bottomLeft[0], e[0]) else 0.0))
  }

  lemma ProductsAt(t: Tridiag, e: Vector, r: int, c: int)
    requires Shaped(t, |e|) && 0 <= r < |e| && 0 <= c < |e|
    ensures Mul(Row(t, |e|, r), e)[c] == Products(t, e, r)[c]
  {
    RowTimesAt(t, e, r, c);
    ProductsSplit(t, e, r, c);
  }

  /** Column c of `Products`: the one part placed there, if any. */
  lemma ProductsSplit(t: Tridiag, e: Vector, r: int, c: int)
    requires Shaped(t, |e|) && 0 <= r < |e| && 0 <= c < |e|
    ensures Products(t, e, r)[c]
            == (if c == |e| - 1 then (if r == 0 then Times(t.topRight[0], e[|e| - 1]) else 0.0) else 0.0)
               + (if c == r + 1 then (if r + 1 < |e| then Times(t.upper[r], e[r + 1]) else 0.0) else 0.0)
               + (if c == r then Times(t.main[r], e[r]) else 0.0)
               + (if c == r - 1 then (if r > 0 then Times(t.lower[r - 1], e[r - 1]) else 0.0) else 0.0)
               + (if c == 0 then (if r == |e| - 1 then Times(t.bottomLeft[0], e[0]) else 0.0) else 0.0)
  {
    var k := |e|;
    AddFiveAt(Unit(k, k - 1, if r == 0 then Times(t.topRight[0], e[k - 1]) else 0.0),
              Unit(k, r + 1, if r + 1 < k then Times(t.upper[r], e[r + 1]) else 0.0),
              Unit(k, r, Times(t.main[r], e[r])),
              Unit(k, r - 1, if r > 0 then Times(t.lower[r - 1], e[r - 1]) else 0.0),
              Unit(k, 0, if r == k - 1 then Times(t.bottomLeft[0], e[0]) else 0.0), c);
  }

  /** Column c of row r times `e`, split by part. */
  lemma RowTimesAt(t: Tridiag, e: Vector, r: int, c: int)
    requires Shaped(t, |e|) && 0 <= r < |e| && 0 <= c < |e|
    ensures Mul(Row(t, |e|, r), e)[c]
            == (if c == |e| - 1 then (if r == 0 then Times(t.topRight[0], e[c]) else 0.0) else 0.0)
               + (if c == r + 1 then (if r + 1 < |e| then Times(t.upper[r], e[c]) else 0.0) else 0.0)
               + (if c == r then Times(t.main[r], e[c]) else 0.0)
               + (if c == r - 1 then (if r > 0 then Times(t.lower[r - 1], e[c]) else 0.0) else 0.0)
               + (if c == 0 then (if r == |e| - 1 then Times(t.bottomLeft[0], e[c]) else 0.0) else 0.0)
  {
    assert Mul(Row(t, |e|, r), e)[c] == Entry(t, |e|, r, c) * e[c];
    EntryTimes(t, |e|, r, c, e[c]);
  }

  lemma AddFiveAt(u1: Vector, u2: Vector, u3: Vector, u4: Vector, u5: Vector, c: int)
    requires |u1| == |u2| == |u3| == |u4| == |u5| && 0 <= c < |u1|
    ensures Add(Add(Add(Add(u1, u2), u3), u4), u5)[c] == u1[c] + u2[c] + u3[c] + u4[c] + u5[c]
  {
  }

  lemma SumProducts(t: Tridiag, e: Vector, r: int)
    requires Shaped(t, |e|) && 0 <= r < |e|
    ensures Sum(Products(t, e, r)) == SparseRow(t, e, r)
  {
    var k := |e|;
    var w1 := if r == 0 then Times(t.topRight[0], e[k - 1]) else 0.0;
    var w2 := if r + 1 < k then Times(t.upper[r], e[r + 1]) else 0.0;
    var w3 := Times(t.main[r], e[r]);
    var w4 := if r > 0 then Times(t.lower[r - 1], e[r - 1]) else 0.0;
    var w5 := if r == k - 1 then Times(t.bottomLeft[0], e[0]) else 0.0;
    assert Products(t, e, r) == Add(Add(Add(Add(Unit(k, k - 1, w1), Unit(k, r + 1, w2)), Unit(k, r, w3)), Unit(k, r - 1, w4)), Unit(k, 0, w5));
    SumFive(Unit(k, k - 1, w1), Unit(k, r + 1, w2), Unit(k, r, w3), Unit(k, r - 1, w4), Unit(k, 0, w5));
    SumUnit(k, k - 1, w1);
    SumUnit(k, r + 1, w2);
    SumUnit(k, r, w3);
    SumUnit(k, r - 1, w4);
    SumUnit(k, 0, w5);
  }

  /** One summand of row r times a vector, split by part. */
  lemma EntryTimes(t: Tridiag, k: int, r: int, c: int, y: real)
    requires Shaped(t, k) && 0 <= r < k && 0 <= c < k
    ensures Entry(t, k, r, c) * y
            == (if c == k - 1 then (if r == 0 then Times(t.topRight[0], y) else 0.0) else 0.0)
               + (if c == r + 1 then (if r + 1 < k then Times(t.upper[r], y) else 0.0) else 0.0)
               + (if c == r then Times(t.main[r], y) else 0.0)
               + (if c == r - 1 then (if r > 0 then Times(t.lower[r - 1], y) else 0.0) else 0.0)
               + (if c == 0 then (if r == k - 1 then Times(t.bottomLeft[0], y) else 0.0) else 0.0)
  {
    var x1 := if r == 0 && c == k - 1 then t.topRight[0] else 0.0;
    var x2 := if c == r + 1 then t.upper[r] else 0.0;
    var x3 := if c == r then t.main[r] else 0.0;
    var x4 := if r == c + 1 then t.lower[c] else 0.0;
    var x5 := if r == k - 1 && c == 0 then t.bottomLeft[0] else 0.0;
    assert Entry(t, k, r, c) == x1 + x2 + x3 + x4 + x5;
    assert (x1 + x2 + x3 + x4 + x5) * y == x1 * y + x2 * y + x3 * y + x4 * y + x5 * y;
  }

  lemma SumFive(u1: Vector, u2: Vector, u3: Vector, u4: Vector, u5: Vector)
    requires |u1| == |u2| == |u3| == |u4| == |u5|
    ensures Sum(Add(Add(Add(Add(u1, u2), u3), u4), u5))
            == Sum(u1) + Sum(u2) + Sum(u3) + Sum(u4) + Sum(u5)
  {
    SumAdd(Add(Add(Add(u1, u2), u3), u4), u5);
    SumAdd(Add(Add(u1, u2), u3), u4);
    SumAdd(Add(u1, u2), u3);
    SumAdd(u1, u2);
  }

  // ---------------------------------------------------------------------
  // block_diags
  // ---------------------------------------------------------------------

  /** `DA = D[i, 2-i] * A`: the coupling strength of the cross term. */
  function Flux(i: Species, A: Vector, D: Matrix): (da: Vector)
    ensures |da| == |A|
  {
    seq(|A|, n requires 0 <= n < |A| => D.At(i, Cross(i)) * A[n])
  }

  /** `block_diags(i, A, D, R)`: `[[-DA[-1]], -DA[1:], R[i,2-i]*A + 2*DA,
      -DA[:-1], [-DA[0]]]`. `block_diags` indexes `DA[-1]` and `DA[0]`, so A
      must not be empty. */
  function BlockDiags(i: Species, A: Vector, D: Matrix, R: Matrix): (t: Tridiag)
    requires |A| >= 1
    ensures Shaped(t, |A|)
  {
    var k := |A|;
    var da := Flux(i, A, D);
    Tridiag([-da[k - 1]],
            seq(k - 1, n requires 0 <= n < k - 1 => -da[n + 1]),
            seq(k, n requires 0 <= n < k => R.At(i, Cross(i)) * A[n] + 2.0 * da[n]),
            seq(k - 1, n requires 0 <= n < k - 1 => -da[n]),
            [-da[0]])
  }

  /** The five parts entry by entry: the corners are `-D[i,2-i]*A[K-1]` and
      `-D[i,2-i]*A[0]`, the super band is `-DA[1:]`, the sub band `-DA[:-1]`,
      and the main band `(R[i,2-i] + 2 D[i,2-i]) * A`. */
  lemma BlockParts(i: Species, A: Vector, D: Matrix, R: Matrix)
    requires |A| >= 1
    ensures BlockDiags(i, A, D, R).topRight == [-(D.At(i, Cross(i)) * A[|A| - 1])]
    ensures BlockDiags(i, A, D, R).bottomLeft == [-(D.At(i, Cross(i)) * A[0])]
    ensures forall n :: 0 <= n < |A| - 1 ==>
              BlockDiags(i, A, D, R).upper[n] == -(D.At(i, Cross(i)) * A[n + 1])
    ensures forall n :: 0 <= n < |A| - 1 ==>
              BlockDiags(i, A, D, R).lower[n] == -(D.At(i, Cross(i)) * A[n])
    ensures forall n :: 0 <= n < |A| ==>
              BlockDiags(i, A, D, R).main[n] == (R.At(i, Cross(i)) + 2.0 * D.At(i, Cross(i))) * A[n]
  {
    var t := BlockDiags(i, A, D, R);
    var da := Flux(i, A, D);
    assert t.topRight == [-da[|A| - 1]] && t.bottomLeft == [-da[0]];
    assert da[|A| - 1] == D.At(i, Cross(i)) * A[|A| - 1] && da[0] == D.At(i, Cross(i)) * A[0];
  }

  // ---------------------------------------------------------------------
  // Exactness: the block is the Jacobian of f with respect to B
  // ---------------------------------------------------------------------

  lemma CenterCross(i: Species, D: Matrix, R: Matrix, a: real, b: real, e: real)
    ensures CenterAt(i, D, R, a, b + e) - CenterAt(i, D, R, a, b)
            == (R.At(i, Cross(i)) * a + 2.0 * (D.At(i, Cross(i)) * a)) * e
  {
    assert a * (b + e) == a * b + a * e;
  }

  lemma BorderCross(i: Species, D: Matrix, a: real, b: real, e: real)
    ensures BorderAt(i, D, a, b + e) - BorderAt(i, D, a, b) == (D.At(i, Cross(i)) * a) * e
  {
    assert a * (b + e) == a * b + a * e;
  }

  /** Row r of a coupling: `m * e[r]` less the flux-weighted values of
      both ring neighbours. */
  function Coupling(m: real, da: Vector, e: Vector, r: int): real
    requires |da| == |e| && 0 <= r < |e|
  {
    Times(m, e[r]) - Times(da[Left(r, |e|)], e[Left(r, |e|)])
    - Times(da[Right(r, |e|)], e[Right(r, |e|)])
  }

  /** The change of residual entry r when B moves by E: the block's main
      entry times E[r] minus the neighbours' flux times their E. */
  lemma CrossChangeAt(i: Species, A: Vector, B: Vector, E: Vector, D: Matrix, R: Matrix, r: int)
    requires |A| == |B| == |E| && 0 <= r < |A|
    ensures Residual(i, A, Add(B, E), D, R)[r] - Residual(i, A, B, D, R)[r]
            == Coupling(R.At(i, Cross(i)) * A[r] + 2.0 * Flux(i, A, D)[r], Flux(i, A, D), E, r)
  {
    var k := |A|;
    var l, rt := Left(r, k), Right(r, k);
    var B' := Add(B, E);
    ResidualChange(i, A, B, A, B', D, R, r);
    assert B'[r] == B[r] + E[r] && B'[l] == B[l] + E[l] && B'[rt] == B[rt] + E[rt];
    CenterCross(i, D, R, A[r], B[r], E[r]);
    BorderCross(i, D, A[l], B[l], E[l]);
    BorderCross(i, D, A[rt], B[rt], E[rt]);
  }

  /** Entry r of the block applied to E, read off the five parts. */
  lemma BlockApplyAt(i: Species, A: Vector, E: Vector, D: Matrix, R: Matrix, r: int)
    requires |A| == |E| && 0 <= r < |A|
    ensures SparseRow(BlockDiags(i, A, D, R), E, r)
            == Coupling(R.At(i, Cross(i)) * A[r] + 2.0 * Flux(i, A, D)[r], Flux(i, A, D), E, r)
  {
    BlockFluxParts(i, A, D, R);
    ApplyCoupling(BlockDiags(i, A, D, R), E, Flux(i, A, D),
                  R.At(i, Cross(i)) * A[r] + 2.0 * Flux(i, A, D)[r], r);
  }

  /** The five parts in terms of the flux `DA`. */
  lemma BlockFluxParts(i: Species, A: Vector, D: Matrix, R: Matrix)
    requires |A| >= 1
    ensures BlockDiags(i, A, D, R).topRight[0] == -Flux(i, A, D)[|A| - 1]
    ensures BlockDiags(i, A, D, R).bottomLeft[0] == -Flux(i, A, D)[0]
    ensures forall n :: 0 <= n < |A| - 1 ==>
              BlockDiags(i, A, D, R).upper[n] == -Flux(i, A, D)[n + 1]
              && BlockDiags(i, A, D, R).lower[n] == -Flux(i, A, D)[n]
    ensures forall n :: 0 <= n < |A| ==>
              BlockDiags(i, A, D, R).main[n] == R.At(i, Cross(i)) * A[n] + 2.0 * Flux(i, A, D)[n]
  {
  }

  /** Entry r of `Apply` for a block whose off-diagonal parts are the
      negated fluxes `da` of the neighbours. */
  lemma ApplyCoupling(t: Tridiag, e: Vector, da: Vector, m: real, r: int)
    requires Shaped(t, |e|) && |da| == |e| && 0 <= r < |e|
    requires t.main[r] == m
    requires t.topRight[0] == -da[|e| - 1] && t.bottomLeft[0] == -da[0]
    requires forall n :: 0 <= n < |e| - 1 ==> t.upper[n] == -da[n + 1] && t.lower[n] == -da[n]
    ensures SparseRow(t, e, r) == Coupling(m, da, e, r)
  {
    var k := |e|;
    var l, rt := Left(r, k), Right(r, k);
    assert (if r + 1 < k then Times(t.upper[r], e[r + 1]) else 0.0)
           + (if r == k - 1 then Times(t.bottomLeft[0], e[0]) else 0.0)
           == -(da[rt] * e[rt]);
    assert (if r > 0 then Times(t.lower[r - 1], e[r - 1]) else 0.0)
           + (if r == 0 then Times(t.topRight[0], e[k - 1]) else 0.0)
           == -(da[l] * e[l]);
  }

  /** `f` is affine in the other species, and `block_diags` is exactly its
      coefficient: for every perturbation E of B,
      `f(i, A, B + E) - f(i, A, B)` is the block times E, with no
      higher-order remainder. */
  lemma CrossBlockExact(i: Species, A: Vector, B: Vector, E: Vector, D: Matrix, R: Matrix)
    requires |A| == |B| == |E| >= 1
    ensures Sub(Residual(i, A, Add(B, E), D, R), Residual(i, A, B, D, R))
            == MatVec(BlockDiags(i, A, D, R), E)
  {
    var t := BlockDiags(i, A, D, R);
    ApplyIsMatVec(t, E);
    forall r | 0 <= r < |A|
      ensures Sub(Residual(i, A, Add(B, E), D, R), Residual(i, A, B, D, R))[r] == Apply(t, E)[r]
    {
      CrossChangeAt(i, A, B, E, D, R, r);
      BlockApplyAt(i, A, E, D, R, r);
    }
  }
}
