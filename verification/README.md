# pyspecies numeric core in Dafny

A model of `src/pyspecies/_utils.py`, the numeric building blocks of the
implicit (backward Euler / Newton) step of the two-species
reaction–diffusion simulator. The concentrations of species U and V live on
a periodic grid of K nodes. The state vector is their concatenation.
Vectors are `seq<real>`. The normalized diffusion and reaction matrices D
and R are 2×3 real matrices. The column convention of `_utils.py` is kept:
`j = i+1` is the own quadratic term and `k = 2-i` the cross term.

Modules:

- `Vectors`: sums, element-wise operations, unit vectors, ring neighbours
  and `np.roll` (entry n of `np.roll(v, s)` is `v[(n - s) mod |v|]`).
- `Coefficients`: the species index, the 2×3 `Matrix`, and the
  `InvalidSpeciesIndex` error that the `assert i == 0 or i == 1` guards
  raise.
- `Packing`: `UVtoX` and `XtoUV`.
- `Residuals`: the node polynomials `center` and `border`, the residual
  `f`, and its periodicity and conservation laws.
- `Derivatives`: `mu` and `nu`, and the proof that they are the exact
  derivatives that build the self (diagonal) Jacobian blocks.
- `Blocks`: the five-part periodic tridiagonal form, its dense and sparse
  products, `block_diags`, and the proof that `block_diags` is the exact
  Jacobian of `f` with respect to the other species.
- `Banded`: `merge_diags`, the 11 band offsets, and the proof that the
  bands hold exactly the block matrix `[[P, Q], [R, S]]`.

## Model

| member | source | states |
|---|---|---|
| Packing.UVtoX | src/pyspecies/_utils.py:27-31 | The packed vector has length 2K. Its first K entries are U, the rest are V; it is `U + V`. |
| Packing.XtoUV | src/pyspecies/_utils.py:13-14 | The first half has `len // 2` entries, the second the rest, and the two concatenate back to X. |
| Packing.PackUnpack | src/pyspecies/_utils.py:4-31 | Unpacking a packed pair gives back `(U, V)`. |
| Packing.UnpackPack | src/pyspecies/_utils.py:13-14 | For even length, the halves are equal in length and packing them gives back X. |
| Packing.UnpackOdd | src/pyspecies/_utils.py:13-14 | For odd length nothing is rejected: the second half is one entry longer than the first. |
| Vectors.RollNeighbours | src/pyspecies/_utils.py:84 | `np.roll` by 1 puts the left ring neighbour at each node; by -1, the right one. |
| Vectors.RollCompose | src/pyspecies/_utils.py:84 | Two rolls compose into one roll by the sum of the shifts. |
| Vectors.SumRollOne | src/pyspecies/_utils.py:84 | Rolling by ±1 keeps the sum of a vector. |
| Vectors.Roll | src/pyspecies/_utils.py:84 | `np.roll` keeps the length of the vector. Where each entry goes is stated by `RollMoves` and `RollNeighbours`. |
| Vectors.RollMoves | src/pyspecies/_utils.py:84 | Entry n lands at position `(n + s) mod K`: every entry moves s places forward round the ring. |
| Residuals.Residual | src/pyspecies/_utils.py:77-84 | Same length as A. Entry n is `center[n] - border[(n-1) mod K] - border[(n+1) mod K]`, a periodic three-point stencil. |
| Residuals.F | src/pyspecies/_utils.py:76-84 | Succeeds exactly when i is 0 or 1; any other index yields `InvalidSpeciesIndex(i)`. On success the value is the residual. |
| Residuals.Center | src/pyspecies/_utils.py:78-82 | `center` has one value per node (length K). `CenterSplits` states its content. |
| Residuals.Border | src/pyspecies/_utils.py:83 | `border` has one value per node (length K). `BorderFactors` states its content. |
| Residuals.BorderFactors | src/pyspecies/_utils.py:83 | `border` is `A·(D[i,0] + D[i,i+1]A + D[i,2-i]B)`, so a node with zero concentration hands nothing to its neighbours. |
| Residuals.CenterSplits | src/pyspecies/_utils.py:78-83 | `center` is the reaction term plus two `border` shares. |
| Residuals.ResidualRotation | src/pyspecies/_utils.py:77-84 | Rotating A and B by any s rotates the residual by s. |
| Residuals.UniformResidual | src/pyspecies/_utils.py:78-84 | On a uniform state every entry is `(1-R[i,0])a + R[i,i+1]a² + R[i,2-i]ab`, with no D term. It is zero at a reaction equilibrium. |
| Residuals.ResidualTotal | src/pyspecies/_utils.py:78-84 | The residual sums to the summed reaction term: diffusion only moves material between nodes. |
| Residuals.ResidualTotalIgnoresDiffusion | src/pyspecies/_utils.py:78-84 | The residual's total is the same for every D. |
| Derivatives.Mu | src/pyspecies/_utils.py:101-102 | Succeeds exactly for i in {0, 1}, else `InvalidSpeciesIndex(i)`. On success it has length K. |
| Derivatives.Nu | src/pyspecies/_utils.py:122-127 | Succeeds exactly for i in {0, 1}, else `InvalidSpeciesIndex(i)`. On success it has length K. |
| Derivatives.MuIsBorderDerivative | src/pyspecies/_utils.py:101-102 | Moving `A[n]` by h changes `border` only at n, by `h·mu[n] + h²·D[i,i+1]`. |
| Derivatives.NuIsCenterDerivative | src/pyspecies/_utils.py:122-127 | Moving `A[n]` by h changes `center` only at n, by `h·nu[n] + h²·(R[i,i+1] + 2D[i,i+1])`. |
| Derivatives.NuMinusTwoMu | src/pyspecies/_utils.py:101-127 | `nu[n] - 2·mu[n] = (1-R[i,0]) + 2R[i,i+1]A[n] + R[i,2-i]B[n]`. |
| Derivatives.ResidualSelfPerturbation | src/pyspecies/_utils.py:78-127 | Moving `A[n]` by h moves residual entry n by `h·nu[n]` and each ring neighbour's entry by `-h·mu[n]`, each plus its exact second-order term. No other entry moves. |
| Blocks.BlockDiags | src/pyspecies/_utils.py:145-152 | For non-empty A the parts have lengths 1, K-1, K, K-1, 1. |
| Blocks.Flux | src/pyspecies/_utils.py:145 | `DA` has one value per node (length K). `BlockParts` states the block's parts in terms of `D[i,2-i]A`. |
| Blocks.BlockParts | src/pyspecies/_utils.py:145-152 | The corners are `-D[i,2-i]A[K-1]` and `-D[i,2-i]A[0]`. The bands are `-DA[1:]` and `-DA[:-1]`, and the main band is `(R[i,2-i] + 2D[i,2-i])A`. |
| Blocks.ApplyIsMatVec | src/pyspecies/_utils.py:146-152 | The sparse product, which reads only the five parts, equals the dense product of the periodic tridiagonal matrix they describe. |
| Blocks.CrossBlockExact | src/pyspecies/_utils.py:145-152 | For every K ≥ 1 and every perturbation E, `f(i, A, B+E) - f(i, A, B)` is exactly the block matrix times E. |
| Banded.MergeDiags | src/pyspecies/_utils.py:46-58 | Exactly 11 bands, in the order `merge_diags` lists them. `MergeKeepsEverything`, `MergeIsBanded` and `MergePlacement` state their contents. |
| Banded.MergeKeepsEverything | src/pyspecies/_utils.py:46-58 | The 11 bands hold as many values as the 20 input parts together. |
| Banded.MergeIsBanded | src/pyspecies/_utils.py:46-58 | Blocks of `block_diags` shape give bands of lengths 1, K-1, K, K+1, 2K-1, 2K, 2K-1, K+1, K, K-1, 1, which is `2K - abs(d)` at each band's offset d. |
| Banded.MergePlacement | src/pyspecies/_utils.py:46-58 | For K ≥ 3, every entry of the 2K×2K matrix read from the bands equals the entry of `[[P, Q], [R, S]]`. |

The species-index `assert` in `f`, `mu` and `nu` is modelled as an error value:
`F`, `Mu` and `Nu` take any integer index and return
`Err(InvalidSpeciesIndex(i))` when it is not 0 or 1.

The dense reference for a five-part block is `Blocks.Entry`: the sum of the
five parts' contributions at each position. So on grids of one or two nodes
a corner adds to the band it overlaps. This is also what the sparse product
computes, and `CrossBlockExact` holds for every K ≥ 1.

The band offsets are not written in `_utils.py`. The model infers them from
the band lengths and the block layout `[[P, Q], [R, S]]`: `2K-1, K+1, K,
K-1, 1, 0, -1, -(K-1), -K, -(K+1), -(2K-1)`. It uses the
`scipy.sparse.diags` layout: entry j of the band at offset d sits at
`(j, j+d)` for d ≥ 0 and at `(j-d, j)` for d < 0. For K = 2 the
offsets collide in pairs: 2K-1 = K+1 and K-1 = 1, so bands 0 and 1 share
offset 3, bands 3 and 4 share offset 1, and likewise below the diagonal
(`Banded.OffsetsCollideOnTwoNodes`). The placement theorem is therefore
stated for K ≥ 3, where the offsets strictly decrease
(`Banded.OffsetsDecrease`).

`XtoUV` does not reject an odd-length state: it splits at `len // 2` and
returns a second half one entry longer (`Packing.UnpackOdd`).

## Left out

- `lib/population.py` is not part of this model: initial sampling, the time loop, history lists and animation are orchestration and I/O.
- The Newton iteration, the backward Euler driver and the banded linear solve are not part of this model. They live outside `_utils.py`, and the solve is a SciPy call. Hence the band layout above is an assumption.
- The self blocks P and S are assembled from `mu` and `nu` outside `_utils.py`. The model states instead what those vectors are the derivatives of (`Derivatives.ResidualSelfPerturbation`).
- Float64 rounding is not modelled: all arithmetic is over exact reals, and nothing is claimed about numerical accuracy or convergence.
- Packing.UVtoX: NumPy broadcasting is not modelled (for example a length-1 V is silently repeated); the model requires `|U| == |V|`.
- Residuals.F: likewise requires `|A| == |B|` instead of modelling broadcasting between A and B.
- Derivatives.Mu: likewise requires `|A| == |B|` instead of modelling broadcasting between A and B.
- Derivatives.Nu: likewise requires `|A| == |B|` instead of modelling broadcasting between A and B.
- Blocks.BlockDiags: `block_diags` has no species-index guard, so the model takes `i` in {0, 1} as a precondition. It also requires a non-empty A, because it reads `DA[-1]` and `DA[0]`.
- Residuals.Center: the contract states only the length; the node-wise content is the separate lemma `CenterSplits`, because quantified content clauses on `Center` and `Border` make the proof of `CrossBlockExact` too expensive.
- Residuals.Border: likewise states only the length; its content is `BorderFactors`.
- Blocks.Flux: states only the length; its values appear in `BlockParts`.
- Banded.MergeDiags: `merge_diags` accepts any lists of parts. The model takes the four blocks as five-part records, and the layout theorems assume `block_diags`-shaped blocks.
- Banded.MergePlacement: stated only for K ≥ 3, where the 11 offsets are distinct.
