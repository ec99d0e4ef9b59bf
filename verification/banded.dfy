/** `merge_diags`: the four K x K Jacobian blocks of the two-species system,
    each in five-part form, stitched into the 11 diagonal bands of the
    2K x 2K Jacobian `[[P, Q], [R, S]]` of the packed state `UVtoX(U, V)`.
    P and S are the self blocks of U and V, Q is U's block with respect to
    V and R is V's block with respect to U.

    A band at offset d (column minus row) of a 2K x 2K matrix has 2K - |d|
    entries; entry j lies at (j, j + d) when d >= 0 and at (j - d, j) when
    d < 0, the layout of `scipy.sparse.diags`. */
module Banded {
  import opened Vectors
  import opened Blocks

  /** The 11 bands in the order `merge_diags` lists them. Every band is the
      concatenation of the parts that lie on its diagonal, from the top-left
      of the full matrix down. */
  function MergeDiags(P: Tridiag, Q: Tridiag, R: Tridiag, S: Tridiag): (bands: seq<Vector>)
    ensures |bands| == 11
  {
    [ Q.topRight,
      Q.upper,
      Q.main,
      P.topRight + Q.lower + S.topRight,
      P.upper + Q.bottomLeft + S.upper,
      P.main + S.main,
      P.lower + R.topRight + S.lower,
      P.bottomLeft + R.upper + S.bottomLeft,
      R.main,
      R.lower,
      R.bottomLeft ]
  }

  // ---------------------------------------------------------------------
  // Sizes
  // ---------------------------------------------------------------------

  /** Total number of stored values in the five parts. */
  function PartsLength(t: Tridiag): nat
  {
    |t.topRight| + |t.upper| + |t.main| + |t.lower| + |t.bottomLeft|
  }

  /** Total number of stored values in a list of bands. */
  function BandsLength(bands: seq<Vector>): nat
  {
    if |bands| == 0 then 0 else |bands[0]| + BandsLength(bands[1..])
  }

  lemma BandsLengthFrom(bands: seq<Vector>, i: int)
    requires 0 <= i < |bands|
    ensures BandsLength(bands[i..]) == |bands[i]| + BandsLength(bands[i + 1..])
  {
    assert bands[i..][1..] == bands[i + 1..];
  }

  /** Every one of the 20 parts ends up in exactly one band: no value is
      dropped or duplicated. */
  lemma MergeKeepsEverything(P: Tridiag, Q: Tridiag, R: Tridiag, S: Tridiag)
    ensures BandsLength(MergeDiags(P, Q, R, S))
            == PartsLength(P) + PartsLength(Q) + PartsLength(R) + PartsLength(S)
  {
    var m := MergeDiags(P, Q, R, S);
    assert m[0..] == m;
    assert m[11..] == [];
    BandsLengthFrom(m, 0);
    BandsLengthFrom(m, 1);
    BandsLengthFrom(m, 2);
    BandsLengthFrom(m, 3);
    BandsLengthFrom(m, 4);
    BandsLengthFrom(m, 5);
    BandsLengthFrom(m, 6);
    BandsLengthFrom(m, 7);
    BandsLengthFrom(m, 8);
    BandsLengthFrom(m, 9);
    BandsLengthFrom(m, 10);
  }

  // ---------------------------------------------------------------------
  // Offsets and the banded layout
  // ---------------------------------------------------------------------

  function Abs(d: int): nat
  {
    if d < 0 then -d else d
  }

  /** The offset of each band of a 2K x 2K matrix built from K x K blocks. */
  function Offsets(k: int): (o: seq<int>)
    ensures |o| == 11
  {
    [2 * k - 1, k + 1, k, k - 1, 1, 0, -1, -(k - 1), -k, -(k + 1), -(2 * k - 1)]
  }

  /** From K = 3 on the offsets strictly decrease, so each diagonal of the
      full matrix is stored in at most one band. */
  lemma OffsetsDecrease(k: int)
    requires k >= 3
    ensures forall a, b :: 0 <= a < b < 11 ==> Offsets(k)[a] > Offsets(k)[b]
  {
  }

  /** On a two-node grid the offsets collide in pairs: 2K-1 == K+1 puts
      bands 0 and 1 on offset 3 (and bands 9 and 10 on -3), and K-1 == 1
      puts bands 3 and 4 on offset 1 (and bands 6 and 7 on -1). So the
      layout needs K >= 3. */
  lemma OffsetsCollideOnTwoNodes()
    ensures Offsets(2)[0] == Offsets(2)[1] == 3
    ensures Offsets(2)[9] == Offsets(2)[10] == -3
    ensures Offsets(2)[3] == Offsets(2)[4] == 1
    ensures Offsets(2)[6] == Offsets(2)[7] == -1
  {
  }

  /** Bands whose lengths fit a 2K x 2K matrix at the offsets above. */
  predicate BandLengthsFit(bands: seq<Vector>, k: int)
  {
    k >= 1 && |bands| == 11
    && forall b :: 0 <= b < 11 ==> |bands[b]| == 2 * k - Abs(Offsets(k)[b])
  }

  /** All four blocks have the five-part shape `block_diags` returns. */
  predicate AllShaped(P: Tridiag, Q: Tridiag, R: Tridiag, S: Tridiag, k: int)
  {
    Shaped(P, k) && Shaped(Q, k) && Shaped(R, k) && Shaped(S, k)
  }

  /** Blocks of `block_diags` shape give bands of lengths
      1, K-1, K, K+1, 2K-1, 2K, 2K-1, K+1, K, K-1, 1. */
  lemma MergeIsBanded(P: Tridiag, Q: Tridiag, R: Tridiag, S: Tridiag, k: int)
    requires AllShaped(P, Q, R, S, k)
    ensures BandLengthsFit(MergeDiags(P, Q, R, S), k)
  {
  }

  /** The band holding diagonal d, or -1 when no band does. */
  function BandIndex(k: int, d: int): (b: int)
    ensures -1 <= b < 11
    ensures b >= 0 ==> Offsets(k)[b] == d
    ensures b == -1 <==> forall c :: 0 <= c < 11 ==> Offsets(k)[c] != d
  {
    if d == 2 * k - 1 then 0
    else if d == k + 1 then 1
    else if d == k then 2
    else if d == k - 1 then 3
    else if d == 1 then 4
    else if d == 0 then 5
    else if d == -1 then 6
    else if d == -(k - 1) then 7
    else if d == -k then 8
    else if d == -(k + 1) then 9
    else if d == -(2 * k - 1) then 10
    else -1
  }

  /** Entry (row, col) of the 2K x 2K matrix the bands describe. */
  function BandEntry(bands: seq<Vector>, k: int, row: int, col: int): real
    requires BandLengthsFit(bands, k) && 0 <= row < 2 * k && 0 <= col < 2 * k
  {
    var b := BandIndex(k, col - row);
    if b < 0 then 0.0
    else if col >= row then bands[b][row]
    else bands[b][col]
  }

  /** Entry (row, col) of the block matrix `[[P, Q], [R, S]]`. */
  function BlockEntry(P: Tridiag, Q: Tridiag, R: Tridiag, S: Tridiag, k: int, row: int, col: int): real
    requires AllShaped(P, Q, R, S, k)
    requires 0 <= row < 2 * k && 0 <= col < 2 * k
  {
    if row < k && col < k then Entry(P, k, row, col)
    else if row < k then Entry(Q, k, row, col - k)
    else if col < k then Entry(R, k, row - k, col)
    else Entry(S, k, row - k, col - k)
  }

  // ---------------------------------------------------------------------
  // Placement: the bands describe exactly the block matrix
  // ---------------------------------------------------------------------

  /** For K >= 3, every entry of the 2K x 2K matrix read from the merged
      bands equals the entry of the block matrix `[[P, Q], [R, S]]`: the
      bands hold every block entry at its place, and everything off the 11
      diagonals is zero in both. K >= 3 is where the offsets are distinct
      (`OffsetsDecrease`); `OffsetsCollideOnTwoNodes` shows K = 2 fails. */
  lemma MergePlacement(P: Tridiag, Q: Tridiag, R: Tridiag, S: Tridiag, k: int, row: int, col: int)
    requires k >= 3 && AllShaped(P, Q, R, S, k)
    requires 0 <= row < 2 * k && 0 <= col < 2 * k
    ensures BandLengthsFit(MergeDiags(P, Q, R, S), k)
    ensures BandEntry(MergeDiags(P, Q, R, S), k, row, col) == BlockEntry(P, Q, R, S, k, row, col)
  {
  }
}
