/** Conversion between the two species' concentration vectors and the
    concatenated state vector (`UVtoX` / `XtoUV`). */
module Packing {
  import opened Vectors

  /** `UVtoX`: a zero vector of length 2K whose first K entries are
      overwritten with U and the last K with V. */
  function UVtoX(U: Vector, V: Vector): (X: Vector)
    requires |U| == |V|
    ensures |X| == 2 * |U|
    ensures X[..|U|] == U && X[|U|..] == V
    ensures X == U + V
  {
    var k := |U|;
    seq(2 * k, n requires 0 <= n < 2 * k => if n < k then U[n] else V[n - k])
  }

  /** `XtoUV`: split at `len // 2`. */
  function XtoUV(X: Vector): (p: (Vector, Vector))
    ensures |p.0| == |X| / 2
    ensures |p.1| == |X| - |X| / 2
    ensures p.0 + p.1 == X
  {
    var k := |X| / 2;
    (X[..k], X[k..])
  }

  /** Packing then unpacking gives back the two species vectors. */
  lemma PackUnpack(U: Vector, V: Vector)
    requires |U| == |V|
    ensures XtoUV(UVtoX(U, V)) == (U, V)
  {
  }

  /** For an even-length state, unpacking yields two equal halves and
      packing them again gives back the state. */
  lemma UnpackPack(X: Vector)
    requires |X| % 2 == 0
    ensures |XtoUV(X).0| == |XtoUV(X).1|
    ensures UVtoX(XtoUV(X).0, XtoUV(X).1) == X
  {
  }

  /** For an odd-length state nothing is rejected: the second half is one
      entry longer than the first, so the pair cannot be packed back. */
  lemma UnpackOdd(X: Vector)
    requires |X| % 2 == 1
    ensures |XtoUV(X).1| == |XtoUV(X).0| + 1
  {
  }
}
