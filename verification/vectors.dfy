/** Real-valued vectors (the NumPy arrays of the library) and the handful
    of whole-vector operations the model uses: sums, element-wise sums,
    differences and products, unit vectors, and the periodic shift
    `np.roll`. */
module Vectors {

  type Vector = seq<real>

  /** Sum of all entries. */
  function Sum(v: Vector): real
  {
    if |v| == 0 then 0.0 else v[0] + Sum(v[1..])
  }

  lemma {:induction false} SumConcat(a: Vector, b: Vector)
    ensures Sum(a + b) == Sum(a) + Sum(b)
  {
    if |a| == 0 {
      assert a + b == b;
    } else {
      assert (a + b)[1..] == a[1..] + b;
      SumConcat(a[1..], b);
    }
  }

  /** Element-wise difference `a - b`. */
  function Sub(a: Vector, b: Vector): (r: Vector)
    requires |a| == |b|
    ensures |r| == |a|
    ensures forall n :: 0 <= n < |a| ==> r[n] + b[n] == a[n]
  {
    seq(|a|, n requires 0 <= n < |a| => a[n] - b[n])
  }

  /** Element-wise sum `a + b`. */
  function Add(a: Vector, b: Vector): (r: Vector)
    requires |a| == |b|
    ensures |r| == |a|
    ensures forall n :: 0 <= n < |a| ==> r[n] - b[n] == a[n]
  {
    seq(|a|, n requires 0 <= n < |a| => a[n] + b[n])
  }

  /** Element-wise product. */
  function Mul(a: Vector, b: Vector): (r: Vector)
    requires |a| == |b|
    ensures |r| == |a|
  {
    seq(|a|, n requires 0 <= n < |a| => a[n] * b[n])
  }

  /** Inner product. */
  function Dot(a: Vector, b: Vector): real
    requires |a| == |b|
  {
    Sum(Mul(a, b))
  }

  lemma {:induction false} SumAdd(a: Vector, b: Vector)
    requires |a| == |b|
    ensures Sum(Add(a, b)) == Sum(a) + Sum(b)
  {
    if |a| != 0 {
      assert Add(a, b)[1..] == Add(a[1..], b[1..]);
      SumAdd(a[1..], b[1..]);
    }
  }

  /** The vector of length `k` that is `v` at index `t` and zero elsewhere
      (all zero when `t` is out of range). */
  function Unit(k: nat, t: int, v: real): (u: Vector)
    ensures |u| == k
  {
    seq(k, c requires 0 <= c < k => if c == t then v else 0.0)
  }

  /** Summing a unit vector gives its one entry. */
  lemma {:induction false} SumUnit(k: nat, t: int, v: real)
    ensures Sum(Unit(k, t, v)) == if 0 <= t < k then v else 0.0
  {
    if k != 0 {
      assert Unit(k, t, v)[1..] == Unit(k - 1, t - 1, v);
      SumUnit(k - 1, t - 1, v);
    }
  }

  lemma {:induction false} SumSub(a: Vector, b: Vector)
    requires |a| == |b|
    ensures Sum(Sub(a, b)) == Sum(a) - Sum(b)
  {
    if |a| != 0 {
      assert Sub(a, b)[1..] == Sub(a[1..], b[1..]);
      SumSub(a[1..], b[1..]);
    }
  }

  // ---------------------------------------------------------------------
  // Integer remainder facts (Dafny's `%` agrees with Python's for a
  // positive modulus, which is the only case used here).
  // ---------------------------------------------------------------------

  lemma ModUnique(x: int, q: int, r: int, m: int)
    requires 0 < m && 0 <= r < m && x == m * q + r
    ensures x % m == r && x / m == q
  {
    var q', r' := x / m, x % m;
    assert x == m * q' + r';
    assert m * (q - q') == r' - r;
    ZeroMultiple(m, q - q', r' - r);
  }

  /** The only multiple of `m` strictly between `-m` and `m` is zero. */
  lemma ZeroMultiple(m: int, d: int, e: int)
    requires 0 < m && m * d == e && -m < e < m
    ensures d == 0
  {
    if d > 0 {
      MulAtLeast(m, d);
    } else if d < 0 {
      MulAtLeast(m, -d);
    }
  }

  lemma {:induction false} MulAtLeast(m: int, d: int)
    requires 0 < m && 0 < d
    ensures m * d >= m
    decreases d
  {
    if d > 1 {
      MulAtLeast(m, d - 1);
      assert m * d == m * (d - 1) + m;
    }
  }

  /** Reducing before subtracting does not change the final remainder. */
  lemma ModShiftInner(x: int, s: int, m: int)
    requires 0 < m
    ensures (x % m - s) % m == (x - s) % m
  {
    var q1, q2 := x / m, (x % m - s) / m;
    var r := (x % m - s) % m;
    assert x == m * q1 + x % m;
    assert x % m - s == m * q2 + r;
    assert x - s == m * (q1 + q2) + r;
    ModUnique(x - s, q1 + q2, r, m);
  }

  /** Index of the left neighbour of node `n` on a ring of `k` nodes. */
  function Left(n: int, k: int): (l: int)
    requires 0 <= n < k
    ensures 0 <= l < k
  {
    if n == 0 then k - 1 else n - 1
  }

  /** Index of the right neighbour of node `n` on a ring of `k` nodes. */
  function Right(n: int, k: int): (r: int)
    requires 0 <= n < k
    ensures 0 <= r < k
  {
    if n == k - 1 then 0 else n + 1
  }

  /** The neighbours are the indices one step down and up, modulo `k`. */
  lemma NeighboursMod(n: int, k: int)
    requires 0 <= n < k
    ensures Left(n, k) == (n - 1) % k
    ensures Right(n, k) == (n + 1) % k
  {
    if n == 0 {
      ModUnique(-1, -1, k - 1, k);
    } else {
      ModUnique(n - 1, 0, n - 1, k);
    }
    if n == k - 1 {
      ModUnique(k, 1, 0, k);
    } else {
      ModUnique(n + 1, 0, n + 1, k);
    }
  }

  lemma LeftRightInverse(n: int, m: int, k: int)
    requires 0 <= n < k && 0 <= m < k
    ensures Left(m, k) == n <==> m == Right(n, k)
  {
  }

  // ---------------------------------------------------------------------
  // np.roll
  // ---------------------------------------------------------------------

  /** `np.roll(v, s)`: entry `n` of the result is entry `(n - s) mod |v|` of
      `v`, so a positive shift moves entries towards the end and the ones
      that fall off re-enter at the front. */
  function Roll(v: Vector, s: int): (r: Vector)
    ensures |r| == |v|
  {
    seq(|v|, n requires 0 <= n < |v| => v[(n - s) % |v|])
  }

  /** Entry n of `v` lands at position `(n + s) mod |v|`: the shift moves
      every entry s places forward round the ring. */
  lemma RollMoves(v: Vector, s: int, n: int)
    requires 0 <= n < |v|
    ensures Roll(v, s)[(n + s) % |v|] == v[n]
  {
    var k := |v|;
    var j := (n + s) % k;
    ModShiftInner(n + s, s, k);
    ModUnique(n, 0, n, k);
    assert (j - s) % k == n;
  }

  /** Shifting by one moves the last entry to the front. */
  lemma RollForward(v: Vector)
    requires |v| > 0
    ensures Roll(v, 1) == [v[|v| - 1]] + v[..|v| - 1]
  {
    var k := |v|;
    forall n | 0 <= n < k
      ensures Roll(v, 1)[n] == ([v[k - 1]] + v[..k - 1])[n]
    {
      NeighboursMod(n, k);
    }
  }

  /** Shifting by minus one moves the first entry to the end. */
  lemma RollBackward(v: Vector)
    requires |v| > 0
    ensures Roll(v, -1) == v[1..] + [v[0]]
  {
    var k := |v|;
    forall n | 0 <= n < k
      ensures Roll(v, -1)[n] == (v[1..] + [v[0]])[n]
    {
      NeighboursMod(n, k);
    }
  }

  /** `np.roll` by one and by minus one fetch the left and the right
      neighbour respectively. */
  lemma RollNeighbours(v: Vector)
    ensures forall n :: 0 <= n < |v| ==> Roll(v, 1)[n] == v[Left(n, |v|)]
    ensures forall n :: 0 <= n < |v| ==> Roll(v, -1)[n] == v[Right(n, |v|)]
  {
    forall n | 0 <= n < |v|
      ensures Roll(v, 1)[n] == v[Left(n, |v|)] && Roll(v, -1)[n] == v[Right(n, |v|)]
    {
      NeighboursMod(n, |v|);
    }
  }

  /** Two shifts compose into one shift by the sum. */
  lemma RollCompose(v: Vector, s: int, t: int)
    ensures Roll(Roll(v, s), t) == Roll(v, s + t)
  {
    var k := |v|;
    forall n | 0 <= n < k
      ensures Roll(Roll(v, s), t)[n] == Roll(v, s + t)[n]
    {
      RollComposeAt(v, s, t, n);
    }
  }

  lemma RollComposeAt(v: Vector, s: int, t: int, n: int)
    requires 0 <= n < |v|
    ensures Roll(Roll(v, s), t)[n] == Roll(v, s + t)[n]
  {
    var k := |v|;
    var j := (n - t) % k;
    var i := (n - (s + t)) % k;
    assert (j - s) % k == i by {
      ModShiftInner(n - t, s, k);
    }
    assert Roll(Roll(v, s), t)[n] == Roll(v, s)[j];
    assert Roll(v, s)[j] == v[(j - s) % k];
  }

  /** Shifting commutes with element-wise subtraction. */
  lemma RollSub(a: Vector, b: Vector, s: int)
    requires |a| == |b|
    ensures Roll(Sub(a, b), s) == Sub(Roll(a, s), Roll(b, s))
  {
  }

  /** A shift by one place permutes the entries, so it keeps the sum. */
  lemma SumRollOne(v: Vector)
    ensures Sum(Roll(v, 1)) == Sum(v)
    ensures Sum(Roll(v, -1)) == Sum(v)
  {
    if |v| > 0 {
      var k := |v|;
      RollForward(v);
      RollBackward(v);
      SumConcat([v[k - 1]], v[..k - 1]);
      SumConcat(v[..k - 1], [v[k - 1]]);
      assert v[..k - 1] + [v[k - 1]] == v;
      SumConcat(v[1..], [v[0]]);
      SumConcat([v[0]], v[1..]);
      assert [v[0]] + v[1..] == v;
    }
  }
}
