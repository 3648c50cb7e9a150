/** Vectors and matrices over the field, and dot products of their prefixes. */
module FecVector {
  import opened FecField

  type Vector = seq<gf>
  type Matrix = seq<seq<gf>>

  /** The sum of u[i] * v[i] for i < n. */
  function Dot(F: Field, u: Vector, v: Vector, n: nat): gf
    requires n <= |u| && n <= |v|
  {
    if n == 0 then 0 else Add(F, Dot(F, u, v, n - 1), Mul(F, u[n - 1], v[n - 1]))
  }

  ghost predicate IsMatrix(A: Matrix, rows: nat, cols: nat) {
    |A| == rows && forall r :: 0 <= r < rows ==> |A[r]| == cols
  }

  function MatVec(F: Field, A: Matrix, v: Vector, n: nat): (y: Vector)
    requires n <= |v| && forall r :: 0 <= r < |A| ==> n <= |A[r]|
    ensures |y| == |A|
  {
    seq(|A|, r requires 0 <= r < |A| => Dot(F, A[r], v, n))
  }

  function Zeros(k: nat): Vector { seq(k, i => 0) }

  function Unit(k: nat, p: nat): Vector { seq(k, i => if i == p then 1 else 0) }

  lemma {:induction false} DotExt(F: Field, u: Vector, v: Vector, u': Vector, v': Vector, n: nat)
    requires n <= |u| && n <= |v| && n <= |u'| && n <= |v'|
    requires forall i :: 0 <= i < n ==> u[i] == u'[i] && v[i] == v'[i]
    ensures Dot(F, u, v, n) == Dot(F, u', v', n)
  {
    if n > 0 { DotExt(F, u, v, u', v', n - 1); }
  }

  lemma {:induction false} DotComm(F: Field, u: Vector, v: Vector, n: nat)
    requires Laws(F) && n <= |u| && n <= |v|
    ensures Dot(F, u, v, n) == Dot(F, v, u, n)
  {
    if n > 0 {
      DotComm(F, u, v, n - 1);
      assert MulComm(F, u[n - 1], v[n - 1]);
    }
  }

  /** A dot product against a vector of zeros. */
  lemma {:induction false} DotZero(F: Field, u: Vector, v: Vector, n: nat)
    requires Laws(F) && n <= |u| && n <= |v|
    requires forall i :: 0 <= i < n ==> u[i] == 0 || v[i] == 0
    ensures Dot(F, u, v, n) == 0
  {
    if n > 0 {
      DotZero(F, u, v, n - 1);
      Zero(F, u[n - 1]);
      Zero(F, v[n - 1]);
      Zero(F, 0);
    }
  }

  /** Taking one term out of the sum. */
  lemma {:induction false} DotSplit(F: Field, u: Vector, v: Vector, n: nat, p: nat)
    requires Laws(F) && n <= |u| && n <= |v| && p < n
    ensures Dot(F, u, v, n) == Add(F, Dot(F, u[p := 0], v, n), Mul(F, u[p], v[p]))
  {
    var z := u[p := 0];
    var t := Mul(F, u[p], v[p]);
    if p == n - 1 {
      DotExt(F, u, v, z, v, n - 1);
      Zero(F, v[p]);
      Zero(F, Dot(F, z, v, n - 1));
    } else {
      DotSplit(F, u, v, n - 1, p);
      var d, l := Dot(F, z, v, n - 1), Mul(F, u[n - 1], v[n - 1]);
      assert AddAssoc(F, d, t, l) && AddComm(F, t, l) && AddAssoc(F, d, l, t);
    }
  }

  lemma DotUnit(F: Field, v: Vector, n: nat, k: nat, p: nat)
    requires Laws(F) && p < n <= k && n <= |v|
    ensures Dot(F, Unit(k, p), v, n) == v[p]
  {
    DotSplit(F, Unit(k, p), v, n, p);
    DotZero(F, Unit(k, p)[p := 0], v, n);
    Zero(F, v[p]);
  }

  /** w == a + s * b on the first n entries. */
  ghost predicate Axpy(F: Field, w: Vector, a: Vector, s: gf, b: Vector, n: nat)
    requires n <= |w| && n <= |a| && n <= |b|
  {
    forall i :: 0 <= i < n ==> w[i] == Add(F, a[i], Mul(F, s, b[i]))
  }

  lemma {:induction false} DotAxpy(F: Field, w: Vector, a: Vector, s: gf, b: Vector, v: Vector, n: nat)
    requires Laws(F) && n <= |w| && n <= |a| && n <= |b| && n <= |v|
    requires Axpy(F, w, a, s, b, n)
    ensures Dot(F, w, v, n) == Add(F, Dot(F, a, v, n), Mul(F, s, Dot(F, b, v, n)))
  {
    if n == 0 {
      Zero(F, s);
      Zero(F, 0);
    } else {
      DotAxpy(F, w, a, s, b, v, n - 1);
      var x, y, z := a[n - 1], b[n - 1], v[n - 1];
      DistribRight(F, x, Mul(F, s, y), z);
      assert MulAssoc(F, s, y, z);
      assert Distrib(F, s, Dot(F, b, v, n - 1), Mul(F, y, z));
      AddSwap(F, Dot(F, a, v, n - 1), Mul(F, s, Dot(F, b, v, n - 1)), Mul(F, x, z), Mul(F, s, Mul(F, y, z)));
    }
  }

  lemma {:induction false} DotScale(F: Field, w: Vector, s: gf, b: Vector, v: Vector, n: nat)
    requires Laws(F) && n <= |w| && n <= |b| && n <= |v|
    requires forall i :: 0 <= i < n ==> w[i] == Mul(F, s, b[i])
    ensures Dot(F, w, v, n) == Mul(F, s, Dot(F, b, v, n))
  {
    if n == 0 {
      Zero(F, s);
    } else {
      DotScale(F, w, s, b, v, n - 1);
      assert MulAssoc(F, s, b[n - 1], v[n - 1]);
      assert Distrib(F, s, Dot(F, b, v, n - 1), Mul(F, b[n - 1], v[n - 1]));
    }
  }

  /** Exchanging the same two entries of both vectors keeps their dot product. */
  lemma DotSwap(F: Field, u: Vector, v: Vector, n: nat, i: nat, j: nat)
    requires Laws(F) && n <= |u| && n <= |v| && i < n && j < n
    ensures Dot(F, u[i := u[j]][j := u[i]], v[i := v[j]][j := v[i]], n) == Dot(F, u, v, n)
  {
    if i == j {
      DotExt(F, u[i := u[j]][j := u[i]], v[i := v[j]][j := v[i]], u, v, n);
    } else {
      var u', v' := u[i := u[j]][j := u[i]], v[i := v[j]][j := v[i]];
      DotSplit(F, u, v, n, i);
      DotSplit(F, u[i := 0], v, n, j);
      DotSplit(F, u', v', n, j);
      DotSplit(F, u'[j := 0], v', n, i);
      var z, z' := u[i := 0][j := 0], u'[j := 0][i := 0];
      assert z == z';
      DotComm(F, z, v, n);
      DotComm(F, z', v', n);
      DotZeroEntry(F, v, v', z, n, i, j);
      var d, x, y := Dot(F, z, v, n), Mul(F, u[i], v[i]), Mul(F, u[j], v[j]);
      assert AddAssoc(F, d, y, x) && AddAssoc(F, d, x, y) && AddComm(F, x, y);
    }
  }

  lemma {:induction false} DotZeroEntry(F: Field, v: Vector, v': Vector, z: Vector, n: nat, i: nat, j: nat)
    requires Laws(F) && n <= |v| && n <= |v'| && n <= |z|
    requires forall c :: 0 <= c < n && c != i && c != j ==> v[c] == v'[c]
    requires (i < |z| ==> z[i] == 0) && (j < |z| ==> z[j] == 0)
    ensures Dot(F, z, v, n) == Dot(F, z, v', n)
  {
    if n > 0 {
      DotZeroEntry(F, v, v', z, n - 1, i, j);
      Zero(F, v[n - 1]);
      Zero(F, v'[n - 1]);
    }
  }

  /** Row vector times matrix: entry j is the sum of u[i] * M[i][j] for i < n. */
  function Column(M: Matrix, j: nat): Vector
    requires forall r :: 0 <= r < |M| ==> j < |M[r]|
  {
    seq(|M|, r requires 0 <= r < |M| => M[r][j])
  }

  /** (u M) v == u (M v), where w is u M on its first n entries. */
  lemma {:induction false} DotAssoc(F: Field, u: Vector, M: Matrix, w: Vector, v: Vector, k: nat, n: nat)
    requires Laws(F) && IsMatrix(M, k, k) && |u| == |w| == |v| == k && n <= k
    requires forall j :: 0 <= j < n ==> w[j] == Dot(F, u, Column(M, j), k)
    ensures Dot(F, w, v, n) == Dot(F, u, MatVec(F, M, v, n), k)
  {
    if n == 0 {
      DotZero(F, u, MatVec(F, M, v, 0), k);
    } else {
      DotAssoc(F, u, M, w, v, k, n - 1);
      var a, b, c := MatVec(F, M, v, n), MatVec(F, M, v, n - 1), Column(M, n - 1);
      forall i | 0 <= i < k ensures a[i] == Add(F, b[i], Mul(F, v[n - 1], c[i])) {
        assert MulComm(F, M[i][n - 1], v[n - 1]);
      }
      DotComm(F, u, a, k);
      DotComm(F, u, b, k);
      DotComm(F, u, c, k);
      DotAxpy(F, a, b, v[n - 1], c, u, k);
      assert MulComm(F, w[n - 1], v[n - 1]);
    }
  }
}
