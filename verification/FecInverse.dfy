/** Gauss-Jordan inversion in place, as an exchange of unknowns.

    A matrix M relates x and y when y == M x. Pivoting on entry (p, p) makes x[p] an output and
    the y of that row an input, in the same storage. The invariant of the algorithm is that the
    stored matrix relates the two mixed vectors exactly when M relates x and y. */
module FecInverse {
  import opened FecField
  import opened FecVector

  ghost predicate Relates(F: Field, M: Matrix, x: Vector, y: Vector, k: nat) {
    && IsMatrix(M, k, k) && |x| == k && |y| == k
    && forall r {:trigger y[r]} {:trigger M[r]} :: 0 <= r < k ==> y[r] == Dot(F, M[r], x, k)
  }

  /** Only the zero vector is mapped to zero. */
  ghost predicate NonSingular(F: Field, M: Matrix, k: nat) {
    forall x: Vector {:trigger Relates(F, M, x, Zeros(k), k)} :: Relates(F, M, x, Zeros(k), k) ==> x == Zeros(k)
  }

  ghost predicate InvertsAt(F: Field, B: Matrix, M: Matrix, k: nat, x: Vector, y: Vector) {
    Relates(F, M, x, y, k) <==> Relates(F, B, y, x, k)
  }

  /** y == M x exactly when x == B y. */
  ghost predicate IsInverse(F: Field, B: Matrix, M: Matrix, k: nat) {
    forall x: Vector, y: Vector {:trigger InvertsAt(F, B, M, k, x, y)} :: InvertsAt(F, B, M, k, x, y)
  }

  // ---------- the mixed vectors ----------

  type Order = seq<nat>

  ghost predicate InRange(yi: Order, k: nat) { |yi| == k && forall r :: 0 <= r < k ==> yi[r] < k }

  /** The outputs: row r gives x[r] once it is a pivot row, and the y stored there before. */
  ghost function Outputs(x: Vector, y: Vector, piv: seq<bool>, yi: Order): Vector
    requires |x| == |y| == |piv| && InRange(yi, |x|)
  {
    seq(|x|, r requires 0 <= r < |x| => if piv[r] then x[r] else y[yi[r]])
  }

  /** The inputs: column c takes the y exchanged for x[c] once c is pivoted, and x[c] before. */
  ghost function Inputs(x: Vector, y: Vector, piv: seq<bool>, yi: Order): Vector
    requires |x| == |y| == |piv| && InRange(yi, |x|)
  {
    seq(|x|, c requires 0 <= c < |x| => if piv[c] then y[yi[c]] else x[c])
  }

  ghost predicate Linked(F: Field, M: Matrix, A: Matrix, piv: seq<bool>, yi: Order, k: nat, x: Vector, y: Vector)
    requires |piv| == k && InRange(yi, k)
  {
    |x| == k && |y| == k ==>
      (Relates(F, M, x, y, k) <==> Relates(F, A, Inputs(x, y, piv, yi), Outputs(x, y, piv, yi), k))
  }

  ghost predicate Exchanged(F: Field, M: Matrix, A: Matrix, piv: seq<bool>, yi: Order, k: nat) {
    && |piv| == k && InRange(yi, k) && IsMatrix(A, k, k)
    && forall x: Vector, y: Vector {:trigger Linked(F, M, A, piv, yi, k, x, y)} :: Linked(F, M, A, piv, yi, k, x, y)
  }

  function Swap<T>(s: seq<T>, i: nat, j: nat): seq<T>
    requires i < |s| && j < |s|
  {
    s[i := s[j]][j := s[i]]
  }

  function Identity(k: nat): Order { seq(k, i requires 0 <= i < k => i) }

  lemma ExchangeStart(F: Field, M: Matrix, k: nat)
    requires IsMatrix(M, k, k)
    ensures Exchanged(F, M, M, seq(k, i => false), Identity(k), k)
  {
    var piv, yi := seq(k, i => false), Identity(k);
    forall x: Vector, y: Vector {:trigger Linked(F, M, M, piv, yi, k, x, y)} | |x| == k && |y| == k
      ensures Linked(F, M, M, piv, yi, k, x, y)
    {
      assert Inputs(x, y, piv, yi) == x && Outputs(x, y, piv, yi) == y;
    }
  }

  // ---------- row swap ----------

  lemma RelatesSwap(F: Field, A: Matrix, v: Vector, u: Vector, k: nat, i: nat, j: nat)
    requires i < k && j < k && IsMatrix(A, k, k) && |u| == k
    ensures Relates(F, A, v, u, k) <==> Relates(F, Swap(A, i, j), v, Swap(u, i, j), k)
  {
    var A', u' := Swap(A, i, j), Swap(u, i, j);
    if Relates(F, A', v, u', k) {
      forall r | 0 <= r < k ensures u[r] == Dot(F, A[r], v, k) {
        var r' := if r == i then j else if r == j then i else r;
        assert u'[r'] == Dot(F, A'[r'], v, k);
      }
    }
  }

  lemma ExchangeSwap(F: Field, M: Matrix, A: Matrix, piv: seq<bool>, yi: Order, k: nat, i: nat, j: nat)
    requires Exchanged(F, M, A, piv, yi, k) && i < k && j < k && !piv[i] && !piv[j]
    ensures Exchanged(F, M, Swap(A, i, j), piv, Swap(yi, i, j), k)
  {
    var A', yi' := Swap(A, i, j), Swap(yi, i, j);
    forall x: Vector, y: Vector {:trigger Linked(F, M, A', piv, yi', k, x, y)} | |x| == k && |y| == k
      ensures Linked(F, M, A', piv, yi', k, x, y)
    {
      assert Linked(F, M, A, piv, yi, k, x, y);
      assert Inputs(x, y, piv, yi') == Inputs(x, y, piv, yi);
      assert Outputs(x, y, piv, yi') == Swap(Outputs(x, y, piv, yi), i, j);
      RelatesSwap(F, A, Inputs(x, y, piv, yi), Outputs(x, y, piv, yi), k, i, j);
    }
  }

  // ---------- pivot ----------

  function PivotRow(F: Field, a: Vector, p: nat): Vector
    requires p < |a|
  {
    seq(|a|, c requires 0 <= c < |a| => Mul(F, Inv(F, a[p]), if c == p then 1 else a[c]))
  }

  /** Row a with its entry p cleared and a[p] times the pivot row added. */
  function Eliminate(F: Field, a: Vector, b: Vector, p: nat): Vector
    requires p < |a| == |b|
  {
    seq(|a|, c requires 0 <= c < |a| => Add(F, if c == p then 0 else a[c], Mul(F, a[p], b[c])))
  }

  function Pivot(F: Field, A: Matrix, p: nat, k: nat): Matrix
    requires IsMatrix(A, k, k) && p < k
  {
    var b := PivotRow(F, A[p], p);
    seq(k, r requires 0 <= r < k => if r == p then b else Eliminate(F, A[r], b, p))
  }

  /** The pivot row solves its equation for the exchanged unknown. */
  lemma PivotRowSolves(F: Field, a: Vector, v: Vector, p: nat, t: gf, k: nat)
    requires Laws(F) && |a| == |v| == k && p < k && a[p] != 0
    ensures t == Dot(F, a, v, k) <==> v[p] == Dot(F, PivotRow(F, a, p), v[p := t], k)
  {
    var v', b := v[p := t], PivotRow(F, a, p);
    var z := a[p := 0];
    var s, i := Dot(F, z, v, k), Inv(F, a[p]);
    DotSplit(F, a, v, k, p);
    DotSplit(F, b, v', k, p);
    DotZeroEntry(F, v, v', z, k, p, p);
    assert forall c :: 0 <= c < k ==> b[p := 0][c] == Mul(F, i, z[c]) by { Zero(F, i); }
    DotScale(F, b[p := 0], i, z, v', k);
    Zero(F, i);
    // t == s + a_p v_p  iff  v_p == i (s + t)
    assert Distrib(F, i, s, t);
    Divide(F, a[p], v[p], Add(F, s, t));
    Transpose(F, s, t, Mul(F, a[p], v[p]));
    Transpose(F, t, s, Mul(F, a[p], v[p]));
    assert AddComm(F, s, t);
  }

  /** Given the solved pivot row, an eliminated row has the value it had before. */
  lemma EliminateKeeps(F: Field, a: Vector, b: Vector, v: Vector, p: nat, t: gf, k: nat)
    requires Laws(F) && |a| == |b| == |v| == k && p < k
    requires v[p] == Dot(F, b, v[p := t], k)
    ensures Dot(F, Eliminate(F, a, b, p), v[p := t], k) == Dot(F, a, v, k)
  {
    var v', z := v[p := t], a[p := 0];
    DotAxpy(F, Eliminate(F, a, b, p), z, a[p], b, v', k);
    DotZeroEntry(F, v, v', z, k, p, p);
    DotSplit(F, a, v, k, p);
  }

  lemma RelatesPivot(F: Field, A: Matrix, v: Vector, u: Vector, p: nat, k: nat)
    requires Laws(F) && IsMatrix(A, k, k) && p < k && A[p][p] != 0 && |u| == |v| == k
    ensures Relates(F, A, v, u, k) <==> Relates(F, Pivot(F, A, p, k), v[p := u[p]], u[p := v[p]], k)
  {
    var A', v', u' := Pivot(F, A, p, k), v[p := u[p]], u[p := v[p]];
    var b := PivotRow(F, A[p], p);
    PivotRowSolves(F, A[p], v, p, u[p], k);
    if v[p] == Dot(F, b, v', k) {
      forall r | 0 <= r < k && r != p ensures Dot(F, A'[r], v', k) == Dot(F, A[r], v, k) && u'[r] == u[r] {
        EliminateKeeps(F, A[r], b, v, p, u[p], k);
      }
      assert u'[p] == v[p] && A'[p] == b;
      if Relates(F, A', v', u', k) {
        forall r | 0 <= r < k ensures u[r] == Dot(F, A[r], v, k) {
          if r != p { assert u'[r] == Dot(F, A'[r], v', k); }
        }
      }
    } else {
      assert u'[p] != Dot(F, A'[p], v', k);
    }
  }

  lemma ExchangePivot(F: Field, M: Matrix, A: Matrix, piv: seq<bool>, yi: Order, k: nat, p: nat)
    requires Laws(F) && Exchanged(F, M, A, piv, yi, k) && p < k && !piv[p] && A[p][p] != 0
    ensures Exchanged(F, M, Pivot(F, A, p, k), piv[p := true], yi, k)
  {
    var A', piv' := Pivot(F, A, p, k), piv[p := true];
    forall x: Vector, y: Vector {:trigger Linked(F, M, A', piv', yi, k, x, y)} | |x| == k && |y| == k
      ensures Linked(F, M, A', piv', yi, k, x, y)
    {
      assert Linked(F, M, A, piv, yi, k, x, y);
      var v, u := Inputs(x, y, piv, yi), Outputs(x, y, piv, yi);
      assert Inputs(x, y, piv', yi) == v[p := u[p]];
      assert Outputs(x, y, piv', yi) == u[p := v[p]];
      RelatesPivot(F, A, v, u, p, k);
    }
  }

  /** If all unpivoted entries are zero, a nonzero vector is mapped to zero. */
  lemma KernelVector(F: Field, M: Matrix, A: Matrix, piv: seq<bool>, yi: Order, k: nat, c0: nat)
    requires Laws(F) && Exchanged(F, M, A, piv, yi, k) && c0 < k && !piv[c0]
    requires forall r, c :: 0 <= r < k && 0 <= c < k && !piv[r] && !piv[c] ==> A[r][c] == 0
    ensures !NonSingular(F, M, k)
  {
    var v: Vector := Unit(k, c0);
    var u := MatVec(F, A, v, k);
    var x: Vector := seq(k, r requires 0 <= r < k => if piv[r] then u[r] else v[r]);
    var y: Vector := Zeros(k);
    forall r | 0 <= r < k && !piv[r] ensures u[r] == 0 {
      DotZero(F, A[r], v, k);
    }
    assert Inputs(x, y, piv, yi) == v;
    assert Outputs(x, y, piv, yi) == u;
    assert Linked(F, M, A, piv, yi, k, x, y);
    assert Relates(F, M, x, Zeros(k), k);
    assert x[c0] == 1 && Zeros(k)[c0] == 0;
  }

  /** While a nonsingular matrix has an unpivoted column, some unpivoted entry is not zero. */
  lemma PivotExists(F: Field, M: Matrix, A: Matrix, piv: seq<bool>, yi: Order, k: nat, c0: nat)
    requires Laws(F) && Exchanged(F, M, A, piv, yi, k) && NonSingular(F, M, k) && c0 < k && !piv[c0]
    ensures exists r, c :: 0 <= r < k && 0 <= c < k && !piv[r] && !piv[c] && A[r][c] != 0
  {
    if forall r, c :: 0 <= r < k && 0 <= c < k && !piv[r] && !piv[c] ==> A[r][c] == 0 {
      KernelVector(F, M, A, piv, yi, k, c0);
    }
  }

  // ---------- column unscrambling ----------

  ghost function Gather(y: Vector, yi: Order): Vector
    requires InRange(yi, |y|)
  {
    seq(|y|, c requires 0 <= c < |y| => y[yi[c]])
  }

  ghost predicate SolvedAt(F: Field, M: Matrix, A: Matrix, yi: Order, k: nat, x: Vector, y: Vector)
    requires InRange(yi, k)
  {
    |x| == k && |y| == k ==> (Relates(F, M, x, y, k) <==> Relates(F, A, Gather(y, yi), x, k))
  }

  /** x == A applied to y read in the order yi. */
  ghost predicate Solved(F: Field, M: Matrix, A: Matrix, yi: Order, k: nat) {
    && InRange(yi, k) && IsMatrix(A, k, k)
    && forall x: Vector, y: Vector {:trigger SolvedAt(F, M, A, yi, k, x, y)} :: SolvedAt(F, M, A, yi, k, x, y)
  }

  lemma AllPivoted(F: Field, M: Matrix, A: Matrix, piv: seq<bool>, yi: Order, k: nat)
    requires Exchanged(F, M, A, piv, yi, k) && forall c :: 0 <= c < k ==> piv[c]
    ensures Solved(F, M, A, yi, k)
  {
    forall x: Vector, y: Vector {:trigger SolvedAt(F, M, A, yi, k, x, y)} | |x| == k && |y| == k
      ensures SolvedAt(F, M, A, yi, k, x, y)
    {
      assert Linked(F, M, A, piv, yi, k, x, y);
      assert Inputs(x, y, piv, yi) == Gather(y, yi) && Outputs(x, y, piv, yi) == x;
    }
  }

  function SwapColumns(A: Matrix, i: nat, j: nat, k: nat): Matrix
    requires IsMatrix(A, k, k) && i < k && j < k
  {
    seq(k, r requires 0 <= r < k => Swap(A[r], i, j))
  }

  lemma UnscrambleStep(F: Field, M: Matrix, A: Matrix, yi: Order, k: nat, i: nat, j: nat)
    requires Laws(F) && Solved(F, M, A, yi, k) && i < k && j < k
    ensures Solved(F, M, SwapColumns(A, i, j, k), Swap(yi, i, j), k)
  {
    var A', yi' := SwapColumns(A, i, j, k), Swap(yi, i, j);
    forall x: Vector, y: Vector {:trigger SolvedAt(F, M, A', yi', k, x, y)} | |x| == k && |y| == k
      ensures SolvedAt(F, M, A', yi', k, x, y)
    {
      assert SolvedAt(F, M, A, yi, k, x, y);
      var g := Gather(y, yi);
      assert Gather(y, yi') == Swap(g, i, j);
      forall r | 0 <= r < k ensures Dot(F, A'[r], Gather(y, yi'), k) == Dot(F, A[r], g, k) {
        DotSwap(F, A[r], g, k, i, j);
      }
    }
  }

  lemma Unscrambled(F: Field, M: Matrix, A: Matrix, k: nat)
    requires Solved(F, M, A, Identity(k), k) && IsMatrix(M, k, k)
    ensures IsInverse(F, A, M, k)
  {
    forall x: Vector, y: Vector {:trigger InvertsAt(F, A, M, k, x, y)} ensures InvertsAt(F, A, M, k, x, y) {
      if |x| == k && |y| == k {
        assert SolvedAt(F, M, A, Identity(k), k, x, y);
        assert Gather(y, Identity(k)) == y;
      }
    }
  }

  // ---------- what an inverse is, entry by entry ----------

  lemma InverseOneSide(F: Field, B: Matrix, M: Matrix, k: nat, i: nat, j: nat)
    requires Laws(F) && IsMatrix(M, k, k) && IsMatrix(B, k, k) && IsInverse(F, B, M, k) && i < k && j < k
    ensures Dot(F, B[i], Column(M, j), k) == if i == j then 1 else 0
  {
    var x, y := Unit(k, j), Column(M, j);
    forall r | 0 <= r < k ensures y[r] == Dot(F, M[r], x, k) {
      DotUnit(F, M[r], k, k, j);
      DotComm(F, x, M[r], k);
    }
    assert InvertsAt(F, B, M, k, x, y);
    assert x[i] == Dot(F, B[i], y, k);
  }

  lemma InverseSymmetric(F: Field, B: Matrix, M: Matrix, k: nat)
    requires IsInverse(F, B, M, k)
    ensures IsInverse(F, M, B, k)
  {
    forall x: Vector, y: Vector {:trigger InvertsAt(F, M, B, k, x, y)} ensures InvertsAt(F, M, B, k, x, y) {
      assert InvertsAt(F, B, M, k, y, x);
    }
  }

  /** An inverse in the sense above is the two-sided inverse matrix: B M == M B == I. */
  lemma InverseTwoSided(F: Field, B: Matrix, M: Matrix, k: nat)
    requires Laws(F) && IsMatrix(M, k, k) && IsMatrix(B, k, k) && IsInverse(F, B, M, k)
    ensures forall i, j :: 0 <= i < k && 0 <= j < k ==>
              Dot(F, B[i], Column(M, j), k) == (if i == j then 1 else 0)
              && Dot(F, M[i], Column(B, j), k) == (if i == j then 1 else 0)
  {
    InverseSymmetric(F, B, M, k);
    forall i, j | 0 <= i < k && 0 <= j < k
      ensures Dot(F, B[i], Column(M, j), k) == (if i == j then 1 else 0)
      ensures Dot(F, M[i], Column(B, j), k) == (if i == j then 1 else 0)
    {
      InverseOneSide(F, B, M, k, i, j);
      InverseOneSide(F, M, B, k, i, j);
    }
  }
}
