/** The systematic code: a codeword is the list of values, at distinct points, of the
    polynomial that interpolates the data at the first k points. */
module FecCode {
  import opened Collections
  import opened FecField
  import opened FecVector
  import opened FecPoly
  import opened FecInverse

  /** The evaluation points 0, alpha^0, alpha^1, ... */
  function Point(F: Field, r: nat): gf { if r == 0 then 0 else Pow(F, 2, r - 1) }

  lemma PointsDistinct(F: Field, i: nat, j: nat)
    requires Laws(F) && Primitive(F, 2) && i < j < 256
    ensures Point(F, i) != Point(F, j)
  {
    if i == 0 { PrimitiveNonzero(F, 2, j - 1); } else { PrimitiveDistinct(F, 2, i - 1, j - 1); }
  }

  function Points(F: Field, k: nat): seq<gf> { seq(k, i requires 0 <= i < k => Point(F, i)) }

  /** The first n points differ exactly if there are at most 256 of them: alpha^255 is alpha^0. */
  lemma PointsAreDistinct(F: Field, n: nat)
    requires Laws(F) && Primitive(F, 2)
    ensures Distinct(Points(F, n)) <==> n <= 256
  {
    if n <= 256 {
      forall i, j | 0 <= i < j < n ensures Points(F, n)[i] != Points(F, n)[j] { PointsDistinct(F, i, j); }
    } else {
      assert Points(F, n)[1] == Pow(F, 2, 0) && Points(F, n)[256] == Pow(F, 2, 255);
    }
  }

  /** Column r of R holds the polynomial that is 1 at point r and 0 at the other points. */
  ghost predicate IsLagrange(F: Field, R: Matrix, pts: seq<gf>) {
    && IsMatrix(R, |pts|, |pts|)
    && forall j, r :: 0 <= j < |pts| && 0 <= r < |pts| ==>
         Eval(F, Column(R, r), pts[j]) == if j == r then 1 else 0
  }

  /** Row e of the code applied to any data v is the interpolating polynomial's value at x. */
  ghost predicate RowAt(F: Field, e: Vector, R: Matrix, x: gf, k: nat, v: Vector)
    requires IsMatrix(R, k, k) && |e| == k
  {
    |v| == k ==> Dot(F, e, v, k) == Eval(F, MatVec(F, R, v, k), x)
  }

  ghost predicate RowEvaluates(F: Field, e: Vector, R: Matrix, x: gf, k: nat) {
    && IsMatrix(R, k, k) && |e| == k
    && forall v: Vector {:trigger RowAt(F, e, R, x, k, v)} :: RowAt(F, e, R, x, k, v)
  }

  /** E is the generator matrix of the systematic code: data rows are the identity, and every
      row evaluates the interpolating polynomial at its own point. */
  ghost predicate IsCode(F: Field, E: Matrix, R: Matrix, k: nat, n: nat) {
    && 1 <= k <= n && IsMatrix(E, n, k) && IsMatrix(R, k, k)
    && (forall r :: 0 <= r < k ==> E[r] == Unit(k, r))
    && (forall r :: 0 <= r < n ==> RowEvaluates(F, E[r], R, Point(F, r), k))
  }

  /** A Vandermonde row times the Lagrange matrix is a row of the code. */
  lemma RowFromProduct(F: Field, e: Vector, R: Matrix, x: gf, k: nat)
    requires Laws(F) && IsMatrix(R, k, k) && |e| == k
    requires forall j :: 0 <= j < k ==> e[j] == Dot(F, VdmRow(F, x, k), Column(R, j), k)
    ensures RowEvaluates(F, e, R, x, k)
  {
    forall v: Vector {:trigger RowAt(F, e, R, x, k, v)} ensures RowAt(F, e, R, x, k, v) {
      if |v| == k {
        DotAssoc(F, VdmRow(F, x, k), R, e, v, k, k);
        VdmRowEvaluates(F, x, MatVec(F, R, v, k));
      }
    }
  }

  lemma DataRow(F: Field, R: Matrix, pts: seq<gf>, r: nat)
    requires Laws(F) && IsLagrange(F, R, pts) && r < |pts|
    ensures RowEvaluates(F, Unit(|pts|, r), R, pts[r], |pts|)
  {
    var k := |pts|;
    forall j | 0 <= j < k ensures Unit(k, r)[j] == Dot(F, VdmRow(F, pts[r], k), Column(R, j), k) {
      VdmRowEvaluates(F, pts[r], Column(R, j));
    }
    RowFromProduct(F, Unit(k, r), R, pts[r], k);
  }

  /** The identity over the Vandermonde rows times the Lagrange matrix is the systematic code. */
  lemma SystematicMatrix(F: Field, E: Matrix, R: Matrix, k: nat, n: nat)
    requires Laws(F) && 1 <= k <= n && IsMatrix(E, n, k) && IsLagrange(F, R, Points(F, k))
    requires forall r :: 0 <= r < k ==> E[r] == Unit(k, r)
    requires forall r, j :: k <= r < n && 0 <= j < k ==>
               E[r][j] == Dot(F, VdmRow(F, Point(F, r), k), Column(R, j), k)
    ensures IsCode(F, E, R, k, n)
  {
    forall r | 0 <= r < n ensures RowEvaluates(F, E[r], R, Point(F, r), k) {
      if r < k {
        DataRow(F, R, Points(F, k), r);
      } else {
        RowFromProduct(F, E[r], R, Point(F, r), k);
      }
    }
  }

  function Rows(E: Matrix, idx: seq<nat>): Matrix
    requires forall i :: 0 <= i < |idx| ==> idx[i] < |E|
  {
    seq(|idx|, i requires 0 <= i < |idx| => E[idx[i]])
  }

  /** Data with an interpolating polynomial of zero is zero. */
  lemma InterpolantDetermines(F: Field, E: Matrix, R: Matrix, k: nat, n: nat, v: Vector)
    requires Laws(F) && IsCode(F, E, R, k, n) && |v| == k
    requires forall i :: 0 <= i < k ==> MatVec(F, R, v, k)[i] == 0
    ensures v == Zeros(k)
  {
    var w := MatVec(F, R, v, k);
    forall r | 0 <= r < k ensures v[r] == 0 {
      assert RowAt(F, E[r], R, Point(F, r), k, v);
      DotUnit(F, v, k, k, r);
      VdmRowEvaluates(F, Point(F, r), w);
      DotZero(F, VdmRow(F, Point(F, r), k), w, k);
    }
  }

  /** k different row numbers. */
  ghost predicate Picks(idx: seq<nat>, k: nat, n: nat) {
    |idx| == k && Distinct(idx) && forall i :: 0 <= i < k ==> idx[i] < n
  }

  /** Any k different rows of the systematic code form an invertible matrix. */
  lemma AnyRowsNonSingular(F: Field, E: Matrix, R: Matrix, k: nat, n: nat, idx: seq<nat>)
    requires Laws(F) && Primitive(F, 2) && IsCode(F, E, R, k, n) && (k == 1 || n <= 256) && Picks(idx, k, n)
    ensures NonSingular(F, Rows(E, idx), k)
  {
    var M := Rows(E, idx);
    forall x: Vector {:trigger Relates(F, M, x, Zeros(k), k)} | Relates(F, M, x, Zeros(k), k)
      ensures x == Zeros(k)
    {
      var pts := seq(k, i requires 0 <= i < k => Point(F, idx[i]));
      var w := MatVec(F, R, x, k);
      forall i, j | 0 <= i < j < k ensures pts[i] != pts[j] {
        if idx[i] < idx[j] { PointsDistinct(F, idx[i], idx[j]); } else { PointsDistinct(F, idx[j], idx[i]); }
      }
      forall i | 0 <= i < k ensures Eval(F, w, pts[i]) == 0 {
        assert M[i] == E[idx[i]] && Zeros(k)[i] == Dot(F, M[i], x, k);
        assert RowAt(F, E[idx[i]], R, Point(F, idx[i]), k, x);
      }
      RootBound(F, w, pts);
      InterpolantDetermines(F, E, R, k, n, x);
    }
  }

  // ---------- more than 256 blocks ----------

  /** A polynomial is interpolated by its values at the first k points. */
  lemma Interpolates(F: Field, E: Matrix, R: Matrix, k: nat, n: nat, w: Vector)
    requires Laws(F) && Primitive(F, 2) && IsCode(F, E, R, k, n) && k <= 256 && |w| == k
    ensures MatVec(F, R, Values(F, w, k), k) == w
  {
    var v := Values(F, w, k);
    var u := MatVec(F, R, v, k);
    PointsAreDistinct(F, k);
    forall r | 0 <= r < k ensures Eval(F, u, Points(F, k)[r]) == Eval(F, w, Points(F, k)[r]) {
      assert RowAt(F, E[r], R, Point(F, r), k, v);
      DotUnit(F, v, k, k, r);
    }
    SameValues(F, u, w, Points(F, k));
  }

  function Values(F: Field, w: Vector, k: nat): Vector { seq(k, r requires 0 <= r < k => Eval(F, w, Point(F, r))) }

  /** Rows that evaluate at k points of which two are the same form a singular matrix. */
  lemma SamePointSingular(F: Field, E: Matrix, R: Matrix, k: nat, n: nat, idx: seq<nat>, w: Vector)
    requires Laws(F) && Primitive(F, 2) && IsCode(F, E, R, k, n) && k <= 256 && Picks(idx, k, n)
    requires |w| == k && w != Zeros(k) && forall i :: 0 <= i < k ==> Eval(F, w, Point(F, idx[i])) == 0
    ensures !NonSingular(F, Rows(E, idx), k)
  {
    var M, v := Rows(E, idx), Values(F, w, k);
    Interpolates(F, E, R, k, n, w);
    forall i | 0 <= i < k ensures Dot(F, M[i], v, k) == 0 {
      assert RowAt(F, E[idx[i]], R, Point(F, idx[i]), k, v);
    }
    assert Relates(F, M, v, Zeros(k), k);
    if v == Zeros(k) {
      MatVecZero(F, R, k);
    }
  }

  lemma MatVecZero(F: Field, R: Matrix, k: nat)
    requires Laws(F) && IsMatrix(R, k, k)
    ensures MatVec(F, R, Zeros(k), k) == Zeros(k)
  {
    forall i | 0 <= i < k ensures MatVec(F, R, Zeros(k), k)[i] == 0 { DotZero(F, R[i], Zeros(k), k); }
  }

  /** k rows that include rows 1 and 256. */
  function Clash(k: nat): seq<nat>
    requires k >= 2
  {
    seq(k, i => if i == 0 then 256 else if i == 1 then 1 else if i == 2 then 0 else if i < 257 then i - 1 else i)
  }

  lemma ClashPicks(k: nat, n: nat)
    requires 2 <= k <= n && n > 256
    ensures Picks(Clash(k), k, n)
  {
  }

  /** Any k different rows form a nonsingular matrix exactly if there are at most 256 blocks, or one
      data block only. */
  lemma AnyRowsIff(F: Field, E: Matrix, R: Matrix, k: nat, n: nat)
    requires Laws(F) && Primitive(F, 2) && IsCode(F, E, R, k, n) && k <= 256
    ensures (forall idx {:trigger Picks(idx, k, n)} :: Picks(idx, k, n) ==> NonSingular(F, Rows(E, idx), k))
            <==> k == 1 || n <= 256
  {
    if k == 1 || n <= 256 {
      forall idx {:trigger Picks(idx, k, n)} | Picks(idx, k, n) ensures NonSingular(F, Rows(E, idx), k) {
        AnyRowsNonSingular(F, E, R, k, n, idx);
      }
    } else {
      var idx := Clash(k);
      ClashPicks(k, n);
      var pts := seq(k - 1, i requires 0 <= i < k - 1 => Point(F, idx[i + 1]));
      var w := ProductPoly(F, pts, k - 1);
      forall i | 0 <= i < k ensures Eval(F, w, Point(F, idx[i])) == 0 {
        var j := if i == 0 then 0 else i - 1;
        assert Point(F, 256) == Pow(F, 2, 255) && Point(F, 1) == Pow(F, 2, 0);
        assert pts[..k - 1][j] == Point(F, idx[i]);
        ProductZero(F, pts, k - 1, Point(F, idx[i]));
      }
      assert w[k - 1] == 1;
      SamePointSingular(F, E, R, k, n, idx, w);
    }
  }
}
