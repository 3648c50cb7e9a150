/** Polynomials as coefficient vectors, lowest degree first: Horner evaluation, synthetic
    division by (X + p), and the bound on the number of roots. */
module FecPoly {
  import opened Collections
  import opened FecField
  import opened FecVector

  /** The value at x of the polynomial c[i] + c[i+1] X + ... */
  function Horner(F: Field, c: Vector, x: gf, i: nat): gf
    requires i <= |c|
    decreases |c| - i
  {
    if i == |c| then 0 else Add(F, c[i], Mul(F, x, Horner(F, c, x, i + 1)))
  }

  function Eval(F: Field, c: Vector, x: gf): gf { Horner(F, c, x, 0) }

  /** The quotient of c by (X + p): entry i is the Horner value of the tail above i at p. */
  function Quotient(F: Field, c: Vector, p: gf): Vector
    requires |c| > 0
  {
    seq(|c| - 1, i requires 0 <= i < |c| - 1 => Horner(F, c, p, i + 1))
  }

  /** (x + p) * q + p * q0 + ... : the algebra behind one step of synthetic division. */
  lemma StepAlgebra(F: Field, x: gf, p: gf, q: gf, h: gf)
    requires Laws(F)
    ensures Add(F, Mul(F, x, Add(F, q, Mul(F, Add(F, x, p), h))), Mul(F, p, q))
         == Mul(F, Add(F, x, p), Add(F, q, Mul(F, x, h)))
  {
    var s := Add(F, x, p);
    assert Distrib(F, x, q, Mul(F, s, h)) && Distrib(F, s, q, Mul(F, x, h));
    MulSwap(F, x, s, h);
    DistribRight(F, x, p, q);
    var a, b, c := Mul(F, x, q), Mul(F, s, Mul(F, x, h)), Mul(F, p, q);
    assert AddAssoc(F, a, b, c) && AddComm(F, b, c) && AddAssoc(F, a, c, b);
  }

  /** c(x) + c(p) == (x + p) * q(x), from coefficient i up. */
  lemma {:induction false} DivisionStep(F: Field, c: Vector, p: gf, x: gf, i: nat)
    requires Laws(F) && |c| > 0 && i <= |c| - 1
    ensures Add(F, Horner(F, c, x, i), Horner(F, c, p, i))
         == Mul(F, Add(F, x, p), Horner(F, Quotient(F, c, p), x, i))
    decreases |c| - i
  {
    var q := Quotient(F, c, p);
    if i == |c| - 1 {
      assert Horner(F, c, x, |c|) == 0 && Horner(F, c, p, |c|) == 0;
      Zero(F, x);
      Zero(F, p);
      Zero(F, c[i]);
      Zero(F, Add(F, x, p));
    } else {
      DivisionStep(F, c, p, x, i + 1);
      var hx, hp, h := Horner(F, c, x, i + 1), Horner(F, c, p, i + 1), Horner(F, q, x, i + 1);
      assert q[i] == hp;
      var s := Mul(F, Add(F, x, p), h);
      Transpose(F, hx, hp, s);
      StepAlgebra(F, x, p, hp, h);
      // c_i cancels: (c_i + x hx) + (c_i + p hp) == x hx + p hp
      AddSwap(F, c[i], Mul(F, x, hx), c[i], Mul(F, p, hp));
      Zero(F, c[i]);
      Zero(F, Add(F, Mul(F, x, hx), Mul(F, p, hp)));
    }
  }

  /** The quotient of c by (X + p) vanishes exactly where c has the same value as at p. */
  lemma QuotientRoot(F: Field, c: Vector, p: gf, x: gf)
    requires Laws(F) && |c| > 0 && x != p
    ensures Eval(F, Quotient(F, c, p), x) == 0 <==> Eval(F, c, x) == Eval(F, c, p)
  {
    DivisionStep(F, c, p, x, 0);
    SumZero(F, x, p);
    SumZero(F, Eval(F, c, x), Eval(F, c, p));
    NoZeroDivisors(F, Add(F, x, p), Eval(F, Quotient(F, c, p), x));
  }

  /** A polynomial with as many distinct roots as coefficients is zero. */
  lemma {:induction false} RootBound(F: Field, c: Vector, pts: seq<gf>)
    requires Laws(F) && |c| == |pts| && Distinct(pts)
    requires forall i :: 0 <= i < |pts| ==> Eval(F, c, pts[i]) == 0
    ensures forall i :: 0 <= i < |c| ==> c[i] == 0
    decreases |c|
  {
    if |c| > 0 {
      var m := |c| - 1;
      var p, q := pts[m], Quotient(F, c, pts[m]);
      forall i | 0 <= i < m ensures Eval(F, q, pts[..m][i]) == 0 {
        QuotientRoot(F, c, p, pts[i]);
      }
      RootBound(F, q, pts[..m]);
      forall i | 0 <= i < |c| ensures c[i] == 0 {
        assert Horner(F, c, p, i) == 0 by { if i > 0 { assert q[i - 1] == Horner(F, c, p, i); } }
        assert Horner(F, c, p, i + 1) == 0 by { if i < m { assert q[i] == Horner(F, c, p, i + 1); } }
        Zero(F, p);
        Zero(F, c[i]);
      }
    }
  }

  // ---------- multiplication by (X + p) ----------

  /** d is (X + p) * c. */
  ghost predicate TimesLinear(F: Field, c: Vector, p: gf, d: Vector) {
    && |d| == |c| + 1 && |c| > 0
    && d[0] == Mul(F, p, c[0])
    && (forall m :: 1 <= m < |c| ==> d[m] == Add(F, c[m - 1], Mul(F, p, c[m])))
    && d[|c|] == c[|c| - 1]
  }

  function TimesAt(F: Field, c: Vector, p: gf, m: nat): gf
    requires 0 < |c| && m <= |c|
  {
    if m == 0 then Mul(F, p, c[0]) else if m == |c| then c[m - 1] else Add(F, c[m - 1], Mul(F, p, c[m]))
  }

  function Times(F: Field, c: Vector, p: gf): (d: Vector)
    requires |c| > 0
    ensures TimesLinear(F, c, p, d)
  {
    seq(|c| + 1, m requires 0 <= m <= |c| => TimesAt(F, c, p, m))
  }

  lemma {:induction false} TimesLinearTail(F: Field, c: Vector, p: gf, d: Vector, x: gf, m: nat)
    requires Laws(F) && TimesLinear(F, c, p, d) && 1 <= m <= |c|
    ensures Horner(F, d, x, m) == Add(F, c[m - 1], Mul(F, Add(F, x, p), Horner(F, c, x, m)))
    decreases |c| - m
  {
    var s := Add(F, x, p);
    if m == |c| {
      assert Horner(F, d, x, m + 1) == 0 && Horner(F, c, x, m) == 0;
      Zero(F, x);
      Zero(F, s);
      Zero(F, c[m - 1]);
    } else {
      TimesLinearTail(F, c, p, d, x, m + 1);
      var h := Horner(F, c, x, m + 1);
      StepAlgebra(F, x, p, c[m], h);
      var y, z := Mul(F, p, c[m]), Mul(F, x, Horner(F, d, x, m + 1));
      assert AddAssoc(F, c[m - 1], y, z) && AddComm(F, y, z);
    }
  }

  lemma TimesLinearEval(F: Field, c: Vector, p: gf, d: Vector, x: gf)
    requires Laws(F) && TimesLinear(F, c, p, d)
    ensures Eval(F, d, x) == Mul(F, Add(F, x, p), Eval(F, c, x))
  {
    TimesLinearTail(F, c, p, d, x, 1);
    StepAlgebra(F, x, p, c[0], Horner(F, c, x, 1));
    assert AddComm(F, d[0], Mul(F, x, Horner(F, d, x, 1)));
  }

  // ---------- Vandermonde rows ----------

  function VdmRow(F: Field, x: gf, k: nat): Vector { seq(k, i requires 0 <= i < k => Pow(F, x, i)) }

  /** (d + y w) + (x y) h == d + y (w + x h) */
  lemma PrefixAlgebra(F: Field, d: gf, y: gf, w: gf, x: gf, h: gf)
    requires Laws(F)
    ensures Add(F, Add(F, d, Mul(F, y, w)), Mul(F, Mul(F, x, y), h)) == Add(F, d, Mul(F, y, Add(F, w, Mul(F, x, h))))
  {
    assert Distrib(F, y, w, Mul(F, x, h));
    MulSwap(F, y, x, h);
    assert MulAssoc(F, x, y, h);
    assert AddAssoc(F, d, Mul(F, y, w), Mul(F, y, Mul(F, x, h)));
  }

  lemma {:induction false} VdmPrefix(F: Field, x: gf, w: Vector, n: nat)
    requires Laws(F) && n <= |w|
    ensures Add(F, Dot(F, VdmRow(F, x, |w|), w, n), Mul(F, Pow(F, x, n), Horner(F, w, x, n))) == Eval(F, w, x)
  {
    if n == 0 {
      Zero(F, Horner(F, w, x, 0));
    } else {
      VdmPrefix(F, x, w, n - 1);
      PrefixAlgebra(F, Dot(F, VdmRow(F, x, |w|), w, n - 1), Pow(F, x, n - 1), w[n - 1], x, Horner(F, w, x, n));
    }
  }

  /** A Vandermonde row times a coefficient vector evaluates the polynomial. */
  lemma VdmRowEvaluates(F: Field, x: gf, w: Vector)
    requires Laws(F)
    ensures Dot(F, VdmRow(F, x, |w|), w, |w|) == Eval(F, w, x)
  {
    VdmPrefix(F, x, w, |w|);
    assert Horner(F, w, x, |w|) == 0;
    Zero(F, Pow(F, x, |w|));
    Zero(F, Dot(F, VdmRow(F, x, |w|), w, |w|));
  }

  // ---------- Lagrange basis polynomials ----------

  lemma {:induction false} HornerScale(F: Field, d: Vector, s: gf, c: Vector, x: gf, i: nat)
    requires Laws(F) && |d| == |c| && i <= |c| && forall m :: 0 <= m < |c| ==> d[m] == Mul(F, s, c[m])
    ensures Horner(F, d, x, i) == Mul(F, s, Horner(F, c, x, i))
    decreases |c| - i
  {
    if i == |c| {
      Zero(F, s);
    } else {
      HornerScale(F, d, s, c, x, i + 1);
      assert Distrib(F, s, c[i], Mul(F, x, Horner(F, c, x, i + 1)));
      MulSwap(F, s, x, Horner(F, c, x, i + 1));
    }
  }

  /** c has the same value at all points. */
  ghost predicate LevelOn(F: Field, c: Vector, pts: seq<gf>) {
    forall i, j :: 0 <= i < |pts| && 0 <= j < |pts| ==> Eval(F, c, pts[i]) == Eval(F, c, pts[j])
  }

  /** Where a monic polynomial has one value at all points, its quotient by one of them vanishes at
      the others only. */
  lemma QuotientAtPoints(F: Field, P: Vector, pts: seq<gf>, row: nat)
    requires Laws(F) && |P| == |pts| + 1 && P[|pts|] == 1 && Distinct(pts) && row < |pts|
    requires LevelOn(F, P, pts)
    ensures forall j :: 0 <= j < |pts| ==> (Eval(F, Quotient(F, P, pts[row]), pts[j]) == 0 <==> j != row)
  {
    var k := |pts|;
    var q := Quotient(F, P, pts[row]);
    forall j | 0 <= j < k && j != row ensures Eval(F, q, pts[j]) == 0 {
      QuotientRoot(F, P, pts[row], pts[j]);
    }
    assert Horner(F, P, pts[row], k + 1) == 0;
    Zero(F, pts[row]);
    Zero(F, 1);
    assert q[k - 1] == 1;
    if Eval(F, q, pts[row]) == 0 {
      RootBound(F, q, pts);
    }
  }

  // ---------- products of linear factors ----------

  /** The value at x of the product of (X + p_j) over the first n points. */
  function ProductAt(F: Field, pts: seq<gf>, n: nat, x: gf): gf
    requires n <= |pts|
  {
    if n == 0 then 1 else Mul(F, Add(F, x, pts[n - 1]), ProductAt(F, pts, n - 1, x))
  }

  lemma {:induction false} ProductZero(F: Field, pts: seq<gf>, n: nat, x: gf)
    requires Laws(F) && n <= |pts|
    ensures ProductAt(F, pts, n, x) == 0 <==> x in pts[..n]
  {
    if n == 0 {
      assert MulUnit(F, 0);
      Zero(F, 0);
    } else {
      ProductZero(F, pts, n - 1, x);
      SumZero(F, x, pts[n - 1]);
      NoZeroDivisors(F, Add(F, x, pts[n - 1]), ProductAt(F, pts, n - 1, x));
      assert pts[..n] == pts[..n - 1] + [pts[n - 1]];
    }
  }

  /** c is the product of (X + p_j) over the first n points. */
  ghost predicate IsProduct(F: Field, c: Vector, pts: seq<gf>, n: nat)
    requires n <= |pts|
  {
    && |c| == n + 1 && c[n] == 1
    && forall x {:trigger Eval(F, c, x)} :: Eval(F, c, x) == ProductAt(F, pts, n, x)
  }

  lemma ProductOfOne(F: Field, pts: seq<gf>)
    requires Laws(F) && |pts| > 0
    ensures IsProduct(F, [pts[0], 1], pts, 1)
  {
    var c: Vector := [pts[0], 1];
    forall x {:trigger Eval(F, c, x)} ensures Eval(F, c, x) == ProductAt(F, pts, 1, x) {
      assert Horner(F, c, x, 2) == 0;
      Zero(F, x);
      Zero(F, 1);
      assert Horner(F, c, x, 1) == 1;
      assert ProductAt(F, pts, 0, x) == 1;
      Zero(F, Add(F, x, pts[0]));
      assert AddComm(F, x, pts[0]);
    }
  }

  lemma ProductStep(F: Field, c: Vector, d: Vector, pts: seq<gf>, n: nat)
    requires Laws(F) && n < |pts| && IsProduct(F, c, pts, n) && TimesLinear(F, c, pts[n], d)
    ensures IsProduct(F, d, pts, n + 1)
  {
    forall x {:trigger Eval(F, d, x)} ensures Eval(F, d, x) == ProductAt(F, pts, n + 1, x) {
      TimesLinearEval(F, c, pts[n], d, x);
    }
  }

  /** There is such a polynomial. */
  lemma {:induction false} ProductPoly(F: Field, pts: seq<gf>, n: nat) returns (c: Vector)
    requires Laws(F) && n <= |pts|
    ensures IsProduct(F, c, pts, n)
  {
    if n == 0 {
      c := [1];
      forall x {:trigger Eval(F, c, x)} ensures Eval(F, c, x) == 1 {
        assert Horner(F, c, x, 1) == 0;
        Zero(F, x);
        Zero(F, 1);
      }
    } else {
      var b := ProductPoly(F, pts, n - 1);
      c := Times(F, b, pts[n - 1]);
      ProductStep(F, b, c, pts, n - 1);
    }
  }

  lemma {:induction false} HornerSum(F: Field, a: Vector, b: Vector, c: Vector, x: gf, i: nat)
    requires Laws(F) && |a| == |b| == |c| && i <= |c| && forall m :: 0 <= m < |c| ==> c[m] == Add(F, a[m], b[m])
    ensures Horner(F, c, x, i) == Add(F, Horner(F, a, x, i), Horner(F, b, x, i))
    decreases |c| - i
  {
    if i == |c| {
      Zero(F, 0);
    } else {
      HornerSum(F, a, b, c, x, i + 1);
      var ha, hb := Horner(F, a, x, i + 1), Horner(F, b, x, i + 1);
      assert Distrib(F, x, ha, hb);
      AddSwap(F, a[i], b[i], Mul(F, x, ha), Mul(F, x, hb));
    }
  }

  /** Two polynomials that agree at as many points as they have coefficients are the same. */
  lemma SameValues(F: Field, a: Vector, b: Vector, pts: seq<gf>)
    requires Laws(F) && |a| == |b| == |pts| && Distinct(pts)
    requires forall r :: 0 <= r < |pts| ==> Eval(F, a, pts[r]) == Eval(F, b, pts[r])
    ensures a == b
  {
    var c := seq(|a|, m requires 0 <= m < |a| => Add(F, a[m], b[m]));
    forall r | 0 <= r < |pts| ensures Eval(F, c, pts[r]) == 0 {
      HornerSum(F, a, b, c, pts[r], 0);
      SumZero(F, Eval(F, a, pts[r]), Eval(F, b, pts[r]));
    }
    RootBound(F, c, pts);
    forall m | 0 <= m < |a| ensures a[m] == b[m] {
      assert c[m] == 0;
      SumZero(F, a[m], b[m]);
    }
  }
}
