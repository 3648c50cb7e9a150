/** Fast inversion of a Vandermonde matrix, and the matrix product. */
module FecVandermonde {
  import opened Collections
  import opened FecField
  import FecGf256
  import opened FecVector
  import opened FecPoly
  import opened FecCode
  import opened FecTables
  import opened FecMatrix

  // ---------- the master polynomial ----------

  /** The stored tail of the polynomial after i + 1 factors, with its leading one. */
  function Tail(c: seq<gf>, k: nat, i: nat): Vector
    requires |c| == k && i < k
  {
    c[k - 1 - i..] + [1]
  }

  /** d is (X + p) * c, but for its lowest coefficient, which is 0. */
  ghost predicate SkipsLowest(F: Field, c: Vector, p: gf, d: Vector) {
    && |d| == |c| + 1 && |c| > 0 && d[0] == 0
    && (forall m :: 1 <= m < |c| ==> d[m] == Add(F, c[m - 1], Mul(F, p, c[m])))
    && d[|c|] == c[|c| - 1]
  }

  /** The points whose master polynomial the code computes: the first two count as 0 and their sum. */
  ghost function Skewed(F: Field, p: seq<gf>): seq<gf>
    requires |p| > 1
  {
    [0, Add(F, p[0], p[1])] + p[2..]
  }

  /** The second stage, from X + p0: X^2 + (p0 + p1) X, without p0 p1. */
  lemma SecondFactor(F: Field, p: seq<gf>, c: Vector, d: Vector)
    requires Laws(F) && |p| > 1 && |c| == 2 && c[0] == p[0] && c[1] == 1 && SkipsLowest(F, c, p[1], d)
    ensures IsProduct(F, d, Skewed(F, p), 2)
  {
    var q, one: Vector := Skewed(F, p), [0, 1];
    Zero(F, p[1]);
    Zero(F, q[1]);
    ProductOfOne(F, q);
    assert AddUnit(F, q[1]);
    ProductStep(F, one, d, q, 1);
  }

  lemma LaterFactor(F: Field, p: seq<gf>, i: nat, c: Vector, d: Vector)
    requires Laws(F) && 2 <= i < |p| && IsProduct(F, c, Skewed(F, p), i) && c[0] == 0 && SkipsLowest(F, c, p[i], d)
    ensures IsProduct(F, d, Skewed(F, p), i + 1)
  {
    Zero(F, p[i]);
    ProductStep(F, c, d, Skewed(F, p), i);
  }

  /** What one stage writes is the next polynomial, without its lowest coefficient. */
  lemma StageSkips(F: Field, s: seq<gf>, t: seq<gf>, u: seq<gf>, k: nat, i: nat, pi: gf)
    requires Laws(F) && |s| == k && 1 <= i < k && ProductsAdded(F, s, t, k - i, k - 1, pi)
    requires u == t[k - 1 := Add(F, s[k - 1], pi)] && forall m :: 0 <= m < k - i ==> s[m] == 0
    ensures SkipsLowest(F, Tail(s, k, i - 1), pi, Tail(u, k, i))
    ensures forall m :: 0 <= m < k - i ==> u[m] == 0
  {
    var c, d := Tail(s, k, i - 1), Tail(u, k, i);
    Zero(F, pi);
    assert forall m :: 0 <= m < i ==> c[m] == s[k - i + m];
    assert forall m :: 0 <= m < i + 1 ==> d[m] == u[k - 1 - i + m];
  }

  /** One stage: multiplies by (X + p_i), but does not write the lowest coefficient. */
  method MultiplyStage(g: Gf, c: array<gf>, k: nat, i: nat, pi: gf)
    requires g.Ready() && Separate(g, c) && c.Length == k && 1 <= i < k
    requires forall m :: 0 <= m < k - i ==> c[m] == 0
    modifies c
    ensures SkipsLowest(g.F, Tail(old(c[..]), k, i - 1), pi, Tail(c[..], k, i))
    ensures forall m :: 0 <= m < k - i ==> c[m] == 0
  {
    ghost var s := c[..];
    AddProducts(g, c, k - i, k - 1, pi);
    ghost var t := c[..];
    assert t[k - 1] == s[k - 1];
    var v := g.GfAdd(c[k - 1], pi);
    c[k - 1] := v;
    StageSkips(g.F, s, t, c[..], k, i, pi);
  }

  /** t is s, but from lo up to hi it holds s[m] + p * s[m + 1]. */
  ghost predicate ProductsAdded(F: Field, s: seq<gf>, t: seq<gf>, lo: nat, hi: nat, p: gf) {
    && |t| == |s| && hi < |s|
    && forall m {:trigger t[m]} :: 0 <= m < |s| ==>
       (t[m] == if lo <= m < hi then Add(F, s[m], Mul(F, p, s[m + 1])) else s[m])
  }

  /** The inner loop of a stage. */
  method AddProducts(g: Gf, c: array<gf>, lo: nat, hi: nat, p: gf)
    requires g.Ready() && Separate(g, c) && lo <= hi < c.Length
    modifies c
    ensures ProductsAdded(g.F, old(c[..]), c[..], lo, hi, p)
  {
    var j := lo;
    while j < hi
      invariant lo <= j <= hi && ProductsAdded(g.F, old(c[..]), c[..], lo, j, p)
    {
      var v := g.GfAddMul(c[j], p, c[j + 1]);
      c[j] := v;
      j := j + 1;
    }
  }

  /** The polynomial is complete but for its leading one. */
  method MasterPolynomial(g: Gf, c: array<gf>, k: nat, p: array<gf>)
    requires g.Ready() && Separate(g, c) && c != p && c.Length == k && p.Length == k && k > 1
    requires forall m :: 0 <= m < k ==> c[m] == 0
    modifies c
    ensures IsProduct(g.F, c[..] + [1], Skewed(g.F, p[..]), k)
  {
    c[k - 1] := p[0];
    assert Tail(c[..], k, 0) == [p[0], 1];
    for i := 1 to k
      invariant forall m :: 0 <= m < k - i ==> c[m] == 0
      invariant i == 1 ==> Tail(c[..], k, 0) == [p[0], 1]
      invariant i > 1 ==> c[k - i] == 0 && IsProduct(g.F, Tail(c[..], k, i - 1), Skewed(g.F, p[..]), i)
    {
      ghost var c0 := Tail(c[..], k, i - 1);
      MultiplyStage(g, c, k, i, p[i]);
      if i == 1 {
        SecondFactor(g.F, p[..], c0, Tail(c[..], k, 1));
      } else {
        LaterFactor(g.F, p[..], i, c0, Tail(c[..], k, i));
      }
    }
    assert Tail(c[..], k, k - 1) == c[..] + [1];
  }

  // ---------- synthetic division ----------

  /** The next quotient coefficient, and the next Horner value of the quotient. */
  method DivideStep(g: Gf, ci: gf, xx: gf, bi: gf, t: gf) returns (v: gf, t': gf)
    requires g.Ready()
    ensures v == Add(g.F, ci, Mul(g.F, xx, bi)) && t' == Add(g.F, v, Mul(g.F, xx, t))
  {
    v := g.GfAddMul(ci, xx, bi);
    t' := g.GfMul(xx, t);
    assert AddComm(g.F, t', v);
    t' := g.GfAdd(t', v);
  }

  method DivideAt(g: Gf, c: array<gf>, b: array<gf>, k: nat, xx: gf, i: nat, t: gf) returns (t': gf)
    requires g.Ready() && Separate(g, b) && b != c && c.Length == k && b.Length == k && 0 < i < k
    requires var Q := Quotient(g.F, c[..] + [1], xx);
             t == Horner(g.F, Q, xx, i) && forall m :: i <= m < k ==> b[m] == Q[m]
    modifies b
    ensures var Q := Quotient(g.F, c[..] + [1], xx);
            t' == Horner(g.F, Q, xx, i - 1) && forall m :: i - 1 <= m < k ==> b[m] == Q[m]
  {
    ghost var P := c[..] + [1];
    assert P[i] == c[i];
    var v;
    v, t' := DivideStep(g, c[i], xx, b[i], t);
    b[i - 1] := v;
  }

  method SyntheticDivision(g: Gf, c: array<gf>, b: array<gf>, k: nat, xx: gf) returns (t: gf)
    requires g.Ready() && Separate(g, b) && b != c && c.Length == k && b.Length == k && k > 0
    modifies b
    ensures b[..] == Quotient(g.F, c[..] + [1], xx) && t == Eval(g.F, b[..], xx)
  {
    ghost var P := c[..] + [1];
    ghost var Q := Quotient(g.F, P, xx);
    t := 1;
    b[k - 1] := 1;
    assert Horner(g.F, P, xx, k + 1) == 0 && Horner(g.F, Q, xx, k) == 0;
    Zero(g.F, xx);
    Zero(g.F, 1);
    var i := k - 1;
    while i > 0
      invariant 0 <= i <= k - 1
      invariant forall m :: i <= m < k ==> b[m] == Q[m]
      invariant t == Horner(g.F, Q, xx, i)
    {
      t := DivideAt(g, c, b, k, xx, i, t);
      i := i - 1;
    }
    assert b[..] == Q;
  }

  // ---------- writing one column ----------

  lemma AtApart(k: nat, r: nat, c: nat, r': nat, c': nat)
    requires c < k && c' < k
    ensures At(0, k, r, c) == At(0, k, r', c') <==> r == r' && c == c'
  {
    RowRange(k, r, r', c');
    RowRange(k, r', r, c);
  }

  lemma AtBound(k: nat, n: nat, r: nat, c: nat)
    requires r < n && c < k
    ensures At(0, k, r, c) < n * k
  {
    RowBound(k, n, r);
  }

  ghost predicate ColumnWritten(s: seq<gf>, t: seq<gf>, k: nat, row: nat, v: Vector, n: nat)
    requires |v| == k && n <= k
  {
    && |t| == |s| && k * k <= |s| && t[k * k..] == s[k * k..]
    && forall r, c {:trigger At(0, k, r, c)} :: 0 <= r < k && 0 <= c < k ==>
         At(0, k, r, c) < |t| && (t[At(0, k, r, c)] == if c == row && r < n then v[r] else s[At(0, k, r, c)])
  }

  lemma ColumnStep(s: seq<gf>, t: seq<gf>, k: nat, row: nat, v: Vector, n: nat)
    requires row < k && |v| == k && n < k && ColumnWritten(s, t, k, row, v, n)
    ensures At(0, k, n, row) < k * k && At(0, k, n, row) < |t|
    ensures ColumnWritten(s, t[At(0, k, n, row) := v[n]], k, row, v, n + 1)
  {
    AtBound(k, k, n, row);
    var q := At(0, k, n, row);
    var t' := t[q := v[n]];
    forall r, c {:trigger At(0, k, r, c)} | 0 <= r < k && 0 <= c < k
      ensures At(0, k, r, c) < |t'| && (t'[At(0, k, r, c)] == if c == row && r < n + 1 then v[r] else s[At(0, k, r, c)])
    {
      AtApart(k, r, c, n, row);
    }
  }

  method WriteColumn(g: Gf, src: array<gf>, k: nat, row: nat, u: gf, b: array<gf>, ghost v: Vector)
    requires g.Ready() && Separate(g, src) && src != b && b.Length == k && row < k && k * k <= src.Length
    requires |v| == k && forall r :: 0 <= r < k ==> v[r] == Mul(g.F, u, b[r])
    modifies src
    ensures ColumnWritten(old(src[..]), src[..], k, row, v, k)
  {
    ghost var s := src[..];
    forall r, c {:trigger At(0, k, r, c)} | 0 <= r < k && 0 <= c < k
      ensures At(0, k, r, c) < |s| { AtBound(k, k, r, c); }
    for col := 0 to k
      invariant src.Length == |s| && ColumnWritten(s, src[..], k, row, v, col)
    {
      ColumnStep(s, src[..], k, row, v, col);
      var m := g.GfMul(u, b[col]);
      src[At(0, k, col, row)] := m;
    }
  }

  // ---------- _invert_vdm ----------

  /** What the table of inverses holds, 0 for 0 included. */
  ghost function InverseOrZero(F: Field, t: gf): gf { if t == 0 then 0 else Inv(F, t) }

  /** The quotient of the master polynomial P by (X + x), scaled to the value 1 at x. */
  ghost function Basis(F: Field, P: Vector, x: gf): Vector
    requires |P| > 0
  {
    var q := Quotient(F, P, x);
    seq(|P| - 1, i requires 0 <= i < |P| - 1 => Mul(F, InverseOrZero(F, Eval(F, q, x)), q[i]))
  }

  lemma BasisEval(F: Field, P: Vector, x: gf, y: gf)
    requires Laws(F) && |P| > 0
    ensures var q := Quotient(F, P, x);
            Eval(F, Basis(F, P, x), y) == Mul(F, InverseOrZero(F, Eval(F, q, x)), Eval(F, q, y))
  {
    var q := Quotient(F, P, x);
    HornerScale(F, Basis(F, P, x), InverseOrZero(F, Eval(F, q, x)), q, y, 0);
  }

  lemma BasisValues(F: Field, P: Vector, p: seq<gf>, r: nat, j: nat)
    requires Laws(F) && |P| == |p| + 1 && P[|p|] == 1 && Distinct(p) && LevelOn(F, P, p)
    requires r < |p| && j < |p|
    ensures Eval(F, Basis(F, P, p[r]), p[j]) == if j == r then 1 else 0
  {
    QuotientAtPoints(F, P, p, r);
    var t := Eval(F, Quotient(F, P, p[r]), p[r]);
    BasisEval(F, P, p[r], p[j]);
    InverseNonzero(F, t);
    Zero(F, Inv(F, t));
  }

  /** Where the scaled quotient by (X + x) is 1 at x and 0 at y, P has one value at both. */
  lemma BasisLevels(F: Field, P: Vector, x: gf, y: gf)
    requires Laws(F) && |P| > 0 && x != y
    requires Eval(F, Basis(F, P, x), x) == 1 && Eval(F, Basis(F, P, x), y) == 0
    ensures Eval(F, P, x) == Eval(F, P, y)
  {
    var q := Quotient(F, P, x);
    BasisEval(F, P, x, x);
    BasisEval(F, P, x, y);
    NoZeroDivisors(F, InverseOrZero(F, Eval(F, q, x)), Eval(F, q, x));
    NoZeroDivisors(F, InverseOrZero(F, Eval(F, q, x)), Eval(F, q, y));
    QuotientRoot(F, P, x, y);
  }

  function VdmMatrix(F: Field, p: seq<gf>): Matrix { seq(|p|, r requires 0 <= r < |p| => VdmRow(F, p[r], |p|)) }

  /** A matrix of basis polynomials is what the Vandermonde matrix needs for the product to be the
      identity. */
  lemma LagrangeInverts(F: Field, R: Matrix, p: seq<gf>)
    requires Laws(F) && IsMatrix(R, |p|, |p|)
    ensures IsLagrange(F, R, p) <==>
            forall j, r :: 0 <= j < |p| && 0 <= r < |p| ==>
              Dot(F, VdmMatrix(F, p)[j], Column(R, r), |p|) == Unit(|p|, j)[r]
  {
    forall j, r | 0 <= j < |p| && 0 <= r < |p|
      ensures Dot(F, VdmMatrix(F, p)[j], Column(R, r), |p|) == Eval(F, Column(R, r), p[j])
      ensures Unit(|p|, j)[r] == if j == r then 1 else 0
    {
      VdmRowEvaluates(F, p[j], Column(R, r));
    }
  }

  /** The matrix whose columns are the basis polynomials. */
  ghost function BasisMatrix(F: Field, P: Vector, p: seq<gf>): (R: Matrix)
    requires |P| == |p| + 1
    ensures IsMatrix(R, |p|, |p|)
  {
    seq(|p|, r requires 0 <= r < |p| => seq(|p|, c requires 0 <= c < |p| => Basis(F, P, p[c])[r]))
  }

  /** The scaled quotients are the Lagrange basis exactly if P has one value at all points. */
  lemma BasisIsLagrange(F: Field, P: Vector, p: seq<gf>)
    requires Laws(F) && |P| == |p| + 1 && P[|p|] == 1 && Distinct(p)
    ensures IsLagrange(F, BasisMatrix(F, P, p), p) <==> LevelOn(F, P, p)
  {
    var R := BasisMatrix(F, P, p);
    forall r | 0 <= r < |p| ensures Column(R, r) == Basis(F, P, p[r]) {}
    if LevelOn(F, P, p) {
      forall j, r | 0 <= j < |p| && 0 <= r < |p| ensures Eval(F, Column(R, r), p[j]) == if j == r then 1 else 0 {
        BasisValues(F, P, p, r, j);
      }
    }
    if IsLagrange(F, R, p) {
      forall r, j | 0 <= r < |p| && 0 <= j < |p| ensures Eval(F, P, p[r]) == Eval(F, P, p[j]) {
        assert Eval(F, Column(R, r), p[r]) == 1;
        if r != j { BasisLevels(F, P, p[r], p[j]); }
      }
    }
  }

  /** The skipped coefficients do no harm: there are two points only, or one of the first two is 0. */
  ghost predicate SkipIsSafe(p: seq<gf>) { |p| <= 2 || p[0] == 0 || p[1] == 0 }

  /** The polynomial computed is 0 at every point but the first two. */
  lemma SkewedLater(F: Field, P: Vector, p: seq<gf>, j: nat)
    requires Laws(F) && |p| > 1 && IsProduct(F, P, Skewed(F, p), |p|) && 2 <= j < |p|
    ensures Eval(F, P, p[j]) == 0
  {
    assert Skewed(F, p)[j] == p[j];
    ProductZero(F, Skewed(F, p), |p|, p[j]);
  }

  /** At each of the first two points it is 0 exactly if one of the two is 0. */
  lemma SkewedFirst(F: Field, P: Vector, p: seq<gf>, j: nat)
    requires Laws(F) && |p| > 1 && IsProduct(F, P, Skewed(F, p), |p|) && Distinct(p) && j < 2
    ensures Eval(F, P, p[j]) == 0 <==> p[0] == 0 || p[1] == 0
  {
    var q := Skewed(F, p);
    ProductZero(F, q, |p|, p[j]);
    assert q[..|p|] == q && q[0] == 0 && q[1] == Add(F, p[0], p[1]);
    assert AddComm(F, p[0], p[1]);
    Transpose(F, p[1], p[0], p[0]);
    Transpose(F, p[0], p[1], p[1]);
    Zero(F, p[0]);
    Zero(F, p[1]);
    assert forall m :: 2 <= m < |p| ==> q[m] == p[m];
    assert p[j] in q <==> p[j] == q[0] || p[j] == q[1];
  }

  /** With two points both values are p0 p1. */
  lemma SkewedTwo(F: Field, P: Vector, p: seq<gf>)
    requires Laws(F) && |p| == 2 && IsProduct(F, P, Skewed(F, p), 2)
    ensures Eval(F, P, p[0]) == Eval(F, P, p[1])
  {
    var s := Add(F, p[0], p[1]);
    forall j | 0 <= j < 2 ensures Eval(F, P, p[j]) == Mul(F, p[0], p[1]) {
      var x, q := p[j], Skewed(F, p);
      assert ProductAt(F, q, 0, x) == 1;
      Zero(F, x);
      assert ProductAt(F, q, 1, x) == x;
      assert q[1] == s && ProductAt(F, q, 2, x) == Mul(F, Add(F, x, s), x);
      Transpose(F, p[0], p[1], s);
      assert AddComm(F, p[0], p[1]);
      Transpose(F, p[1], p[0], s);
      assert AddComm(F, p[0], s) && AddComm(F, p[1], s) && MulComm(F, p[0], p[1]);
    }
  }

  lemma SkewedIsLevel(F: Field, P: Vector, p: seq<gf>)
    requires Laws(F) && |p| > 1 && Distinct(p) && IsProduct(F, P, Skewed(F, p), |p|)
    ensures LevelOn(F, P, p) <==> SkipIsSafe(p)
  {
    SkewedFirst(F, P, p, 0);
    SkewedFirst(F, P, p, 1);
    if |p| == 2 {
      SkewedTwo(F, P, p);
    } else {
      SkewedLater(F, P, p, 2);
      if SkipIsSafe(p) {
        forall j | 0 <= j < |p| ensures Eval(F, P, p[j]) == 0 {
          if j >= 2 { SkewedLater(F, P, p, j); }
        }
      }
    }
  }

  /** Three points of which none is 0: what is computed for 1, 2 and 3 is not the Lagrange matrix. */
  lemma ThreePointsFail(F: Field, P: Vector, p: seq<gf>)
    requires F == FecGf256.ByteField() && p == [1, 2, 3] && IsProduct(F, P, Skewed(F, p), 3)
    ensures !IsLagrange(F, BasisMatrix(F, P, p), p)
  {
    FecGf256.ByteFieldLaws();
    SkewedIsLevel(F, P, p);
    BasisIsLagrange(F, P, p);
  }

  /** Column row of the result: division, evaluation, scaling by the inverse. */
  method InvertColumn(g: Gf, src: array<gf>, c: array<gf>, b: array<gf>, p: array<gf>, k: nat, row: nat)
    requires g.Ready() && Separate(g, src) && Separate(g, b)
    requires src != b && src != c && src != p && b != c && b != p
    requires c.Length == k && b.Length == k && p.Length == k && row < k && k * k <= src.Length
    modifies src, b
    ensures ColumnWritten(old(src[..]), src[..], k, row, Basis(g.F, c[..] + [1], p[row]), k)
  {
    var xx := p[row];
    var t := SyntheticDivision(g, c, b, k, xx);
    WriteColumn(g, src, k, row, g.inverse[t as int], b, Basis(g.F, c[..] + [1], xx));
  }

  ghost predicate ColumnsDone(s: seq<gf>, t: seq<gf>, R: Matrix, k: nat, n: nat)
    requires IsMatrix(R, k, k) && n <= k
  {
    && |t| == |s| && k * k <= |s| && t[k * k..] == s[k * k..]
    && forall r, c {:trigger At(0, k, r, c)} :: 0 <= r < k && 0 <= c < n ==>
         At(0, k, r, c) < |t| && t[At(0, k, r, c)] == R[r][c]
  }

  /** The points are read off the second column. */
  method ReadPoints(src: array<gf>, k: nat, c: array<gf>, p: array<gf>, ghost F: Field, ghost pts: seq<gf>)
    requires k > 1 && |pts| == k && c.Length == k && p.Length == k && c != p && src != c && src != p
    requires Laws(F) && Holds(src[..], 0, VdmMatrix(F, pts), k, k)
    modifies c, p
    ensures p[..] == pts && forall m :: 0 <= m < k ==> c[m] == 0
  {
    var i, j := 0, 1;
    while i < k
      invariant 0 <= i <= k && j == i * k + 1
      invariant forall m :: 0 <= m < i ==> c[m] == 0 && p[m] == pts[m]
    {
      assert src[At(0, k, i, 1)] == VdmMatrix(F, pts)[i][1] == Pow(F, pts[i], 1);
      Zero(F, pts[i]);
      assert Pow(F, pts[i], 0) == 1;
      c[i] := 0;
      p[i] := src[j];
      NextRow(k, i);
      i, j := i + 1, j + k;
    }
  }

  /** A single point leaves the matrix [1], its own Lagrange matrix. */
  lemma OnePoint(F: Field, pts: seq<gf>)
    requires Laws(F) && |pts| == 1
    ensures IsLagrange(F, VdmMatrix(F, pts), pts)
  {
    var R := VdmMatrix(F, pts);
    assert Column(R, 0) == [1];
    assert Horner(F, [1], pts[0], 1) == 0;
    Zero(F, pts[0]);
    Zero(F, 1);
  }

  /** All columns, one after the other. */
  method InvertColumns(g: Gf, src: array<gf>, c: array<gf>, p: array<gf>, k: nat, ghost R: Matrix)
    requires g.Ready() && Separate(g, src) && src != c && src != p
    requires c.Length == k && p.Length == k && k * k <= src.Length && R == BasisMatrix(g.F, c[..] + [1], p[..])
    modifies src
    ensures Holds(src[..], 0, R, k, k) && src[k * k..] == old(src[..])[k * k..]
  {
    var b := new gf[k];
    ghost var s := src[..];
    for row := 0 to k
      invariant R == BasisMatrix(g.F, c[..] + [1], p[..]) && ColumnsDone(s, src[..], R, k, row)
    {
      ghost var t := src[..];
      InvertColumn(g, src, c, b, p, k, row);
      assert ColumnWritten(t, src[..], k, row, Basis(g.F, c[..] + [1], p[row]), k);
    }
  }

  /** _invert_vdm: the stored Vandermonde matrix becomes its Lagrange matrix exactly if the skipped
      coefficients do no harm. */
  method InvertVdm(g: Gf, src: array<gf>, k: nat, ghost pts: seq<gf>) returns (ghost R: Matrix)
    requires g.Ready() && Separate(g, src) && k >= 1 && |pts| == k
    requires Distinct(pts)
    requires Holds(src[..], 0, VdmMatrix(g.F, pts), k, k)
    modifies src
    ensures Holds(src[..], 0, R, k, k) && IsMatrix(R, k, k)
    ensures IsLagrange(g.F, R, pts) <==> SkipIsSafe(pts)
    ensures src[k * k..] == old(src[..])[k * k..]
  {
    if k == 1 {
      R := VdmMatrix(g.F, pts);
      OnePoint(g.F, pts);
      return;
    }
    var c, p := new gf[k], new gf[k];
    ReadPoints(src, k, c, p, g.F, pts);
    MasterPolynomial(g, c, k, p);
    ghost var P := c[..] + [1];
    R := BasisMatrix(g.F, P, pts);
    SkewedIsLevel(g.F, P, pts);
    BasisIsLagrange(g.F, P, pts);
    InvertColumns(g, src, c, p, k, R);
  }

  // ---------- _matmul ----------

  /** The dot product of row r of a matrix stored at a and column c of one stored at b. */
  method RowTimesColumn(g: Gf, a: array<gf>, ao: nat, b: array<gf>, bo: nat, k: nat, m: nat,
                        r: nat, c: nat, ghost A: Matrix, ghost B: Matrix, ghost n: nat) returns (acc: gf)
    requires g.Ready() && r < n && c < m
    requires Holds(a[..], ao, A, n, k) && Holds(b[..], bo, B, k, m)
    ensures acc == Dot(g.F, A[r], Column(B, c), k)
  {
    acc := 0;
    for i := 0 to k
      invariant acc == Dot(g.F, A[r], Column(B, c), i)
    {
      assert a[..][At(ao, k, r, i)] == A[r][i] && b[..][At(bo, m, i, c)] == B[i][c];
      acc := g.GfAddMul(acc, a[At(ao, k, r, i)], b[At(bo, m, i, c)]);
    }
  }

  ghost predicate ProductRows(F: Field, s: seq<gf>, co: nat, A: Matrix, B: Matrix, n: nat, k: nat, m: nat, rows: nat) {
    && IsMatrix(A, n, k) && IsMatrix(B, k, m) && rows <= n && co + n * m <= |s|
    && forall r, c {:trigger At(co, m, r, c)} :: 0 <= r < rows && 0 <= c < m ==>
         At(co, m, r, c) < |s| && s[At(co, m, r, c)] == Dot(F, A[r], Column(B, c), k)
  }

  /** Row r of A times every column of B. */
  ghost function RowTimes(F: Field, A: Matrix, B: Matrix, k: nat, m: nat, r: nat): Vector
    requires r < |A| && |A[r]| == k && IsMatrix(B, k, m)
  {
    seq(m, c requires 0 <= c < m => Dot(F, A[r], Column(B, c), k))
  }

  /** One row of the product. */
  method ProductRow(g: Gf, a: array<gf>, ao: nat, b: array<gf>, bo: nat, k: nat, m: nat, r: nat, out: array<gf>, x: nat,
                    ghost A: Matrix, ghost B: Matrix, ghost n: nat)
    requires g.Ready() && Separate(g, out) && out != a && out != b && r < n && x + m <= out.Length
    requires Holds(a[..], ao, A, n, k) && Holds(b[..], bo, B, k, m)
    modifies out
    ensures Patched(old(out[..]), out[..], x, RowTimes(g.F, A, B, k, m, r))
  {
    ghost var s, v := out[..], RowTimes(g.F, A, B, k, m, r);
    for col := 0 to m
      invariant forall i {:trigger out[i]} :: 0 <= i < |s| ==> (out[i] == if x <= i < x + col then v[i - x] else s[i])
    {
      var acc := RowTimesColumn(g, a, ao, b, bo, k, m, r, col, A, B, n);
      out[x + col] := acc;
    }
  }

  lemma ProductRowsStep(F: Field, s: seq<gf>, t: seq<gf>, co: nat, A: Matrix, B: Matrix, n: nat, k: nat, m: nat,
                        r: nat, x: nat)
    requires ProductRows(F, s, co, A, B, n, k, m, r) && r < n && x == co + r * m
    requires Patched(s, t, x, RowTimes(F, A, B, k, m, r))
    ensures ProductRows(F, t, co, A, B, n, k, m, r + 1)
  {
    forall r', c {:trigger At(co, m, r', c)} | 0 <= r' < r + 1 && 0 <= c < m
      ensures At(co, m, r', c) < |t| && t[At(co, m, r', c)] == Dot(F, A[r'], Column(B, c), k)
    {
      RowRange(m, r, r', c);
    }
  }

  /** _matmul: out holds A times B from co on. */
  method MatMul(g: Gf, a: array<gf>, ao: nat, b: array<gf>, bo: nat, out: array<gf>, co: nat, n: nat, k: nat, m: nat,
                ghost A: Matrix, ghost B: Matrix)
    requires g.Ready() && Separate(g, out) && out != a && out != b && co + n * m <= out.Length
    requires Holds(a[..], ao, A, n, k) && Holds(b[..], bo, B, k, m)
    modifies out
    ensures ProductRows(g.F, out[..], co, A, B, n, k, m, n)
  {
    var row, x := 0, co;
    while row < n
      invariant 0 <= row <= n && x == co + row * m
      invariant ProductRows(g.F, out[..], co, A, B, n, k, m, row)
    {
      ghost var s := out[..];
      RowBound(m, n, row);
      ProductRow(g, a, ao, b, bo, k, m, row, out, x, A, B, n);
      ProductRowsStep(g.F, s, out[..], co, A, B, n, k, m, row, x);
      NextRow(m, row);
      row, x := row + 1, x + m;
    }
  }
}
