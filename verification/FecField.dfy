/** A field of characteristic two, as a value. The linear algebra of the erasure coder is
    proved for every such field; FecGf256 shows that the byte arithmetic of the coder is one.

    Each law is a predicate of its own, and `Laws` quantifies over those predicates. A law is
    therefore used only where a proof names the instance it wants. */
module FecField {
  newtype gf = x: int | 0 <= x < 256

  datatype Field = Field(add: (gf, gf) -> gf, mul: (gf, gf) -> gf, inv: gf -> gf)

  function Add(F: Field, a: gf, b: gf): gf { (F.add)(a, b) }

  function Mul(F: Field, a: gf, b: gf): gf { (F.mul)(a, b) }

  function Inv(F: Field, a: gf): gf { (F.inv)(a) }

  ghost predicate AddComm(F: Field, a: gf, b: gf) { Add(F, a, b) == Add(F, b, a) }

  ghost predicate AddAssoc(F: Field, a: gf, b: gf, c: gf) {
    Add(F, Add(F, a, b), c) == Add(F, a, Add(F, b, c))
  }

  ghost predicate AddUnit(F: Field, a: gf) { Add(F, a, 0) == a && Add(F, a, a) == 0 }

  ghost predicate MulComm(F: Field, a: gf, b: gf) { Mul(F, a, b) == Mul(F, b, a) }

  ghost predicate MulAssoc(F: Field, a: gf, b: gf, c: gf) {
    Mul(F, Mul(F, a, b), c) == Mul(F, a, Mul(F, b, c))
  }

  ghost predicate MulUnit(F: Field, a: gf) { Mul(F, a, 1) == a && Mul(F, a, 0) == 0 }

  ghost predicate Distrib(F: Field, a: gf, b: gf, c: gf) {
    Mul(F, a, Add(F, b, c)) == Add(F, Mul(F, a, b), Mul(F, a, c))
  }

  ghost predicate Inverse(F: Field, a: gf) { a != 0 ==> Mul(F, a, Inv(F, a)) == 1 }

  /** The laws of a commutative ring of characteristic two. */
  ghost predicate RingLaws(F: Field) {
    && (forall a, b {:trigger AddComm(F, a, b)} :: AddComm(F, a, b))
    && (forall a, b, c {:trigger AddAssoc(F, a, b, c)} :: AddAssoc(F, a, b, c))
    && (forall a {:trigger AddUnit(F, a)} :: AddUnit(F, a))
    && (forall a, b {:trigger MulComm(F, a, b)} :: MulComm(F, a, b))
    && (forall a, b, c {:trigger MulAssoc(F, a, b, c)} :: MulAssoc(F, a, b, c))
    && (forall a {:trigger MulUnit(F, a)} :: MulUnit(F, a))
    && (forall a, b, c {:trigger Distrib(F, a, b, c)} :: Distrib(F, a, b, c))
  }

  ghost predicate Laws(F: Field) {
    RingLaws(F) && forall a {:trigger Inverse(F, a)} :: Inverse(F, a)
  }

  // ---------- consequences, each for named elements ----------

  lemma Zero(F: Field, a: gf)
    requires RingLaws(F)
    ensures Add(F, a, 0) == a && Add(F, 0, a) == a && Add(F, a, a) == 0
    ensures Mul(F, a, 0) == 0 && Mul(F, 0, a) == 0
    ensures Mul(F, a, 1) == a && Mul(F, 1, a) == a
  {
    assert AddUnit(F, a) && AddComm(F, 0, a);
    assert MulUnit(F, a) && MulComm(F, 0, a) && MulComm(F, 1, a);
  }

  /** (a + b) + (c + d) == (a + c) + (b + d) */
  lemma AddSwap(F: Field, a: gf, b: gf, c: gf, d: gf)
    requires Laws(F)
    ensures Add(F, Add(F, a, b), Add(F, c, d)) == Add(F, Add(F, a, c), Add(F, b, d))
  {
    assert AddAssoc(F, a, b, Add(F, c, d)) && AddAssoc(F, a, c, Add(F, b, d));
    assert AddAssoc(F, b, c, d) && AddAssoc(F, c, b, d) && AddComm(F, b, c);
  }

  /** a + b == c  iff  a == b + c: in characteristic two a term changes sides unchanged. */
  lemma Transpose(F: Field, a: gf, b: gf, c: gf)
    requires Laws(F)
    ensures Add(F, a, b) == c <==> a == Add(F, b, c)
  {
    assert AddAssoc(F, a, b, b) && AddUnit(F, b) && AddUnit(F, a);
    assert AddAssoc(F, b, b, c) && AddComm(F, 0, c) && AddUnit(F, c);
    assert AddComm(F, c, b) && AddComm(F, a, b);
    assert AddAssoc(F, b, c, b) && AddAssoc(F, b, b, a) && AddComm(F, 0, a) && AddComm(F, Add(F, b, c), b);
  }

  lemma SumZero(F: Field, a: gf, b: gf)
    requires Laws(F)
    ensures Add(F, a, b) == 0 <==> a == b
  {
    Transpose(F, a, b, 0);
    Zero(F, b);
  }

  lemma DistribRight(F: Field, a: gf, b: gf, c: gf)
    requires Laws(F)
    ensures Mul(F, Add(F, a, b), c) == Add(F, Mul(F, a, c), Mul(F, b, c))
  {
    assert Distrib(F, c, a, b) && MulComm(F, Add(F, a, b), c) && MulComm(F, a, c) && MulComm(F, b, c);
  }

  /** a * (b * c) == b * (a * c) */
  lemma MulSwap(F: Field, a: gf, b: gf, c: gf)
    requires Laws(F)
    ensures Mul(F, a, Mul(F, b, c)) == Mul(F, b, Mul(F, a, c))
  {
    assert MulAssoc(F, a, b, c) && MulAssoc(F, b, a, c) && MulComm(F, a, b);
  }

  lemma NoZeroDivisors(F: Field, a: gf, b: gf)
    requires Laws(F)
    ensures Mul(F, a, b) == 0 <==> a == 0 || b == 0
  {
    Zero(F, a);
    Zero(F, b);
    if a != 0 && Mul(F, a, b) == 0 {
      assert Inverse(F, a) && MulComm(F, a, Inv(F, a)) && MulAssoc(F, Inv(F, a), a, b);
      Zero(F, Inv(F, a));
    }
  }

  lemma InverseNonzero(F: Field, a: gf)
    requires Laws(F) && a != 0
    ensures Inv(F, a) != 0 && Mul(F, Inv(F, a), a) == 1 && Mul(F, a, Inv(F, a)) == 1
  {
    assert Inverse(F, a) && MulComm(F, a, Inv(F, a));
    Zero(F, a);
  }

  /** Solving a * x == b for nonzero a. */
  lemma Divide(F: Field, a: gf, x: gf, b: gf)
    requires Laws(F) && a != 0
    ensures Mul(F, a, x) == b <==> x == Mul(F, Inv(F, a), b)
  {
    InverseNonzero(F, a);
    assert MulAssoc(F, Inv(F, a), a, x) && MulAssoc(F, a, Inv(F, a), b);
    Zero(F, x);
    Zero(F, b);
  }

  // ---------- powers ----------

  function Pow(F: Field, a: gf, n: nat): gf {
    if n == 0 then 1 else Mul(F, a, Pow(F, a, n - 1))
  }

  lemma {:induction false} PowAdd(F: Field, a: gf, m: nat, n: nat, s: nat)
    requires RingLaws(F) && s == m + n
    ensures Pow(F, a, s) == Mul(F, Pow(F, a, m), Pow(F, a, n))
    decreases m
  {
    if m == 0 {
      Zero(F, Pow(F, a, n));
    } else {
      PowAdd(F, a, m - 1, n, s - 1);
      assert MulAssoc(F, a, Pow(F, a, m - 1), Pow(F, a, n));
    }
  }

  lemma {:induction false} PowOfOne(F: Field, n: nat)
    requires RingLaws(F)
    ensures Pow(F, 1, n) == 1
  {
    if n > 0 {
      PowOfOne(F, n - 1);
      Zero(F, 1);
    }
  }

  lemma {:induction false} PowPow(F: Field, a: gf, m: nat, n: nat, p: nat)
    requires RingLaws(F) && p == m * n
    ensures Pow(F, Pow(F, a, m), n) == Pow(F, a, p)
  {
    if n > 0 {
      var q := m * (n - 1);
      assert m + q == p;
      PowPow(F, a, m, n - 1, q);
      PowAdd(F, a, m, q, p);
    }
  }

  // ---------- primitive elements ----------

  /** g^255 == 1, and no quotient of 255 by one of its prime factors 3, 5, 17 gives 1. */
  ghost predicate Primitive(F: Field, g: gf) {
    Pow(F, g, 255) == 1 && Pow(F, g, 85) != 1 && Pow(F, g, 51) != 1 && Pow(F, g, 15) != 1
  }

  /** If g^m == 1, only the remainder of an exponent by m matters. */
  lemma {:induction false} PowMod(F: Field, g: gf, m: nat, q: nat, r: nat, s: nat)
    requires RingLaws(F) && Pow(F, g, m) == 1 && s == m * q + r
    ensures Pow(F, g, s) == Pow(F, g, r)
  {
    PowCycles(F, g, m, q, m * q);
    PowAdd(F, g, m * q, r, s);
    Zero(F, Pow(F, g, r));
  }

  lemma {:induction false} PowCycles(F: Field, g: gf, m: nat, q: nat, p: nat)
    requires RingLaws(F) && Pow(F, g, m) == 1 && p == m * q
    ensures Pow(F, g, p) == 1
  {
    PowPow(F, g, m, q, p);
    PowOfOne(F, q);
  }

  lemma PowRemainder(F: Field, g: gf, m: nat, n: nat)
    requires RingLaws(F) && 0 < m && Pow(F, g, m) == 1
    ensures Pow(F, g, n) == Pow(F, g, n % m)
  {
    assert n == m * (n / m) + n % m;
    PowMod(F, g, m, n / m, n % m, n);
  }

  /** The small factors of 255. */
  lemma SmallFactor(a: nat, b: nat)
    requires 1 <= a <= 15 && a * b == 255
    ensures (a == 1 && b == 255) || (a == 3 && b == 85) || (a == 5 && b == 51) || (a == 15 && b == 17)
  {
    assert a <= 8 ==>
             (a * b == if a == 1 then b else if a == 2 then 2 * b else if a == 3 then 3 * b else if a == 4 then 4 * b
                       else if a == 5 then 5 * b else if a == 6 then 6 * b else if a == 7 then 7 * b else 8 * b);
    assert a >= 9 ==>
             (a * b == if a == 9 then 9 * b else if a == 10 then 10 * b else if a == 11 then 11 * b
                       else if a == 12 then 12 * b else if a == 13 then 13 * b else if a == 14 then 14 * b else 15 * b);
  }

  lemma OneIsSmall(m: nat, q: nat)
    requires m * q == 255
    ensures m <= 15 || q <= 15
  {
    if m >= 16 && q >= 16 { MulAtLeast(m, q); }
  }

  lemma MulAtLeast(m: nat, q: nat)
    requires m >= 16 && q >= 16
    ensures m * q >= 256
  {
    assert m * q >= 16 * q;
  }

  /** A divisor of 255 other than 255 divides 85, 51 or 15. */
  lemma ProperDivisor(m: nat)
    requires 0 < m < 255 && 255 % m == 0
    ensures 85 % m == 0 || 51 % m == 0 || 15 % m == 0
  {
    var q := 255 / m;
    assert m * q == 255;
    OneIsSmall(m, q);
    if m <= 15 { SmallFactor(m, q); } else { assert q * m == 255 && q != 0; SmallFactor(q, m); }
  }

  lemma {:induction false} NoShorterOrder(F: Field, g: gf, m: nat, d: nat)
    requires RingLaws(F) && Primitive(F, g)
    requires 0 < m <= d < 255 && forall i :: 0 < i < m ==> Pow(F, g, i) != 1
    ensures Pow(F, g, d) != 1
    decreases d - m
  {
    if Pow(F, g, m) == 1 {
      PowRemainder(F, g, m, 255);
      ProperDivisor(m);
      PowRemainder(F, g, m, 85);
      PowRemainder(F, g, m, 51);
      PowRemainder(F, g, m, 15);
      assert false;
    } else if m < d {
      NoShorterOrder(F, g, m + 1, d);
    }
  }

  lemma PrimitiveNonzero(F: Field, g: gf, i: nat)
    requires RingLaws(F) && Primitive(F, g) && i < 255
    ensures Pow(F, g, i) != 0
  {
    PowAdd(F, g, i, 255 - i, 255);
    Zero(F, Pow(F, g, 255 - i));
  }

  /** The first 255 powers of a primitive element differ. */
  lemma PrimitiveDistinct(F: Field, g: gf, i: nat, j: nat)
    requires RingLaws(F) && Primitive(F, g) && i < j < 255
    ensures Pow(F, g, i) != Pow(F, g, j)
  {
    if Pow(F, g, i) == Pow(F, g, j) {
      var d := j - i;
      PowAdd(F, g, 255 - i, i, 255);
      PowAdd(F, g, 255 - i, j, 255 + d);
      PowAdd(F, g, 255, d, 255 + d);
      Zero(F, Pow(F, g, d));
      NoShorterOrder(F, g, 1, d);
    }
  }
}
