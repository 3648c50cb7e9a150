/** GF(2^8) = GF(2)[x] / (x^8 + x^4 + x^3 + x^2 + 1) on bytes: the laws of the ring, and the
    fact that alpha = x is primitive, which makes the ring a field. */
module FecGf256 {
  import opened FecField

  // ---------- exclusive or ----------

  function XorNat(a: nat, b: nat): nat
    decreases a + b
  {
    if a == 0 then b else if b == 0 then a
    else (if a % 2 == b % 2 then 0 else 1) + 2 * XorNat(a / 2, b / 2)
  }

  function Pow2(n: nat): (r: nat)
    ensures r >= 1
  {
    if n == 0 then 1 else 2 * Pow2(n - 1)
  }

  lemma {:induction false} XorNatBound(a: nat, b: nat, n: nat)
    requires a < Pow2(n) && b < Pow2(n)
    ensures XorNat(a, b) < Pow2(n)
  {
    if n > 0 { XorNatBound(a / 2, b / 2, n - 1); }
  }

  function Xor(a: gf, b: gf): gf {
    assert XorNat(a as nat, b as nat) < 256 by {
      assert Pow2(8) == 256;
      XorNatBound(a as nat, b as nat, 8);
    }
    XorNat(a as nat, b as nat) as gf
  }

  /** The low bit and the remaining bits of an exclusive or. */
  lemma {:induction false} XorNatHalves(a: nat, b: nat)
    ensures XorNat(a, b) % 2 == (a % 2 + b % 2) % 2
    ensures XorNat(a, b) / 2 == XorNat(a / 2, b / 2)
  {
  }

  lemma {:induction false} XorNatComm(a: nat, b: nat)
    ensures XorNat(a, b) == XorNat(b, a)
    decreases a + b
  {
    if a != 0 || b != 0 { XorNatComm(a / 2, b / 2); }
  }

  lemma {:induction false} XorNatAssoc(a: nat, b: nat, c: nat)
    ensures XorNat(XorNat(a, b), c) == XorNat(a, XorNat(b, c))
    decreases a + b + c
  {
    if a != 0 || b != 0 || c != 0 {
      XorNatAssoc(a / 2, b / 2, c / 2);
      var ab, bc := XorNat(a, b), XorNat(b, c);
      XorNatHalves(a, b);
      XorNatHalves(b, c);
      XorNatHalves(ab, c);
      XorNatHalves(a, bc);
      ParityAssoc(a % 2, b % 2, c % 2);
      SameHalves(XorNat(ab, c), XorNat(a, bc));
    }
  }

  lemma ParityAssoc(x: nat, y: nat, z: nat)
    ensures ((x + y) % 2 + z) % 2 == (x + (y + z) % 2) % 2
  {
  }

  lemma SameHalves(m: nat, n: nat)
    requires m % 2 == n % 2 && m / 2 == n / 2
    ensures m == n
  {
  }

  lemma {:induction false} XorNatUnit(a: nat)
    ensures XorNat(a, 0) == a && XorNat(0, a) == a && XorNat(a, a) == 0
  {
    if a != 0 { XorNatUnit(a / 2); }
  }

  /** (a ^ b) ^ (c ^ d) == (a ^ c) ^ (b ^ d) */
  lemma XorNatSwap(a: nat, b: nat, c: nat, d: nat)
    ensures XorNat(XorNat(a, b), XorNat(c, d)) == XorNat(XorNat(a, c), XorNat(b, d))
  {
    XorNatAssoc(a, b, XorNat(c, d));
    XorNatAssoc(a, c, XorNat(b, d));
    XorNatAssoc(b, c, d);
    XorNatAssoc(c, b, d);
    XorNatComm(b, c);
  }

  lemma XorLaws(a: gf, b: gf, c: gf)
    ensures Xor(a, b) == Xor(b, a)
    ensures Xor(Xor(a, b), c) == Xor(a, Xor(b, c))
    ensures Xor(a, 0) == a && Xor(0, a) == a && Xor(a, a) == 0
  {
    XorNatComm(a as nat, b as nat);
    XorNatAssoc(a as nat, b as nat, c as nat);
    XorNatUnit(a as nat);
  }

  lemma XorSwap(a: gf, b: gf, c: gf, d: gf)
    ensures Xor(Xor(a, b), Xor(c, d)) == Xor(Xor(a, c), Xor(b, d))
  {
    XorNatSwap(a as nat, b as nat, c as nat, d as nat);
  }

  // ---------- doubling: multiplication by x ----------

  /** x * a: shift left, and reduce by the polynomial when x^8 appears. */
  function Xtime(a: gf): gf {
    if a < 128 then 2 * a else Xor(2 * (a - 128), 29)
  }

  /** One bit of an exclusive or, from the bottom. */
  lemma XorNatBit(x: nat, c: nat, y: nat, d: nat)
    requires c <= 1 && d <= 1
    ensures XorNat(2 * x + c, 2 * y + d) == (if c == d then 0 else 1) + 2 * XorNat(x, y)
  {
    XorNatUnit(x);
    XorNatUnit(y);
  }

  function Top(h: bool, n: nat): nat { if h then Pow2(n) else 0 }

  ghost predicate BitLaw(f: (nat, nat) -> nat, x: nat, c: nat, y: nat, d: nat) {
    f(2 * x + c, 2 * y + d) == (if c == d then 0 else 1) + 2 * f(x, y)
  }

  lemma TopJoin(f: (nat, nat) -> nat, x: nat, c: nat, h: bool, y: nat, d: nat, k: bool, n: nat)
    requires n > 0 && BitLaw(f, x, c, y, d) && BitLaw(f, x + Top(h, n - 1), c, y + Top(k, n - 1), d)
    requires f(x + Top(h, n - 1), y + Top(k, n - 1)) == f(x, y) + Top(h != k, n - 1)
    ensures f(2 * x + c + Top(h, n), 2 * y + d + Top(k, n)) == f(2 * x + c, 2 * y + d) + Top(h != k, n)
  {
    assert 2 * (x + Top(h, n - 1)) + c == 2 * x + c + Top(h, n);
    assert 2 * (y + Top(k, n - 1)) + d == 2 * y + d + Top(k, n);
  }

  /** An exclusive or, known here by its bits alone. */
  ghost predicate BitLaws(f: (nat, nat) -> nat) {
    && f(0, 0) == 0 && f(0, 1) == 1 && f(1, 0) == 1 && f(1, 1) == 0
    && forall x, c, y, d {:trigger BitLaw(f, x, c, y, d)} :: c <= 1 && d <= 1 ==> BitLaw(f, x, c, y, d)
  }

  function XorOp(): (nat, nat) -> nat { (a: nat, b: nat) => XorNat(a, b) }

  lemma XorOpBits()
    ensures BitLaws(XorOp())
  {
    var f := XorOp();
    XorNatUnit(1);
    XorNatBit(0, 1, 0, 1);
    forall x, c, y, d {:trigger BitLaw(f, x, c, y, d)} | c <= 1 && d <= 1 ensures BitLaw(f, x, c, y, d) {
      XorNatBit(x, c, y, d);
    }
  }

  /** The top bit of an exclusive or: h and k say whether Pow2(n) is set in each operand. */
  lemma {:induction false} TopLaw(f: (nat, nat) -> nat, x: nat, h: bool, y: nat, k: bool, n: nat)
    requires BitLaws(f) && x < Pow2(n) && y < Pow2(n)
    ensures f(x + Top(h, n), y + Top(k, n)) == f(x, y) + Top(h != k, n)
  {
    if n > 0 {
      var x', c, y', d := x / 2, x % 2, y / 2, y % 2;
      TopLaw(f, x', h, y', k, n - 1);
      assert BitLaw(f, x', c, y', d) && BitLaw(f, x' + Top(h, n - 1), c, y' + Top(k, n - 1), d);
      TopJoin(f, x', c, h, y', d, k, n);
    }
  }

  lemma XorNatTop(x: nat, h: bool, y: nat, k: bool, n: nat)
    requires x < Pow2(n) && y < Pow2(n)
    ensures XorNat(x + Top(h, n), y + Top(k, n)) == XorNat(x, y) + Top(h != k, n)
  {
    var f := XorOp();
    XorOpBits();
    TopLaw(f, x, h, y, k, n);
    assert f(x, y) == XorNat(x, y) && f(x + Top(h, n), y + Top(k, n)) == XorNat(x + Top(h, n), y + Top(k, n));
  }

  function LowSeven(a: nat): nat { if a < 128 then a else a - 128 }

  function Reduction(a: nat): nat { if a < 128 then 0 else 29 }

  lemma XtimeParts(a: gf)
    ensures Xtime(a) as nat == XorNat(2 * LowSeven(a as nat), Reduction(a as nat))
  {
    XorNatUnit(2 * LowSeven(a as nat));
  }

  lemma XorReductions(x: nat, y: nat)
    ensures XorNat(Reduction(x), Reduction(y)) == if (x < 128) == (y < 128) then 0 else 29
  {
    XorNatUnit(29);
  }

  /** The low seven bits and the top bit of an exclusive or of bytes. */
  lemma {:induction false} XorParts(x: nat, y: nat, z: nat)
    requires x < 256 && y < 256 && z == XorNat(x, y)
    ensures LowSeven(z) == XorNat(LowSeven(x), LowSeven(y))
    ensures Reduction(z) == XorNat(Reduction(x), Reduction(y))
  {
    assert Pow2(7) == 128;
    XorNatTop(LowSeven(x), x >= 128, LowSeven(y), y >= 128, 7);
    XorNatBound(LowSeven(x), LowSeven(y), 7);
    XorReductions(x, y);
  }

  lemma XtimeLinear(a: gf, b: gf)
    ensures Xtime(Xor(a, b)) == Xor(Xtime(a), Xtime(b))
  {
    var x, y, z := a as nat, b as nat, Xor(a, b) as nat;
    XorParts(x, y, z);
    XtimeParts(a);
    XtimeParts(b);
    XtimeParts(Xor(a, b));
    XtimeLinearParts(LowSeven(x), LowSeven(y), Reduction(x), Reduction(y));
  }

  lemma XtimeLinearParts(lx: nat, ly: nat, rx: nat, ry: nat)
    ensures XorNat(2 * XorNat(lx, ly), XorNat(rx, ry)) == XorNat(XorNat(2 * lx, rx), XorNat(2 * ly, ry))
  {
    XorNatBit(lx, 0, ly, 0);
    XorNatSwap(2 * lx, rx, 2 * ly, ry);
  }

  // ---------- multiplication ----------

  /** Shift-and-add product: one doubling of a for each bit of b. */
  function MulNat(a: gf, b: nat): gf
    decreases b
  {
    if b == 0 then 0 else Xor(if b % 2 == 1 then a else 0, MulNat(Xtime(a), b / 2))
  }

  function GMul(a: gf, b: gf): gf { MulNat(a, b as nat) }

  lemma {:induction false} MulZeroLeft(b: nat)
    ensures MulNat(0, b) == 0
  {
    if b != 0 {
      MulZeroLeft(b / 2);
      XorLaws(0, 0, 0);
    }
  }

  lemma {:induction false} MulXorLeft(a: gf, a': gf, b: nat)
    ensures MulNat(Xor(a, a'), b) == Xor(MulNat(a, b), MulNat(a', b))
    decreases b
  {
    XorLaws(0, 0, 0);
    if b != 0 {
      XtimeLinear(a, a');
      MulXorLeft(Xtime(a), Xtime(a'), b / 2);
      var t := b % 2 == 1;
      XorSwap(if t then a else 0, MulNat(Xtime(a), b / 2), if t then a' else 0, MulNat(Xtime(a'), b / 2));
    }
  }

  lemma {:induction false} MulXtime(a: gf, b: nat)
    ensures MulNat(Xtime(a), b) == Xtime(MulNat(a, b))
    decreases b
  {
    if b != 0 {
      MulXtime(Xtime(a), b / 2);
      XtimeLinear(if b % 2 == 1 then a else 0, MulNat(Xtime(a), b / 2));
    }
  }

  /** One bit of the right factor at a time. */
  lemma MulStep(a: gf, b: nat)
    ensures MulNat(a, b) == Xor(if b % 2 == 1 then a else 0, Xtime(MulNat(a, b / 2)))
  {
    MulXtime(a, b / 2);
    XorLaws(0, 0, 0);
  }

  /** A byte is its low bit plus the double of the rest. */
  lemma Bits(a: gf)
    ensures a == Xor(if a % 2 == 1 then 1 else 0, Xtime(a / 2))
  {
    var h := a as nat / 2;
    XorNatUnit(h);
    assert XorNat(a as nat % 2, 2 * h) == a as nat;
  }

  lemma {:induction false} MulComm(a: gf, b: gf)
    ensures GMul(a, b) == GMul(b, a)
    decreases a as nat
  {
    if a == 0 {
      MulZeroLeft(b as nat);
    } else {
      var l: gf := if a % 2 == 1 then 1 else 0;
      MulComm(a / 2, b);
      Bits(a);
      MulXorLeft(l, Xtime(a / 2), b as nat);
      MulXtime(a / 2, b as nat);
      MulStep(b, a as nat);
      MulOneLeft(b);
      MulZeroLeft(b as nat);
    }
  }

  lemma {:induction false} MulOneLeft(b: gf)
    ensures GMul(1, b) == b
    decreases b as nat
  {
    if b != 0 {
      MulOneLeft(b / 2);
      MulStep(1, b as nat);
      Bits(b);
    }
  }

  lemma {:induction false} MulAssocNat(a: gf, b: gf, c: nat)
    ensures MulNat(GMul(a, b), c) == GMul(a, MulNat(b, c))
    decreases c
  {
    if c != 0 {
      var l := if c % 2 == 1 then b else 0;
      MulAssocNat(a, b, c / 2);
      MulStep(GMul(a, b), c);
      MulStep(b, c);
      var r := MulNat(b, c / 2);
      MulComm(a, Xor(l, Xtime(r)));
      MulXorLeft(l, Xtime(r), a as nat);
      MulXtime(r, a as nat);
      MulComm(r, a);
      MulComm(l, a);
    }
  }

  // ---------- the ring of bytes ----------

  ghost predicate SameOps(F: Field, a: gf, b: gf) { Add(F, a, b) == Xor(a, b) && Mul(F, a, b) == GMul(a, b) }

  /** The operations of F are those of bytes; its inversion is not mentioned. */
  ghost predicate OnBytes(F: Field) { forall a, b {:trigger SameOps(F, a, b)} :: SameOps(F, a, b) }

  lemma AddLaws(F: Field, a: gf, b: gf, c: gf)
    requires OnBytes(F)
    ensures AddComm(F, a, b) && AddAssoc(F, a, b, c) && AddUnit(F, a)
  {
    XorLaws(a, b, c);
    assert SameOps(F, a, b) && SameOps(F, b, a) && SameOps(F, b, c) && SameOps(F, a, 0) && SameOps(F, a, a);
    assert SameOps(F, Xor(a, b), c) && SameOps(F, a, Xor(b, c));
  }

  lemma MulLaws(F: Field, a: gf, b: gf, c: gf)
    requires OnBytes(F)
    ensures FecField.MulComm(F, a, b) && MulAssoc(F, a, b, c) && MulUnit(F, a)
  {
    MulComm(a, b);
    MulComm(1, a);
    MulOneLeft(a);
    MulAssocNat(a, b, c as nat);
    assert SameOps(F, a, b) && SameOps(F, b, a) && SameOps(F, b, c) && SameOps(F, a, 0) && SameOps(F, a, 1);
    assert SameOps(F, GMul(a, b), c) && SameOps(F, a, GMul(b, c));
  }

  lemma DistribLaw(F: Field, a: gf, b: gf, c: gf)
    requires OnBytes(F)
    ensures Distrib(F, a, b, c)
  {
    MulXorLeft(b, c, a as nat);
    MulComm(a, Xor(b, c));
    MulComm(a, c);
    MulComm(a, b);
    assert SameOps(F, b, c) && SameOps(F, a, b) && SameOps(F, a, c);
    assert SameOps(F, a, Xor(b, c)) && SameOps(F, GMul(a, b), GMul(a, c));
  }

  /** Bytes with exclusive or and the reduced product form a commutative ring. */
  lemma ByteRing(F: Field)
    requires OnBytes(F)
    ensures RingLaws(F)
  {
    forall a, b {:trigger AddComm(F, a, b)} ensures AddComm(F, a, b) { AddLaws(F, a, b, 0); }
    forall a, b, c {:trigger AddAssoc(F, a, b, c)} ensures AddAssoc(F, a, b, c) { AddLaws(F, a, b, c); }
    forall a {:trigger AddUnit(F, a)} ensures AddUnit(F, a) { AddLaws(F, a, 0, 0); }
    forall a, b {:trigger FecField.MulComm(F, a, b)} ensures FecField.MulComm(F, a, b) { MulLaws(F, a, b, 0); }
    forall a, b, c {:trigger MulAssoc(F, a, b, c)} ensures MulAssoc(F, a, b, c) { MulLaws(F, a, b, c); }
    forall a {:trigger MulUnit(F, a)} ensures MulUnit(F, a) { MulLaws(F, a, 0, 0); }
    forall a, b, c {:trigger Distrib(F, a, b, c)} ensures Distrib(F, a, b, c) { DistribLaw(F, a, b, c); }
  }

  // ---------- alpha = x = 2 is primitive ----------

  /** The low four bits of a number below 128, by comparison and subtraction. */
  function LowFour(t: nat): nat
    requires t < 128
  {
    var t1 := if t >= 64 then t - 64 else t;
    var t2 := if t1 >= 32 then t1 - 32 else t1;
    if t2 >= 16 then t2 - 16 else t2
  }

  /** Xtime by arithmetic alone: the reduction flips bits 0, 2, 3 and 4 of an even number. */
  function Double(a: nat): nat
    requires a < 256
  {
    if a < 128 then 2 * a
    else
      var t := a - 128;
      var r := LowFour(t);
      var r4 := if r >= 8 then r - 8 else r;
      var r2 := if r4 >= 4 then r4 - 4 else r4;
      2 * t + 1 + (if r >= 8 then -16 else 16) + (if r4 >= 4 then -8 else 8) + (if r2 >= 2 then -4 else 4)
  }

  /** t is 16 h + r with r its low four bits. */
  lemma LowFourRest(t: nat) returns (h: nat)
    requires t < 128
    ensures t == 16 * h + LowFour(t) && LowFour(t) < 16
  {
    h := if t >= 112 then 7 else if t >= 96 then 6 else if t >= 80 then 5 else if t >= 64 then 4
         else if t >= 48 then 3 else if t >= 32 then 2 else if t >= 16 then 1 else 0;
  }

  /** Flipping bits 0, 2, 3 and 4, one bit at a time. */
  lemma FlipBits(f: (nat, nat) -> nat, h: nat, c: nat, d: nat, e: nat, g: nat)
    requires BitLaws(f) && f(h, 0) == h && c <= 1 && d <= 1 && e <= 1 && g <= 1
    ensures f(32 * h + 16 * c + 8 * d + 4 * e + 2 * g, 29)
         == 32 * h + 16 * (1 - c) + 8 * (1 - d) + 4 * (1 - e) + 2 * g + 1
  {
    var h1 := 2 * h + c;
    var h2 := 2 * h1 + d;
    var h3 := 2 * h2 + e;
    var h4 := 2 * h3 + g;
    assert BitLaw(f, h, c, 0, 1) && BitLaw(f, h1, d, 1, 1) && BitLaw(f, h2, e, 3, 1) && BitLaw(f, h3, g, 7, 0)
      && BitLaw(f, h4, 0, 14, 1);
    assert f(h1, 1) == 2 * h + 1 - c;
    assert f(h2, 3) == 4 * h + 2 * (1 - c) + 1 - d;
    assert f(h3, 7) == 8 * h + 4 * (1 - c) + 2 * (1 - d) + 1 - e;
    assert f(h4, 14) == 16 * h + 8 * (1 - c) + 4 * (1 - d) + 2 * (1 - e) + g;
    assert 2 * h4 + 0 == 32 * h + 16 * c + 8 * d + 4 * e + 2 * g;
  }

  lemma XorWith29(h: nat, c: nat, d: nat, e: nat, g: nat)
    requires c <= 1 && d <= 1 && e <= 1 && g <= 1
    ensures XorNat(32 * h + 16 * c + 8 * d + 4 * e + 2 * g, 29)
         == 32 * h + 16 * (1 - c) + 8 * (1 - d) + 4 * (1 - e) + 2 * g + 1
  {
    var f := XorOp();
    XorOpBits();
    XorNatUnit(h);
    assert f(h, 0) == XorNat(h, 0);
    FlipBits(f, h, c, d, e, g);
    var x := 32 * h + 16 * c + 8 * d + 4 * e + 2 * g;
    assert f(x, 29) == XorNat(x, 29);
  }

  /** The bits c, d, e of a number below sixteen, and its lowest bit. */
  lemma LowBits(r: nat) returns (c: nat, d: nat, e: nat, g: nat)
    requires r < 16
    ensures c <= 1 && d <= 1 && e <= 1 && g <= 1 && r == 8 * c + 4 * d + 2 * e + g
  {
    c := if r >= 8 then 1 else 0;
    d := if r - 8 * c >= 4 then 1 else 0;
    e := if r - 8 * c - 4 * d >= 2 then 1 else 0;
    g := r - 8 * c - 4 * d - 2 * e;
  }

  lemma DoubleBits(t: nat) returns (h: nat, c: nat, d: nat, e: nat, g: nat)
    requires t < 128
    ensures c <= 1 && d <= 1 && e <= 1 && g <= 1 && 2 * t == 32 * h + 16 * c + 8 * d + 4 * e + 2 * g
    ensures Double(t + 128) == 32 * h + 16 * (1 - c) + 8 * (1 - d) + 4 * (1 - e) + 2 * g + 1
  {
    h := LowFourRest(t);
    c, d, e, g := LowBits(LowFour(t));
  }

  lemma XorIsDouble(t: nat, x: nat, k: nat)
    requires t < 128 && x == 2 * t && k == 29
    ensures XorNat(x, k) == Double(t + 128)
  {
    var h, c, d, e, g := DoubleBits(t);
    XorWith29(h, c, d, e, g);
  }

  lemma XtimeIsDouble(a: gf)
    ensures Xtime(a) as nat == Double(a as nat)
  {
    if a >= 128 { XorIsDouble(a as nat - 128, (2 * (a - 128)) as nat, 29); }
  }

  function Shift(a: nat, n: nat): (r: nat)
    requires a < 256
    ensures r < 256
    decreases n
  {
    if n == 0 then a else XtimeIsDouble(a as gf); Shift(Double(a), n - 1)
  }

  lemma {:induction false} PowShift(F: Field, m: nat, n: nat, v: gf)
    requires RingLaws(F) && OnBytes(F) && Pow(F, 2, m) == v
    ensures Pow(F, 2, m + n) as nat == Shift(v as nat, n)
    decreases n
  {
    if n > 0 {
      assert SameOps(F, 2, v);
      MulXtime(1, v as nat);
      MulOneLeft(v);
      XtimeIsDouble(v);
      PowShift(F, m + 1, n - 1, Xtime(v));
    }
  }

  lemma AlphaPowersTo17(F: Field)
    requires RingLaws(F) && OnBytes(F)
    ensures Pow(F, 2, 15) == 38 && Pow(F, 2, 17) == 152
  {
    PowShift(F, 0, 8, 1);
    PowShift(F, 8, 7, 29);
    PowShift(F, 15, 2, 38);
  }

  lemma AlphaPowersTo34(F: Field)
    requires RingLaws(F) && OnBytes(F) && Pow(F, 2, 17) == 152
    ensures Pow(F, 2, 34) == 78
  {
    PowShift(F, 17, 9, 152);
    PowShift(F, 26, 8, 6);
  }

  lemma AlphaPowersTo51(F: Field)
    requires RingLaws(F) && OnBytes(F) && Pow(F, 2, 34) == 78
    ensures Pow(F, 2, 51) == 10
  {
    PowShift(F, 34, 9, 78);
    PowShift(F, 43, 8, 119);
  }

  lemma AlphaPowersTo68(F: Field)
    requires RingLaws(F) && OnBytes(F) && Pow(F, 2, 51) == 10
    ensures Pow(F, 2, 68) == 153
  {
    PowShift(F, 51, 9, 10);
    PowShift(F, 60, 8, 185);
  }

  lemma AlphaPrimitive(F: Field)
    requires RingLaws(F) && OnBytes(F)
    ensures Primitive(F, 2)
  {
    AlphaPowersTo17(F);
    AlphaPowersTo34(F);
    AlphaPowersTo51(F);
    AlphaPowersTo68(F);
    // alpha^17 generates the subfield of sixteen elements: its fourth power is itself plus one
    var b := Pow(F, 2, 17);
    PowPow(F, 2, 17, 4, 68);
    assert SameOps(F, 152, 1);
    XorNatBit(76, 0, 0, 1);
    XorNatUnit(76);
    QuarticOrder(F, b);
    PowPow(F, 2, 17, 3, 51);
    PowPow(F, 2, 17, 5, 85);
    PowPow(F, 2, 17, 15, 255);
  }

  lemma SquareAdd(F: Field, a: gf, b: gf)
    requires RingLaws(F)
    ensures Mul(F, Add(F, a, b), Add(F, a, b)) == Add(F, Mul(F, a, a), Mul(F, b, b))
  {
    var s := Add(F, a, b);
    assert Distrib(F, s, a, b) && FecField.MulComm(F, s, a) && FecField.MulComm(F, s, b);
    assert Distrib(F, a, a, b) && Distrib(F, b, a, b) && FecField.MulComm(F, a, b);
    var x, y, z := Mul(F, a, a), Mul(F, a, b), Mul(F, b, b);
    assert AddAssoc(F, x, y, Add(F, y, z)) && AddAssoc(F, y, y, z);
    Zero(F, y);
    Zero(F, z);
  }

  /** An element with b^4 == b + 1 has order fifteen. */
  lemma QuarticOrder(F: Field, b: gf)
    requires RingLaws(F) && Pow(F, b, 4) == Add(F, b, 1)
    ensures Pow(F, b, 15) == 1 && Pow(F, b, 3) != 1 && Pow(F, b, 5) != 1
  {
    var b2, b3, b15 := Pow(F, b, 2), Pow(F, b, 3), Pow(F, b, 15);
    Zero(F, b);
    Zero(F, 1);
    assert Pow(F, b, 1) == b;
    assert b2 == Mul(F, b, Pow(F, b, 1));
    // b (b^3 + 1) == 1, so b has an inverse u
    var u := Add(F, b3, 1);
    assert Distrib(F, b, b3, 1);
    assert AddComm(F, b, 1) && AddAssoc(F, 1, b, b);
    assert Mul(F, b, u) == 1;
    assert b3 != 1;
    if Pow(F, b, 5) == 1 {
      assert Distrib(F, b, b, 1);
      assert AddAssoc(F, b2, b, b) && AddComm(F, 1, b);
      Zero(F, b2);
      assert false;
    }
    PowAdd(F, b, 4, 4, 8);
    SquareAdd(F, b, 1);
    PowAdd(F, b, 8, 8, 16);
    SquareAdd(F, b2, 1);
    PowAdd(F, b, 2, 2, 4);
    assert AddAssoc(F, b, 1, 1);
    assert Pow(F, b, 16) == b;
    assert FecField.MulComm(F, b, u) && MulAssoc(F, u, b, b15);
    Zero(F, b15);
  }

  // ---------- the field of bytes ----------

  ghost predicate InPowers(F: Field, a: gf, n: nat) { exists i: nat :: i < n && Pow(F, 2, i) == a }

  ghost function Powers(F: Field, n: nat): set<gf> { set a: gf | InPowers(F, a, n) }

  predicate Between(a: gf, n: nat) { 0 < a as nat <= n }

  ghost function Bytes(n: nat): set<gf> { set a: gf | Between(a, n) }

  lemma {:induction false} PowersCount(F: Field, n: nat)
    requires RingLaws(F) && Primitive(F, 2) && n <= 255
    ensures |Powers(F, n)| == n
  {
    if n == 0 {
      assert Powers(F, 0) == {};
    } else {
      PowersCount(F, n - 1);
      var p := Pow(F, 2, n - 1);
      forall i: nat | i < n - 1 ensures Pow(F, 2, i) != p { PrimitiveDistinct(F, 2, i, n - 1); }
      assert p !in Powers(F, n - 1);
      assert Powers(F, n) == Powers(F, n - 1) + {p};
    }
  }

  lemma {:induction false} BytesCount(n: nat)
    requires n < 256
    ensures |Bytes(n)| == n
  {
    if n == 0 {
      assert Bytes(0) == {};
    } else {
      BytesCount(n - 1);
      assert Bytes(n) == Bytes(n - 1) + {n as gf};
    }
  }

  lemma SubsetFull<T>(s: set<T>, t: set<T>)
    requires s <= t && |s| == |t|
    ensures s == t
  {
    assert t == s + (t - s);
  }

  /** Every nonzero byte is one of the first 255 powers of alpha. */
  lemma EveryByteIsAPower(F: Field, a: gf)
    requires RingLaws(F) && Primitive(F, 2) && a != 0
    ensures exists i: nat :: i < 255 && Pow(F, 2, i) == a
  {
    PowersCount(F, 255);
    BytesCount(255);
    forall b | b in Powers(F, 255) ensures b in Bytes(255) {
      var i: nat :| i < 255 && Pow(F, 2, i) == b;
      PrimitiveNonzero(F, 2, i);
    }
    SubsetFull(Powers(F, 255), Bytes(255));
    assert a in Bytes(255);
  }

  ghost const BYTES: Field := Field((a, b) => Xor(a, b), (a, b) => GMul(a, b), a => 0)

  ghost function ByteInv(a: gf): gf { Pow(BYTES, a, 254) }

  ghost function ByteField(): Field { Field((a, b) => Xor(a, b), (a, b) => GMul(a, b), a => ByteInv(a)) }

  lemma {:induction false} PowAgrees(F: Field, G: Field, a: gf, n: nat)
    requires OnBytes(F) && OnBytes(G)
    ensures Pow(F, a, n) == Pow(G, a, n)
  {
    if n > 0 {
      PowAgrees(F, G, a, n - 1);
      assert SameOps(F, a, Pow(F, a, n - 1)) && SameOps(G, a, Pow(F, a, n - 1));
    }
  }

  lemma BothOnBytes()
    ensures OnBytes(BYTES) && OnBytes(ByteField())
    ensures forall a :: Inv(ByteField(), a) == ByteInv(a)
  {
    forall a, b {:trigger SameOps(BYTES, a, b)} ensures SameOps(BYTES, a, b) {}
    forall a, b {:trigger SameOps(ByteField(), a, b)} ensures SameOps(ByteField(), a, b) {}
  }

  lemma ByteInverse(F: Field, a: gf)
    requires RingLaws(F) && OnBytes(F) && Primitive(F, 2) && OnBytes(BYTES) && a != 0 && Inv(F, a) == ByteInv(a)
    ensures Inverse(F, a)
  {
    EveryByteIsAPower(F, a);
    var i: nat :| i < 255 && Pow(F, 2, i) == a;
    PowAgrees(F, BYTES, a, 254);
    PowPow(F, 2, i, 255, i * 255);
    PowPow(F, 2, 255, i, i * 255);
    PowOfOne(F, i);
    assert Pow(F, a, 255) == Mul(F, a, Pow(F, a, 254));
  }

  /** The bytes of the coder are a field in which alpha = 2 is primitive. */
  lemma ByteFieldLaws()
    ensures Laws(ByteField()) && OnBytes(ByteField()) && Primitive(ByteField(), 2)
  {
    BothOnBytes();
    var F := ByteField();
    ByteRing(F);
    AlphaPrimitive(F);
    forall a {:trigger Inverse(F, a)} ensures Inverse(F, a) {
      if a != 0 { ByteInverse(F, a); }
    }
  }
}
