/** The tables of the coder and the byte operations over them. */
module FecTables {
  import opened FecField
  import opened FecGf256

  /** Exclusive or is the field's addition, without its definition. */
  ghost predicate XorAt(F: Field, a: gf, b: gf) { Xor(a, b) == Add(F, a, b) }

  ghost predicate AddIsXor(F: Field) { forall a, b {:trigger XorAt(F, a, b)} :: XorAt(F, a, b) }

  /** Doubling is multiplication by alpha. */
  ghost predicate XtimeAt(F: Field, a: gf) { Xtime(a) == Mul(F, 2, a) }

  ghost predicate ByteOps(F: Field) {
    Laws(F) && Primitive(F, 2) && AddIsXor(F) && forall a {:trigger XtimeAt(F, a)} :: XtimeAt(F, a)
  }

  lemma ByteFieldOps()
    ensures ByteOps(ByteField())
  {
    ByteFieldLaws();
    var F := ByteField();
    forall a, b {:trigger XorAt(F, a, b)} ensures XorAt(F, a, b) { assert SameOps(F, a, b); }
    forall a {:trigger XtimeAt(F, a)} ensures XtimeAt(F, a) {
      assert SameOps(F, 2, a);
      MulXtime(1, a as nat);
      MulOneLeft(a);
    }
  }

  function BitValue(i: nat): gf
    requires i < 8
  {
    if i == 0 then 1 else if i == 1 then 2 else if i == 2 then 4 else if i == 3 then 8
    else if i == 4 then 16 else if i == 5 then 32 else if i == 6 then 64 else 128
  }

  /** The part of alpha^8 found in the first i coefficients. */
  function PpPrefix(i: nat): gf {
    if i == 0 then 0 else if i <= 2 then 1 else if i == 3 then 5 else if i == 4 then 13 else 29
  }

  lemma PpPrefixStep(i: nat)
    requires i < 8
    ensures PpPrefix(i + 1) == if PP[i] == '1' then Xor(PpPrefix(i), BitValue(i)) else PpPrefix(i)
  {
    assert Pow2(0) == 1 && Pow2(2) == 4 && Pow2(3) == 8 && Pow2(4) == 16;
    XorNatUnit(1);
    XorNatUnit(5);
    XorNatUnit(13);
    XorNatTop(1, false, 0, true, 2);
    XorNatTop(5, false, 0, true, 3);
    XorNatTop(13, false, 0, true, 4);
  }

  // ---------- the cycle of powers ----------

  ghost predicate StepAt(P: seq<gf>, i: nat)
    requires i + 1 < |P|
  {
    P[i + 1] == Xtime(P[i])
  }

  /** P runs once through the nonzero bytes, from 1 to 1, by doubling. */
  ghost predicate Cycle(P: seq<gf>) {
    && |P| == 256 && P[0] == 1 && P[255] == 1
    && (forall i, j :: 0 <= i < j < 255 ==> P[i] != P[j])
    && (forall i :: 0 <= i < 255 ==> P[i] != 0)
    && (forall a: gf {:trigger a in P[..255]} :: a != 0 ==> a in P[..255])
    && (forall i {:trigger StepAt(P, i)} :: 0 <= i < 255 ==> StepAt(P, i))
  }

  ghost function PowerList(F: Field): seq<gf> { seq(256, i requires 0 <= i < 256 => Pow(F, 2, i)) }

  lemma PowerListCycle(F: Field)
    requires ByteOps(F)
    ensures Cycle(PowerList(F))
  {
    var P := PowerList(F);
    assert P[0] == Pow(F, 2, 0) == 1 && P[255] == Pow(F, 2, 255);
    forall i, j | 0 <= i < j < 255 ensures P[i] != P[j] { PrimitiveDistinct(F, 2, i, j); }
    forall i | 0 <= i < 255 ensures P[i] != 0 { PrimitiveNonzero(F, 2, i); }
    forall a: gf {:trigger a in P[..255]} | a != 0 ensures a in P[..255] {
      EveryByteIsAPower(F, a);
      var i: nat :| i < 255 && Pow(F, 2, i) == a;
      assert P[..255][i] == a;
    }
    forall i {:trigger StepAt(P, i)} | 0 <= i < 255 ensures StepAt(P, i) {
      assert XtimeAt(F, P[i]) && Pow(F, 2, i + 1) == Mul(F, 2, Pow(F, 2, i));
    }
  }

  /** The inverse of alpha^l is alpha^(255 - l). */
  lemma InverseFromLog(F: Field, l: nat)
    requires ByteOps(F) && l < 255
    ensures Inv(F, PowerList(F)[l]) == PowerList(F)[255 - l]
  {
    PrimitiveNonzero(F, 2, l);
    PowAdd(F, 2, l, 255 - l, 255);
    var a := Pow(F, 2, l);
    Divide(F, a, Pow(F, 2, 255 - l), 1);
    Zero(F, Inv(F, a));
  }

  /** A product is the power of alpha at the sum of the logarithms modulo 255. */
  lemma ProductFromLogs(F: Field, la: nat, lb: nat, s: nat, m: nat)
    requires ByteOps(F) && la < 255 && lb < 255 && s == la + lb && m == s % 255
    ensures PowerList(F)[m] == Mul(F, PowerList(F)[la], PowerList(F)[lb])
  {
    PowAdd(F, 2, la, lb, s);
    PowRemainder(F, 2, 255, s);
  }

  /** Clearing the top bit, shifting and adding alpha^8 is doubling. */
  lemma ShiftReduce(e: gf)
    requires e >= 128
    ensures Xor(e, 128) == e - 128 && Xtime(e) == Xor(29, 2 * (e - 128))
  {
    assert Pow2(7) == 128;
    XorNatTop(e as nat - 128, true, 0, true, 7);
    XorNatUnit(e as nat - 128);
    XorNatComm(29, 2 * (e as nat - 128));
  }

  /** The byte after e in the cycle, as the code computes it from alpha^8 and the top-bit mask. */
  function NextPower(e: gf, exp8: gf, mask: gf): (n: gf)
    requires exp8 == 29 && mask == 128
    ensures n == Xtime(e)
  {
    if e >= mask then
      ShiftReduce(e);
      Xor(exp8, Xor(e, mask) * 2)
    else e * 2
  }

  /** x mod 255, by folding the high byte onto the low one. */
  method Modnn(x0: int) returns (r: gf)
    requires x0 >= 0
    ensures r as int == x0 % 255
  {
    var x := x0;
    while x >= 255
      invariant 0 <= x && x % 255 == x0 % 255
    {
      x := x - 255;
      x := x / 256 + x % 256;
    }
    r := x as gf;
  }

  // Pp, lowest coefficient first
  const PP: string := "101110001"

  class Gf {
    const exp: array<gf>
    const log: array<int>
    const inverse: array<gf>
    const mulTable: array2<gf>
    ghost const F: Field

    /** The tables have their sizes and are separate. */
    ghost predicate Shape()
      reads this
    {
      && exp.Length == 510 && log.Length == 256 && inverse.Length == 256
      && mulTable.Length0 == 256 && mulTable.Length1 == 256
      && exp != inverse && ByteOps(F)
    }

    ghost predicate LogsReady(P: seq<gf>)
      requires Shape()
      reads this, exp, log, inverse
    {
      && P == PowerList(F)
      && (forall i :: 0 <= i < 255 ==> exp[i] == P[i] && exp[i + 255] == P[i])
      && (forall i {:trigger P[i]} :: 0 <= i < 255 ==> log[P[i] as int] == i)
      && log[0] == 255
      && inverse[0] == 0
      && (forall a: gf {:trigger Inv(F, a)} {:trigger inverse[a as int]} :: a != 0 ==> inverse[a as int] == Inv(F, a))
    }

    /** Every table holds what its name says, in the field F. */
    ghost predicate Ready()
      reads this, exp, log, inverse, mulTable
    {
      && Shape()
      && (forall i :: 0 <= i < 255 ==> exp[i] == PowerList(F)[i])
      && inverse[0] == 0
      && (forall a: gf {:trigger Inv(F, a)} {:trigger inverse[a as int]} :: a != 0 ==> inverse[a as int] == Inv(F, a))
      && forall a: gf, b: gf {:trigger mulTable[a as int, b as int]} :: mulTable[a as int, b as int] == Mul(F, a, b)
    }

    /** init_fec: all tables, for the field of bytes. */
    constructor ()
      ensures Ready() && F == ByteField() && fresh(exp) && fresh(log) && fresh(inverse) && fresh(mulTable)
    {
      exp := new gf[510];
      log := new int[256];
      inverse := new gf[256];
      mulTable := new gf[256, 256];
      F := ByteField();
      new;
      ByteFieldOps();
      GenerateGf();
      InitMulTable();
    }

    /** generate_gf: powers of alpha, their logarithms, and inverses. */
    method GenerateGf()
      requires Shape()
      modifies exp, log, inverse
      ensures LogsReady(PowerList(F))
    {
      ghost var P := PowerList(F);
      PowerListCycle(F);
      FirstPowers(P);
      HigherPowers(P);
      log[0] := 255;
      ghost var logs := log[..];
      for i := 0 to 255
        invariant forall j :: 0 <= j < 255 ==> exp[j] == P[j]
        invariant forall j :: 0 <= j < i ==> exp[j + 255] == P[j]
        invariant log[..] == logs
      {
        exp[i + 255] := exp[i];
      }
      assert forall i {:trigger P[i]} :: 0 <= i < 255 ==> log[P[i] as int] == logs[P[i] as int] == i;
      Inverses(P);
    }

    /** The first eight powers are single bits; alpha^8 collects the low part of the polynomial. */
    method FirstPowers(ghost P: seq<gf>)
      requires Shape() && Cycle(P)
      modifies exp, log
      ensures forall i :: 0 <= i <= 8 ==> exp[i] == P[i]
      ensures forall i {:trigger P[i]} :: 0 <= i <= 8 ==> log[P[i] as int] == i
      ensures exp[8] == 29
    {
      var mask: gf := 1;
      exp[8] := 0;
      for i := 0 to 8
        invariant forall j :: 0 <= j < i ==> exp[j] == P[j]
        invariant forall j {:trigger P[j]} :: 0 <= j < i ==> log[P[j] as int] == j
        invariant i < 8 ==> mask == BitValue(i) == P[i]
        invariant exp[8] == PpPrefix(i)
        invariant i == 8 ==> P[8] == 29
      {
        exp[i] := mask;
        log[exp[i] as int] := i;
        PpPrefixStep(i);
        if PP[i] == '1' {
          exp[8] := Xor(exp[8], mask);
        }
        assert StepAt(P, i);
        XorNatUnit(29);
        mask := ((mask as int * 2) % 256) as gf;
      }
      log[exp[8] as int] := 8;
    }

    /** alpha^i is alpha^(i-1) shifted, plus alpha^8 when a bit is shifted out. */
    method HigherPowers(ghost P: seq<gf>)
      requires Shape() && Cycle(P)
      requires forall i :: 0 <= i <= 8 ==> exp[i] == P[i]
      requires forall i {:trigger P[i]} :: 0 <= i <= 8 ==> log[P[i] as int] == i
      requires exp[8] == 29
      modifies exp, log
      ensures forall i :: 0 <= i < 255 ==> exp[i] == P[i]
      ensures forall i {:trigger P[i]} :: 0 <= i < 255 ==> log[P[i] as int] == i
    {
      var mask: gf := 128;
      for i := 9 to 255
        invariant forall j :: 0 <= j < i ==> exp[j] == P[j]
        invariant forall j {:trigger P[j]} :: 0 <= j < i ==> log[P[j] as int] == j
        invariant exp[8] == 29
      {
        assert StepAt(P, i - 1);
        exp[i] := NextPower(exp[i - 1], exp[8], mask);
        log[exp[i] as int] := i;
      }
    }

    method Inverses(ghost P: seq<gf>)
      requires Shape() && Cycle(P) && P == PowerList(F)
      requires forall i :: 0 <= i < 255 ==> exp[i] == P[i] && exp[i + 255] == P[i]
      requires forall i {:trigger P[i]} :: 0 <= i < 255 ==> log[P[i] as int] == i
      modifies inverse
      ensures inverse[0] == 0
      ensures forall a: gf {:trigger Inv(F, a)} {:trigger inverse[a as int]} :: a != 0 ==>
              inverse[a as int] == Inv(F, a)
    {
      inverse[0] := 0;
      inverse[1] := 1;
      InverseFromLog(F, 0);
      for i := 2 to 256
        invariant inverse[0] == 0
        invariant forall a: gf {:trigger inverse[a as int]} :: 0 < a as int < i ==> inverse[a as int] == Inv(F, a)
      {
        assert i as gf in P[..255];
        InverseFromLog(F, log[i]);
        inverse[i] := exp[255 - log[i]];
      }
    }

    /** The logarithm of a nonzero byte, and the special value for zero. */
    lemma LogBound(P: seq<gf>, a: gf)
      requires Shape() && LogsReady(P) && Cycle(P)
      ensures 0 <= log[a as int] <= 255
      ensures a != 0 ==> log[a as int] < 255 && P[log[a as int]] == a
    {
      if a != 0 { assert a in P[..255]; }
    }

    /** One entry of the product table. */
    method TableEntry(i: nat, j: nat, ghost P: seq<gf>) returns (r: gf)
      requires Shape() && LogsReady(P) && Cycle(P) && i < 256 && j < 256
      ensures i != 0 && j != 0 ==> r == Mul(F, i as gf, j as gf)
    {
      LogBound(P, i as gf);
      LogBound(P, j as gf);
      var m := Modnn(log[i] + log[j]);
      r := exp[m as int];
      if i != 0 && j != 0 { ProductFromLogs(F, log[i], log[j], log[i] + log[j], m as nat); }
    }

    /** _init_mul_table: products through logarithms, then the zero row and column. */
    method InitMulTable()
      requires Shape() && LogsReady(PowerList(F))
      modifies mulTable
      ensures Ready()
    {
      PowerListCycle(F);
      for i := 0 to 256
        invariant forall a: gf, b: gf {:trigger mulTable[a as int, b as int]} ::
                    a as int < i && a != 0 && b != 0 ==> mulTable[a as int, b as int] == Mul(F, a, b)
      {
        for j := 0 to 256
          invariant forall a: gf, b: gf {:trigger mulTable[a as int, b as int]} ::
                      a as int < i && a != 0 && b != 0 ==> mulTable[a as int, b as int] == Mul(F, a, b)
          invariant forall b: gf {:trigger mulTable[i, b as int]} ::
                      b as int < j && i != 0 && b != 0 ==> mulTable[i, b as int] == Mul(F, i as gf, b)
        {
          var e := TableEntry(i, j, PowerList(F));
          mulTable[i, j] := e;
        }
      }
      for j := 0 to 256
        invariant forall a: gf, b: gf {:trigger mulTable[a as int, b as int]} ::
                    a != 0 && b != 0 ==> mulTable[a as int, b as int] == Mul(F, a, b)
        invariant forall b {:trigger mulTable[0, b]} :: 0 <= b < j ==> mulTable[0, b] == 0
        invariant forall a {:trigger mulTable[a, 0]} :: 0 <= a < j ==> mulTable[a, 0] == 0
      {
        mulTable[j, 0] := 0;
        mulTable[0, j] := 0;
      }
      forall a: gf, b: gf ensures mulTable[a as int, b as int] == Mul(F, a, b) {
        Zero(F, a);
        Zero(F, b);
      }
    }

    // ---------- byte operations ----------

    /** Exclusive or of two bytes. */
    method GfAdd(a: gf, b: gf) returns (c: gf)
      requires Ready()
      ensures c == Add(F, a, b)
    {
      assert XorAt(F, a, b);
      c := Xor(a, b);
    }

    /** gf_mul: a table lookup. */
    method GfMul(a: gf, b: gf) returns (c: gf)
      requires Ready()
      ensures c == Mul(F, a, b)
    {
      c := mulTable[a as int, b as int];
    }

    /** GF_ADDMULC: d + c * x. */
    method GfAddMul(d: gf, c: gf, x: gf) returns (r: gf)
      requires Ready()
      ensures r == Add(F, d, Mul(F, c, x))
    {
      var m := GfMul(c, x);
      r := GfAdd(d, m);
    }
  }
}
