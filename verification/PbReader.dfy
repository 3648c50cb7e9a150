/** The loops that read tags, lengths and numbers byte by byte. */
module PbReader {
  import opened Options
  import opened Bytes
  import opened PbVarint
  import opened PbMessage

  // ---------- the value of a varint, byte by byte ----------

  lemma {:induction false} ValueAppend(s: seq<byte>, b: byte)
    ensures Value(s + [b]) == Value(s) + Power128(|s|) * Low7(b)
  {
    if s == [] {
      assert [b][1..] == [];
      assert [] + [b] == [b];
    } else {
      ValueAppend(s[1..], b);
      assert (s + [b])[1..] == s[1..] + [b];
      MulOut(Power128(|s| - 1), Low7(b));
    }
  }

  lemma MulOut(p: nat, x: nat)
    ensures 128 * (p * x) == 128 * p * x
  {
  }

  /** The first n bytes of b all go on. */
  ghost predicate AllMore(b: seq<byte>, n: nat) { n <= |b| && forall i :: 0 <= i < n ==> More(b[i]) }

  lemma {:induction false} LenFromLoop(b: seq<byte>, n: nat, max: nat)
    requires AllMore(b, n) && n <= max
    ensures n < |b| && n < max && !More(b[n]) ==> VarintLen(b, max) == n + 1
    ensures n == |b| || n == max ==> VarintLen(b, max) == 0
    decreases n
  {
    if n > 0 && b != [] {
      var t := b[1..];
      assert forall i :: 0 <= i < n - 1 ==> t[i] == b[i + 1];
      LenFromLoop(t, n - 1, max - 1);
    }
  }

  /** scan_varint: the length of the varint in front, at most max bytes; 0 if it does not end. */
  method ScanVarint(b: seq<byte>, max: nat) returns (n: nat)
    ensures n == VarintLen(b, max)
  {
    var len := if |b| > max then max else |b|;
    var i := 0;
    while i < len && More(b[i])
      invariant i <= len && AllMore(b, i)
    {
      i := i + 1;
    }
    LenFromLoop(b, i, max);
    n := if i == len then 0 else i + 1;
  }

  /** parse_uint64, and parse_uint32 below five bytes: seven bits from every byte, modulo 2^64. */
  method ParseUInt64(data: seq<byte>) returns (rv: nat)
    ensures rv == ReadUInt64(data)
  {
    var sum, factor := 0, 1;
    for i := 0 to |data|
      invariant sum == Value(data[..i]) && factor == Power128(i)
    {
      ValueAppend(data[..i], data[i]);
      assert data[..i + 1] == data[..i] + [data[i]];
      sum := sum + factor * Low7(data[i]);
      factor := 128 * factor;
    }
    assert data[..|data|] == data;
    rv := sum % MAX64;
  }

  /** parse_uint32: seven bits from each of at most five bytes, modulo 2^32. */
  method ParseUInt32(data: seq<byte>) returns (rv: nat)
    requires data != []
    ensures rv == ReadUInt32(data)
  {
    var s := if |data| <= 5 then data else data[..5];
    rv := Low7(s[0]);
    FiveBytes(s);
    SmallSum(s);
    if |data| > 1 {
      rv := rv + Low7(s[1]) * 0x80;
      if |data| > 2 {
        rv := rv + Low7(s[2]) * 0x4000;
        if |data| > 3 {
          rv := rv + Low7(s[3]) * 0x20_0000;
          if |data| > 4 {
            FifthByte(rv, s[4] as nat);
            rv := (rv + s[4] as nat * 0x1000_0000) % MAX32;
          }
        }
      }
    }
  }

  /** The high bit of the fifth byte falls off. */
  lemma FifthByte(v: nat, x: nat)
    requires x < 256
    ensures (v + x * 0x1000_0000) % MAX32 == (v + x % 128 * 0x1000_0000) % MAX32
  {
    if x >= 128 {
      assert x % 128 == x - 128;
      assert v + x * 0x1000_0000 == (v + x % 128 * 0x1000_0000) + 8 * 0x1_0000_0000;
    }
  }

  lemma SmallSum(s: seq<byte>)
    requires 0 < |s|
    ensures |s| < 5 ==> Value(s) % MAX32 == Value(s)
  {
    if |s| < 5 { FiveBytes(s); }
  }

  /** The value of up to five bytes, written out. */
  lemma FiveBytes(s: seq<byte>)
    requires 0 < |s| <= 5
    ensures Value(s) == Low7(s[0]) + (if |s| > 1 then Low7(s[1]) * 0x80 else 0)
                      + (if |s| > 2 then Low7(s[2]) * 0x4000 else 0)
                      + (if |s| > 3 then Low7(s[3]) * 0x20_0000 else 0)
                      + (if |s| > 4 then Low7(s[4]) * 0x1000_0000 else 0)
    decreases |s|
  {
    assert Value(s) == Low7(s[0]) + 128 * Value(s[1..]);
    if |s| > 1 {
      FiveBytes(s[1..]);
    }
  }

  // ---------- tags ----------

  /** parse_tag_and_wiretype: used is 0 if the tag does not end within five bytes. */
  method ParseTag(b: seq<byte>) returns (used: nat, tag: nat, wire: nat)
    requires b != []
    ensures used == 0 <==> ReadTag(b) == None
    ensures used > 0 ==> ReadTag(b) == Some(TagRead(used, tag, wire))
  {
    var max := if |b| > 5 then 5 else |b|;
    wire := b[0] as nat % 8;
    tag := Low7(b[0]) / 8;
    LowBits(b[..1]);
    assert b[..1] == [b[0]] && Value(b[..1]) == Low7(b[0]) by { assert [b[0]][1..] == []; }
    if !More(b[0]) {
      LenFromLoop(b, 0, 5);
      return 1, tag, wire;
    }
    var rv, factor := 1, 16;
    while rv < max
      invariant 1 <= rv <= max && AllMore(b, rv) && tag == Value(b[..rv]) / 8 && 8 * factor == Power128(rv)
      invariant wire == Value(b[..rv]) % 8
    {
      TagNext(b, rv, tag, factor);
      tag := tag + Low7(b[rv]) * factor;
      if !More(b[rv]) {
        LenFromLoop(b, rv, 5);
        return rv + 1, tag, wire;
      }
      factor := factor * 128;
      rv := rv + 1;
    }
    LenFromLoop(b, rv, 5);
    used := 0;
  }

  /** One more byte adds to the tag above the three bits of wire type. */
  lemma TagNext(b: seq<byte>, n: nat, tag: nat, factor: nat)
    requires 0 < n < |b| && tag == Value(b[..n]) / 8 && 8 * factor == Power128(n)
    ensures tag + Low7(b[n]) * factor == Value(b[..n + 1]) / 8 && Value(b[..n + 1]) % 8 == Value(b[..n]) % 8
  {
    ValueAppend(b[..n], b[n]);
    assert b[..n + 1] == b[..n] + [b[n]];
    EightTimes(factor, Low7(b[n]), Power128(n));
  }

  lemma LowBits(s: seq<byte>)
    requires s != []
    ensures Value(s) % 8 == s[0] as nat % 8
  {
    assert Value(s) == Low7(s[0]) + 128 * Value(s[1..]);
  }

  lemma EightTimes(f: nat, x: nat, p: nat)
    requires 8 * f == p
    ensures p * x == 8 * (x * f)
  {
    assert 8 * f * x == 8 * (x * f);
  }

  // ---------- lengths ----------

  /** One more byte of a number. */
  lemma NextDigit(b: seq<byte>, n: nat, val: nat, factor: nat)
    requires n < |b| && val == Value(b[..n]) && factor == Power128(n)
    ensures val + Low7(b[n]) * factor == Value(b[..n + 1]) && 128 * factor == Power128(n + 1)
  {
    ValueAppend(b[..n], b[n]);
    assert b[..n + 1] == b[..n] + [b[n]];
  }

  /** The loop over at most five bytes: how many there are, and what they spell; 0 if it does not end. */
  method ReadLength(b: seq<byte>) returns (n: nat, val: nat)
    ensures n == VarintLen(b, 5) && n <= |b| && (n > 0 ==> val == Value(b[..n]))
  {
    var max := if |b| < 5 then |b| else 5;
    var i, factor := 0, 1;
    val := 0;
    while i < max && More(b[i])
      invariant i <= max && AllMore(b, i) && val == Value(b[..i]) && factor == Power128(i)
    {
      NextDigit(b, i, val, factor);
      val := val + Low7(b[i]) * factor;
      factor := 128 * factor;
      i := i + 1;
    }
    LenFromLoop(b, i, 5);
    if i == max { return 0, val; }
    NextDigit(b, i, val, factor);
    n, val := i + 1, val + Low7(b[i]) * factor;
  }

  /** scan_length_prefixed_data: 0 is an error. */
  method ScanPrefixed(b: seq<byte>) returns (len: nat, pref: nat)
    ensures len == ScannedLength(b) && (len > 0 ==> pref == VarintLen(b, 5))
  {
    var val;
    pref, val := ReadLength(b);
    if pref == 0 { return 0, 0; }
    len := (pref + val % MAX32) % MAX32;
    if len > |b| { len := 0; }
  }
}
