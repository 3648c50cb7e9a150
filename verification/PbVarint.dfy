/** Base-128 varints of the Protocol Buffers encoding: seven bits to a byte, lowest first, the high
    bit set on every byte but the last. */
module PbVarint {
  import opened Options
  import opened Bytes

  const MAX32: nat := 0x1_0000_0000
  const MAX64: nat := 0x1_0000_0000_0000_0000

  function Varint(n: nat): (s: seq<byte>)
    ensures |s| > 0
  {
    if n < 128 then [n as byte] else [(n % 128 + 128) as byte] + Varint(n / 128)
  }

  predicate More(b: byte) { b >= 128 }

  /** The bytes are one whole varint. */
  ghost predicate Terminated(s: seq<byte>) {
    |s| > 0 && !More(s[|s| - 1]) && forall i :: 0 <= i < |s| - 1 ==> More(s[i])
  }

  function Low7(b: byte): nat { b as nat % 128 }

  /** The number that the low seven bits of the bytes spell. */
  function Value(s: seq<byte>): nat {
    if s == [] then 0 else Low7(s[0]) + 128 * Value(s[1..])
  }

  /** What is written is one whole varint, and reads as the number. */
  lemma {:induction false} VarintReads(n: nat)
    ensures Terminated(Varint(n)) && Value(Varint(n)) == n
  {
    var s := Varint(n);
    if n >= 128 {
      VarintReads(n / 128);
      var t := Varint(n / 128);
      assert s == [(n % 128 + 128) as byte] + t && s[1..] == t;
      forall i | 0 <= i < |s| - 1 ensures More(s[i]) {
        if i > 0 { assert s[i] == t[i - 1]; }
      }
      assert s[|s| - 1] == t[|t| - 1];
    } else {
      assert s[1..] == [];
    }
  }

  function Power128(k: nat): (r: nat)
    ensures r > 0
  {
    if k == 0 then 1 else 128 * Power128(k - 1)
  }

  /** k bytes are enough for a number below 128^k, and needed for one not below 128^(k-1). */
  lemma {:induction false} VarintLength(n: nat, k: nat)
    requires k > 0 && n < Power128(k) && (k > 1 ==> n >= Power128(k - 1))
    ensures |Varint(n)| == k
  {
    if k > 1 { VarintLength(n / 128, k - 1); }
  }

  lemma Powers()
    ensures Power128(1) == 0x80 && Power128(2) == 0x4000 && Power128(3) == 0x20_0000 && Power128(4) == 0x1000_0000
    ensures Power128(5) == 0x8_0000_0000
  {
    assert Power128(1) == 128 * Power128(0);
    assert Power128(2) == 128 * Power128(1);
    assert Power128(3) == 128 * Power128(2);
    assert Power128(4) == 128 * Power128(3);
    assert Power128(5) == 128 * Power128(4);
  }

  lemma HighPowers()
    ensures Power128(6) == 0x400_0000_0000 && Power128(7) == 0x2_0000_0000_0000 && Power128(8) == 0x100_0000_0000_0000
    ensures Power128(9) == 0x8000_0000_0000_0000 && Power128(10) == 0x40_0000_0000_0000_0000
  {
    Powers();
    assert Power128(6) == 128 * Power128(5);
    assert Power128(7) == 128 * Power128(6);
    assert Power128(8) == 128 * Power128(7);
    assert Power128(9) == 128 * Power128(8);
    assert Power128(10) == 128 * Power128(9);
  }

  // ---------- sizes ----------

  /** uint32_size. */
  function UInt32Size(v: nat): (r: nat)
    requires v < MAX32
    ensures r == |Varint(v)|
  {
    var r := if v < 0x80 then 1 else if v < 0x4000 then 2 else if v < 0x20_0000 then 3 else if v < 0x1000_0000 then 4
      else 5;
    Powers();
    VarintLength(v, r);
    r
  }

  /** uint64_size: by the upper half. */
  function UInt64Size(v: nat): (r: nat)
    requires v < MAX64
    ensures r == |Varint(v)|
  {
    var upper := v / MAX32;
    if upper == 0 then UInt32Size(v)
    else
      var r := if upper < 0x8 then 5 else if upper < 0x400 then 6 else if upper < 0x2_0000 then 7
               else if upper < 0x100_0000 then 8 else if upper < 0x8000_0000 then 9 else 10;
      Powers();
      HighPowers();
      VarintLength(v, r);
      r
  }

  /** A tag carries the field's id and three bits of wire type. */
  function Tag(id: nat, wire: nat): seq<byte> { Varint(8 * id + wire) }

  /** get_tag_size. */
  function TagSize(id: nat): nat {
    if id < 0x10 then 1 else if id < 0x800 then 2 else if id < 0x4_0000 then 3 else if id < 0x200_0000 then 4 else 5
  }

  lemma TagLength(id: nat, wire: nat)
    requires id < MAX32 && wire < 8
    ensures |Tag(id, wire)| == TagSize(id)
  {
    Powers();
    VarintLength(8 * id + wire, TagSize(id));
  }

  // ---------- reading ----------

  /** The length of the varint in front of b, if it ends within max bytes; otherwise 0. */
  function VarintLen(b: seq<byte>, max: nat): (n: nat)
    ensures n <= |b| && n <= max
    decreases max
  {
    if max == 0 || b == [] then 0
    else if !More(b[0]) then 1
    else
      var n := VarintLen(b[1..], max - 1);
      if n == 0 then 0 else n + 1
  }

  lemma {:induction false} VarintLenWhole(s: seq<byte>, t: seq<byte>, max: nat)
    requires Terminated(s) && |s| <= max
    ensures VarintLen(s + t, max) == |s|
    decreases max
  {
    if |s| > 1 {
      assert (s + t)[1..] == s[1..] + t;
      assert More(s[0]);
      VarintLenWhole(s[1..], t, max - 1);
    }
  }

  lemma VarintInFront(n: nat, t: seq<byte>, max: nat)
    requires |Varint(n)| <= max
    ensures VarintLen(Varint(n) + t, max) == |Varint(n)|
  {
    VarintReads(n);
    VarintLenWhole(Varint(n), t, max);
  }


  datatype TagRead = TagRead(used: nat, tag: nat, wire: nat)

  /** parse_tag_and_wiretype. */
  function ReadTag(b: seq<byte>): (r: Option<TagRead>)
    ensures r.Some? ==> 0 < r.value.used <= |b|
  {
    var n := VarintLen(b, 5);
    if n == 0 then None else Some(TagRead(n, Value(b[..n]) / 8, Value(b[..n]) % 8))
  }

  lemma TagReads(id: nat, wire: nat, t: seq<byte>)
    requires id < MAX32 && wire < 8
    ensures ReadTag(Tag(id, wire) + t) == Some(TagRead(TagSize(id), id, wire))
  {
    TagLength(id, wire);
    VarintInFront(8 * id + wire, t, 5);
    VarintReads(8 * id + wire);
    assert (Tag(id, wire) + t)[..TagSize(id)] == Tag(id, wire);
  }

  /** parse_uint32 looks at five bytes at most. */
  function ReadUInt32(s: seq<byte>): nat { Value(if |s| <= 5 then s else s[..5]) % MAX32 }

  function ReadUInt64(s: seq<byte>): nat { Value(s) % MAX64 }

  lemma UInt32Reads(n: nat)
    requires n < MAX32
    ensures ReadUInt32(Varint(n)) == n
  {
    VarintReads(n);
    assert UInt32Size(n) <= 5;
  }

  lemma UInt64Reads(n: nat)
    requires n < MAX64
    ensures ReadUInt64(Varint(n)) == n
  {
    VarintReads(n);
  }

  // ---------- bounds ----------

  /** A tag has 32 bits and a wire type of three. */
  lemma {:induction false} TagIs32(b: seq<byte>)
    ensures ReadTag(b).Some? ==> ReadTag(b).value.tag < MAX32 && ReadTag(b).value.wire < 8
  {
    var n := VarintLen(b, 5);
    ValueBound(b[..n]);
    Powers();
    PowerGrows(n, 5);
  }

  lemma {:induction false} ValueBound(s: seq<byte>)
    ensures Value(s) < Power128(|s|)
  {
    if s != [] { ValueBound(s[1..]); }
  }

  lemma {:induction false} PowerGrows(i: nat, j: nat)
    requires i <= j
    ensures Power128(i) <= Power128(j)
    decreases j
  {
    if i < j { PowerGrows(i, j - 1); }
  }
}
