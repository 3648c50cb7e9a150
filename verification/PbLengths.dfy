/** Lengths near 2^32: when the sum of a length and its prefix wraps, and what the scan does then. */
module PbLengths {
  import opened Options
  import opened Bytes
  import opened PbVarint
  import opened PbMessage
  import opened PbReader

  // ---------- one length ----------

  /** What the length with its prefix is without the limit of 32 bits; 0 if the bytes are not there. */
  function WholeLength(b: seq<byte>): nat {
    var n := VarintLen(b, 5);
    if n == 0 || n + LengthIn(b) > |b| then 0 else n + LengthIn(b)
  }

  /** The sum of 32 bits. */
  lemma {:induction false} SumCut(n: nat, x: nat)
    requires n <= 5 && x < MAX32
    ensures (n + x) % MAX32 == if n + x < MAX32 then n + x else n + x - MAX32
  {
  }

  lemma {:induction false} VarintLenAtMost(b: seq<byte>, max: nat)
    ensures VarintLen(b, max) <= max && VarintLen(b, max) <= |b|
    decreases max
  {
    if b != [] && max > 0 { VarintLenAtMost(b[1..], max - 1); }
  }

  /** Four bytes spell less than 2^28, so a length near 2^32 has a prefix of five. */
  lemma {:induction false} LongPrefix(b: seq<byte>)
    requires VarintLen(b, 5) > 0 && LengthIn(b) >= 0x1000_0000
    ensures VarintLen(b, 5) == 5
  {
    VarintLenAtMost(b, 5);
    var s := b[..VarintLen(b, 5)];
    FiveBytes(s);
  }

  /** The sum wraps exactly if the length is more than 2^32 - 5. */
  lemma {:induction false} WrapsIff(b: seq<byte>)
    requires VarintLen(b, 5) > 0
    ensures Wraps(b) <==> LengthIn(b) > MAX32 - 5
  {
    VarintLenAtMost(b, 5);
    if LengthIn(b) >= 0x1000_0000 { LongPrefix(b); }
  }

  /** The scanned length is wrong exactly if the length is more than 2^32 - 5, or is 2^32 - 5 and the
      2^32 bytes are there: then the sum becomes 0, which means an error. */
  lemma {:induction false} LengthIsExact(b: seq<byte>)
    requires VarintLen(b, 5) > 0
    ensures ScannedLength(b) == WholeLength(b) <==>
            LengthIn(b) < MAX32 - 5 || (LengthIn(b) == MAX32 - 5 && |b| < MAX32)
  {
    VarintLenAtMost(b, 5);
    if LengthIn(b) >= 0x1000_0000 { LongPrefix(b); }
    SumsAgree(VarintLen(b, 5), LengthIn(b), |b|);
  }

  /** The same, for the numbers. */
  lemma {:induction false} SumsAgree(n: nat, x: nat, len: nat)
    requires 0 < n <= 5 && n <= len && x < MAX32 && (x >= 0x1000_0000 ==> n == 5)
    ensures var sum := (n + x) % MAX32;
            (if sum > len then 0 else sum) == (if n + x > len then 0 else n + x)
            <==> x < MAX32 - 5 || (x == MAX32 - 5 && len < MAX32)
  {
    SumCut(n, x);
  }

  /** Where the sum does not wrap the scan takes the item; where it does, less than the prefix. */
  lemma {:induction false} ScannedItem(b: seq<byte>)
    ensures !Wraps(b) ==> ScannedLength(b) == match ReadPrefixed(b) case None => 0 case Some(item) => item.len
    ensures !Wraps(b) && ReadPrefixed(b).Some? ==> ReadPrefixed(b).value.pref == VarintLen(b, 5)
    ensures Wraps(b) ==> ReadPrefixed(b) == None && VarintLen(b, 5) == 5 <= |b| && 0 < ScannedLength(b) < 5
  {
    VarintLenAtMost(b, 5);
    SumCut(VarintLen(b, 5), LengthIn(b));
    if VarintLen(b, 5) > 0 { WrapsIff(b); }
    if Wraps(b) { LongPrefix(b); }
  }

  /** The length 2^32 - 1: 4 bytes are taken, one less than the prefix has. */
  lemma {:induction false} LargestLength(b: seq<byte>)
    requires b == [255, 255, 255, 255, 15]
    ensures Wraps(b) && LengthIn(b) == MAX32 - 1 && ScannedLength(b) == 4 && VarintLen(b, 5) == 5
  {
    LenFromLoop(b, 4, 5);
    assert b[..5] == b;
    FiveBytes(b);
  }

  // ---------- what follows a wrapped length ----------

  lemma {:induction false} PrefixValue(b: seq<byte>)
    requires Wraps(b)
    ensures |b| >= 5 && Value(b[..5]) % MAX32 > MAX32 - 5
  {
    ScannedItem(b);
    WrapsIff(b);
  }

  lemma {:induction false} FiveBits(s: seq<byte>, i: nat)
    requires |s| == 5 && 0 < i < 5 && Value(s) % MAX32 > MAX32 - 5
    ensures s[i] as nat % 8 == 7
  {
    FiveBytes(s);
    var a, b, c, d, e := Low7(s[0]), Low7(s[1]), Low7(s[2]), Low7(s[3]), Low7(s[4]);
    assert Value(s) == a + b * 0x80 + c * 0x4000 + d * 0x20_0000 + e * 0x1000_0000;
    HighDigits(a, b, c, d, e);
    LowThree(s[i] as nat);
  }

  lemma {:induction false} LowThree(x: nat)
    requires x % 128 % 16 == 15
    ensures x % 8 == 7
  {
    assert x == 128 * (x / 128) + 16 * (x % 128 / 16) + 15;
  }

  /** The bytes of such a prefix after the first have all three low bits set. */
  lemma {:induction false} PrefixBits(b: seq<byte>, i: nat)
    requires Wraps(b) && 0 < i < 5
    ensures i < |b| && b[i] as nat % 8 == 7
  {
    PrefixValue(b);
    FiveBits(b[..5], i);
  }

  lemma {:induction false} HighDigits(a: nat, b: nat, c: nat, d: nat, e: nat)
    requires a < 128 && b < 128 && c < 128 && d < 128 && e < 128
    requires (a + b * 0x80 + c * 0x4000 + d * 0x20_0000 + e * 0x1000_0000) % MAX32 > MAX32 - 5
    ensures b == 127 && c == 127 && d == 127 && e % 16 == 15
  {
    var h, q := e % 16, e / 16;
    var x := a + b * 0x80 + c * 0x4000 + d * 0x20_0000 + h * 0x1000_0000;
    assert a + b * 0x80 + c * 0x4000 + d * 0x20_0000 + e * 0x1000_0000 == x + q * MAX32 by { assert e == 16 * q + h; }
    MultiplesCut(x, q);
    TopDigits(a, b, c, d, h);
  }

  lemma {:induction false} MultiplesCut(x: nat, q: nat)
    requires x < MAX32 && q < 8
    ensures (x + q * MAX32) % MAX32 == x
  {
  }

  lemma {:induction false} TopDigits(a: nat, b: nat, c: nat, d: nat, h: nat)
    requires a < 128 && b < 128 && c < 128 && d < 128 && h < 16
    requires a + b * 0x80 + c * 0x4000 + d * 0x20_0000 + h * 0x1000_0000 > MAX32 - 5
    ensures b == 127 && c == 127 && d == 127 && h == 15
  {
  }

  /** A tag that begins there is no tag, or has a wire type that does not exist. */
  lemma {:induction false} NoItemThere(fs: seq<Field>, b: seq<byte>, i: nat)
    requires Wraps(b) && 0 < i < 5
    ensures i < |b| && ScanOne(fs, b[i..]) == None && !WrapsHere(b[i..])
  {
    PrefixBits(b, i);
    var c := b[i..];
    if ReadTag(c).Some? {
      LowBits(c[..VarintLen(c, 5)]);
    }
  }

  // ---------- one tag and its item, as scanned ----------

  /** The item is scanned with a length that wraps. */
  predicate WrapsHere(b: seq<byte>) {
    match ReadTag(b) case None => false case Some(t) => t.wire == 2 && Wraps(b[t.used..])
  }

  /** The switch over the wire type. */
  function CodeItem(wire: nat, b: seq<byte>): (r: Option<Item>)
    ensures r.Some? ==> r.value.len <= |b|
  {
    if wire != 2 then ReadItem(wire, b)
    else if ScannedLength(b) == 0 then None
    else Some(Item(ScannedLength(b), VarintLen(b, 5)))
  }

  /** One tag and item as the code scans it: the prefix of the item may be longer than the item. */
  function CodeScan(fs: seq<Field>, b: seq<byte>): (r: Option<ScanStep>)
    ensures r.Some? ==> r.value.used <= |b|
  {
    match ReadTag(b)
    case None => None
    case Some(t) =>
      match CodeItem(t.wire, b[t.used..])
      case None => None
      case Some(item) =>
        Some(ScanStep(Scanned(t.tag, t.wire, Lookup(fs, t.tag), item.pref, b[t.used..t.used + item.len]),
          t.used + item.len))
  }

  lemma {:induction false} CodeItemIs(wire: nat, b: seq<byte>)
    ensures wire != 2 || !Wraps(b) ==> CodeItem(wire, b) == ReadItem(wire, b)
    ensures wire == 2 && Wraps(b) ==> ReadItem(wire, b) == None && CodeItem(wire, b) == Some(Item(ScannedLength(b), 5))
  {
    ScannedItem(b);
  }

  /** Where nothing wraps that is the item. */
  lemma {:induction false} CodeScanIs(fs: seq<Field>, b: seq<byte>)
    requires !WrapsHere(b)
    ensures CodeScan(fs, b) == ScanOne(fs, b)
  {
    if ReadTag(b).Some? {
      var t := ReadTag(b).value;
      var c := b[t.used..];
      assert t.wire != 2 || !Wraps(c);
      CodeItemIs(t.wire, c);
      assert CodeItem(t.wire, c) == ReadItem(t.wire, c);
    }
  }

  /** Where it wraps, the scan goes on inside the prefix, and the next tag fails. */
  lemma {:induction false} WrappedScan(fs: seq<Field>, b: seq<byte>)
    requires WrapsHere(b)
    ensures ScanOne(fs, b) == None && CodeScan(fs, b).Some?
    ensures var st := CodeScan(fs, b).value;
            |st.member.data| < st.member.pref && 0 < st.used < |b|
            && ScanOne(fs, b[st.used..]) == None && !WrapsHere(b[st.used..])
  {
    var t := ReadTag(b).value;
    var c := b[t.used..];
    var len := ScannedLength(c);
    CodeItemIs(t.wire, c);
    ScannedItem(c);
    NoItemThere(fs, c, len);
    assert c[len..] == b[t.used + len..];
  }
}
