/** Bytes and little-endian numbers. */
module Bytes {
  newtype byte = x: int | 0 <= x < 256

  function Power256(k: nat): (r: nat)
    ensures r > 0
  {
    if k == 0 then 1 else 256 * Power256(k - 1)
  }

  /** The k low bytes of n, lowest first. */
  function Le(n: nat, k: nat): (r: seq<byte>)
    ensures |r| == k
  {
    if k == 0 then [] else [(n % 256) as byte] + Le(n / 256, k - 1)
  }

  function FromLe(s: seq<byte>): nat {
    if s == [] then 0 else s[0] as nat + 256 * FromLe(s[1..])
  }

  /** k bytes hold every number below 256^k. */
  lemma {:induction false} LeRoundTrip(n: nat, k: nat)
    requires n < Power256(k)
    ensures FromLe(Le(n, k)) == n
  {
    if k > 0 {
      LeRoundTrip(n / 256, k - 1);
      assert Le(n, k)[1..] == Le(n / 256, k - 1);
    }
  }

  /** Four bytes hold every number below 2^32. */
  lemma LeFour(n: nat)
    requires n < 0x1_0000_0000
    ensures FromLe(Le(n, 4)) == n
  {
    assert Power256(1) == 256;
    assert Power256(2) == 65536;
    assert Power256(4) == 0x1_0000_0000;
    LeRoundTrip(n, 4);
  }

  lemma LeTwo(n: nat)
    requires n < 0x1_0000
    ensures FromLe(Le(n, 2)) == n
  {
    assert Power256(1) == 256;
    LeRoundTrip(n, 2);
  }

  lemma FourBytes(b: seq<byte>)
    requires |b| == 4
    ensures FromLe(b) == b[0] as nat + 0x100 * b[1] as nat + 0x1_0000 * b[2] as nat + 0x100_0000 * b[3] as nat
  {
    var t, u, v := b[1..], b[2..], b[3..];
    assert t[1..] == u && u[1..] == v && v[1..] == [];
    assert FromLe(v) == v[0] as nat;
    assert FromLe(u) == u[0] as nat + 256 * FromLe(v);
    assert FromLe(t) == t[0] as nat + 256 * FromLe(u);
  }

  /** The lowest byte comes first. */
  lemma LePlaces(n: nat)
    ensures Le(n, 2) == [(n % 256) as byte, (n / 256 % 256) as byte]
    ensures Le(n, 4) == [(n % 256) as byte, (n / 256 % 256) as byte, (n / 0x1_0000 % 256) as byte,
            (n / 0x100_0000 % 256) as byte]
  {
    var n1 := n / 256;
    var n2 := n1 / 256;
    var n3 := n2 / 256;
    assert Le(n, 2) == [(n % 256) as byte] + Le(n1, 1) && Le(n1, 1) == [(n1 % 256) as byte] + Le(n2, 0);
    assert Le(n, 4) == [(n % 256) as byte] + Le(n1, 3) && Le(n1, 3) == [(n1 % 256) as byte] + Le(n2, 2);
    assert Le(n2, 2) == [(n2 % 256) as byte] + Le(n3, 1) && Le(n3, 1) == [(n3 % 256) as byte] + Le(n3 / 256, 0);
    assert n2 == n / 0x1_0000 && n3 == n / 0x100_0000;
  }
}
