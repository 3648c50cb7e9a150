/** Splitting a value into k data shares and n - k check shares. */
module RsHelper {
  import opened FecField
  import opened FecVector
  import opened FecCode
  import opened FecTables
  import opened FecMatrix
  import opened FecCoder

  /** The data, cut into k shares of sz bytes. */
  function Cut(data: seq<gf>, k: nat, sz: nat): (D: Blocks)
    requires |data| == k * sz
    ensures |D| == k
  {
    seq(k, j requires 0 <= j < k => CutAt(data, k, sz, j))
  }

  function CutAt(data: seq<gf>, k: nat, sz: nat, j: nat): (s: seq<gf>)
    requires |data| == k * sz && j < k
    ensures |s| == sz && j * sz + sz <= |data| && s == data[j * sz..j * sz + sz]
  {
    RowBound(sz, k, j);
    data[j * sz..j * sz + sz]
  }

  function Join(D: Blocks): seq<gf> { if |D| == 0 then [] else Join(D[..|D| - 1]) + D[|D| - 1] }

  /** All shares but the last are those of the data without the last share. */
  lemma CutFront(data: seq<gf>, k: nat, sz: nat, m: nat)
    requires k > 0 && |data| == k * sz && m == (k - 1) * sz && m + sz == |data|
    ensures Cut(data, k, sz) == Cut(data[..m], k - 1, sz) + [data[m..]]
  {
    forall j | 0 <= j < k - 1 ensures Cut(data, k, sz)[j] == Cut(data[..m], k - 1, sz)[j] {
      RowBound(sz, k - 1, j);
      SliceOfFront(data, m, j * sz, j * sz + sz);
    }
    assert CutAt(data, k, sz, k - 1) == data[m..];
  }

  lemma SliceOfFront(s: seq<gf>, m: nat, x: nat, y: nat)
    requires x <= y <= m <= |s|
    ensures s[..m][x..y] == s[x..y]
  {
  }

  /** Joining the shares gives the data back. */
  lemma {:induction false} JoinCut(data: seq<gf>, k: nat, sz: nat)
    requires |data| == k * sz
    ensures Join(Cut(data, k, sz)) == data
  {
    if k > 0 {
      var m := (k - 1) * sz;
      assert m + sz == k * sz;
      JoinCut(data[..m], k - 1, sz);
      CutFront(data, k, sz, m);
      var D := Cut(data[..m], k - 1, sz);
      assert (D + [data[m..]])[..|D|] == D;
    }
  }

  /** A data share is its own block of the code. */
  lemma DataShareIsBlock(F: Field, E: Matrix, R: Matrix, D: Blocks, k: nat, n: nat, sz: nat, r: nat)
    requires Laws(F) && IsCode(F, E, R, k, n) && IsBlocks(D, k, sz) && r < k
    ensures IsBlock(F, E, D, r, D[r], k, sz, 0, sz)
  {
    forall b {:trigger D[r][b]} | 0 <= b < sz ensures D[r][b] == Dot(F, E[r], ByteColumn(D, b), k) {
      DotUnit(F, ByteColumn(D, b), k, k, r);
    }
  }

  lemma QuotientUp(n: nat, k: nat)
    requires k > 0 && n % k == 0
    ensures (n + k - 1) / k == n / k && k * (n / k) == n
  {
    var q := n / k;
    assert n == k * q + n % k;
    assert n + k - 1 == k * q + (k - 1);
    DivUnique(n + k - 1, k, q, k - 1);
  }

  lemma DivUnique(n: nat, k: nat, q: nat, r: nat)
    requires k > 0 && r < k && n == k * q + r
    ensures n / k == q
  {
    var q' := n / k;
    assert n == k * q' + n % k;
    MultipleAtLeast(k, q - q');
    assert k * (q - q') == n % k - r;
  }

  lemma MultipleAtLeast(k: nat, d: int)
    ensures d >= 1 ==> k * d >= k
    ensures d <= -1 ==> k * d + k <= 0
  {
    if d >= 1 { assert k * (d - 1) >= 0; }
    if d <= -1 { assert k * (-d - 1) >= 0; }
  }

  /** The end of the place from which share i is copied. */
  function CopyEnd(n: nat, k: nat, i: nat): int
    requires k > 0
  {
    i * ((n + k - 1) / k) + (n + k - 1) / k
  }

  /** No copy reads beyond n bytes of data exactly if k divides n. */
  lemma CopiesStayInside(n: nat, k: nat)
    requires k > 0
    ensures (forall i {:trigger CopyEnd(n, k, i)} :: 0 <= i < k ==> CopyEnd(n, k, i) <= n) <==> n % k == 0
  {
    var sz := (n + k - 1) / k;
    if n % k == 0 {
      QuotientUp(n, k);
      forall i {:trigger CopyEnd(n, k, i)} | 0 <= i < k ensures CopyEnd(n, k, i) <= n { RowBound(sz, k, i); }
    } else {
      assert n + k - 1 == k * sz + (n + k - 1) % k;
      if k * sz == n { DivUnique(n, k, sz, 0); }
      assert CopyEnd(n, k, k - 1) == k * sz > n;
    }
  }

  /** The shares are blocks of the code, in order. */
  ghost predicate AreShares(F: Field, E: Matrix, shares: seq<array<gf>>, D: Blocks, k: nat, sz: nat)
    reads shares
  {
    && IsBlocks(D, k, sz) && |E| == |shares|
    && forall i :: 0 <= i < |shares| ==>
         |E[i]| == k && shares[i].Length == sz && IsBlock(F, E, D, i, shares[i][..], k, sz, 0, sz)
  }

  /** rs_encode: every share is a block of the code over the cut data. The last share is copied
      in full, so the data must be a whole number of shares. */
  method RsEncode(g: Gf, data: array<gf>, k: nat, n: nat) returns (fec: Fec, shares: seq<array<gf>>, ghost D: Blocks)
    requires g.Ready() && 1 <= k <= n && k <= 255 && n - k <= 255 && data.Length % k == 0
    ensures fec.Valid() && fec.k == k && fec.n == n && fec.g == g && |shares| == n
    ensures IsBlocks(D, k, data.Length / k) && Join(D) == data[..]
    ensures AreShares(g.F, fec.E, shares, D, k, data.Length / k)
    ensures k * (data.Length / k) == data.Length
    ensures forall i :: 0 <= i < k ==> shares[i][..] == CutAt(data[..], k, data.Length / k, i)
  {
    QuotientUp(data.Length, k);
    var sz := (data.Length + k - 1) / k;
    D := Cut(data[..], k, sz);
    JoinCut(data[..], k, sz);
    shares := NewShares(n, sz);
    CopyData(data, shares, k, n, sz);
    fec := new Fec(g, k, n);
    EncodeShares(fec, shares, sz, D);
    forall i | 0 <= i < k ensures shares[i][..] == D[i] {
      BlockIsData(g.F, fec.E, fec.R, D, k, n, sz, i, shares[i][..]);
    }
  }

  /** The whole way: the data is encoded, any k shares are received, each of the first k in its own
      place, and the missing ones are rebuilt: the data again. */
  method EncodeAndRebuild(g: Gf, data: array<gf>, k: nat, n: nat, index: seq<nat>)
      returns (blocks: seq<array<gf>>)
    requires g.Ready() && 1 <= k <= n && k <= 255 && n - k <= 255 && data.Length % k == 0
    requires Received(index, k, n) && (k == 1 || n <= 256)
    ensures |blocks| == k && forall r :: 0 <= r < k ==> blocks[r].Length == data.Length / k
    ensures Join(ReadBlocks(blocks, data.Length / k)) == data[..]
  {
    var fec, shares, D := RsEncode(g, data, k, n);
    blocks := Rebuild(fec, shares, index, data.Length / k, D);
    forall r | 0 <= r < k ensures blocks[r].Length == data.Length / k { assert |D[r]| == data.Length / k; }
    assert ReadBlocks(blocks, data.Length / k) == D;
  }

  /** Decoding from the shares with these numbers. */
  method Rebuild(fec: Fec, shares: seq<array<gf>>, index: seq<nat>, sz: nat, ghost D: Blocks)
      returns (blocks: seq<array<gf>>)
    requires fec.Valid() && fec.k <= 255 && (fec.k == 1 || fec.n <= 256) && Received(index, fec.k, fec.n)
    requires |shares| == fec.n && AreShares(fec.g.F, fec.E, shares, D, fec.k, sz)
    ensures |blocks| == fec.k && forall r :: 0 <= r < fec.k ==> blocks[r][..] == D[r]
  {
    var k := fec.k;
    var inpkts := seq(k, j requires 0 <= j < k => shares[index[j]]);
    ghost var P := ReadBlocks(inpkts, sz);
    PicksAreReceived(fec, shares, inpkts, index, sz, D, P);
    var missing := NewShares(|Missing(index, k, k)|, sz);
    fec.Decode(inpkts, missing, index, sz, D, P);
    blocks := InOrder(inpkts, missing, index, k, sz, D);
  }

  /** What was picked is received; what was picked in its place is data. */
  lemma PicksAreReceived(fec: Fec, shares: seq<array<gf>>, inpkts: seq<array<gf>>, index: seq<nat>, sz: nat, D: Blocks,
                         P: Blocks)
    requires fec.Valid() && Received(index, fec.k, fec.n) && |inpkts| == fec.k
    requires |shares| == fec.n && AreShares(fec.g.F, fec.E, shares, D, fec.k, sz)
    requires forall j :: 0 <= j < fec.k ==> inpkts[j] == shares[index[j]]
    requires IsBlocks(P, fec.k, sz) && forall j :: 0 <= j < fec.k ==> P[j] == inpkts[j][..]
    ensures Contents(inpkts, P, sz) && ReceivedBlocks(fec.g.F, fec.E, index, D, P, fec.k, sz)
    ensures forall r :: 0 <= r < fec.k && index[r] < fec.k ==> inpkts[r][..] == D[r]
  {
    forall r | 0 <= r < fec.k && index[r] < fec.k ensures inpkts[r][..] == D[r] {
      BlockIsData(fec.g.F, fec.E, fec.R, D, fec.k, fec.n, sz, r, shares[r][..]);
    }
  }

  /** Received data blocks and rebuilt ones, in order. */
  method InOrder(inpkts: seq<array<gf>>, missing: seq<array<gf>>, index: seq<nat>, k: nat, sz: nat, ghost D: Blocks)
      returns (blocks: seq<array<gf>>)
    requires |inpkts| == |index| == k && IsBlocks(D, k, sz)
    requires forall r :: 0 <= r < k && index[r] < k ==> inpkts[r][..] == D[r]
    requires |missing| == |Missing(index, k, k)| && Rebuilds(missing, Missing(index, k, k), D, sz)
    requires forall i :: 0 <= i < |missing| ==> missing[i].Length == sz
    ensures |blocks| == k && forall r :: 0 <= r < k ==> blocks[r][..] == D[r]
  {
    forall r | 0 <= r < k && index[r] >= k
      ensures |Missing(index, k, r)| < |missing| && missing[|Missing(index, k, r)|][..] == D[r]
    {
      MissingAt(index, k, r, k);
      assert missing[|Missing(index, k, r)|][..sz] == D[r];
    }
    blocks := seq(k, r requires 0 <= r < k => if index[r] < k then inpkts[r] else missing[|Missing(index, k, r)|]);
  }

  ghost function ReadBlocks(pkts: seq<array<gf>>, sz: nat): (P: Blocks)
    requires forall j :: 0 <= j < |pkts| ==> pkts[j].Length == sz
    reads pkts
    ensures IsBlocks(P, |pkts|, sz) && forall j :: 0 <= j < |pkts| ==> P[j] == pkts[j][..]
  {
    if pkts == [] then [] else ReadBlocks(pkts[..|pkts| - 1], sz) + [pkts[|pkts| - 1][..]]
  }

  /** Block r of the code, for r below k, is data block r. */
  lemma BlockIsData(F: Field, E: Matrix, R: Matrix, D: Blocks, k: nat, n: nat, sz: nat, r: nat, s: seq<gf>)
    requires Laws(F) && IsCode(F, E, R, k, n) && IsBlocks(D, k, sz) && r < k
    requires |s| == sz && IsBlock(F, E, D, r, s, k, sz, 0, sz)
    ensures s == D[r]
  {
    forall b | 0 <= b < sz ensures s[b] == D[r][b] {
      DotUnit(F, ByteColumn(D, b), k, k, r);
    }
  }

  /** The shares, allocated apart from each other. */
  method NewShares(n: nat, sz: nat) returns (shares: seq<array<gf>>)
    ensures |shares| == n && forall a :: 0 <= a < n ==> fresh(shares[a]) && shares[a].Length == sz
    ensures forall a, b :: 0 <= a < b < n ==> shares[a] != shares[b]
  {
    shares := [];
    for i := 0 to n
      invariant |shares| == i
      invariant forall a :: 0 <= a < i ==> fresh(shares[a]) && shares[a].Length == sz
      invariant forall a, b :: 0 <= a < b < i ==> shares[a] != shares[b]
    {
      var share := new gf[sz](_ => 0);
      shares := shares + [share];
    }
  }

  /** The check shares; share i is check block i. */
  method EncodeShares(fec: Fec, shares: seq<array<gf>>, sz: nat, ghost D: Blocks)
    requires fec.Valid() && fec.k <= 255 && fec.k <= fec.n && fec.n - fec.k <= 255 && |shares| == fec.n
             && IsBlocks(D, fec.k, sz)
    requires forall i :: 0 <= i < fec.n ==> shares[i].Length == sz && Separate(fec.g, shares[i]) && shares[i] != fec.enc
    requires forall a, b :: 0 <= a < b < fec.n ==> shares[a] != shares[b]
    requires forall i :: 0 <= i < fec.k ==> shares[i][..] == D[i]
    modifies shares[fec.k..]
    ensures fec.Valid()
    ensures forall i :: 0 <= i < fec.n ==> IsBlock(fec.g.F, fec.E, D, i, shares[i][..], fec.k, sz, 0, sz)
  {
    var k := fec.k;
    var nums := seq(fec.n - k, i requires 0 <= i < fec.n - k => i + k);
    fec.Encode(shares[..k], shares[k..], nums, sz, D);
    forall i | 0 <= i < fec.n ensures IsBlock(fec.g.F, fec.E, D, i, shares[i][..], k, sz, 0, sz) {
      if i < k {
        DataShareIsBlock(fec.g.F, fec.E, fec.R, D, k, fec.n, sz, i);
        assert shares[..k][i][..sz] == D[i];
      } else {
        assert shares[k..][i - k] == shares[i] && nums[i - k] == i;
      }
    }
  }

  /** The memcpy loop over the data shares. */
  method CopyData(data: array<gf>, shares: seq<array<gf>>, k: nat, n: nat, sz: nat)
    requires k <= n == |shares| && data.Length == k * sz
    requires forall a :: 0 <= a < n ==> shares[a].Length == sz && shares[a] != data
    requires forall a, b :: 0 <= a < b < n ==> shares[a] != shares[b]
    modifies shares
    ensures forall a :: 0 <= a < k ==> shares[a][..] == Cut(data[..], k, sz)[a]
  {
    for i := 0 to k
      invariant forall a :: 0 <= a < i ==> shares[a][..] == CutAt(data[..], k, sz, a)
    {
      RowBound(sz, k, i);
      CopyShare(data, shares[i], i * sz, sz);
    }
  }

  method CopyShare(data: array<gf>, share: array<gf>, x: nat, sz: nat)
    requires share != data && share.Length == sz && x + sz <= data.Length
    modifies share
    ensures share[..] == data[x..x + sz]
  {
    for b := 0 to sz
      invariant forall q :: 0 <= q < b ==> share[q] == data[x + q]
    {
      share[b] := data[x + b];
    }
  }
}
