/** The encoder and decoder of the erasure code. */
module FecCoder {
  import opened FecField
  import opened FecVector
  import opened FecPoly
  import opened FecInverse
  import opened FecCode
  import opened FecTables
  import opened FecMatrix
  import opened FecVandermonde

  const STRIDE := 8192

  type Blocks = seq<seq<gf>>

  ghost predicate IsBlocks(D: Blocks, k: nat, sz: nat) { |D| == k && forall j :: 0 <= j < k ==> |D[j]| == sz }

  /** The b-th byte of every block. */
  function ByteColumn(D: Blocks, b: nat): Vector
    requires forall j :: 0 <= j < |D| ==> b < |D[j]|
  {
    seq(|D|, j requires 0 <= j < |D| => D[j][b])
  }

  /** s is block r of the data D from byte lo up to byte hi. */
  ghost predicate IsBlock(F: Field, E: Matrix, D: Blocks, r: nat, s: seq<gf>, k: nat, sz: nat, lo: nat, hi: nat)
    requires r < |E| && |E[r]| == k && IsBlocks(D, k, sz)
  {
    hi <= sz && hi <= |s| && forall b {:trigger s[b]} :: lo <= b < hi ==> s[b] == Dot(F, E[r], ByteColumn(D, b), k)
  }

  // ---------- the Vandermonde rows ----------

  ghost function VdmRows(F: Field, k: nat, n: nat): (V: Matrix)
    ensures IsMatrix(V, n, k)
  {
    seq(n, r requires 0 <= r < n => VdmRow(F, Point(F, r), k))
  }

  lemma {:induction false} PowZeroBase(F: Field, c: nat)
    requires Laws(F)
    ensures Pow(F, 0, c) == if c == 0 then 1 else 0
  {
    if c > 0 { Zero(F, Pow(F, 0, c - 1)); }
  }

  /** Entry (row + 1, c) is alpha to the row * c, found in the table modulo 255. */
  lemma VdmEntry(F: Field, row: nat, c: nat, e: nat)
    requires Laws(F) && Primitive(F, 2) && e == (row * c) % 255
    ensures Pow(F, Point(F, row + 1), c) == Pow(F, 2, e)
  {
    PowPow(F, 2, row, c, row * c);
    PowRemainder(F, 2, 255, row * c);
  }

  ghost predicate RowsFilled(s: seq<gf>, V: Matrix, k: nat, n: nat, rows: nat) {
    && IsMatrix(V, n, k) && rows <= n && n * k <= |s|
    && forall r, c {:trigger At(0, k, r, c)} :: 0 <= r < rows && 0 <= c < k ==>
         At(0, k, r, c) < |s| && s[At(0, k, r, c)] == V[r][c]
  }

  lemma RowsFilledStep(s: seq<gf>, t: seq<gf>, V: Matrix, k: nat, n: nat, r: nat, x: nat)
    requires RowsFilled(s, V, k, n, r) && r < n && x == r * k && Patched(s, t, x, V[r])
    ensures RowsFilled(t, V, k, n, r + 1)
  {
    forall r', c {:trigger At(0, k, r', c)} | 0 <= r' < r + 1 && 0 <= c < k
      ensures At(0, k, r', c) < |t| && t[At(0, k, r', c)] == V[r'][c]
    {
      RowRange(k, r, r', c);
    }
  }

  /** The row at x becomes the powers of alpha^row. */
  method FillRow(g: Gf, tmp: array<gf>, x: nat, k: nat, row: nat)
    requires g.Ready() && Separate(g, tmp) && x + k <= tmp.Length
    modifies tmp
    ensures Patched(old(tmp[..]), tmp[..], x, VdmRow(g.F, Point(g.F, row + 1), k))
  {
    ghost var s, v := tmp[..], VdmRow(g.F, Point(g.F, row + 1), k);
    for col := 0 to k
      invariant forall i {:trigger tmp[i]} :: 0 <= i < |s| ==> (tmp[i] == if x <= i < x + col then v[i - x] else s[i])
    {
      var m := Modnn(row * col);
      VdmEntry(g.F, row, col, m as nat);
      assert g.exp[m as int] == PowerList(g.F)[m as int];
      tmp[x + col] := g.exp[m as int];
    }
  }

  /** The first row belongs to the point zero. */
  method FillFirstRow(tmp: array<gf>, k: nat, ghost F: Field)
    requires Laws(F) && 1 <= k <= tmp.Length
    modifies tmp
    ensures Patched(old(tmp[..]), tmp[..], 0, VdmRow(F, 0, k))
  {
    ghost var v := VdmRow(F, 0, k);
    ghost var s := tmp[..];
    forall c | 0 <= c < k ensures v[c] == if c == 0 then 1 else 0 { PowZeroBase(F, c); }
    tmp[0] := 1;
    for col := 1 to k
      invariant forall i {:trigger tmp[i]} :: 0 <= i < |s| ==> (tmp[i] == if i < col then v[i] else s[i])
    {
      tmp[col] := 0;
    }
  }

  /** The row after the first row + 1 rows. */
  method FillNextRow(g: Gf, tmp: array<gf>, k: nat, n: nat, row: nat, x: nat)
    requires g.Ready() && Separate(g, tmp) && row + 1 < n && x == (row + 1) * k
    requires RowsFilled(tmp[..], VdmRows(g.F, k, n), k, n, row + 1)
    modifies tmp
    ensures RowsFilled(tmp[..], VdmRows(g.F, k, n), k, n, row + 2)
  {
    ghost var t := tmp[..];
    RowBound(k, n, row + 1);
    FillRow(g, tmp, x, k, row);
    RowsFilledStep(t, tmp[..], VdmRows(g.F, k, n), k, n, row + 1, x);
  }

  method FillVandermonde(g: Gf, tmp: array<gf>, k: nat, n: nat)
    requires g.Ready() && Separate(g, tmp) && 1 <= k <= n && tmp.Length == n * k
    modifies tmp
    ensures RowsFilled(tmp[..], VdmRows(g.F, k, n), k, n, n)
  {
    RowBound(k, n, 0);
    FillFirstRow(tmp, k, g.F);
    RowsFilledStep(old(tmp[..]), tmp[..], VdmRows(g.F, k, n), k, n, 0, 0);
    var row, x := 0, k;
    while row < n - 1
      invariant 0 <= row <= n - 1 && x == (row + 1) * k
      invariant RowsFilled(tmp[..], VdmRows(g.F, k, n), k, n, row + 1)
    {
      FillNextRow(g, tmp, k, n, row, x);
      NextRow(k, row + 1);
      row, x := row + 1, x + k;
    }
  }

  lemma LowerIndex(k: nat, r: nat, c: nat)
    ensures At(k * k, k, r, c) == At(0, k, k + r, c)
  {
    assert (k + r) * k == k * k + r * k;
  }

  lemma LowerSize(k: nat, n: nat)
    requires k <= n
    ensures k * k + (n - k) * k == n * k
  {
    assert (n - k) * k == n * k - k * k;
  }

  /** The first m rows of a stored matrix. */
  lemma HoldsTop(s: seq<gf>, V: Matrix, A: Matrix, k: nat, n: nat, m: nat)
    requires RowsFilled(s, V, k, n, n) && m <= n && IsMatrix(A, m, k) && m * k <= |s|
    requires forall r {:trigger A[r]} :: 0 <= r < m ==> A[r] == V[r]
    ensures Holds(s, 0, A, m, k)
  {
    forall r, c {:trigger At(0, k, r, c)} | 0 <= r < m && 0 <= c < k
      ensures At(0, k, r, c) < |s| && s[At(0, k, r, c)] == A[r][c]
    {
      assert A[r] == V[r];
    }
  }

  /** The stored Vandermonde rows: the square top. */
  lemma {:induction false} TopRows(F: Field, s: seq<gf>, k: nat, n: nat)
    requires 1 <= k <= n && RowsFilled(s, VdmRows(F, k, n), k, n, n)
    ensures Holds(s, 0, VdmMatrix(F, Points(F, k)), k, k)
  {
    LowerSize(k, n);
    var V, A := VdmRows(F, k, n), VdmMatrix(F, Points(F, k));
    forall r {:trigger A[r]} | 0 <= r < k ensures A[r] == V[r] { assert A[r] == VdmRow(F, Point(F, r), k); }
    HoldsTop(s, V, A, k, n, k);
  }

  /** The stored Vandermonde rows: the rest below. */
  lemma BottomRows(F: Field, s: seq<gf>, k: nat, n: nat)
    requires 1 <= k <= n && RowsFilled(s, VdmRows(F, k, n), k, n, n)
    ensures Holds(s, k * k, VdmRows(F, k, n)[k..], n - k, k)
  {
    LowerSize(k, n);
    forall r, c {:trigger At(k * k, k, r, c)} | 0 <= r < n - k && 0 <= c < k
      ensures At(k * k, k, r, c) < |s| && s[At(k * k, k, r, c)] == VdmRows(F, k, n)[k..][r][c]
    {
      LowerIndex(k, r, c);
    }
  }

  lemma HoldsBelow(s: seq<gf>, t: seq<gf>, k: nat, L: Matrix, m: nat)
    requires Holds(s, k * k, L, m, k) && |s| == |t| && k * k <= |s| && s[k * k..] == t[k * k..]
    ensures Holds(t, k * k, L, m, k)
  {
    forall r, c {:trigger At(k * k, k, r, c)} | 0 <= r < m && 0 <= c < k
      ensures At(k * k, k, r, c) < |t| && t[At(k * k, k, r, c)] == L[r][c]
    {
      var i := At(k * k, k, r, c) - k * k;
      AtStart(k, r, c);
      assert s[k * k..][i] == t[k * k..][i];
    }
  }

  lemma AtStart(k: nat, r: nat, c: nat)
    ensures At(k * k, k, r, c) >= k * k
  {
  }

  // ---------- the identity on top ----------

  ghost predicate TopIdentity(s: seq<gf>, k: nat, n: nat) {
    forall r, c {:trigger At(0, k, r, c)} :: 0 <= r < k && 0 <= c < k ==>
      At(0, k, r, c) < |s| && s[At(0, k, r, c)] == if r == c && r < n then 1 else 0
  }

  lemma DiagonalStep(s: seq<gf>, k: nat, col: nat, x: nat)
    requires TopIdentity(s, k, col) && col < k && x == col * k + col && x < |s|
    ensures TopIdentity(s[x := 1], k, col + 1)
  {
    forall r, c {:trigger At(0, k, r, c)} | 0 <= r < k && 0 <= c < k
      ensures At(0, k, r, c) < |s| && s[x := 1][At(0, k, r, c)] == if r == c && r < col + 1 then 1 else 0
    {
      AtApart(k, r, c, col, col);
      assert At(0, k, col, col) == x;
    }
  }

  method FillIdentity(enc: array<gf>, k: nat)
    requires k * k <= enc.Length
    modifies enc
    ensures TopIdentity(enc[..], k, k) && enc[k * k..] == old(enc[k * k..])
  {
    var kk := k * k;
    ghost var s := enc[..];
    for i := 0 to kk
      invariant forall q :: 0 <= q < enc.Length ==> (enc[q] == if q < i then 0 else s[q])
    {
      enc[i] := 0;
    }
    forall r, c {:trigger At(0, k, r, c)} | 0 <= r < k && 0 <= c < k
      ensures At(0, k, r, c) < |enc[..]| && enc[..][At(0, k, r, c)] == 0
    {
      AtBound(k, k, r, c);
    }
    var col, x := 0, 0;
    while col < k
      invariant 0 <= col <= k && x == col * k + col
      invariant TopIdentity(enc[..], k, col)
      invariant forall q :: kk <= q < enc.Length ==> enc[q] == s[q]
    {
      AtBound(k, k, col, col);
      assert x == At(0, k, col, col);
      DiagonalStep(enc[..], k, col, x);
      enc[x] := 1;
      NextRow(k, col);
      col, x := col + 1, x + k + 1;
    }
  }

  /** The body of fec_new: Vandermonde rows, inversion of the top, product below, identity on top. */
  method BuildGenerator(g: Gf, enc: array<gf>, k: nat, n: nat) returns (ghost E: Matrix, ghost R: Matrix)
    requires g.Ready() && Separate(g, enc) && 1 <= k <= n && k <= 256 && enc.Length == n * k
    modifies enc
    ensures Holds(enc[..], 0, E, n, k) && IsCode(g.F, E, R, k, n)
  {
    var tmp := new gf[n * k];
    FillVandermonde(g, tmp, k, n);
    TopRows(g.F, tmp[..], k, n);
    BottomRows(g.F, tmp[..], k, n);
    PointsAreDistinct(g.F, k);
    LowerSize(k, n);
    ghost var t := tmp[..];
    ghost var L := VdmRows(g.F, k, n)[k..];
    R := InvertVdm(g, tmp, k, Points(g.F, k));
    HoldsBelow(t, tmp[..], k, L, n - k);
    MatMul(g, tmp, k * k, tmp, 0, enc, k * k, n - k, k, k, L, R);
    ghost var e := enc[..];
    FillIdentity(enc, k);
    E := GeneratorMatrix(g.F, R, k, n);
    GeneratorHeld(g.F, e, enc[..], L, R, k, n);
    SystematicMatrix(g.F, E, R, k, n);
  }

  // ---------- the code object ----------

  /** t is s, but from lo on for the stride it holds the sums of the first j products. */
  ghost predicate Summed(F: Field, e: Vector, D: Blocks, s: seq<gf>, t: seq<gf>, lo: nat, stride: nat, j: nat, k: nat,
                         sz: nat) {
    && IsBlocks(D, k, sz) && |e| == k && j <= k && lo + stride <= sz && |t| == |s|
    && forall b {:trigger t[b]} :: 0 <= b < |t| ==>
         (t[b] == if lo <= b < lo + stride then Dot(F, e, ByteColumn(D, b), j) else s[b])
  }

  lemma SummedStep(F: Field, e: Vector, D: Blocks, s: seq<gf>, t: seq<gf>, u: seq<gf>, x: seq<gf>,
                   lo: nat, stride: nat, j: nat, k: nat, sz: nat)
    requires Summed(F, e, D, s, t, lo, stride, j, k, sz) && j < k
    requires sz <= |x| && x[..sz] == D[j] && Accumulated(F, t, u, lo, x, lo, e[j], stride)
    ensures Summed(F, e, D, s, u, lo, stride, j + 1, k, sz)
  {
    forall b {:trigger u[b]} | 0 <= b < |u|
      ensures u[b] == if lo <= b < lo + stride then Dot(F, e, ByteColumn(D, b), j + 1) else s[b]
    {
      assert t[b] == t[b];
      if lo <= b < lo + stride { assert x[..sz][b] == D[j][b] == ByteColumn(D, b)[j]; }
    }
  }

  /** One data block's share of the sums. */
  method AddBlock(g: Gf, out: array<gf>, x: array<gf>, c: gf, lo: nat, stride: nat,
                  ghost e: Vector, ghost D: Blocks, ghost s: seq<gf>, ghost j: nat, ghost k: nat, ghost sz: nat)
    requires g.Ready() && Separate(g, out) && out != x && Summed(g.F, e, D, s, out[..], lo, stride, j, k, sz) && j < k
    requires lo + stride <= out.Length && sz <= x.Length && x[..sz] == D[j] && c == e[j]
    modifies out
    ensures Summed(g.F, e, D, s, out[..], lo, stride, j + 1, k, sz)
  {
    ghost var t := out[..];
    AddMul(g, out, lo, x, lo, c, stride);
    SummedStep(g.F, e, D, s, t, out[..], x[..], lo, stride, j, k, sz);
  }

  method ClearStride(out: array<gf>, lo: nat, stride: nat)
    requires lo + stride <= out.Length
    modifies out
    ensures forall q :: 0 <= q < out.Length ==> (out[q] == if lo <= q < lo + stride then 0 else old(out[q]))
  {
    for i := lo to lo + stride
      invariant forall q :: 0 <= q < out.Length ==> (out[q] == if lo <= q < i then 0 else old(out[q]))
    {
      out[i] := 0;
    }
  }

  /** A counter of eight bits: its value after i steps. */
  function Counter8(i: nat): nat { i % 256 }

  /** A loop that runs while an eight-bit counter is below the bound ends exactly if the bound is at
      most 255. */
  lemma CounterEnds(bound: nat)
    ensures (exists i {:trigger Counter8(i)} :: Counter8(i) >= bound) <==> bound <= 255
  {
    assert Counter8(255) == 255;
  }

  class Fec {
    const k: nat
    const n: nat
    const enc: array<gf>
    const g: Gf
    ghost var E: Matrix
    ghost var R: Matrix

    ghost predicate Valid()
      reads this, enc, g, g.exp, g.log, g.inverse, g.mulTable
    {
      g.Ready() && Separate(g, enc) && Holds(enc[..], 0, E, n, k) && IsCode(g.F, E, R, k, n)
    }

    /** fec_new: the systematic generator matrix. */
    constructor (g: Gf, k: nat, n: nat)
      requires g.Ready() && 1 <= k <= n && k <= 256
      ensures Valid() && this.k == k && this.n == n && this.g == g && fresh(enc)
    {
      this.k, this.n, this.g := k, n, g;
      enc := new gf[n * k];
      new;
      E, R := BuildGenerator(g, enc, k, n);
    }

    // ---------- encoding ----------

    /** One stride of one check block. */
    method EncodeStride(src: seq<array<gf>>, out: array<gf>, fecnum: nat, lo: nat, stride: nat,
                        ghost D: Blocks, ghost sz: nat)
      requires Valid() && Separate(g, out) && out != enc && out !in src
      requires IsBlocks(D, k, sz) && |src| == k && lo + stride <= sz <= out.Length && fecnum < n
      requires forall j :: 0 <= j < k ==> sz <= src[j].Length && src[j][..sz] == D[j]
      modifies out
      ensures IsBlock(g.F, E, D, fecnum, out[..], k, sz, lo, lo + stride)
      ensures forall i :: 0 <= i < out.Length && !(lo <= i < lo + stride) ==> out[i] == old(out[i])
    {
      ghost var s := out[..];
      ClearStride(out, lo, stride);
      RowBound(k, n, fecnum);
      for j := 0 to k
        invariant Summed(g.F, E[fecnum], D, s, out[..], lo, stride, j, k, sz)
      {
        assert enc[..][At(0, k, fecnum, j)] == E[fecnum][j];
        AddBlock(g, out, src[j], enc[At(0, k, fecnum, j)], lo, stride, E[fecnum], D, s, j, k, sz);
      }
    }

    /** fec_encode: check block blockNums[i] of the data goes to fecs[i]. Its loop counters are
        eight bits wide, so it ends only for at most 255 check blocks and 255 data blocks. */
    method Encode(src: seq<array<gf>>, fecs: seq<array<gf>>, blockNums: seq<nat>, sz: nat, ghost D: Blocks)
      requires Valid() && k <= 255 && |fecs| == |blockNums| <= 255
      requires IsBlocks(D, k, sz) && Inputs(src, sz, D) && Outputs(src, fecs, sz)
      requires forall i :: 0 <= i < |fecs| ==> k <= blockNums[i] < n
      modifies fecs
      ensures Valid() && E == old(E)
      ensures forall i :: 0 <= i < |fecs| ==> IsBlock(g.F, E, D, blockNums[i], fecs[i][..], k, sz, 0, sz)
    {
      var lo := 0;
      while lo < sz
        invariant lo >= 0 && Valid() && Inputs(src, sz, D)
        invariant forall i :: 0 <= i < |fecs| ==>
                    IsBlock(g.F, E, D, blockNums[i], fecs[i][..], k, sz, 0, if lo < sz then lo else sz)
      {
        var stride := if sz - lo < STRIDE then sz - lo else STRIDE;
        EncodeStrides(src, fecs, blockNums, lo, stride, sz, D);
        lo := lo + STRIDE;
      }
    }

    /** The data blocks hold the data. */
    ghost predicate Inputs(src: seq<array<gf>>, sz: nat, D: Blocks)
      reads this, src
    {
      |src| == k && |D| == k && forall j :: 0 <= j < k ==> sz <= src[j].Length && src[j][..sz] == D[j]
    }

    /** The check blocks are large enough, and apart from each other and from everything read. */
    ghost predicate Outputs(src: seq<array<gf>>, fecs: seq<array<gf>>, sz: nat)
      reads this, g
    {
      && (forall i :: 0 <= i < |fecs| ==>
          Separate(g, fecs[i]) && fecs[i] != enc && fecs[i] !in src && sz <= fecs[i].Length)
      && (forall i, j :: 0 <= i < j < |fecs| ==> fecs[i] != fecs[j])
    }

    /** One stride of every check block. */
    method EncodeStrides(src: seq<array<gf>>, fecs: seq<array<gf>>, blockNums: seq<nat>, lo: nat, stride: nat, sz: nat,
                         ghost D: Blocks)
      requires Valid() && |fecs| == |blockNums|
      requires IsBlocks(D, k, sz) && Inputs(src, sz, D) && Outputs(src, fecs, sz) && lo + stride <= sz
      requires forall i :: 0 <= i < |fecs| ==>
               k <= blockNums[i] < n && IsBlock(g.F, E, D, blockNums[i], fecs[i][..], k, sz, 0, lo)
      modifies fecs
      ensures Valid() && E == old(E) && Inputs(src, sz, D)
      ensures forall i :: 0 <= i < |fecs| ==> IsBlock(g.F, E, D, blockNums[i], fecs[i][..], k, sz, 0, lo + stride)
    {
      for i := 0 to |fecs|
        invariant Valid() && Inputs(src, sz, D)
        invariant forall i' :: 0 <= i' < |fecs| ==>
                    IsBlock(g.F, E, D, blockNums[i'], fecs[i'][..], k, sz, 0, if i' < i then lo + stride else lo)
      {
        EncodeStride(src, fecs[i], blockNums[i], lo, stride, D, sz);
      }
    }

    // ---------- decoding ----------

    /** build_decode_matrix_into_space: the rows of the received blocks, inverted. */
    method BuildDecodeMatrix(index: seq<nat>, matrix: array<gf>) returns (ghost B: Matrix)
      requires Valid() && k <= 255 && Separate(g, matrix) && matrix != enc && matrix.Length == k * k
      requires Received(index, k, n) && (k == 1 || n <= 256)
      modifies matrix
      ensures Holds(matrix[..], 0, B, k, k) && IsInverse(g.F, B, Rows(E, index), k)
    {
      ghost var M := Rows(E, index);
      var i, x := 0, 0;
      while i < k
        invariant 0 <= i <= k && x == i * k
        invariant RowsFilled(matrix[..], M, k, k, i)
      {
        ghost var t := matrix[..];
        RowBound(k, k, i);
        FillDecodeRow(index[i], matrix, i, x);
        RowsFilledStep(t, matrix[..], M, k, k, i, x);
        NextRow(k, i);
        i, x := i + 1, x + k;
      }
      AnyRowsNonSingular(g.F, E, R, k, n, index);
      B := InvertMat(g, matrix, k, M);
    }

    /** A unit row for a primary block, a copied generator row for a check block. */
    method FillDecodeRow(num: nat, matrix: array<gf>, i: nat, x: nat)
      requires Valid() && Separate(g, matrix) && matrix != enc && x + k <= matrix.Length && i < k
      requires num < n && (num < k ==> num == i)
      modifies matrix
      ensures Patched(old(matrix[..]), matrix[..], x, E[num])
    {
      ghost var s, v := matrix[..], E[num];
      if num < k {
        for c := 0 to k
          invariant forall q {:trigger matrix[q]} :: 0 <= q < |s| ==> (matrix[q] == if x <= q < x + c then 0 else s[q])
        {
          matrix[x + c] := 0;
        }
        matrix[x + i] := 1;
      } else {
        RowBound(k, n, num);
        for c := 0 to k
          invariant forall q {:trigger matrix[q]} :: 0 <= q < |s| ==>
                    (matrix[q] == if x <= q < x + c then v[q - x] else s[q])
        {
          assert enc[..][At(0, k, num, c)] == v[c];
          matrix[x + c] := enc[At(0, k, num, c)];
        }
      }
    }

    /** fec_decode: from any k blocks, with primary blocks in their own places, the missing
        primary blocks are rebuilt in order. D is whatever data the blocks came from. */
    method Decode(inpkts: seq<array<gf>>, outpkts: seq<array<gf>>, index: seq<nat>, sz: nat,
                  ghost D: Blocks, ghost P: Blocks)
      requires Valid() && k <= 255 && (k == 1 || n <= 256) && Received(index, k, n)
      requires |inpkts| == k && Contents(inpkts, P, sz) && ReceivedBlocks(g.F, E, index, D, P, k, sz)
      requires |Missing(index, k, k)| <= |outpkts| && Writable(g, outpkts, inpkts, enc, sz)
      modifies outpkts
      ensures Valid() && Rebuilds(outpkts, Missing(index, k, k), D, sz)
    {
      var matrix := new gf[k * k];
      ghost var B := BuildDecodeMatrix(index, matrix);
      RebuiltAll(g.F, E, B, index, D, P, k, sz);
      RebuildMissing(g, inpkts, outpkts, matrix, index, k, sz, B, D, P);
    }
  }

  /** B turns the received bytes into the data bytes. */
  ghost predicate Solves(F: Field, B: Matrix, P: Blocks, D: Blocks, k: nat, sz: nat) {
    && IsMatrix(B, k, k) && IsBlocks(P, k, sz) && IsBlocks(D, k, sz)
    && forall row, b {:trigger D[row][b]} :: 0 <= row < k && 0 <= b < sz ==>
       Dot(F, B[row], ByteColumn(P, b), k) == D[row][b]
  }

  /** One reconstructed block: a row of the decode matrix times the received blocks. */
  method RebuildBlock(g: Gf, inpkts: seq<array<gf>>, out: array<gf>, m: array<gf>, k: nat, row: nat, sz: nat,
                      ghost B: Matrix, ghost P: Blocks)
    requires g.Ready() && Separate(g, out) && out != m && out !in inpkts && row < k
    requires Holds(m[..], 0, B, k, k) && |inpkts| == k && IsBlocks(P, k, sz) && sz <= out.Length
    requires Contents(inpkts, P, sz)
    modifies out
    ensures forall b :: 0 <= b < sz ==> out[b] == Dot(g.F, B[row], ByteColumn(P, b), k)
  {
    for i := 0 to sz
      invariant forall q :: 0 <= q < i ==> out[q] == 0
    {
      out[i] := 0;
    }
    for col := 0 to k
      invariant forall b {:trigger out[b]} :: 0 <= b < sz ==> out[b] == Dot(g.F, B[row], ByteColumn(P, b), col)
    {
      assert m[..][At(0, k, row, col)] == B[row][col];
      ghost var t := out[..];
      AddMul(g, out, 0, inpkts[col], 0, m[At(0, k, row, col)], sz);
      forall b {:trigger out[b]} | 0 <= b < sz ensures out[b] == Dot(g.F, B[row], ByteColumn(P, b), col + 1) {
        assert out[..][b] == out[b] && t[b] == Dot(g.F, B[row], ByteColumn(P, b), col);
        assert inpkts[col][..sz][b] == P[col][b] == ByteColumn(P, b)[col];
      }
    }
  }

  /** The output buffers: large enough, apart from each other and from everything read. */
  ghost predicate Writable(g: Gf, outpkts: seq<array<gf>>, inpkts: seq<array<gf>>, m: array<gf>, sz: nat) {
    && (forall i :: 0 <= i < |outpkts| ==>
         Separate(g, outpkts[i]) && outpkts[i] != m && outpkts[i] !in inpkts && sz <= outpkts[i].Length)
    && (forall i, j :: 0 <= i < j < |outpkts| ==> outpkts[i] != outpkts[j])
  }

  /** The decoding loop: one output for each missing row. */
  method RebuildMissing(g: Gf, inpkts: seq<array<gf>>, outpkts: seq<array<gf>>, m: array<gf>, index: seq<nat>, k: nat,
                        sz: nat, ghost B: Matrix, ghost D: Blocks, ghost P: Blocks)
    requires g.Ready() && |index| == |inpkts| == k && Writable(g, outpkts, inpkts, m, sz)
    requires Holds(m[..], 0, B, k, k) && Contents(inpkts, P, sz) && Solves(g.F, B, P, D, k, sz)
    requires |Missing(index, k, k)| <= |outpkts|
    modifies outpkts
    ensures Rebuilds(outpkts, Missing(index, k, k), D, sz)
  {
    var outix := 0;
    for row := 0 to k
      invariant Holds(m[..], 0, B, k, k) && Contents(inpkts, P, sz)
      invariant outix == |Missing(index, k, row)| && Rebuilds(outpkts, Missing(index, k, row), D, sz)
    {
      outix := RebuildRow(g, inpkts, outpkts, m, index, outix, row, k, sz, B, D, P);
    }
  }

  method RebuildRow(g: Gf, inpkts: seq<array<gf>>, outpkts: seq<array<gf>>, m: array<gf>, index: seq<nat>, outix: nat,
                    row: nat, k: nat, sz: nat, ghost B: Matrix, ghost D: Blocks, ghost P: Blocks) returns (outix': nat)
    requires g.Ready() && |index| == |inpkts| == k && row < k && Writable(g, outpkts, inpkts, m, sz)
    requires Holds(m[..], 0, B, k, k) && Contents(inpkts, P, sz) && Solves(g.F, B, P, D, k, sz)
    requires |Missing(index, k, k)| <= |outpkts|
    requires outix == |Missing(index, k, row)| && Rebuilds(outpkts, Missing(index, k, row), D, sz)
    modifies outpkts
    ensures Holds(m[..], 0, B, k, k) && Contents(inpkts, P, sz)
    ensures outix' == |Missing(index, k, row + 1)| && Rebuilds(outpkts, Missing(index, k, row + 1), D, sz)
  {
    MissingMonotone(index, k, row + 1, k);
    outix' := outix;
    if index[row] >= k {
      RebuildNext(g, inpkts, outpkts, m, Missing(index, k, row), outix, row, k, sz, B, D, P);
      outix' := outix + 1;
    }
  }

  /** The next missing block. */
  method RebuildNext(g: Gf, inpkts: seq<array<gf>>, outpkts: seq<array<gf>>, m: array<gf>, ghost rows: seq<nat>,
                     outix: nat,
                     row: nat, k: nat, sz: nat, ghost B: Matrix, ghost D: Blocks, ghost P: Blocks)
    requires g.Ready() && |inpkts| == k && Writable(g, outpkts, inpkts, m, sz)
    requires Holds(m[..], 0, B, k, k) && Contents(inpkts, P, sz) && Solves(g.F, B, P, D, k, sz)
    requires row < k && outix == |rows| < |outpkts| && Rebuilds(outpkts, rows, D, sz)
    modifies outpkts
    ensures Holds(m[..], 0, B, k, k) && Contents(inpkts, P, sz) && Rebuilds(outpkts, rows + [row], D, sz)
  {
    RebuildBlock(g, inpkts, outpkts[outix], m, k, row, sz, B, P);
    assert outpkts[outix][..sz] == D[row];
    forall i | 0 <= i < |rows| ensures outpkts[i][..sz] == D[rows[i]] {}
  }

  /** The received blocks, byte for byte. */
  ghost predicate Contents(inpkts: seq<array<gf>>, P: Blocks, sz: nat)
    reads inpkts
  {
    |P| == |inpkts| && forall j :: 0 <= j < |inpkts| ==> sz <= inpkts[j].Length && inpkts[j][..sz] == P[j]
  }

  /** P are the blocks with numbers index of the data D. */
  ghost predicate ReceivedBlocks(F: Field, E: Matrix, index: seq<nat>, D: Blocks, P: Blocks, k: nat, sz: nat) {
    && IsBlocks(D, k, sz) && IsBlocks(P, k, sz) && |index| == k
    && forall j :: 0 <= j < k ==>
         index[j] < |E| && |E[index[j]]| == k && IsBlock(F, E, D, index[j], P[j], k, sz, 0, sz)
  }

  /** The first outputs are the data blocks listed in rows. */
  ghost predicate Rebuilds(outpkts: seq<array<gf>>, rows: seq<nat>, D: Blocks, sz: nat)
    reads outpkts
  {
    && |rows| <= |outpkts|
    && forall i :: 0 <= i < |rows| ==> rows[i] < |D| && sz <= outpkts[i].Length && outpkts[i][..sz] == D[rows[i]]
  }

  /** k different block numbers, each primary block in its own place. */
  ghost predicate Received(index: seq<nat>, k: nat, n: nat) {
    Picks(index, k, n) && forall i :: 0 <= i < k ==> index[i] >= k || index[i] == i
  }

  /** The primary blocks before row that were not received, in order. */
  function Missing(index: seq<nat>, k: nat, row: nat): (m: seq<nat>)
    requires row <= k == |index|
    ensures |m| <= row && forall i :: 0 <= i < |m| ==> m[i] < row && index[m[i]] >= k
  {
    if row == 0 then [] else Missing(index, k, row - 1) + if index[row - 1] >= k then [row - 1] else []
  }

  lemma {:induction false} MissingMonotone(index: seq<nat>, k: nat, row: nat, row': nat)
    requires row <= row' <= k == |index|
    ensures |Missing(index, k, row)| <= |Missing(index, k, row')|
  {
    if row < row' { MissingMonotone(index, k, row, row' - 1); }
  }

  /** A missing block stands in the list of missing blocks behind those before it. */
  lemma {:induction false} MissingAt(index: seq<nat>, k: nat, r: nat, row: nat)
    requires r < row <= k == |index| && index[r] >= k
    ensures |Missing(index, k, r)| < |Missing(index, k, row)|
    ensures Missing(index, k, row)[|Missing(index, k, r)|] == r
  {
    if r < row - 1 { MissingAt(index, k, r, row - 1); }
  }

  /** The inverse of the received rows turns the received bytes into the data bytes. */
  lemma RebuiltAll(F: Field, E: Matrix, B: Matrix, index: seq<nat>, D: Blocks, P: Blocks, k: nat, sz: nat)
    requires ReceivedBlocks(F, E, index, D, P, k, sz)
    requires IsInverse(F, B, Rows(E, index), k) && IsMatrix(B, k, k)
    ensures Solves(F, B, P, D, k, sz)
  {
    var M := Rows(E, index);
    forall row, b {:trigger D[row][b]} | 0 <= row < k && 0 <= b < sz
      ensures Dot(F, B[row], ByteColumn(P, b), k) == D[row][b]
    {
      var x, y := ByteColumn(D, b), ByteColumn(P, b);
      forall r | 0 <= r < k ensures y[r] == Dot(F, M[r], x, k) {
        assert P[r][b] == Dot(F, E[index[r]], ByteColumn(D, b), k);
      }
      assert InvertsAt(F, B, M, k, x, y);
      assert Relates(F, B, y, x, k);
      assert x[row] == Dot(F, B[row], y, k);
    }
  }

  ghost function GeneratorMatrix(F: Field, R: Matrix, k: nat, n: nat): (E: Matrix)
    requires IsMatrix(R, k, k) && k <= n
    ensures IsMatrix(E, n, k)
  {
    seq(n, r requires 0 <= r < n =>
      if r < k then Unit(k, r)
      else seq(k, c requires 0 <= c < k => Dot(F, VdmRow(F, Point(F, r), k), Column(R, c), k)))
  }

  lemma GeneratorHeld(F: Field, e: seq<gf>, t: seq<gf>, L: Matrix, R: Matrix, k: nat, n: nat)
    requires 1 <= k <= n && |t| == |e| == n * k && L == VdmRows(F, k, n)[k..]
    requires ProductRows(F, e, k * k, L, R, n - k, k, k, n - k)
    requires TopIdentity(t, k, k) && k * k <= |e| && t[k * k..] == e[k * k..]
    ensures Holds(t, 0, GeneratorMatrix(F, R, k, n), n, k)
  {
    var E := GeneratorMatrix(F, R, k, n);
    forall r, c {:trigger At(0, k, r, c)} | 0 <= r < n && 0 <= c < k
      ensures At(0, k, r, c) < |t| && t[At(0, k, r, c)] == E[r][c]
    {
      if r >= k { LowerEntry(F, e, t, L, R, k, n, r, c); }
    }
  }

  lemma LowerEntry(F: Field, e: seq<gf>, t: seq<gf>, L: Matrix, R: Matrix, k: nat, n: nat, r: nat, c: nat)
    requires 1 <= k <= n && |t| == |e| == n * k && L == VdmRows(F, k, n)[k..] && k <= r < n && c < k
    requires ProductRows(F, e, k * k, L, R, n - k, k, k, n - k)
    requires k * k <= |e| && t[k * k..] == e[k * k..]
    ensures At(0, k, r, c) < |t| && t[At(0, k, r, c)] == GeneratorMatrix(F, R, k, n)[r][c]
  {
    LowerIndex(k, r - k, c);
    AtStart(k, r - k, c);
    var i := At(k * k, k, r - k, c) - k * k;
    assert t[k * k..][i] == e[k * k..][i];
  }
}
