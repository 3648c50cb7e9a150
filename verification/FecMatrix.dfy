/** The matrix routines of the coder, over matrices stored row after row in one array. */
module FecMatrix {
  import opened FecField
  import opened FecVector
  import opened FecInverse
  import opened FecTables

  // ---------- storage ----------

  /** The index of entry (r, c) of a matrix with k columns stored from off on. */
  function At(off: nat, k: nat, r: nat, c: nat): nat { off + r * k + c }

  lemma RowRange(k: nat, r: nat, r': nat, c: nat)
    requires c < k
    ensures r * k <= r' * k + c < r * k + k <==> r == r'
  {
    if r < r' { assert r' * k >= (r + 1) * k; }
    if r' < r { assert r * k >= (r' + 1) * k; }
  }

  lemma RowBound(k: nat, n: nat, r: nat)
    requires r < n
    ensures r * k + k <= n * k
  {
    assert (r + 1) * k <= n * k;
  }

  /** s stores A, which has n rows of k entries, from off on. */
  ghost predicate Holds(s: seq<gf>, off: nat, A: Matrix, n: nat, k: nat) {
    && IsMatrix(A, n, k) && off + n * k <= |s|
    && forall r, c {:trigger At(off, k, r, c)} :: 0 <= r < n && 0 <= c < k ==>
         At(off, k, r, c) < |s| && s[At(off, k, r, c)] == A[r][c]
  }

  /** t is s except that the entries from x on are v. */
  ghost predicate Patched(s: seq<gf>, t: seq<gf>, x: nat, v: Vector) {
    && |t| == |s| && x + |v| <= |s|
    && forall i {:trigger t[i]} :: 0 <= i < |s| ==> (t[i] == if x <= i < x + |v| then v[i - x] else s[i])
  }

  lemma HoldsRow(s: seq<gf>, t: seq<gf>, off: nat, A: Matrix, n: nat, k: nat, r: nat, x: nat, v: Vector)
    requires Holds(s, off, A, n, k) && r < n && x == off + r * k && |v| == k && Patched(s, t, x, v)
    ensures Holds(t, off, A[r := v], n, k)
  {
    forall r', c {:trigger At(off, k, r', c)} | 0 <= r' < n && 0 <= c < k
      ensures At(off, k, r', c) < |t| && t[At(off, k, r', c)] == A[r := v][r'][c]
    {
      RowRange(k, r, r', c);
      assert s[At(off, k, r', c)] == A[r'][c];
    }
  }

  lemma HoldsRowAt(s: seq<gf>, off: nat, A: Matrix, n: nat, k: nat, r: nat, x: nat)
    requires Holds(s, off, A, n, k) && r < n && x == off + r * k
    ensures x + k <= |s| && s[x..x + k] == A[r]
  {
    RowBound(k, n, r);
    forall c | 0 <= c < k ensures s[x..x + k][c] == A[r][c] {
      assert s[At(off, k, r, c)] == A[r][c];
    }
  }

  ghost predicate Separate(g: Gf, a: array<gf>) { a != g.exp && a != g.inverse }

  // ---------- dst += c * src ----------

  const UNROLL := 16

  ghost predicate Overlap(a: array<gf>, d: nat, b: array<gf>, s: nat, sz: nat) {
    a == b && s < d + sz && d < s + sz
  }

  /** t is t0 with c * x added to n entries from d on, x read from s on. */
  ghost predicate Accumulated(F: Field, t0: seq<gf>, t: seq<gf>, d: nat, x: seq<gf>, s: nat, c: gf, n: nat) {
    && |t| == |t0| && d + n <= |t| && s + n <= |x|
    && forall i {:trigger t[i]} :: 0 <= i < |t| ==>
         (t[i] == if d <= i < d + n then Add(F, t0[i], Mul(F, c, x[s + (i - d)])) else t0[i])
  }

  ghost predicate Unread(src: array<gf>, x: seq<gf>, s: nat, sz: nat)
    reads src
  {
    |x| == src.Length && s + sz <= |x| && forall i {:trigger src[i]} :: s <= i < s + sz ==> src[i] == x[i]
  }

  /** One GF_ADDMULC after the first j of them; t0 and x are the buffers before all of them. */
  method AddMulOne(g: Gf, dst: array<gf>, d: nat, src: array<gf>, s: nat, c: gf, sz: nat, j: nat,
                   ghost t0: seq<gf>, ghost x: seq<gf>)
    requires g.Ready() && Separate(g, dst) && !Overlap(dst, d, src, s, sz)
    requires j < sz && d + sz <= dst.Length && Unread(src, x, s, sz)
    requires Accumulated(g.F, t0, dst[..], d, x, s, c, j)
    modifies dst
    ensures Unread(src, x, s, sz) && Accumulated(g.F, t0, dst[..], d, x, s, c, j + 1)
  {
    var v := g.GfAddMul(dst[d + j], c, src[s + j]);
    assert dst[..][d + j] == t0[d + j];
    dst[d + j] := v;
  }

  /** One group of four GF_ADDMULC. */
  method AddMulFour(g: Gf, dst: array<gf>, d: nat, src: array<gf>, s: nat, c: gf, sz: nat, j: nat,
                    ghost t0: seq<gf>, ghost x: seq<gf>)
    requires g.Ready() && Separate(g, dst) && !Overlap(dst, d, src, s, sz)
    requires j + 4 <= sz && d + sz <= dst.Length && Unread(src, x, s, sz)
    requires Accumulated(g.F, t0, dst[..], d, x, s, c, j)
    modifies dst
    ensures Unread(src, x, s, sz) && Accumulated(g.F, t0, dst[..], d, x, s, c, j + 4)
  {
    AddMulOne(g, dst, d, src, s, c, sz, j, t0, x);
    AddMulOne(g, dst, d, src, s, c, sz, j + 1, t0, x);
    AddMulOne(g, dst, d, src, s, c, sz, j + 2, t0, x);
    AddMulOne(g, dst, d, src, s, c, sz, j + 3, t0, x);
  }

  /** _addmul1: sixteen bytes at a time, then the final bytes one by one. */
  method AddMul1(g: Gf, dst: array<gf>, d: nat, src: array<gf>, s: nat, c: gf, sz: nat)
    requires g.Ready() && Separate(g, dst) && !Overlap(dst, d, src, s, sz)
    requires d + sz <= dst.Length && s + sz <= src.Length
    modifies dst
    ensures Accumulated(g.F, old(dst[..]), dst[..], d, old(src[..]), s, c, sz)
  {
    ghost var t0, x := dst[..], src[..];
    var j := 0;
    while j < sz - UNROLL + 1
      invariant 0 <= j <= sz
      invariant Unread(src, x, s, sz) && Accumulated(g.F, t0, dst[..], d, x, s, c, j)
    {
      AddMulFour(g, dst, d, src, s, c, sz, j, t0, x);
      AddMulFour(g, dst, d, src, s, c, sz, j + 4, t0, x);
      AddMulFour(g, dst, d, src, s, c, sz, j + 8, t0, x);
      AddMulFour(g, dst, d, src, s, c, sz, j + 12, t0, x);
      j := j + UNROLL;
    }
    while j < sz
      invariant 0 <= j <= sz
      invariant Unread(src, x, s, sz) && Accumulated(g.F, t0, dst[..], d, x, s, c, j)
    {
      AddMulOne(g, dst, d, src, s, c, sz, j, t0, x);
      j := j + 1;
    }
  }

  /** The addmul macro: nothing to do for a zero coefficient. */
  method AddMul(g: Gf, dst: array<gf>, d: nat, src: array<gf>, s: nat, c: gf, sz: nat)
    requires g.Ready() && Separate(g, dst) && !Overlap(dst, d, src, s, sz)
    requires d + sz <= dst.Length && s + sz <= src.Length
    modifies dst
    ensures Accumulated(g.F, old(dst[..]), dst[..], d, old(src[..]), s, c, sz)
  {
    if c != 0 {
      AddMul1(g, dst, d, src, s, c, sz);
    } else {
      forall i | d <= i < d + sz ensures Add(g.F, dst[i], Mul(g.F, 0, src[s + (i - d)])) == dst[i] {
        Zero(g.F, src[s + (i - d)]);
        Zero(g.F, dst[i]);
      }
    }
  }

  // ---------- one pivot of _invert_mat ----------

  ghost predicate Exchanged2(s: seq<gf>, t: seq<gf>, x: nat, y: nat, n: nat) {
    && |t| == |s| && x + n <= |s| && y + n <= |s|
    && forall q {:trigger t[q]} :: 0 <= q < |s| ==>
         (t[q] == if x <= q < x + n then s[y + (q - x)] else if y <= q < y + n then s[x + (q - y)] else s[q])
  }

  /** The SWAP loop over two rows that start at x and y. */
  method SwapSlices(src: array<gf>, x: nat, y: nat, k: nat)
    requires x + k <= src.Length && y + k <= src.Length && (x + k <= y || y + k <= x)
    modifies src
    ensures Exchanged2(old(src[..]), src[..], x, y, k)
  {
    for ix := 0 to k
      invariant Exchanged2(old(src[..]), src[..], x, y, ix)
    {
      assert src[..][x + ix] == old(src[..])[x + ix] && src[..][y + ix] == old(src[..])[y + ix];
      var tmp := src[x + ix];
      src[x + ix] := src[y + ix];
      src[y + ix] := tmp;
    }
  }

  lemma HoldsSwap(s: seq<gf>, t: seq<gf>, A: Matrix, k: nat, i: nat, j: nat, x: nat, y: nat)
    requires Holds(s, 0, A, k, k) && i < k && j < k && i != j && x == i * k && y == j * k
    requires (x + k <= y || y + k <= x) && Exchanged2(s, t, x, y, k)
    ensures Holds(t, 0, Swap(A, i, j), k, k)
  {
    HoldsRowAt(s, 0, A, k, k, i, x);
    HoldsRowAt(s, 0, A, k, k, j, y);
    var m := s[..x] + A[j] + s[x + k..];
    assert Patched(s, m, x, A[j]);
    HoldsRow(s, m, 0, A, k, k, i, x, A[j]);
    assert Patched(m, t, y, A[i]) by {
      forall q {:trigger t[q]} | 0 <= q < |s| ensures t[q] == if y <= q < y + k then A[i][q - y] else m[q] {
        if y <= q < y + k { assert s[x..x + k][q - y] == s[x + (q - y)]; }
        else if x <= q < x + k { assert s[y..y + k][q - x] == s[y + (q - x)]; }
      }
    }
    HoldsRow(m, t, 0, A[i := A[j]], k, k, j, y, A[i]);
  }

  lemma RowsApart(k: nat, i: nat, j: nat)
    requires i != j
    ensures i * k + k <= j * k || j * k + k <= i * k
  {
    if i < j { RowBound(k, j, i); } else { RowBound(k, i, j); }
  }

  method SwapRows(src: array<gf>, k: nat, i: nat, j: nat, ghost A: Matrix)
    requires Holds(src[..], 0, A, k, k) && i < k && j < k
    modifies src
    ensures Holds(src[..], 0, Swap(A, i, j), k, k)
  {
    if i != j {
      RowBound(k, k, i);
      RowBound(k, k, j);
      RowsApart(k, i, j);
      SwapSlices(src, i * k, j * k, k);
      HoldsSwap(old(src[..]), src[..], A, k, i, j, i * k, j * k);
    }
  }

  /** Scales the row at x so that, with its pivot entry exchanged, it is PivotRow. */
  method ScaleSlice(g: Gf, src: array<gf>, k: nat, x: nat, p: nat, ghost a: Vector)
    requires g.Ready() && Separate(g, src) && p < k
    requires x + k <= src.Length && src[x..x + k] == a && a[p] != 0
    modifies src
    ensures Patched(old(src[..]), src[..], x, PivotRow(g.F, a, p))
  {
    ghost var s, v := src[..], PivotRow(g.F, a, p);
    assert forall q {:trigger s[q]} :: x <= q < x + k ==> s[q] == a[q - x] by {
      forall q {:trigger s[q]} | x <= q < x + k ensures s[q] == a[q - x] { assert s[x..x + k][q - x] == s[q]; }
    }
    assert src[x + p] == s[x + p];
    var c := src[x + p];
    if c != 1 {
      c := g.inverse[c as int];
      src[x + p] := 1;
      for ix := 0 to k
        invariant forall q :: 0 <= q < src.Length ==>
          (src[q] == if x <= q < x + ix then v[q - x] else if q == x + p then 1 else s[q])
      {
        var m := g.GfMul(c, src[x + ix]);
        src[x + ix] := m;
      }
    } else {
      PivotRowOfOne(g.F, a, p);
    }
  }

  method ScaleRow(g: Gf, src: array<gf>, k: nat, p: nat, ghost A: Matrix)
    requires g.Ready() && Separate(g, src)
    requires Holds(src[..], 0, A, k, k) && p < k && A[p][p] != 0
    modifies src
    ensures Holds(src[..], 0, A[p := PivotRow(g.F, A[p], p)], k, k)
  {
    HoldsRowAt(src[..], 0, A, k, k, p, p * k);
    ScaleSlice(g, src, k, p * k, p, A[p]);
    HoldsRow(old(src[..]), src[..], 0, A, k, k, p, p * k, PivotRow(g.F, A[p], p));
  }

  lemma PivotRowOfOne(F: Field, a: Vector, p: nat)
    requires Laws(F) && p < |a| && a[p] == 1
    ensures PivotRow(F, a, p) == a
  {
    InverseNonzero(F, 1);
    Zero(F, Inv(F, 1));
    forall c | 0 <= c < |a| ensures PivotRow(F, a, p)[c] == a[c] { Zero(F, a[c]); }
  }

  /** Clears entry p of the row at x and adds the old entry times the row at y. */
  method EliminateSlice(g: Gf, src: array<gf>, x: nat, y: nat, k: nat, p: nat, ghost a: Vector, ghost b: Vector)
    requires g.Ready() && Separate(g, src) && p < k
    requires x + k <= src.Length && y + k <= src.Length && (x + k <= y || y + k <= x)
    requires src[x..x + k] == a && src[y..y + k] == b
    modifies src
    ensures Patched(old(src[..]), src[..], x, Eliminate(g.F, a, b, p))
  {
    ghost var s := src[..];
    assert src[x + p] == src[x..x + k][p];
    var c := src[x + p];
    src[x + p] := 0;
    ghost var s1 := src[..];
    AddMul(g, src, x, src, y, c, k);
    ghost var t, e := src[..], Eliminate(g.F, a, b, p);
    forall q {:trigger t[q]} | 0 <= q < |s| ensures t[q] == if x <= q < x + k then e[q - x] else s[q] {
      if x <= q < x + k {
        assert s1[y + (q - x)] == s[y..y + k][q - x] == b[q - x];
        assert s1[q] == if q - x == p then 0 else s[x..x + k][q - x];
      }
    }
  }

  method EliminateRow(g: Gf, src: array<gf>, k: nat, r: nat, x: nat, p: nat, y: nat, ghost A: Matrix)
    requires g.Ready() && Separate(g, src)
    requires Holds(src[..], 0, A, k, k) && r < k && p < k && x == r * k && y == p * k
    requires x + k <= y || y + k <= x
    modifies src
    ensures Holds(src[..], 0, A[r := Eliminate(g.F, A[r], A[p], p)], k, k)
  {
    HoldsRowAt(src[..], 0, A, k, k, r, x);
    HoldsRowAt(src[..], 0, A, k, k, p, y);
    EliminateSlice(g, src, x, y, k, p, A[r], A[p]);
    HoldsRow(old(src[..]), src[..], 0, A, k, k, r, x, Eliminate(g.F, A[r], A[p], p));
  }

  lemma EliminateByUnit(F: Field, a: Vector, k: nat, p: nat)
    requires Laws(F) && |a| == k && p < k
    ensures Eliminate(F, a, Unit(k, p), p) == a
  {
    forall c | 0 <= c < k ensures Eliminate(F, a, Unit(k, p), p)[c] == a[c] {
      Zero(F, a[p]);
      Zero(F, a[c]);
    }
  }

  /** memcmp of the pivot row with a unit row. */
  method RowIsUnit(src: array<gf>, x: nat, idRow: array<gf>, k: nat, p: nat) returns (same: bool)
    requires x + k <= src.Length && idRow.Length == k && p < k && idRow[..] == Unit(k, p)
    ensures same <==> src[x..x + k] == Unit(k, p)
  {
    var ix := 0;
    while ix < k && src[x + ix] == idRow[ix]
      invariant 0 <= ix <= k && forall q :: 0 <= q < ix ==> src[x + q] == Unit(k, p)[q]
    {
      ix := ix + 1;
    }
    same := ix == k;
    if same {
      assert src[x..x + k] == Unit(k, p);
    } else {
      assert src[x..x + k][ix] == src[x + ix] != idRow[..][ix];
    }
  }

  /** The first n rows, except the pivot row p, eliminated by it. */
  ghost function EliminatedRows(F: Field, A: Matrix, k: nat, p: nat, n: nat): Matrix
    requires IsMatrix(A, k, k) && p < k
  {
    seq(k, r requires 0 <= r < k => if r < n && r != p then Eliminate(F, A[r], A[p], p) else A[r])
  }

  lemma NextRow(k: nat, r: nat)
    ensures r * k + k == (r + 1) * k
  {
  }

  method EliminateNext(g: Gf, src: array<gf>, k: nat, ix: nat, x: nat, p: nat, y: nat, ghost A: Matrix)
    requires g.Ready() && Separate(g, src) && IsMatrix(A, k, k)
    requires ix < k && p < k && x == ix * k && y == p * k
    requires Holds(src[..], 0, EliminatedRows(g.F, A, k, p, ix), k, k)
    modifies src
    ensures Holds(src[..], 0, EliminatedRows(g.F, A, k, p, ix + 1), k, k)
  {
    ghost var B := EliminatedRows(g.F, A, k, p, ix);
    if ix != p {
      RowsApart(k, ix, p);
      EliminateRow(g, src, k, ix, x, p, y, B);
      assert B[ix := Eliminate(g.F, B[ix], B[p], p)] == EliminatedRows(g.F, A, k, p, ix + 1);
    } else {
      assert B == EliminatedRows(g.F, A, k, p, ix + 1);
    }
  }

  /** Removes multiples of the pivot row from all other rows, unless it is a unit row. */
  method EliminateAll(g: Gf, src: array<gf>, k: nat, p: nat, y: nat, idRow: array<gf>, ghost A: Matrix)
    requires g.Ready() && Separate(g, src) && src != idRow
    requires Holds(src[..], 0, A, k, k) && p < k && y == p * k
    requires idRow.Length == k && idRow[..] == Unit(k, p)
    modifies src
    ensures Holds(src[..], 0, EliminatedRows(g.F, A, k, p, k), k, k)
  {
    HoldsRowAt(src[..], 0, A, k, k, p, y);
    var same := RowIsUnit(src, y, idRow, k, p);
    if !same {
      assert EliminatedRows(g.F, A, k, p, 0) == A;
      var ix, x := 0, 0;
      while ix < k
        invariant 0 <= ix <= k && x == ix * k
        invariant Holds(src[..], 0, EliminatedRows(g.F, A, k, p, ix), k, k)
      {
        EliminateNext(g, src, k, ix, x, p, y, A);
        NextRow(k, ix);
        x := x + k;
        ix := ix + 1;
      }
    } else {
      forall r | 0 <= r < k ensures EliminatedRows(g.F, A, k, p, k)[r] == A[r] { EliminateByUnit(g.F, A[r], k, p); }
      assert EliminatedRows(g.F, A, k, p, k) == A;
    }
  }

  /** One column of the main loop, once its pivot is in place. */
  method PivotStep(g: Gf, src: array<gf>, k: nat, p: nat, idRow: array<gf>, ghost A: Matrix)
    requires g.Ready() && Separate(g, src) && src != idRow && Separate(g, idRow)
    requires Holds(src[..], 0, A, k, k) && p < k && A[p][p] != 0
    requires idRow.Length == k && idRow[..] == Zeros(k)
    modifies src, idRow
    ensures Holds(src[..], 0, Pivot(g.F, A, p, k), k, k) && idRow[..] == Zeros(k)
  {
    ScaleRow(g, src, k, p, A);
    ghost var b := PivotRow(g.F, A[p], p);
    ghost var B := A[p := b];
    idRow[p] := 1;
    assert idRow[..] == Unit(k, p);
    EliminateAll(g, src, k, p, p * k, idRow, B);
    assert EliminatedRows(g.F, B, k, p, k) == Pivot(g.F, A, p, k);
    idRow[p] := 0;
    assert idRow[..] == Zeros(k);
  }

  // ---------- the pivot search ----------

  ghost predicate Marks(ipiv: seq<nat>, piv: seq<bool>) {
    |ipiv| == |piv| && forall i :: 0 <= i < |piv| ==> ipiv[i] == if piv[i] then 1 else 0
  }

  /** The diagonal first, then every unused row and column; some entry is found. */
  method FindPivot(src: array<gf>, k: nat, ipiv: array<nat>, col: nat, ghost A: Matrix, ghost piv: seq<bool>)
      returns (irow: nat, icol: nat)
    requires Holds(src[..], 0, A, k, k) && col < k && |piv| == k
    requires Marks(ipiv[..], piv)
    requires exists r, c :: 0 <= r < k && 0 <= c < k && !piv[r] && !piv[c] && A[r][c] != 0
    ensures irow < k && icol < k && !piv[irow] && !piv[icol] && A[irow][icol] != 0
  {
    assert forall r, c :: 0 <= r < k && 0 <= c < k ==> At(0, k, r, c) < src.Length && src[At(0, k, r, c)] == A[r][c];
    if ipiv[col] != 1 && src[At(0, k, col, col)] != 0 {
      return col, col;
    }
    irow, icol := 0, 0;
    var row := 0;
    while row < k
      invariant 0 <= row <= k
      invariant forall r, c :: 0 <= r < row && 0 <= c < k && !piv[r] && !piv[c] ==> A[r][c] == 0
    {
      if ipiv[row] != 1 {
        var ix := 0;
        while ix < k
          invariant 0 <= ix <= k
          invariant forall c :: 0 <= c < ix && !piv[c] ==> A[row][c] == 0
        {
          if ipiv[ix] == 0 {
            if src[At(0, k, row, ix)] != 0 {
              return row, ix;
            }
          } else {
            assert ipiv[ix] <= 1;
          }
          ix := ix + 1;
        }
      }
      row := row + 1;
    }
    assert false;
  }

  // ---------- _invert_mat ----------

  /** The row permutation after n of the recorded exchanges. */
  ghost function Exchanges(indxr: seq<nat>, indxc: seq<nat>, k: nat, n: nat): (yi: Order)
    requires n <= |indxr| == |indxc| && forall i :: 0 <= i < n ==> indxr[i] < k && indxc[i] < k
    ensures InRange(yi, k)
  {
    if n == 0 then Identity(k) else Swap(Exchanges(indxr, indxc, k, n - 1), indxr[n - 1], indxc[n - 1])
  }

  lemma {:induction false} ExchangesPrefix(r: seq<nat>, c: seq<nat>, r': seq<nat>, c': seq<nat>, k: nat, n: nat)
    requires n <= |r| == |c| && n <= |r'| == |c'|
    requires forall i :: 0 <= i < n ==> r[i] == r'[i] < k && c[i] == c'[i] < k
    ensures Exchanges(r, c, k, n) == Exchanges(r', c', k, n)
  {
    if n > 0 { ExchangesPrefix(r, c, r', c', k, n - 1); }
  }

  /** The state of the main loop after n columns. */
  ghost predicate Progress(F: Field, M: Matrix, A: Matrix, piv: seq<bool>, ipiv: seq<nat>,
                           indxr: seq<nat>, indxc: seq<nat>, k: nat, n: nat) {
    && n <= k && |indxr| == k && |indxc| == k
    && (forall i :: 0 <= i < n ==> indxr[i] < k && indxc[i] < k)
    && Exchanged(F, M, A, piv, Exchanges(indxr, indxc, k, n), k)
    && Marks(ipiv, piv) && CountTrue(piv, k) == n
  }

  ghost function CountTrue(piv: seq<bool>, n: nat): nat
    requires n <= |piv|
  {
    if n == 0 then 0 else CountTrue(piv, n - 1) + if piv[n - 1] then 1 else 0
  }

  lemma {:induction false} CountUnset(piv: seq<bool>, n: nat)
    requires n <= |piv| && CountTrue(piv, n) < n
    ensures exists c :: 0 <= c < n && !piv[c]
  {
    if piv[n - 1] { CountUnset(piv, n - 1); }
  }

  lemma {:induction false} CountBound(piv: seq<bool>, n: nat)
    requires n <= |piv|
    ensures CountTrue(piv, n) <= n
    ensures CountTrue(piv, n) == n ==> forall c :: 0 <= c < n ==> piv[c]
  {
    if n > 0 { CountBound(piv, n - 1); }
  }

  lemma {:induction false} CountSet(piv: seq<bool>, n: nat, p: nat)
    requires n <= |piv| && p < |piv| && !piv[p]
    ensures CountTrue(piv[p := true], n) == CountTrue(piv, n) + if p < n then 1 else 0
  {
    if n > 0 { CountSet(piv, n - 1, p); }
  }

  lemma PivotAvailable(F: Field, M: Matrix, A: Matrix, piv: seq<bool>, ipiv: seq<nat>,
                       indxr: seq<nat>, indxc: seq<nat>, k: nat, n: nat)
    requires Laws(F) && NonSingular(F, M, k) && Progress(F, M, A, piv, ipiv, indxr, indxc, k, n) && n < k
    ensures exists r, c :: 0 <= r < k && 0 <= c < k && !piv[r] && !piv[c] && A[r][c] != 0
  {
    CountUnset(piv, k);
    var c0: nat :| c0 < k && !piv[c0];
    PivotExists(F, M, A, piv, Exchanges(indxr, indxc, k, n), k, c0);
  }

  /** Recording a row exchange and its pivot. */
  lemma ProgressStep(F: Field, M: Matrix, A: Matrix, piv: seq<bool>, ipiv: seq<nat>,
                     indxr: seq<nat>, indxc: seq<nat>, k: nat, n: nat, irow: nat, icol: nat)
    requires Laws(F) && Progress(F, M, A, piv, ipiv, indxr, indxc, k, n) && n < k
    requires irow < k && icol < k && !piv[irow] && !piv[icol] && A[irow][icol] != 0
    ensures Swap(A, irow, icol)[icol][icol] != 0
    ensures Progress(F, M, Pivot(F, Swap(A, irow, icol), icol, k), piv[icol := true], ipiv[icol := 1],
                     indxr[n := irow], indxc[n := icol], k, n + 1)
  {
    var yi := Exchanges(indxr, indxc, k, n);
    ExchangeSwap(F, M, A, piv, yi, k, irow, icol);
    ExchangePivot(F, M, Swap(A, irow, icol), piv, Swap(yi, irow, icol), k, icol);
    ExchangesPrefix(indxr, indxc, indxr[n := irow], indxc[n := icol], k, n);
    CountSet(piv, k, icol);
  }

  /** One turn of the main loop: find a pivot, bring it to the diagonal, eliminate. */
  method OneColumn(g: Gf, src: array<gf>, k: nat, col: nat, ipiv: array<nat>, indxr: array<nat>, indxc: array<nat>,
                   idRow: array<gf>, ghost M: Matrix, ghost A: Matrix, ghost piv: seq<bool>)
      returns (icol: nat, ghost A': Matrix)
    requires g.Ready() && Separate(g, src) && Separate(g, idRow) && src != idRow
    requires ipiv != indxr && ipiv != indxc && indxr != indxc
    requires col < k && idRow.Length == k && idRow[..] == Zeros(k)
    requires Holds(src[..], 0, A, k, k) && NonSingular(g.F, M, k)
    requires Progress(g.F, M, A, piv, ipiv[..], indxr[..], indxc[..], k, col)
    modifies src, ipiv, indxr, indxc, idRow
    ensures icol < |piv| && idRow[..] == Zeros(k) && Holds(src[..], 0, A', k, k)
    ensures Progress(g.F, M, A', piv[icol := true], ipiv[..], indxr[..], indxc[..], k, col + 1)
  {
    ghost var ip, ir, ic := ipiv[..], indxr[..], indxc[..];
    PivotAvailable(g.F, M, A, piv, ip, ir, ic, k, col);
    var irow;
    irow, icol := FindPivot(src, k, ipiv, col, A, piv);
    ProgressStep(g.F, M, A, piv, ip, ir, ic, k, col, irow, icol);
    A' := Pivot(g.F, Swap(A, irow, icol), icol, k);
    ipiv[icol] := ipiv[icol] + 1;
    SwapRows(src, k, irow, icol, A);
    indxr[col] := irow;
    indxc[col] := icol;
    PivotStep(g, src, k, icol, idRow, Swap(A, irow, icol));
    assert ipiv[..] == ip[icol := 1] && indxr[..] == ir[col := irow] && indxc[..] == ic[col := icol];
  }

  method MainLoop(g: Gf, src: array<gf>, k: nat, ghost M: Matrix)
      returns (indxr: array<nat>, indxc: array<nat>, ghost A: Matrix)
    requires g.Ready() && Separate(g, src)
    requires Holds(src[..], 0, M, k, k) && NonSingular(g.F, M, k)
    modifies src
    ensures fresh(indxr) && fresh(indxc) && indxr.Length == k && indxc.Length == k
    ensures forall i :: 0 <= i < k ==> indxr[i] < k && indxc[i] < k
    ensures Holds(src[..], 0, A, k, k) && Solved(g.F, M, A, Exchanges(indxr[..], indxc[..], k, k), k)
  {
    indxr, indxc := new nat[k], new nat[k];
    var ipiv := new nat[k](i => 0);
    var idRow := new gf[k](i => 0);
    assert idRow[..] == Zeros(k);
    ghost var piv := seq(k, i => false);
    A := M;
    ExchangeStart(g.F, M, k);
    CountFalse(piv, k);
    for col := 0 to k
      invariant idRow[..] == Zeros(k) && Holds(src[..], 0, A, k, k)
      invariant Progress(g.F, M, A, piv, ipiv[..], indxr[..], indxc[..], k, col)
    {
      var icol;
      icol, A := OneColumn(g, src, k, col, ipiv, indxr, indxc, idRow, M, A, piv);
      piv := piv[icol := true];
    }
    CountBound(piv, k);
    AllPivoted(g.F, M, A, piv, Exchanges(indxr[..], indxc[..], k, k), k);
  }

  lemma {:induction false} CountFalse(piv: seq<bool>, n: nat)
    requires n <= |piv| && forall i :: 0 <= i < |piv| ==> !piv[i]
    ensures CountTrue(piv, n) == 0
  {
    if n > 0 { CountFalse(piv, n - 1); }
  }

  /** Swaps two columns, row by row. */
  method SwapColumnsInPlace(src: array<gf>, k: nat, i: nat, j: nat, ghost A: Matrix)
    requires Holds(src[..], 0, A, k, k) && i < k && j < k
    modifies src
    ensures Holds(src[..], 0, SwapColumns(A, i, j, k), k, k)
  {
    ghost var s := src[..];
    var row, x := 0, 0;
    while row < k
      invariant 0 <= row <= k && x == row * k && src.Length == |s|
      invariant Holds(src[..], 0, SwapSomeColumns(A, i, j, k, row), k, k)
    {
      SwapInRow(src, k, row, x, i, j, SwapSomeColumns(A, i, j, k, row));
      assert SwapSomeColumns(A, i, j, k, row)[row := Swap(SwapSomeColumns(A, i, j, k, row)[row], i, j)]
          == SwapSomeColumns(A, i, j, k, row + 1);
      NextRow(k, row);
      x := x + k;
      row := row + 1;
    }
    assert SwapSomeColumns(A, i, j, k, k) == SwapColumns(A, i, j, k);
  }

  ghost function SwapSomeColumns(A: Matrix, i: nat, j: nat, k: nat, n: nat): Matrix
    requires IsMatrix(A, k, k) && i < k && j < k
  {
    seq(k, r requires 0 <= r < k => if r < n then Swap(A[r], i, j) else A[r])
  }

  method SwapInRow(src: array<gf>, k: nat, r: nat, x: nat, i: nat, j: nat, ghost A: Matrix)
    requires Holds(src[..], 0, A, k, k) && r < k && x == r * k && i < k && j < k
    modifies src
    ensures Holds(src[..], 0, A[r := Swap(A[r], i, j)], k, k)
  {
    ghost var s := src[..];
    HoldsRowAt(s, 0, A, k, k, r, x);
    assert s[x + i] == s[x..x + k][i] && s[x + j] == s[x..x + k][j];
    assert forall q {:trigger s[q]} :: x <= q < x + k ==> s[q] == s[x..x + k][q - x];
    var tmp := src[x + i];
    src[x + i] := src[x + j];
    src[x + j] := tmp;
    HoldsRow(s, src[..], 0, A, k, k, r, x, Swap(A[r], i, j));
  }

  /** Undoes one recorded exchange on the columns. */
  method UnscrambleColumn(g: Gf, src: array<gf>, k: nat, i: nat, j: nat, ghost M: Matrix, ghost B: Matrix,
                          ghost yi: Order)
      returns (ghost B': Matrix)
    requires Laws(g.F) && i < k && j < k
    requires Holds(src[..], 0, B, k, k) && Solved(g.F, M, B, yi, k)
    modifies src
    ensures Holds(src[..], 0, B', k, k) && Solved(g.F, M, B', Swap(yi, i, j), k)
  {
    UnscrambleStep(g.F, M, B, yi, k, i, j);
    B' := SwapColumns(B, i, j, k);
    if i != j {
      SwapColumnsInPlace(src, k, i, j, B);
    } else {
      assert forall r :: 0 <= r < k ==> B'[r] == B[r];
      assert B' == B;
    }
  }

  /** Swapping the same two entries twice. */
  lemma SwapTwice(s: Order, i: nat, j: nat)
    requires i < |s| && j < |s|
    ensures Swap(Swap(s, i, j), i, j) == s
  {
  }

  method UnscrambleNext(g: Gf, src: array<gf>, k: nat, r: nat, c: nat, ghost ir: seq<nat>, ghost ic: seq<nat>,
                        ghost col: nat,
                        ghost M: Matrix, ghost B: Matrix) returns (ghost B': Matrix)
    requires Laws(g.F) && 0 < col <= k == |ir| == |ic| && r == ir[col - 1] && c == ic[col - 1]
    requires forall i :: 0 <= i < k ==> ir[i] < k && ic[i] < k
    requires Holds(src[..], 0, B, k, k) && Solved(g.F, M, B, Exchanges(ir, ic, k, col), k)
    modifies src
    ensures Holds(src[..], 0, B', k, k) && Solved(g.F, M, B', Exchanges(ir, ic, k, col - 1), k)
  {
    B' := UnscrambleColumn(g, src, k, r, c, M, B, Exchanges(ir, ic, k, col));
    SwapTwice(Exchanges(ir, ic, k, col - 1), ir[col - 1], ic[col - 1]);
  }

  /** _invert_mat: afterwards src holds the inverse of the nonsingular matrix it held before. */
  method InvertMat(g: Gf, src: array<gf>, k: nat, ghost M: Matrix) returns (ghost B: Matrix)
    requires g.Ready() && Separate(g, src)
    requires Holds(src[..], 0, M, k, k) && NonSingular(g.F, M, k)
    modifies src
    ensures Holds(src[..], 0, B, k, k) && IsInverse(g.F, B, M, k)
  {
    var indxr, indxc;
    indxr, indxc, B := MainLoop(g, src, k, M);
    ghost var ir, ic := indxr[..], indxc[..];
    var col := k;
    while col > 0
      invariant 0 <= col <= k && indxr[..] == ir && indxc[..] == ic
      invariant Holds(src[..], 0, B, k, k) && Solved(g.F, M, B, Exchanges(ir, ic, k, col), k)
    {
      B := UnscrambleNext(g, src, k, indxr[col - 1], indxc[col - 1], ir, ic, col, M, B);
      col := col - 1;
    }
    Unscrambled(g.F, M, B, k);
  }
}
