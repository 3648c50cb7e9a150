/** The table that finds a field by its tag: ranges of consecutive tags, with a sentinel at the end. */
module PbRanges {
  /** A range starts at a tag; orig is the number of fields before it. */
  datatype IntRange = IntRange(start: int, orig: nat)

  function Size(rs: seq<IntRange>, i: nat): int
    requires i + 1 < |rs|
  {
    rs[i + 1].orig - rs[i].orig
  }

  /** n ranges in order, apart from each other and not empty, and the sentinel. */
  ghost predicate TableOk(rs: seq<IntRange>, n: nat) {
    && |rs| == n + 1 && rs[0].orig == 0
    && (forall i :: 0 <= i < n ==> Size(rs, i) > 0)
    && (forall i :: 0 <= i < n - 1 ==> rs[i].start + Size(rs, i) <= rs[i + 1].start)
  }

  /** The tags of the first n ranges, in the order of their fields. */
  function Expanded(rs: seq<IntRange>, n: nat): (r: seq<int>)
    requires n < |rs| && forall i :: 0 <= i < n ==> Size(rs, i) > 0
    ensures |r| == rs[n].orig - rs[0].orig
  {
    if n == 0 then [] else Expanded(rs, n - 1) + seq(Size(rs, n - 1), k => rs[n - 1].start + k)
  }

  predicate Inside(rs: seq<IntRange>, i: nat, v: int)
    requires i + 1 < |rs|
  {
    rs[i].start <= v < rs[i].start + Size(rs, i)
  }

  lemma {:induction false} Ordered(rs: seq<IntRange>, n: nat, i: nat, j: nat)
    requires TableOk(rs, n) && i < j < n
    ensures rs[i].start + Size(rs, i) <= rs[j].start
    decreases j
  {
    if i < j - 1 { Ordered(rs, n, i, j - 1); }
  }

  /** Inside range i, the expanded table has the value at its place in the range. */
  lemma {:induction false} ExpandedAt(rs: seq<IntRange>, n: nat, m: nat, i: nat, k: nat)
    requires TableOk(rs, n) && i < m <= n && k < Size(rs, i)
    ensures rs[i].orig + k < |Expanded(rs, m)| && Expanded(rs, m)[rs[i].orig + k] == rs[i].start + k
    decreases m
  {
    OrigGrows(rs, n, i, m - 1);
    if i < m - 1 {
      ExpandedAt(rs, n, m - 1, i, k);
    }
  }

  lemma {:induction false} OrigGrows(rs: seq<IntRange>, n: nat, i: nat, j: nat)
    requires TableOk(rs, n) && i <= j <= n
    ensures rs[i].orig <= rs[j].orig
    decreases j
  {
    if i < j {
      OrigGrows(rs, n, i, j - 1);
      assert Size(rs, j - 1) > 0;
    }
  }

  /** A value of the expanded table is inside some range. */
  lemma {:induction false} SomeRange(rs: seq<IntRange>, n: nat, m: nat, x: nat) returns (i: nat)
    requires TableOk(rs, n) && m <= n && x < |Expanded(rs, m)|
    ensures i < m && Inside(rs, i, Expanded(rs, m)[x])
    decreases m
  {
    if x < |Expanded(rs, m - 1)| {
      i := SomeRange(rs, n, m - 1, x);
    } else {
      i := m - 1;
    }
  }

  /** Where a linear scan of the expanded table finds the value; -1 if nowhere. */
  ghost predicate FoundAt(tags: seq<int>, v: int, r: int) {
    if r >= 0 then r < |tags| && tags[r] == v && forall x :: 0 <= x < r ==> tags[x] != v
    else r == -1 && v !in tags
  }

  lemma InsideFound(rs: seq<IntRange>, n: nat, i: nat, v: int)
    requires TableOk(rs, n) && i < n && Inside(rs, i, v)
    ensures FoundAt(Expanded(rs, n), v, v - rs[i].start + rs[i].orig)
  {
    var r := v - rs[i].start + rs[i].orig;
    ExpandedAt(rs, n, n, i, v - rs[i].start);
    forall x | 0 <= x < r ensures Expanded(rs, n)[x] != v {
      var j := SomeRange(rs, n, n, x);
      if Expanded(rs, n)[x] == v {
        if j < i { Ordered(rs, n, j, i); }
        if i < j { Ordered(rs, n, i, j); }
        SamePlace(rs, n, n, i, x);
      }
    }
  }

  /** A value inside range i stands only at its place in the range. */
  lemma {:induction false} SamePlace(rs: seq<IntRange>, n: nat, m: nat, i: nat, x: nat)
    requires TableOk(rs, n) && i < n && m <= n && x < |Expanded(rs, m)| && Inside(rs, i, Expanded(rs, m)[x])
    ensures x == Expanded(rs, m)[x] - rs[i].start + rs[i].orig
    decreases m
  {
    var v := Expanded(rs, m)[x];
    if x < |Expanded(rs, m - 1)| {
      SamePlace(rs, n, m - 1, i, x);
    } else {
      assert Inside(rs, m - 1, v);
      if i < m - 1 { Ordered(rs, n, i, m - 1); }
      if m - 1 < i { Ordered(rs, n, m - 1, i); }
    }
  }

  lemma NotFound(rs: seq<IntRange>, n: nat, v: int)
    requires TableOk(rs, n) && forall i :: 0 <= i < n ==> !Inside(rs, i, v)
    ensures FoundAt(Expanded(rs, n), v, -1)
  {
    if v in Expanded(rs, n) {
      var x :| 0 <= x < |Expanded(rs, n)| && Expanded(rs, n)[x] == v;
      var i := SomeRange(rs, n, n, x);
    }
  }

  /** int_range_lookup: the binary search ends and gives what a linear scan of the expanded table
      would. */
  method IntRangeLookup(n: nat, rs: seq<IntRange>, value: int) returns (r: int)
    requires TableOk(rs, n)
    ensures FoundAt(Expanded(rs, n), value, r)
  {
    if n == 0 {
      NotFound(rs, n, value);
      return -1;
    }
    var start, len := 0, n;
    while len > 1
      invariant 0 <= start && 0 <= len && start + len <= n
      invariant forall i :: 0 <= i < n && Inside(rs, i, value) ==> start <= i < start + len
      decreases len
    {
      var mid := start + len / 2;
      if value < rs[mid].start {
        forall i | mid <= i < n ensures !Inside(rs, i, value) { if mid < i { Ordered(rs, n, mid, i); } }
        len := mid - start;
      } else if value >= rs[mid].start + Size(rs, mid) {
        forall i | 0 <= i <= mid ensures !Inside(rs, i, value) { if i < mid { Ordered(rs, n, i, mid); } }
        len := start + len - (mid + 1);
        start := mid + 1;
      } else {
        InsideFound(rs, n, mid, value);
        return value - rs[mid].start + rs[mid].orig;
      }
    }
    if len > 0 {
      if rs[start].start <= value < rs[start].start + Size(rs, start) {
        InsideFound(rs, n, start, value);
        return value - rs[start].start + rs[start].orig;
      }
    }
    NotFound(rs, n, value);
    r := -1;
  }
}
