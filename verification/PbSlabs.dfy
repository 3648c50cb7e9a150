/** The slabs that hold scanned members: the first has room for sixteen, each next one for twice as
    many as the one before. */
module PbSlabs {
  import opened Options
  import opened PbMessage
  import opened PbUnpack

  const MAX_SLAB: nat := 22

  function Exp2(k: nat): (r: nat)
    ensures r > 0
  {
    if k == 0 then 1 else 2 * Exp2(k - 1)
  }

  lemma {:induction false} Exp2Add(j: nat, k: nat, a: nat, b: nat)
    requires Exp2(j) == a && Exp2(k) == b
    ensures Exp2(j + k) == a * b
    decreases k
  {
    if k > 0 {
      Exp2Add(j, k - 1, a, Exp2(k - 1));
      assert 2 * (a * Exp2(k - 1)) == a * b;
    }
  }

  function Room(i: nat): nat { 16 * Exp2(i) }

  /** The number of members in the first i slabs when they are full. */
  function Base(i: nat): nat { 16 * (Exp2(i) - 1) }

  /** All slabs together hold MAX_MEMBERS. */
  lemma AllRoom()
    ensures Base(MAX_SLAB + 1) == MAX_MEMBERS
  {
    assert Exp2(3) == 8;
    Exp2Add(3, 3, 8, 8);
    Exp2Add(6, 6, 64, 64);
    Exp2Add(12, 6, 4096, 64);
    Exp2Add(18, 3, 262144, 8);
    assert Exp2(2) == 4;
    Exp2Add(21, 2, 2097152, 4);
  }

  lemma {:induction false} BaseGrows(i: nat, j: nat)
    requires i < j
    ensures Base(i) + Room(i) <= Base(j)
    decreases j
  {
    if i < j - 1 { BaseGrows(i, j - 1); }
  }

  const NOTHING: Scanned := Scanned(0, 0, None, 0, [])

  class Slabs {
    var slabs: seq<array<Scanned>>
    var which: nat
    var inSlab: nat
    /** The members in the order in which they were added. */
    ghost var contents: seq<Scanned>

    ghost predicate Shape()
      reads this
    {
      && which <= MAX_SLAB && |slabs| == which + 1 && inSlab <= Room(which)
      && |contents| == Base(which) + inSlab
      && (forall i :: 0 <= i < |slabs| ==> slabs[i].Length == Room(i))
      && (forall i, j :: 0 <= i < j < |slabs| ==> slabs[i] != slabs[j])
    }

    /** How many members slab i holds. */
    function Used(i: nat): nat
      reads this
    {
      if i == which then inSlab else Room(i)
    }

    ghost predicate Holds(i: nat, j: nat)
      reads this, slabs
      requires Shape() && i <= which && j < Used(i)
    {
      Base(i) + j < |contents| && slabs[i][j] == contents[Base(i) + j]
    }

    ghost predicate Valid()
      reads this, slabs
    {
      Shape() && forall i, j {:trigger Holds(i, j)} :: 0 <= i <= which && 0 <= j < Used(i) ==> Holds(i, j)
    }

    constructor ()
      ensures Valid() && contents == [] && fresh(slabs)
    {
      var first := new Scanned[16](_ => NOTHING);
      slabs, which, inSlab, contents := [first], 0, 0, [];
    }

    /** Takes a member, in a new slab if the current one is full; false if all slabs are. */
    method Add(m: Scanned) returns (ok: bool)
      requires Valid()
      modifies this, slabs
      ensures Valid() && (forall i :: 0 <= i < |slabs| ==> slabs[i] in old(slabs) || fresh(slabs[i]))
      ensures ok <==> |old(contents)| < MAX_MEMBERS
      ensures contents == if ok then old(contents) + [m] else old(contents)
    {
      AllRoom();
      ok := true;
      if inSlab == Room(which) {
        if which == MAX_SLAB { return false; }
        NextSlab();
      }
      if which < MAX_SLAB { BaseGrows(which, MAX_SLAB + 1); }
      Put(m);
    }

    method NextSlab()
      requires Valid() && inSlab == Room(which) && which < MAX_SLAB
      modifies this
      ensures Valid() && contents == old(contents) && inSlab < Room(which) && which == old(which) + 1
      ensures |slabs| == |old(slabs)| + 1 && slabs[..|old(slabs)|] == old(slabs) && fresh(slabs[|old(slabs)|])
    {
      var size := Room(which + 1);
      var slab := new Scanned[size](_ => NOTHING);
      slabs := slabs + [slab];
      which, inSlab := which + 1, 0;
      forall i, j {:trigger Holds(i, j)} | 0 <= i <= which && 0 <= j < Used(i) ensures Holds(i, j) {
        assert i < which;
        assert old(Holds(i, j));
      }
    }

    method Put(m: Scanned)
      requires Valid() && inSlab < Room(which)
      modifies this`inSlab, this`contents, slabs[which]
      ensures Valid() && contents == old(contents) + [m]
    {
      slabs[which][inSlab] := m;
      inSlab := inSlab + 1;
      contents := contents + [m];
      forall i, j {:trigger Holds(i, j)} | 0 <= i <= which && 0 <= j < Used(i) ensures Holds(i, j) {
        if i < which { BaseGrows(i, which); }
        if !(i == which && j == inSlab - 1) { assert old(Holds(i, j)); }
      }
    }

    /** Reading slab after slab gives the members in the order in which they were added. */
    method ReadAll() returns (ms: seq<Scanned>)
      requires Valid()
      ensures ms == contents
    {
      ms := [];
      for i := 0 to which + 1
        invariant i <= which ==> Base(i) <= |contents| && ms == contents[..Base(i)]
        invariant i == which + 1 ==> ms == contents
      {
        if i < which { BaseGrows(i, which); }
        var max := if i == which then inSlab else Room(i);
        for j := 0 to max
          invariant Base(i) + max <= |contents| && ms == contents[..Base(i) + j]
        {
          assert Holds(i, j);
          ms := ms + [slabs[i][j]];
        }
      }
    }
  }
}
