/** The list of free holes kept by a GPU virtual-address manager (amdgpu_vamgr.c), as a
    value: what splitting and coalescing do to the set of free addresses, and why the list
    is determined by that set. */
module VaHoles {

  datatype Hole = Hole(offset: nat, size: nat) {
    function End(): nat { offset + size }
  }

  ghost predicate In(h: Hole, a: int) {
    h.offset <= a < h.End()
  }

  /** Address `a` lies in some hole. */
  ghost predicate Free(holes: seq<Hole>, a: int) {
    exists i :: 0 <= i < |holes| && In(holes[i], a)
  }

  /** Hole `j` ends strictly below the start of hole `i`. */
  ghost predicate Above(holes: seq<Hole>, i: nat, j: nat)
    requires i < |holes| && j < |holes|
  {
    holes[j].End() < holes[i].offset
  }

  /** Non-empty holes inside [start, max), strictly descending and never adjacent. */
  ghost predicate Canonical(holes: seq<Hole>, start: nat, max: nat) {
    && (forall i :: 0 <= i < |holes| ==> holes[i].size > 0 && start <= holes[i].offset && holes[i].End() <= max)
    && (forall i, j :: 0 <= i < j < |holes| ==> Above(holes, i, j))
  }

  ghost predicate BlockFree(holes: seq<Hole>, a: int, size: nat) {
    forall x :: a <= x < a + size ==> Free(holes, x)
  }

  // ----- the free set determines the list

  /** Coalescing pays off: a free block lies in a single hole. */
  lemma BlockInOneHole(holes: seq<Hole>, start: nat, max: nat, a: int, size: nat) returns (i: nat)
    requires Canonical(holes, start, max) && size > 0 && BlockFree(holes, a, size)
    ensures i < |holes| && holes[i].offset <= a && a + size <= holes[i].End()
  {
    assert Free(holes, a);
    i :| 0 <= i < |holes| && In(holes[i], a);
    if holes[i].End() < a + size {
      var e := holes[i].End();
      assert Free(holes, e);
      var j :| 0 <= j < |holes| && In(holes[j], e);
      NeverTouching(holes, start, max, i, j);
    }
  }

  lemma NeverTouching(holes: seq<Hole>, start: nat, max: nat, i: nat, j: nat)
    requires Canonical(holes, start, max) && i < |holes| && j < |holes|
    ensures !In(holes[j], holes[i].End())
    ensures holes[i].offset > 0 ==> !In(holes[j], holes[i].offset - 1)
    ensures forall a :: In(holes[i], a) && In(holes[j], a) ==> i == j
  {
    if i < j { assert Above(holes, i, j); }
    if j < i { assert Above(holes, j, i); }
  }

  lemma TailCanonical(holes: seq<Hole>, start: nat, max: nat)
    requires Canonical(holes, start, max) && holes != []
    ensures Canonical(holes[1..], start, max)
    ensures forall a :: Free(holes[1..], a) <==> Free(holes, a) && !In(holes[0], a)
  {
    var t := holes[1..];
    forall i, j | 0 <= i < j < |t| ensures Above(t, i, j) {
      assert Above(holes, i + 1, j + 1);
    }
    forall a ensures Free(t, a) <==> Free(holes, a) && !In(holes[0], a) {
      if Free(t, a) {
        var i :| 0 <= i < |t| && In(t[i], a);
        assert In(holes[i + 1], a);
        NeverTouching(holes, start, max, i + 1, 0);
      }
      if Free(holes, a) && !In(holes[0], a) {
        var i :| 0 <= i < |holes| && In(holes[i], a);
        assert In(t[i - 1], a);
      }
    }
  }

  ghost predicate SameFree(g: seq<Hole>, h: seq<Hole>) {
    forall a :: Free(g, a) <==> Free(h, a)
  }

  lemma TopHole(g: seq<Hole>, h: seq<Hole>, start: nat, max: nat)
    requires Canonical(g, start, max) && Canonical(h, start, max) && SameFree(g, h) && g != []
    ensures h != [] && g[0].End() <= h[0].End()
  {
    var top := g[0].End() - 1;
    assert In(g[0], top);
    assert Free(g, top);
    var j :| 0 <= j < |h| && In(h[j], top);
    if j > 0 { assert Above(h, 0, j); }
  }

  lemma TopHoleStart(g: seq<Hole>, h: seq<Hole>, start: nat, max: nat)
    requires Canonical(g, start, max) && Canonical(h, start, max) && SameFree(g, h) && g != [] && h != []
    requires g[0].End() == h[0].End()
    ensures h[0].offset <= g[0].offset
  {
    if g[0].offset < h[0].offset {
      var a := h[0].offset - 1;
      assert In(g[0], a);
      assert Free(g, a);
      var j :| 0 <= j < |h| && In(h[j], a);
      NeverTouching(h, start, max, 0, j);
    }
  }

  /** The free addresses determine the hole list. */
  lemma {:induction false} CanonicalUnique(g: seq<Hole>, h: seq<Hole>, start: nat, max: nat)
    requires Canonical(g, start, max) && Canonical(h, start, max) && SameFree(g, h)
    ensures g == h
    decreases |g|
  {
    if g != [] {
      TopHole(g, h, start, max);
      TopHole(h, g, start, max);
      TopHoleStart(g, h, start, max);
      TopHoleStart(h, g, start, max);
      TailCanonical(g, start, max);
      TailCanonical(h, start, max);
      CanonicalUnique(g[1..], h[1..], start, max);
      assert g == [g[0]] + g[1..] && h == [h[0]] + h[1..];
    } else if h != [] {
      TopHole(h, g, start, max);
    }
  }

  // ----- editing the list

  /** Holes lo..hi replaced by `fill`. */
  function Replace(holes: seq<Hole>, lo: nat, hi: nat, fill: seq<Hole>): (r: seq<Hole>)
    requires lo <= hi <= |holes|
  {
    holes[..lo] + fill + holes[hi..]
  }

  /** Every hole of `fill` lies strictly between the holes kept on either side. */
  ghost predicate FitsBetween(holes: seq<Hole>, lo: nat, hi: nat, fill: seq<Hole>)
    requires lo <= hi <= |holes|
  {
    && (forall k, n :: 0 <= k < lo && 0 <= n < |fill| ==> fill[n].End() < holes[k].offset)
    && (forall k, n :: hi <= k < |holes| && 0 <= n < |fill| ==> holes[k].End() < fill[n].offset)
  }

  lemma ReplaceCanonical(holes: seq<Hole>, start: nat, max: nat, lo: nat, hi: nat, fill: seq<Hole>)
    requires Canonical(holes, start, max) && lo <= hi <= |holes|
    requires Canonical(fill, start, max) && FitsBetween(holes, lo, hi, fill)
    ensures Canonical(Replace(holes, lo, hi, fill), start, max)
  {
    var r := Replace(holes, lo, hi, fill);
    forall i, j | 0 <= i < j < |r| ensures Above(r, i, j) {
      var d := |fill| - (hi - lo);
      if i < lo {
        if j < lo { assert Above(holes, i, j); }
        else if j >= lo + |fill| { assert Above(holes, i, j - d); }
      } else if i < lo + |fill| {
        if j < lo + |fill| { assert Above(fill, i - lo, j - lo); }
      } else {
        assert Above(holes, i - d, j - d);
      }
    }
  }

  lemma ReplaceFree(holes: seq<Hole>, start: nat, max: nat, lo: nat, hi: nat, fill: seq<Hole>, a: int)
    requires Canonical(holes, start, max) && lo <= hi <= |holes|
    ensures Free(Replace(holes, lo, hi, fill), a) <==>
            Free(fill, a) || (Free(holes, a) && !Free(holes[lo..hi], a))
  {
    var r := Replace(holes, lo, hi, fill);
    assert forall n :: 0 <= n < |fill| ==> r[lo + n] == fill[n];
    assert forall k :: lo <= k < hi ==> holes[lo..hi][k - lo] == holes[k];
    if Free(r, a) && !Free(fill, a) {
      var i :| 0 <= i < |r| && In(r[i], a);
      var k := if i < lo then i else i - |fill| + (hi - lo);
      assert r[i] == holes[k];
      KeptHole(holes, start, max, lo, hi, k, a);
    }
    if Free(fill, a) {
      var n :| 0 <= n < |fill| && In(fill[n], a);
      assert r[lo + n] == fill[n];
    }
    if Free(holes, a) && !Free(holes[lo..hi], a) {
      var k :| 0 <= k < |holes| && In(holes[k], a);
      assert r[if k < lo then k else k + |fill| - (hi - lo)] == holes[k];
    }
  }

  lemma KeptHole(holes: seq<Hole>, start: nat, max: nat, lo: nat, hi: nat, k: nat, a: int)
    requires Canonical(holes, start, max) && lo <= hi <= |holes| && k < |holes| && !(lo <= k < hi) && In(holes[k], a)
    ensures !Free(holes[lo..hi], a)
  {
    forall n | 0 <= n < |holes[lo..hi]| ensures !In(holes[lo..hi][n], a) {
      NeverTouching(holes, start, max, k, lo + n);
    }
  }

  // ----- amdgpu_vamgr_subtract_hole

  /** What is left of hole `h` without [s, e): the four branches of the source. */
  function Remainder(h: Hole, s: nat, e: nat): (r: seq<Hole>)
    requires h.offset <= s <= e <= h.End()
  {
    if s > h.offset && e - h.offset < h.size then [Hole(e, h.size - (e - h.offset)), Hole(h.offset, s - h.offset)]
    else if s > h.offset then [Hole(h.offset, s - h.offset)]
    else if e - h.offset < h.size then [Hole(e, h.size - (e - h.offset))]
    else []
  }

  /** The list once [s, e) is taken out of hole `i`. */
  function Subtract(holes: seq<Hole>, i: nat, s: nat, e: nat): (r: seq<Hole>)
    requires i < |holes| && holes[i].offset <= s <= e <= holes[i].End()
  {
    Replace(holes, i, i + 1, Remainder(holes[i], s, e))
  }

  /** Whether the subtraction needs a new list node. */
  predicate Splits(h: Hole, s: nat, e: nat)
    requires h.offset <= s <= e <= h.End()
  {
    s > h.offset && e - h.offset < h.size
  }

  lemma RemainderFree(h: Hole, s: nat, e: nat, a: int)
    requires h.offset <= s < e <= h.End()
    ensures Free(Remainder(h, s, e), a) <==> In(h, a) && !(s <= a < e)
  {
    var r := Remainder(h, s, e);
    assert |r| > 0 ==> r[0] == if e < h.End() then Hole(e, h.End() - e) else Hole(h.offset, s - h.offset);
    assert |r| > 1 ==> r[1] == Hole(h.offset, s - h.offset);
  }

  lemma RemainderFits(holes: seq<Hole>, start: nat, max: nat, i: nat, s: nat, e: nat)
    requires Canonical(holes, start, max) && i < |holes| && holes[i].offset <= s < e <= holes[i].End()
    ensures Canonical(Remainder(holes[i], s, e), start, max)
    ensures FitsBetween(holes, i, i + 1, Remainder(holes[i], s, e))
  {
    var h := holes[i];
    forall k | 0 <= k < i ensures h.End() < holes[k].offset { assert Above(holes, k, i); }
    forall k | i < k < |holes| ensures holes[k].End() < h.offset { assert Above(holes, i, k); }
  }

  lemma SubtractCanonical(holes: seq<Hole>, start: nat, max: nat, i: nat, s: nat, e: nat)
    requires Canonical(holes, start, max) && i < |holes| && holes[i].offset <= s < e <= holes[i].End()
    ensures Canonical(Subtract(holes, i, s, e), start, max)
  {
    RemainderFits(holes, start, max, i, s, e);
    ReplaceCanonical(holes, start, max, i, i + 1, Remainder(holes[i], s, e));
  }

  lemma SubtractFree(holes: seq<Hole>, start: nat, max: nat, i: nat, s: nat, e: nat, a: int)
    requires Canonical(holes, start, max) && i < |holes| && holes[i].offset <= s < e <= holes[i].End()
    ensures Free(Subtract(holes, i, s, e), a) <==> Free(holes, a) && !(s <= a < e)
  {
    var h := holes[i];
    ReplaceFree(holes, start, max, i, i + 1, Remainder(h, s, e), a);
    RemainderFree(h, s, e, a);
    assert holes[i..i + 1] == [h];
    assert Free([h], a) <==> In(h, a) by { assert [h][0] == h; }
  }

  /** A request of size zero strictly inside a hole would split it into two adjacent holes;
      otherwise the list stays canonical. */
  lemma SubtractNothing(holes: seq<Hole>, start: nat, max: nat, i: nat, s: nat)
    requires Canonical(holes, start, max) && i < |holes| && holes[i].offset <= s <= holes[i].End()
    ensures Canonical(Subtract(holes, i, s, s), start, max) <==> !(holes[i].offset < s < holes[i].End())
  {
    var h, r := holes[i], Subtract(holes, i, s, s);
    if h.offset < s < h.End() {
      assert r[i] == Hole(s, h.End() - s) && r[i + 1] == Hole(h.offset, s - h.offset);
      assert !Above(r, i, i + 1);
    } else {
      assert r == holes;
    }
  }

  // ----- amdgpu_vamgr_free_va

  /** How many holes start at or above `va`. */
  ghost predicate SplitAt(holes: seq<Hole>, va: nat, k: nat) {
    && k <= |holes|
    && (forall i :: 0 <= i < k ==> holes[i].offset >= va)
    && (forall i :: k <= i < |holes| ==> holes[i].offset < va)
  }

  /** The hole above position `k` starts where the block ends. */
  predicate JoinsUpper(holes: seq<Hole>, k: nat, va: nat, size: nat)
    requires k <= |holes|
  {
    k > 0 && holes[k - 1].offset == va + size
  }

  /** The hole at position `k` ends where the block starts. */
  predicate JoinsLower(holes: seq<Hole>, k: nat, va: nat)
    requires k <= |holes|
  {
    k < |holes| && holes[k].End() == va
  }

  /** The list once the block is given back: grown, merged or extended by a new hole. */
  function GiveBack(holes: seq<Hole>, k: nat, va: nat, size: nat): (r: seq<Hole>)
    requires k <= |holes|
  {
    Replace(holes, MergeFrom(holes, k, va, size), MergeTo(holes, k, va), [Merged(holes, k, va, size)])
  }

  /** The holes from here, */
  function MergeFrom(holes: seq<Hole>, k: nat, va: nat, size: nat): (r: nat)
    requires k <= |holes|
    ensures r <= k
  {
    if JoinsUpper(holes, k, va, size) then k - 1 else k
  }

  /** up to here are merged with the block, */
  function MergeTo(holes: seq<Hole>, k: nat, va: nat): (r: nat)
    requires k <= |holes|
    ensures k <= r <= |holes|
  {
    if JoinsLower(holes, k, va) then k + 1 else k
  }

  /** into this one. */
  function Merged(holes: seq<Hole>, k: nat, va: nat, size: nat): Hole
    requires k <= |holes|
  {
    var bottom := if JoinsLower(holes, k, va) then holes[k].offset else va;
    var top := if JoinsUpper(holes, k, va, size) then holes[k - 1].End() else va + size;
    Hole(bottom, top - bottom)
  }

  lemma GiveBackBounds(holes: seq<Hole>, start: nat, max: nat, k: nat, va: nat, size: nat, i: nat)
    requires Canonical(holes, start, max) && SplitAt(holes, va, k) && size > 0 && i < |holes|
    requires forall a :: va <= a < va + size ==> !Free(holes, a)
    ensures i < k ==> va + size <= holes[i].offset
    ensures k <= i ==> holes[i].End() <= va
  {
    assert In(holes[i], holes[i].offset) && In(holes[i], holes[i].End() - 1);
    assert Free(holes, holes[i].offset);
    assert !Free(holes, va);
    assert !In(holes[i], va);
  }

  lemma GiveBackFits(holes: seq<Hole>, start: nat, max: nat, k: nat, va: nat, size: nat)
    requires Canonical(holes, start, max) && SplitAt(holes, va, k) && size > 0 && start <= va && va + size <= max
    requires forall a :: va <= a < va + size ==> !Free(holes, a)
    ensures Canonical([Merged(holes, k, va, size)], start, max)
    ensures FitsBetween(holes, MergeFrom(holes, k, va, size), MergeTo(holes, k, va), [Merged(holes, k, va, size)])
  {
    forall i | 0 <= i < |holes| ensures (i < k ==> va + size <= holes[i].offset) && (k <= i ==> holes[i].End() <= va) {
      GiveBackBounds(holes, start, max, k, va, size, i);
    }
    if k > 0 {
      forall i | 0 <= i < k - 1 ensures holes[k - 1].End() < holes[i].offset { assert Above(holes, i, k - 1); }
    }
    if k < |holes| {
      forall i | k < i < |holes| ensures holes[i].End() < holes[k].offset { assert Above(holes, k, i); }
    }
  }

  lemma GiveBackCanonical(holes: seq<Hole>, start: nat, max: nat, k: nat, va: nat, size: nat)
    requires Canonical(holes, start, max) && SplitAt(holes, va, k) && size > 0 && start <= va && va + size <= max
    requires forall a :: va <= a < va + size ==> !Free(holes, a)
    ensures Canonical(GiveBack(holes, k, va, size), start, max)
  {
    GiveBackFits(holes, start, max, k, va, size);
    ReplaceCanonical(holes, start, max, MergeFrom(holes, k, va, size), MergeTo(holes, k, va),
      [Merged(holes, k, va, size)]);
  }

  lemma GiveBackFree(holes: seq<Hole>, start: nat, max: nat, k: nat, va: nat, size: nat, a: int)
    requires Canonical(holes, start, max) && SplitAt(holes, va, k) && size > 0
    ensures Free(GiveBack(holes, k, va, size), a) <==> Free(holes, a) || va <= a < va + size
  {
    var m := [Merged(holes, k, va, size)];
    ReplaceFree(holes, start, max, MergeFrom(holes, k, va, size), MergeTo(holes, k, va), m, a);
    assert Free(m, a) <==> In(m[0], a);
    MergedHoles(holes, k, va, size, a);
  }

  /** The holes that are merged with the block. */
  lemma MergedHoles(holes: seq<Hole>, k: nat, va: nat, size: nat, a: int)
    requires k <= |holes|
    ensures Free(holes[MergeFrom(holes, k, va, size)..MergeTo(holes, k, va)], a) <==>
      (JoinsUpper(holes, k, va, size) && In(holes[k - 1], a)) || (JoinsLower(holes, k, va) && In(holes[k], a))
  {
    var lo, hi := MergeFrom(holes, k, va, size), MergeTo(holes, k, va);
    assert JoinsUpper(holes, k, va, size) ==> holes[lo..hi][0] == holes[k - 1];
    assert JoinsLower(holes, k, va) ==> holes[lo..hi][k - lo] == holes[k];
  }

  // ----- holes against reserved blocks

  /** A reserved stretch of addresses. */
  datatype Block = Block(va: nat, size: nat) {
    ghost predicate Covers(a: int) { va <= a < va + size }
  }

  ghost predicate Taken(live: set<Block>, a: int) {
    exists b :: b in live && b.Covers(a)
  }

  ghost predicate Apart(b: Block, c: Block) {
    b.va + b.size <= c.va || c.va + c.size <= b.va
  }

  /** Holes and reserved blocks exactly partition [start, max). */
  ghost predicate Partition(holes: seq<Hole>, live: set<Block>, start: nat, max: nat) {
    && (forall a :: start <= a < max ==> (Free(holes, a) <==> !Taken(live, a)))
    && (forall b :: b in live ==> b.size > 0 && start <= b.va && b.va + b.size <= max)
    && (forall b, c :: b in live && c in live && b != c ==> Apart(b, c))
  }

  /** Over the whole range and beyond, free means not taken. */
  lemma FreeIsNotTaken(holes: seq<Hole>, live: set<Block>, start: nat, max: nat, a: int)
    requires Canonical(holes, start, max) && Partition(holes, live, start, max)
    ensures Free(holes, a) <==> start <= a < max && !Taken(live, a)
  {
  }

  lemma TakePartition(holes: seq<Hole>, live: set<Block>, start: nat, max: nat, i: nat, s: nat, e: nat)
    requires Canonical(holes, start, max) && Partition(holes, live, start, max)
    requires i < |holes| && holes[i].offset <= s < e <= holes[i].End()
    ensures Canonical(Subtract(holes, i, s, e), start, max)
    ensures Block(s, e - s) !in live
    ensures Partition(Subtract(holes, i, s, e), live + {Block(s, e - s)}, start, max)
  {
    var n := Block(s, e - s);
    SubtractCanonical(holes, start, max, i, s, e);
    forall a | start <= a < max ensures Free(Subtract(holes, i, s, e), a) <==> !Taken(live + {n}, a) {
      SubtractFree(holes, start, max, i, s, e, a);
      TakenPlus(live, n, a);
    }
    assert In(holes[i], s);
    assert Free(holes, s);
    assert n.Covers(s);
    forall b | b in live ensures Apart(b, n) {
      var x := if b.va <= s then s else b.va;
      assert !(b.Covers(x) && n.Covers(x)) by {
        assert n.Covers(x) ==> In(holes[i], x);
        assert b.Covers(x) ==> Taken(live, x);
      }
    }
  }

  lemma TakenPlus(live: set<Block>, n: Block, a: int)
    ensures Taken(live + {n}, a) <==> Taken(live, a) || n.Covers(a)
  {
    assert n in live + {n};
    if Taken(live, a) {
      var b :| b in live && b.Covers(a);
      assert b in live + {n};
    }
  }

  lemma TakenMinus(live: set<Block>, n: Block, a: int)
    requires n in live && forall b, c :: b in live && c in live && b != c ==> Apart(b, c)
    ensures Taken(live - {n}, a) <==> Taken(live, a) && !n.Covers(a)
  {
    if Taken(live, a) && !n.Covers(a) {
      var b :| b in live && b.Covers(a);
      assert b in live - {n};
    }
    if Taken(live - {n}, a) {
      var b :| b in live - {n} && b.Covers(a);
      assert b in live;
      assert Apart(b, n);
    }
  }

  lemma ReservedNotFree(holes: seq<Hole>, live: set<Block>, start: nat, max: nat, n: Block)
    requires Partition(holes, live, start, max) && n in live
    ensures forall a :: n.va <= a < n.va + n.size ==> !Free(holes, a)
  {
    forall a | n.va <= a < n.va + n.size ensures !Free(holes, a) {
      assert n.Covers(a);
      assert Taken(live, a);
    }
  }

  lemma GiveBackPartition(holes: seq<Hole>, live: set<Block>, start: nat, max: nat, k: nat, n: Block)
    requires Canonical(holes, start, max) && Partition(holes, live, start, max)
    requires n in live && SplitAt(holes, n.va, k)
    ensures Canonical(GiveBack(holes, k, n.va, n.size), start, max)
    ensures Partition(GiveBack(holes, k, n.va, n.size), live - {n}, start, max)
  {
    ReservedNotFree(holes, live, start, max, n);
    GiveBackCanonical(holes, start, max, k, n.va, n.size);
    forall a | start <= a < max ensures Free(GiveBack(holes, k, n.va, n.size), a) <==> !Taken(live - {n}, a) {
      GiveBackFree(holes, start, max, k, n.va, n.size, a);
      TakenMinus(live, n, a);
    }
  }

  lemma FreeInRange(holes: seq<Hole>, start: nat, max: nat, a: int)
    requires Canonical(holes, start, max) && Free(holes, a)
    ensures start <= a < max
  {
  }

  /** The reserved blocks alone determine the hole list. */
  lemma HolesDetermined(g: seq<Hole>, h: seq<Hole>, live: set<Block>, start: nat, max: nat)
    requires Canonical(g, start, max) && Partition(g, live, start, max)
    requires Canonical(h, start, max) && Partition(h, live, start, max)
    ensures g == h
  {
    forall a ensures Free(g, a) <==> Free(h, a) {
      if Free(g, a) { FreeInRange(g, start, max, a); }
      if Free(h, a) { FreeInRange(h, start, max, a); }
    }
    CanonicalUnique(g, h, start, max);
  }
}
