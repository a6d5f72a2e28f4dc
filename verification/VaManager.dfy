/** The GPU virtual-address allocator of amdgpu_vamgr.c: search, allocation and release
    over the hole list, optimal and complete over all free addresses. */
module VaManager {
  import opened Arithmetic
  import opened VaHoles

  const U64: nat := 0x1_0000_0000_0000_0000
  const INVALID_VA: nat := U64 - 1
  const EINVAL: int := 22
  const ENOMEM: int := 12

  function Max(a: nat, b: nat): nat { if a > b then a else b }

  ghost predicate Aligned(a: int, alignment: nat)
    requires alignment > 0
  {
    a % alignment == 0
  }

  /** The ALIGN macro for a power-of-two alignment, and the padding of the bottom-up
      search: the least aligned value at or above `v`. */
  function AlignUp(v: nat, alignment: nat): (r: nat)
    requires alignment > 0
    ensures v <= r < v + alignment && Aligned(r, alignment)
  {
    var waste := v % alignment;
    AlignUpIsAligned(v, alignment);
    v + if waste != 0 then alignment - waste else 0
  }

  lemma AlignUpIsAligned(v: nat, alignment: nat)
    requires alignment > 0
    ensures v % alignment != 0 ==> Aligned(v + (alignment - v % alignment), alignment)
  {
    if v % alignment != 0 {
      DivModUnique(v + (alignment - v % alignment), v / alignment + 1, 0, alignment);
    }
  }

  lemma AlignUpZero(alignment: nat)
    requires alignment > 0
    ensures AlignUp(0, alignment) == 0
  {
  }

  lemma AlignUpLeast(v: nat, alignment: nat, x: nat)
    requires alignment > 0 && Aligned(x, alignment) && v <= x
    ensures AlignUp(v, alignment) <= x
  {
    var q, k := v / alignment, x / alignment;
    assert x == k * alignment;
    WholeMultiple(k - q, alignment);
    assert (k - q) * alignment == x - v + v % alignment;
  }

  /** The rounding of the top-down search: the greatest aligned value up to `v`. */
  function AlignDown(v: nat, alignment: nat): (r: nat)
    requires alignment > 0
    ensures v - alignment < r <= v && Aligned(r, alignment)
  {
    DivModUnique(v - v % alignment, v / alignment, 0, alignment);
    v - v % alignment
  }

  lemma AlignDownGreatest(v: nat, alignment: nat, x: nat)
    requires alignment > 0 && Aligned(x, alignment) && x <= v
    ensures x <= AlignDown(v, alignment)
  {
    var q, k := v / alignment, x / alignment;
    assert x == k * alignment;
    WholeMultiple(k - q, alignment);
    assert (k - q) * alignment == x - v + v % alignment;
  }

  // ----- candidate addresses

  /** The block fits inside hole `h`. */
  ghost predicate Inside(h: Hole, a: int, size: nat) {
    h.offset <= a && a + size <= h.End()
  }

  /** An aligned address whose whole block is free. */
  ghost predicate Candidate(holes: seq<Hole>, a: nat, size: nat, alignment: nat)
    requires alignment > 0
  {
    Aligned(a, alignment) && BlockFree(holes, a, size)
  }

  /** The best candidate: the least, or from the top the greatest. */
  ghost predicate Best(holes: seq<Hole>, a: nat, size: nat, alignment: nat, fromTop: bool)
    requires alignment > 0
  {
    && Candidate(holes, a, size, alignment)
    && forall x: nat :: Candidate(holes, x, size, alignment) ==> if fromTop then x <= a else a <= x
  }

  ghost predicate NoneFits(h: Hole, size: nat, alignment: nat)
    requires alignment > 0
  {
    forall x: nat :: Aligned(x, alignment) ==> !Inside(h, x, size)
  }

  /** The bottom-up test of one hole finds its least aligned place, or there is none; a place
      for nothing has to be an address of the hole. */
  lemma LowPlace(h: Hole, size: nat, alignment: nat)
    requires alignment > 0
    ensures var a := AlignUp(h.offset, alignment);
      if a >= h.End() || size > h.End() - a then NoneFits(h, Max(size, 1), alignment)
      else Inside(h, a, size) && forall x: nat :: Aligned(x, alignment) && Inside(h, x, size) ==> a <= x
  {
    var a := AlignUp(h.offset, alignment);
    forall x: nat | Aligned(x, alignment) && h.offset <= x ensures a <= x {
      AlignUpLeast(h.offset, alignment, x);
    }
  }

  /** The top-down test of one hole finds its greatest aligned place, or there is none. */
  lemma HighPlace(h: Hole, size: nat, alignment: nat)
    requires alignment > 0
    ensures if size > h.size then NoneFits(h, Max(size, 1), alignment)
      else
        var a := AlignDown(h.End() - size, alignment);
        if a < h.offset then NoneFits(h, Max(size, 1), alignment)
        else Inside(h, a, size) && forall x: nat :: Aligned(x, alignment) && Inside(h, x, size) ==> x <= a
  {
    if size <= h.size {
      var a := AlignDown(h.End() - size, alignment);
      forall x: nat | Aligned(x, alignment) && Inside(h, x, size) ensures x <= a {
        AlignDownGreatest(h.End() - size, alignment, x);
      }
    }
  }

  lemma InsideIsFree(holes: seq<Hole>, i: nat, a: int, size: nat)
    requires i < |holes| && Inside(holes[i], a, size)
    ensures BlockFree(holes, a, size)
  {
    forall x | a <= x < a + size ensures Free(holes, x) {
      assert In(holes[i], x);
    }
  }

  lemma LowIsBest(holes: seq<Hole>, start: nat, max: nat, i: nat, a: nat, size: nat, alignment: nat)
    requires Canonical(holes, start, max) && alignment > 0 && size > 0 && i < |holes|
    requires forall j :: i < j < |holes| ==> NoneFits(holes[j], size, alignment)
    requires Aligned(a, alignment) && Inside(holes[i], a, size)
    requires forall x: nat :: Aligned(x, alignment) && Inside(holes[i], x, size) ==> a <= x
    ensures Best(holes, a, size, alignment, false)
  {
    InsideIsFree(holes, i, a, size);
    forall x: nat | Candidate(holes, x, size, alignment) ensures a <= x {
      var j := BlockInOneHole(holes, start, max, x, size);
      assert Inside(holes[j], x, size);
      if j < i { assert Above(holes, j, i); }
    }
  }

  lemma HighIsBest(holes: seq<Hole>, start: nat, max: nat, i: nat, a: nat, size: nat, alignment: nat)
    requires Canonical(holes, start, max) && alignment > 0 && size > 0 && i < |holes|
    requires forall j :: 0 <= j < i ==> NoneFits(holes[j], size, alignment)
    requires Aligned(a, alignment) && Inside(holes[i], a, size)
    requires forall x: nat :: Aligned(x, alignment) && Inside(holes[i], x, size) ==> x <= a
    ensures Best(holes, a, size, alignment, true)
  {
    InsideIsFree(holes, i, a, size);
    forall x: nat | Candidate(holes, x, size, alignment) ensures x <= a {
      var j := BlockInOneHole(holes, start, max, x, size);
      assert Inside(holes[j], x, size);
      if i < j { assert Above(holes, i, j); }
    }
  }

  lemma NoCandidate(holes: seq<Hole>, start: nat, max: nat, size: nat, alignment: nat)
    requires Canonical(holes, start, max) && alignment > 0 && size > 0
    requires forall j :: 0 <= j < |holes| ==> NoneFits(holes[j], size, alignment)
    ensures forall x: nat :: !Candidate(holes, x, size, alignment)
  {
    forall x: nat ensures !Candidate(holes, x, size, alignment) {
      if Candidate(holes, x, size, alignment) {
        var j := BlockInOneHole(holes, start, max, x, size);
        assert Inside(holes[j], x, size);
      }
    }
  }

  // ----- the manager

  /** A block strictly inside a hole leaves two holes, which takes another list node. */
  ghost predicate SplitNeeded(holes: seq<Hole>, a: int, size: nat) {
    exists i :: 0 <= i < |holes| && holes[i].offset < a && a + size < holes[i].End()
  }

  /** What taking a block reports. */
  ghost function TakeCode(holes: seq<Hole>, a: int, size: nat, nodeAvailable: bool): int {
    if SplitNeeded(holes, a, size) && !nodeAvailable then -ENOMEM else 0
  }

  /** What a search reports: `base` 0 means no required address. */
  ghost predicate SearchResult(holes: seq<Hole>, base: nat, size: nat, alignment: nat, fromTop: bool,
                               nodeAvailable: bool, ret: int, va: nat)
    requires alignment > 0
  {
    if base % alignment != 0 then ret == -EINVAL
    else if base != 0 then
      if BlockFree(holes, base, size) then ret == TakeCode(holes, base, size, nodeAvailable) && va == base
      else ret == -ENOMEM
    else
      || (Best(holes, va, size, alignment, fromTop) && ret == TakeCode(holes, va, size, nodeAvailable))
      || (ret == -ENOMEM && forall x: nat :: !Candidate(holes, x, size, alignment))
  }

  /** What a request of size 0 does: it picks a hole and takes nothing out of it, which still
      splits the hole if the address is strictly inside. */
  ghost predicate TakesNothing(holes: seq<Hole>, after: seq<Hole>, base: nat, alignment: nat, nodeAvailable: bool,
      ret: int, va: nat)
    requires alignment > 0
  {
    if base % alignment != 0 then ret == -EINVAL && after == holes
    else
      || (exists i :: 0 <= i < |holes| && TakesAt(holes, after, base, nodeAvailable, ret, va, i))
      || (ret == -ENOMEM && after == holes && forall i :: 0 <= i < |holes| ==> Refused(holes[i], base, 0, alignment))
  }

  /** A hole that a search passes over. */
  ghost predicate Refused(h: Hole, base: nat, size: nat, alignment: nat)
    requires alignment > 0
  {
    if base != 0 then !Inside(h, base, size) else NoneFits(h, Max(size, 1), alignment)
  }

  /** The place a search takes in a hole. */
  ghost predicate Accepted(h: Hole, base: nat, size: nat, alignment: nat, fromTop: bool, a: nat)
    requires alignment > 0
  {
    && Inside(h, a, size)
    && if base != 0 then a == base
       else Aligned(a, alignment) && forall x: nat :: Aligned(x, alignment) && Inside(h, x, size) ==>
         if fromTop then x <= a else a <= x
  }

  method RoundUp(v: nat, align: nat) returns (r: nat)
    requires align > 0
    ensures r == AlignUp(v, align)
  {
    var waste := v % align;
    waste := if waste != 0 then align - waste else 0;
    r := v + waste;
  }

  method RoundDown(v: nat, align: nat) returns (r: nat)
    requires align > 0
    ensures r == AlignDown(v, align)
  {
    r := v - v % align;
  }

  /** The test of the bottom-up loop. */
  method PlaceUp(hole: Hole, size: nat, align: nat, base: nat) returns (fits: bool, offset: nat)
    requires align > 0
    ensures if fits then Accepted(hole, base, size, align, false, offset) else Refused(hole, base, size, align)
  {
    if base != 0 {
      return !(hole.offset > base || hole.End() < base + size), base;
    }
    offset := RoundUp(hole.offset, align);
    LowPlace(hole, size, align);
    fits := !(offset >= hole.End() || size > hole.End() - offset);
  }

  /** The test of the top-down loop. */
  method PlaceDown(hole: Hole, size: nat, align: nat, base: nat) returns (fits: bool, offset: nat)
    requires align > 0
    ensures if fits then Accepted(hole, base, size, align, true, offset) else Refused(hole, base, size, align)
  {
    if base != 0 {
      return !(hole.offset > base || hole.End() < base + size), base;
    }
    HighPlace(hole, size, align);
    if size > hole.size { return false, 0; }
    offset := RoundDown(hole.offset + hole.size - size, align);
    fits := !(offset < hole.offset);
  }

  ghost predicate TakesAt(holes: seq<Hole>, after: seq<Hole>, base: nat, nodeAvailable: bool, ret: int, va: nat, i: nat)
    requires i < |holes|
  {
    && Inside(holes[i], va, 0) && (base != 0 ==> va == base)
    && ret == (if Splits(holes[i], va, va) && !nodeAvailable then -ENOMEM else 0)
    && after == if ret == 0 then Subtract(holes, i, va, va) else holes
  }

  // ----- the reference: the set of live blocks

  /** Taking a block and giving back the block that an earlier operation took. */
  datatype Op =
    | Take(request: nat, wanted: nat, base: nat, fromTop: bool, node: bool)
    | Give(which: nat, node: bool)

  /** What an operation returned; operations a caller may not ask for return 1. */
  datatype Result = Result(ret: int, va: nat)

  ghost predicate FreeIn(live: set<Block>, start: nat, max: nat, a: int) {
    start <= a < max && !Taken(live, a)
  }

  /** A block comes back unless there is no node for a lone hole. */
  ghost function Without(live: set<Block>, start: nat, max: nat, b: Block, node: bool): set<Block> {
    if node || FreeIn(live, start, max, b.va - 1) || FreeIn(live, start, max, b.va + b.size) then live - {b} else live
  }

  ghost function BlockOf(op: Op, result: Result, alignment: nat): Block
    requires op.Take? && alignment > 0
  {
    Block(result.va, AlignUp(op.request, alignment))
  }

  ghost predicate TookBlock(ops: seq<Op>, results: seq<Result>, k: nat) {
    k < |ops| && k < |results| && ops[k].Take? && results[k].ret == 0
  }

  /** The operations whose blocks have been given back; a block is given back once. */
  ghost function GivenAfter(ops: seq<Op>, results: seq<Result>, n: nat): set<nat>
    requires n <= |ops|
  {
    if n == 0 then {}
    else
      var given := GivenAfter(ops, results, n - 1);
      if ops[n - 1].Give? && ops[n - 1].which < n - 1 && TookBlock(ops, results, ops[n - 1].which)
        then given + {ops[n - 1].which} else given
  }

  /** The live blocks after the first `n` operations, given what they returned. */
  ghost function LiveAfter(live: set<Block>, start: nat, max: nat, alignment: nat, ops: seq<Op>, results: seq<Result>,
      n: nat): set<Block>
    requires n <= |ops| && n <= |results| && alignment > 0
  {
    if n == 0 then live
    else
      var before := LiveAfter(live, start, max, alignment, ops, results, n - 1);
      match ops[n - 1]
      case Take(_, _, _, _, _) =>
        if results[n - 1].ret == 0 then before + {BlockOf(ops[n - 1], results[n - 1], alignment)} else before
      case Give(k, node) =>
        if k < n - 1 && TookBlock(ops, results, k) && k !in GivenAfter(ops, results, n - 1)
          then Without(before, start, max, BlockOf(ops[k], results[k], alignment), node) else before
  }

  lemma {:induction false} LiveAfterPrefix(live: set<Block>, start: nat, max: nat, alignment: nat, ops: seq<Op>,
      results: seq<Result>, more: Result, n: nat)
    requires n <= |ops| && n <= |results| && alignment > 0
    ensures LiveAfter(live, start, max, alignment, ops, results + [more], n) ==
      LiveAfter(live, start, max, alignment, ops, results, n)
    ensures GivenAfter(ops, results + [more], n) == GivenAfter(ops, results, n)
  {
    if n > 0 { LiveAfterPrefix(live, start, max, alignment, ops, results, more, n - 1); }
  }

  ghost predicate HolesFor(holes: seq<Hole>, live: set<Block>, start: nat, max: nat) {
    Canonical(holes, start, max) && Partition(holes, live, start, max)
  }

  /** A search reports what it must for the holes that the live blocks leave. */
  ghost predicate Answers(op: Op, result: Result, live: set<Block>, start: nat, max: nat, alignment: nat)
    requires op.Take? && alignment > 0
  {
    forall holes :: HolesFor(holes, live, start, max) ==>
      SearchResult(holes, op.base, AlignUp(op.request, alignment), Max(op.wanted, alignment), op.fromTop, op.node,
        result.ret, result.va)
  }

  class VaMgr {
    const vaMax: nat
    const alignment: nat
    ghost const start: nat
    var holes: seq<Hole>
    ghost var live: set<Block>

    /** Holes and reserved blocks partition the range; an empty range keeps one empty hole. */
    ghost predicate Valid()
      reads this
    {
      && 0 < alignment && start <= vaMax < U64
      && if start == vaMax then holes == [Hole(start, 0)] && live == {}
         else Canonical(holes, start, vaMax) && Partition(holes, live, start, vaMax)
    }

    /** `amdgpu_vamgr_init`. */
    constructor (first: nat, max: nat, align: nat)
      requires 0 < align && first <= max < U64
      ensures Valid() && start == first && vaMax == max && alignment == align && live == {}
      ensures holes == [Hole(first, max - first)]
    {
      vaMax, alignment, start := max, align, first;
      holes := [Hole(first, max - first)];
      live := {};
      new;
      if first < max {
        assert forall a :: first <= a < max ==> In(holes[0], a);
      }
    }

    /** No sum formed by the 64-bit code wraps. */
    ghost predicate NoOverflow(request: nat, wanted: nat, base: nat) {
      && request + alignment < U64 && vaMax + Max(wanted, alignment) <= U64
      && base + request + alignment < U64
    }

    /** `amdgpu_vamgr_subtract_hole`. */
    method SubtractHole(i: nat, s: nat, e: nat, nodeAvailable: bool) returns (ret: int)
      requires Valid() && i < |holes| && holes[i].offset <= s <= e <= holes[i].End()
      modifies `holes, `live
      ensures ret == if Splits(old(holes)[i], s, e) && !nodeAvailable then -ENOMEM else 0
      ensures holes == if ret == 0 then Subtract(old(holes), i, s, e) else old(holes)
      ensures s < e ==> Valid()
      ensures s < e && ret == 0 ==> live == old(live) + {Block(s, e - s)} && Block(s, e - s) !in old(live)
      ensures s == e || ret != 0 ==> live == old(live)
    {
      var hole := holes[i];
      if s < e { TakePartition(holes, live, start, vaMax, i, s, e); }
      if s > hole.offset && e - hole.offset < hole.size {
        if !nodeAvailable {
          return -ENOMEM;
        }
        var n := Hole(hole.offset, s - hole.offset);
        holes := holes[..i] + [Hole(e, hole.size - (e - hole.offset)), n] + holes[i + 1..];
      } else if s > hole.offset {
        holes := holes[..i] + [Hole(hole.offset, s - hole.offset)] + holes[i + 1..];
      } else if e - hole.offset < hole.size {
        holes := holes[..i] + [Hole(e, hole.size - (e - hole.offset))] + holes[i + 1..];
      } else {
        holes := holes[..i] + [] + holes[i + 1..];
      }
      if s < e { live := live + {Block(s, e - s)}; }
      ret := 0;
    }

    /** How a search leaves the manager, given the holes and blocks before it. */
    ghost predicate Outcome(before: seq<Hole>, blocks: set<Block>, size: nat, align: nat, base: nat, fromTop: bool,
        nodeAvailable: bool, ret: int, va: nat)
      requires align > 0
      reads this
    {
      && (ret != 0 ==> holes == before && live == blocks)
      && if size == 0 then live == blocks && TakesNothing(before, holes, base, align, nodeAvailable, ret, va)
         else
           && Valid() && SearchResult(before, base, size, align, fromTop, nodeAvailable, ret, va)
           && (ret == 0 ==> Block(va, size) !in blocks && live == blocks + {Block(va, size)})
    }

    /** `amdgpu_vamgr_find_va`; `nodeAvailable` says whether the node allocation for a
        split would succeed. */
    method FindVa(request: nat, wanted: nat, base: nat, fromTop: bool, nodeAvailable: bool) returns (ret: int, va: nat)
      requires Valid() && NoOverflow(request, wanted, base)
      modifies `holes, `live
      ensures Outcome(old(holes), old(live), AlignUp(request, alignment), Max(wanted, alignment), base, fromTop,
        nodeAvailable, ret, va)
    {
      var align := Max(wanted, alignment);
      var size := AlignUp(request, alignment);
      if base % align != 0 {
        return -EINVAL, 0;
      }
      if !fromTop {
        ret, va := SearchUp(size, align, base, nodeAvailable);
      } else {
        ret, va := SearchDown(size, align, base, nodeAvailable);
      }
    }

    /** The bottom-up loop: the list is walked from its tail. */
    method SearchUp(size: nat, align: nat, base: nat, nodeAvailable: bool) returns (ret: int, va: nat)
      requires Valid() && align > 0 && base % align == 0
      modifies `holes, `live
      ensures Outcome(old(holes), old(live), size, align, base, false, nodeAvailable, ret, va)
    {
      var i := |holes|;
      while i > 0
        invariant 0 <= i <= |holes| && holes == old(holes) && live == old(live)
        invariant forall j :: i <= j < |holes| ==> Refused(holes[j], base, size, align)
      {
        i := i - 1;
        var fits, offset := PlaceUp(holes[i], size, align, base);
        if !fits { continue; }
        ret := Pick(i, offset, size, align, base, false, nodeAvailable);
        return ret, offset;
      }
      if size > 0 { Exhausted(size, align, base); }
      return -ENOMEM, 0;
    }

    /** The top-down loop. */
    method SearchDown(size: nat, align: nat, base: nat, nodeAvailable: bool) returns (ret: int, va: nat)
      requires Valid() && align > 0 && base % align == 0
      modifies `holes, `live
      ensures Outcome(old(holes), old(live), size, align, base, true, nodeAvailable, ret, va)
    {
      var i := 0;
      while i < |holes|
        invariant 0 <= i <= |holes| && holes == old(holes) && live == old(live)
        invariant forall j :: 0 <= j < i ==> Refused(holes[j], base, size, align)
      {
        var fits, offset := PlaceDown(holes[i], size, align, base);
        if !fits { i := i + 1; continue; }
        ret := Pick(i, offset, size, align, base, true, nodeAvailable);
        return ret, offset;
      }
      if size > 0 { Exhausted(size, align, base); }
      return -ENOMEM, 0;
    }

    /** Takes the block out of the hole where a search stops. */
    method Pick(i: nat, offset: nat, size: nat, ghost align: nat, ghost base: nat, ghost fromTop: bool,
        nodeAvailable: bool) returns (ret: int)
      requires Valid() && align > 0 && i < |holes| && base % align == 0
      requires Accepted(holes[i], base, size, align, fromTop, offset)
      requires forall j :: 0 <= j < |holes| && (if fromTop then j < i else i < j) ==>
        Refused(holes[j], base, size, align)
      modifies `holes, `live
      ensures Outcome(old(holes), old(live), size, align, base, fromTop, nodeAvailable, ret, offset)
    {
      if size > 0 { Chosen(i, offset, size, align, base, fromTop); }
      ret := SubtractHole(i, offset, offset + size, nodeAvailable);
      if size == 0 { assert TakesAt(old(holes), holes, base, nodeAvailable, ret, offset, i); }
    }

    /** The hole a search stops at holds the best place. */
    lemma Chosen(i: nat, offset: nat, size: nat, align: nat, base: nat, fromTop: bool)
      requires Valid() && size > 0 && align > 0 && i < |holes| && Accepted(holes[i], base, size, align, fromTop, offset)
      requires forall j :: 0 <= j < |holes| && (if fromTop then j < i else i < j) ==>
        Refused(holes[j], base, size, align)
      ensures base != 0 ==> BlockFree(holes, base, size)
      ensures base == 0 ==> Best(holes, offset, size, align, fromTop)
      ensures SplitNeeded(holes, offset, size) <==> Splits(holes[i], offset, offset + size)
    {
      forall j | 0 <= j < |holes| && holes[j].offset < offset && offset + size < holes[j].End() ensures j == i {
        NeverTouching(holes, start, vaMax, i, j);
        assert In(holes[i], offset) && In(holes[j], offset);
      }
      InsideIsFree(holes, i, offset, size);
      if base == 0 {
        forall j | 0 <= j < |holes| && (if fromTop then j < i else i < j) ensures NoneFits(holes[j], size, align) {
          assert Refused(holes[j], base, size, align);
        }
        if fromTop {
          HighIsBest(holes, start, vaMax, i, offset, size, align);
        } else {
          LowIsBest(holes, start, vaMax, i, offset, size, align);
        }
      }
    }

    /** A search that runs off the list has missed nothing. */
    lemma Exhausted(size: nat, align: nat, base: nat)
      requires Valid() && size > 0 && align > 0
      requires forall j :: 0 <= j < |holes| ==> Refused(holes[j], base, size, align)
      ensures base != 0 ==> !BlockFree(holes, base, size)
      ensures base == 0 ==> forall x: nat :: !Candidate(holes, x, size, align)
    {
      if start == vaMax {
        forall x ensures !Free(holes, x) {}
        assert forall x: nat :: BlockFree(holes, x, size) ==> Free(holes, x);
      } else if base == 0 {
        forall j | 0 <= j < |holes| ensures NoneFits(holes[j], size, align) {
          assert Refused(holes[j], base, size, align);
        }
        NoCandidate(holes, start, vaMax, size, align);
      } else if BlockFree(holes, base, size) {
        var j := BlockInOneHole(holes, start, vaMax, base, size);
      }
    }

    /** `amdgpu_vamgr_free_va`.  Without a node for a lone hole the block stays reserved. */
    method FreeVa(va: nat, request: nat, nodeAvailable: bool)
      requires Valid()
      requires va != INVALID_VA ==> Block(va, AlignUp(request, alignment)) in live
      modifies `holes, `live
      ensures Valid()
      ensures va == INVALID_VA ==> holes == old(holes) && live == old(live)
      ensures va != INVALID_VA ==>
        var size := AlignUp(request, alignment);
        if nodeAvailable || old(Free(holes, va - 1) || Free(holes, va + size))
          then live == old(live) - {Block(va, size)}
        else live == old(live) && holes == old(holes)
    {
      if va == INVALID_VA {
        return;
      }
      var size := AlignUp(request, alignment);
      ghost var b := Block(va, size);
      var k := 0;
      while k < |holes| && !(holes[k].offset < va)
        invariant 0 <= k <= |holes|
        invariant forall i :: 0 <= i < k ==> holes[i].offset >= va
      {
        k := k + 1;
      }
      Descending(k, va);
      GiveBackPartition(holes, live, start, vaMax, k, b);
      NeighboursFree(k, b);
      var done := Coalesce(k, va, size, nodeAvailable);
      if done {
        live := live - {b};
      }
    }

    /** The branches of `amdgpu_vamgr_free_va`: grow the upper hole and perhaps merge the
        lower one into it, grow the lower hole, or add a hole. */
    method Coalesce(k: nat, va: nat, size: nat, nodeAvailable: bool) returns (done: bool)
      requires k <= |holes|
      modifies `holes
      ensures done <==> nodeAvailable || JoinsUpper(old(holes), k, va, size) || JoinsLower(old(holes), k, va)
      ensures holes == if done then GiveBack(old(holes), k, va, size) else old(holes)
    {
      if k > 0 && holes[k - 1].offset == va + size {
        var grown := Hole(va, holes[k - 1].size + size);
        if k < |holes| && holes[k].End() == va {
          holes := holes[..k - 1] + [Hole(holes[k].offset, holes[k].size + grown.size)] + holes[k + 1..];
        } else {
          holes := holes[..k - 1] + [grown] + holes[k..];
        }
        return true;
      }
      if k < |holes| && holes[k].End() == va {
        holes := holes[..k] + [Hole(holes[k].offset, holes[k].size + size)] + holes[k + 1..];
        return true;
      }
      if nodeAvailable {
        holes := holes[..k] + [Hole(va, size)] + holes[k..];
      }
      return nodeAvailable;
    }

    /** The block joins a hole exactly when the address next to it is free. */
    lemma NeighboursFree(k: nat, b: Block)
      requires Valid() && start < vaMax && b in live && SplitAt(holes, b.va, k)
      ensures JoinsUpper(holes, k, b.va, b.size) <==> Free(holes, b.va + b.size)
      ensures JoinsLower(holes, k, b.va) <==> Free(holes, b.va - 1)
    {
      ReservedNotFree(holes, live, start, vaMax, b);
      forall i | 0 <= i < |holes|
        ensures i < k ==> b.va + b.size <= holes[i].offset
        ensures k <= i ==> holes[i].End() <= b.va
      {
        GiveBackBounds(holes, start, vaMax, k, b.va, b.size, i);
      }
      if JoinsUpper(holes, k, b.va, b.size) { assert In(holes[k - 1], b.va + b.size); }
      if JoinsLower(holes, k, b.va) { assert In(holes[k], b.va - 1); }
      forall i | 0 <= i < |holes| && In(holes[i], b.va + b.size) ensures JoinsUpper(holes, k, b.va, b.size) {
        assert i < k - 1 ==> Above(holes, i, k - 1);
      }
      forall i | 0 <= i < |holes| && In(holes[i], b.va - 1) ensures JoinsLower(holes, k, b.va) {
        assert i > k ==> Above(holes, k, i);
      }
    }

    lemma Descending(k: nat, va: nat)
      requires Valid() && start < vaMax && k <= |holes| && (k < |holes| ==> holes[k].offset < va)
      requires forall i :: 0 <= i < k ==> holes[i].offset >= va
      ensures SplitAt(holes, va, k)
    {
      forall i | k < i < |holes| ensures holes[i].offset < va {
        assert Above(holes, k, i);
      }
    }

    /** A caller may ask for this. */
    ghost predicate Legal(op: Op) {
      op.Take? && op.request > 0 && NoOverflow(op.request, op.wanted, op.base)
    }

    ghost function LiveAt(live: set<Block>, ops: seq<Op>, results: seq<Result>, n: nat): set<Block>
      requires n <= |ops| && n <= |results| && alignment > 0
    {
      LiveAfter(live, start, vaMax, alignment, ops, results, n)
    }

    /** Every search so far found the best place among what the live blocks left. */
    ghost predicate AllAnswer(live: set<Block>, ops: seq<Op>, results: seq<Result>)
      requires |results| <= |ops| && alignment > 0
    {
      forall i :: 0 <= i < |results| ==> AnswersAt(live, ops, results, i)
    }

    ghost predicate AnswersAt(live: set<Block>, ops: seq<Op>, results: seq<Result>, i: nat)
      requires i < |results| <= |ops| && alignment > 0
    {
      Legal(ops[i]) ==> Answers(ops[i], results[i], LiveAt(live, ops, results, i), start, vaMax, alignment)
    }

    lemma AnswersNext(live: set<Block>, ops: seq<Op>, results: seq<Result>, more: Result)
      requires |results| < |ops| && alignment > 0 && AllAnswer(live, ops, results)
      requires Legal(ops[|results|]) ==>
        Answers(ops[|results|], more, LiveAt(live, ops, results, |results|), start, vaMax, alignment)
      ensures AllAnswer(live, ops, results + [more])
    {
      forall i | 0 <= i < |results + [more]| ensures AnswersAt(live, ops, results + [more], i) {
        LiveAfterPrefix(live, start, vaMax, alignment, ops, results, more, i);
        if i < |results| { assert AnswersAt(live, ops, results, i); }
      }
    }

    /** Blocks that have not been given back are live, and no two are the same. */
    ghost predicate Held(ops: seq<Op>, results: seq<Result>, given: set<nat>)
      requires alignment > 0
      reads `live
    {
      && (forall k: nat :: TookBlock(ops, results, k) && k !in given ==> BlockOf(ops[k], results[k], alignment) in live)
      && forall k: nat, l: nat ::
        TookBlock(ops, results, k) && TookBlock(ops, results, l) && k !in given && l !in given && k != l ==>
           BlockOf(ops[k], results[k], alignment) != BlockOf(ops[l], results[l], alignment)
    }

    /** The live set and what can still be given back are those of the reference. */
    ghost predicate Tracks(ops: seq<Op>, results: seq<Result>, given: set<nat>, first: set<Block>)
      requires |results| <= |ops|
      reads this
    {
      && Valid() && start < vaMax && live == LiveAt(first, ops, results, |results|)
      && given == GivenAfter(ops, results, |results|) && Held(ops, results, given)
    }

    /** A search for the operation that follows `results`. */
    method StepTake(ops: seq<Op>, results: seq<Result>, given: set<nat>, ghost first: set<Block>)
        returns (result: Result)
      requires |results| < |ops| && ops[|results|].Take? && Tracks(ops, results, given, first)
      modifies `holes, `live
      ensures Tracks(ops, results + [result], given, first)
      ensures Legal(ops[|results|]) ==> Answers(ops[|results|], result, old(live), start, vaMax, alignment)
    {
      var op := ops[|results|];
      result := Result(1, 0);
      if op.request > 0 && op.request + alignment < U64 && vaMax + Max(op.wanted, alignment) <= U64 &&
        op.base + op.request + alignment < U64 {
        var ret, va := FindVa(op.request, op.wanted, op.base, op.fromTop, op.node);
        result := Result(ret, va);
        forall h | HolesFor(h, old(live), start, vaMax)
          ensures SearchResult(h, op.base, AlignUp(op.request, alignment), Max(op.wanted, alignment), op.fromTop,
            op.node, ret, va)
        {
          HolesDetermined(h, old(holes), old(live), start, vaMax);
        }
      }
      LiveAfterPrefix(first, start, vaMax, alignment, ops, results, result, |results|);
    }

    /** A block is given back. */
    method StepGive(ops: seq<Op>, results: seq<Result>, given: set<nat>, ghost first: set<Block>)
        returns (result: Result, given': set<nat>)
      requires |results| < |ops| && ops[|results|].Give? && Tracks(ops, results, given, first)
      modifies `holes, `live
      ensures Tracks(ops, results + [result], given', first)
    {
      var k := ops[|results|].which;
      result, given' := Result(1, 0), given;
      if k < |results| && ops[k].Take? && results[k].ret == 0 {
        given' := given + {k};
        if k !in given {
          GiveBlock(results[k].va, ops[k].request, ops[|results|].node);
        }
      }
      LiveAfterPrefix(first, start, vaMax, alignment, ops, results, result, |results|);
    }

    method GiveBlock(va: nat, request: nat, node: bool)
      requires Valid() && start < vaMax && Block(va, AlignUp(request, alignment)) in live
      modifies `holes, `live
      ensures Valid() && live == Without(old(live), start, vaMax, Block(va, AlignUp(request, alignment)), node)
    {
      ghost var b := Block(va, AlignUp(request, alignment));
      FreeIsNotTaken(holes, live, start, vaMax, b.va - 1);
      FreeIsNotTaken(holes, live, start, vaMax, b.va + b.size);
      FreeVa(va, request, node);
    }

    /** Every run of allocations and frees: the holes and the live blocks of the reference
        partition the range, and every search finds the best place among what the live blocks
        leave, whatever happened before. */
    method Run(ops: seq<Op>) returns (results: seq<Result>)
      requires Valid() && start < vaMax
      modifies `holes, `live
      ensures Valid() && |results| == |ops| && live == LiveAt(old(live), ops, results, |ops|)
      ensures AllAnswer(old(live), ops, results)
    {
      results := [];
      var given: set<nat> := {};
      for i := 0 to |ops|
        invariant |results| == i && Tracks(ops, results, given, old(live)) && AllAnswer(old(live), ops, results)
      {
        var result;
        if ops[i].Take? {
          result := StepTake(ops, results, given, old(live));
        } else {
          result, given := StepGive(ops, results, given, old(live));
        }
        AnswersNext(old(live), ops, results, result);
        results := results + [result];
      }
    }

    /** A request of size 0 at an address in the middle of a hole: the hole list is no longer
        canonical, it has two holes that touch. */
    static method ZeroSizeSplits() returns (mgr: VaMgr, ret: int, va: nat)
      ensures fresh(mgr) && ret == 0 && va == 0x2000 && mgr.live == {}
      ensures mgr.holes == [Hole(0x2000, 0x1000), Hole(0x1000, 0x1000)] && !Canonical(mgr.holes, 0x1000, 0x3000)
    {
      mgr := new VaMgr(0x1000, 0x3000, 0x1000);
      AlignUpZero(0x1000);
      ret, va := mgr.FindVa(0, 0x1000, 0x2000, false, true);
      SubtractNothing([Hole(0x1000, 0x2000)], 0x1000, 0x3000, 0, 0x2000);
    }

    /** Freeing what was just allocated restores the hole list exactly. */
    method AllocThenFree(request: nat, wanted: nat, base: nat, fromTop: bool) returns (ret: int)
      requires Valid() && request > 0 && NoOverflow(request, wanted, base)
      modifies `holes, `live
      ensures Valid() && holes == old(holes) && live == old(live)
    {
      var va;
      ret, va := FindVa(request, wanted, base, fromTop, true);
      if ret == 0 {
        FreeVa(va, request, true);
        if start < vaMax {
          HolesDetermined(holes, old(holes), live, start, vaMax);
        }
      }
    }
  }
}
