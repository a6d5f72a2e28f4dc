/** The public range interface of amdgpu_vamgr.c: four managers chosen by flags, with a
    fallback to the 32-bit manager, and handles that give a range back. */
module VaRanges {
  import opened Options
  import opened VaHoles
  import opened VaManager

  /** A live range: where it is and which manager it came from. */
  datatype VaHandle = VaHandle(address: nat, size: nat, mgr: VaMgr)

  datatype Flags = Flags(bits32: bool, high: bool, replayable: bool)

  /** The block a handle stands for. */
  ghost function HandleBlock(h: VaHandle): Block
    requires h.mgr.alignment > 0
  {
    Block(h.address, AlignUp(h.size, h.mgr.alignment))
  }

  /** A new block does not change what is free next to it. */
  lemma NextToNew(before: seq<Hole>, live: set<Block>, after: seq<Hole>, start: nat, max: nat, b: Block)
    requires b !in live && Canonical(before, start, max) && Partition(before, live, start, max)
    requires Canonical(after, start, max) && Partition(after, live + {b}, start, max)
    ensures Free(after, b.va - 1) <==> Free(before, b.va - 1)
    ensures Free(after, b.va + b.size) <==> Free(before, b.va + b.size)
  {
    forall a | a == b.va - 1 || a == b.va + b.size ensures Free(after, a) <==> Free(before, a) {
      FreeIsNotTaken(before, live, start, max, a);
      FreeIsNotTaken(after, live + {b}, start, max, a);
    }
  }

  class VaRangeManager {
    const low: VaMgr
    const low32: VaMgr
    const high: VaMgr
    const high32: VaMgr

    constructor (l: VaMgr, l32: VaMgr, h: VaMgr, h32: VaMgr)
      requires l != l32 && l != h && l != h32 && l32 != h && l32 != h32 && h != h32
      requires l.Valid() && l32.Valid() && h.Valid() && h32.Valid()
      ensures Valid() && low == l && low32 == l32 && high == h && high32 == h32
    {
      low, low32, high, high32 := l, l32, h, h32;
    }

    ghost predicate Valid()
      reads low, low32, high, high32
    {
      && low != low32 && low != high && low != high32 && low32 != high && low32 != high32 && high != high32
      && low.Valid() && low32.Valid() && high.Valid() && high32.Valid()
    }

    /** No 64-bit sum wraps in any of the managers. */
    ghost predicate NoOverflow(request: nat, wanted: nat, base: nat)
      requires low.alignment > 0 && low32.alignment > 0 && high.alignment > 0 && high32.alignment > 0
    {
      forall m: VaMgr, n: VaMgr :: m in Managers() && n in Managers() ==>
        m.NoOverflow(request, wanted, base) &&
          n.NoOverflow(AlignUp(request, m.alignment), Max(wanted, m.alignment), base)
    }

    ghost function Managers(): set<VaMgr> {
      {low, low32, high, high32}
    }

    twostate predicate Same(n: VaMgr)
      reads n
    {
      n.holes == old(n.holes) && n.live == old(n.live)
    }

    /** Every manager other than `m` is as it was. */
    twostate predicate OthersUnchanged(m: VaMgr)
      reads Managers()
    {
      (low != m ==> Same(low)) && (low32 != m ==> Same(low32)) && (high != m ==> Same(high)) &&
        (high32 != m ==> Same(high32))
    }

    twostate predicate AllUnchanged()
      reads Managers()
    {
      Same(low) && Same(low32) && Same(high) && Same(high32)
    }

    /** A block that nobody has a handle for: there was no memory for its hole, and no free
        address next to it that it could have joined. */
    twostate predicate Lost(m: VaMgr, b: Block)
      reads Managers(), m
    {
      && b !in old(m.live) && m.live == old(m.live) + {b} && OthersUnchanged(m)
      && !old(VaHoles.Free(m.holes, b.va - 1)) && !old(VaHoles.Free(m.holes, b.va + b.size))
    }

    twostate lemma SameLiveSameHoles(m: VaMgr)
      requires old(m.Valid()) && m.Valid() && m.live == old(m.live)
      ensures m.holes == old(m.holes)
    {
      if m.start < m.vaMax {
        HolesDetermined(m.holes, old(m.holes), m.live, m.start, m.vaMax);
      }
    }

    function Primary(flags: Flags): (m: VaMgr)
      ensures m in Managers()
    {
      if flags.high && high32.vaMax != 0 then (if flags.bits32 then high32 else high)
      else if flags.bits32 then low32
      else low
    }

    function Fallback(flags: Flags): (m: VaMgr)
      ensures m in Managers()
    {
      if flags.high && high32.vaMax != 0 then high32 else low32
    }

    /** What the search for a request reports in one of the managers. */
    ghost predicate Searched(mgr: VaMgr, request: nat, wanted: nat, base: nat, flags: Flags, node: bool, ret: int,
        va: nat)
      requires mgr.alignment > 0 && Primary(flags).alignment > 0
      reads mgr
    {
      var size, align := AlignUp(request, Primary(flags).alignment), Max(wanted, Primary(flags).alignment);
      SearchResult(mgr.holes, base, AlignUp(size, mgr.alignment), Max(align, mgr.alignment), flags.replayable, node,
        ret, va)
    }

    /** Where a request was searched last and with what result: in the manager of its flags, or
        in the 32-bit one if that search failed and the flags allow it. */
    twostate predicate FoundIn(mgr: VaMgr, request: nat, wanted: nat, base: nat, flags: Flags, node1: bool, node2: bool,
                               ret: int, va: nat)
      requires Valid() && mgr in Managers()
      reads Managers()
    {
      if mgr == Primary(flags) then
        (ret == 0 || flags.bits32) && old(Searched(Primary(flags), request, wanted, base, flags, node1, ret, va))
      else
        && !flags.bits32 && mgr == Fallback(flags)
        && (exists r: int, v: nat :: r != 0 && old(Searched(Primary(flags), request, wanted, base, flags, node1, r, v)))
        && old(Searched(Fallback(flags), request, wanted, base, flags, node2, ret, va))
    }

    /** `amdgpu_va_range_alloc2`.  The last four arguments say which allocations of list
        nodes and of the handle itself succeed. */
    method Alloc(request: nat, wanted: nat, base: nat, flags: Flags,
                 node1: bool, node2: bool, handleAvailable: bool, node3: bool)
      returns (ret: int, handle: Option<VaHandle>, ghost lost: Option<VaHandle>)
      requires Valid() && request > 0 && NoOverflow(request, wanted, base)
      modifies Managers()`holes, Managers()`live
      ensures Valid()
      ensures ret == 0 ==> handle.Some? && handle.value.mgr in Managers()
      ensures ret == 0 ==> FoundIn(handle.value.mgr, request, wanted, base, flags, node1, node2, 0,
        handle.value.address)
      ensures ret != 0 && handleAvailable && flags.bits32 ==>
        exists v: nat :: old(Searched(Primary(flags), request, wanted, base, flags, node1, ret, v))
      ensures ret != 0 && handleAvailable && !flags.bits32 ==>
        exists v: nat :: old(Searched(Fallback(flags), request, wanted, base, flags, node2, ret, v))
      ensures ret == 0 ==> HandleBlock(handle.value) !in old(handle.value.mgr.live)
      ensures ret == 0 ==> handle.value.mgr.live == old(handle.value.mgr.live) + {HandleBlock(handle.value)}
      ensures ret == 0 ==> OthersUnchanged(handle.value.mgr)
      ensures ret != 0 ==> handle == None
      ensures ret != 0 && (handleAvailable || node3) ==> AllUnchanged()
      ensures ret != 0 && lost.None? ==> AllUnchanged()
      ensures ret == 0 ==> lost.None?
      ensures lost.Some? ==> lost.value.mgr in Managers() && Lost(lost.value.mgr, HandleBlock(lost.value))
    {
      var va, size, mgr;
      ret, va, size, mgr := Reserve(request, wanted, base, flags, node1, node2);
      if ret != 0 {
        return ret, None, None;
      }
      if handleAvailable {
        return 0, Some(VaHandle(va, size, mgr)), None;
      }
      ghost var gone := Abandon(va, size, mgr, node3, old(mgr.holes), old(mgr.live));
      return -ENOMEM, None, if gone then Some(VaHandle(va, size, mgr)) else None;
    }

    /** The search in the primary manager and, failing that, in the 32-bit one. */
    method Reserve(request: nat, wanted: nat, base: nat, flags: Flags, node1: bool, node2: bool)
      returns (ret: int, va: nat, size: nat, mgr: VaMgr)
      requires Valid() && request > 0 && NoOverflow(request, wanted, base)
      modifies Managers()`holes, Managers()`live
      ensures Valid() && mgr in Managers() && (mgr == Primary(flags) || (!flags.bits32 && mgr == Fallback(flags)))
      ensures FoundIn(mgr, request, wanted, base, flags, node1, node2, ret, va)
      ensures ret == 0 ==>
        var b := HandleBlock(VaHandle(va, size, mgr)); b !in old(mgr.live) && mgr.live == old(mgr.live) + {b}
      ensures OthersUnchanged(mgr)
      ensures ret != 0 ==> mgr.holes == old(mgr.holes) && mgr.live == old(mgr.live)
    {
      mgr := Primary(flags);
      var align := Max(wanted, mgr.alignment);
      size := AlignUp(request, mgr.alignment);
      ret, va := Try(mgr, size, align, base, flags.replayable, node1);
      assert old(Searched(Primary(flags), request, wanted, base, flags, node1, ret, va));
      if !flags.bits32 && ret != 0 {
        mgr := Fallback(flags);
        ret, va := Try(mgr, size, align, base, flags.replayable, node2);
      }
    }

    method Try(mgr: VaMgr, size: nat, align: nat, base: nat, fromTop: bool, node: bool) returns (ret: int, va: nat)
      requires Valid() && mgr in Managers() && size > 0 && mgr.NoOverflow(size, align, base)
      modifies mgr`holes, mgr`live
      ensures Valid()
      ensures SearchResult(old(mgr.holes), base, AlignUp(size, mgr.alignment), Max(align, mgr.alignment), fromTop, node,
        ret, va)
      ensures ret == 0 ==>
        var b := HandleBlock(VaHandle(va, size, mgr)); b !in old(mgr.live) && mgr.live == old(mgr.live) + {b}
      ensures ret != 0 ==> mgr.holes == old(mgr.holes) && mgr.live == old(mgr.live)
    {
      ret, va := mgr.FindVa(size, align, base, fromTop, node);
    }

    /** The block of a handle is free again, or stays reserved because there is no memory for
        its hole and no free address next to it. */
    twostate predicate GivenBack(h: VaHandle, node: bool)
      requires h.mgr.alignment > 0 && h.address != INVALID_VA
      reads h.mgr
    {
      var b := HandleBlock(h);
      if node || old(VaHoles.Free(h.mgr.holes, b.va - 1) || VaHoles.Free(h.mgr.holes, b.va + b.size))
      then h.mgr.live == old(h.mgr.live) - {b}
      else h.mgr.live == old(h.mgr.live) && h.mgr.holes == old(h.mgr.holes)
    }

    /** Gives a block back when its handle cannot be allocated; `holes` and `live` are what
        there was before the block was taken. */
    method Abandon(va: nat, size: nat, mgr: VaMgr, node: bool, ghost holes: seq<Hole>, ghost live: set<Block>)
        returns (ghost gone: bool)
      requires Valid() && mgr in Managers() && mgr.start < mgr.vaMax
      requires Canonical(holes, mgr.start, mgr.vaMax) && Partition(holes, live, mgr.start, mgr.vaMax)
      requires var b := HandleBlock(VaHandle(va, size, mgr)); b !in live && mgr.live == live + {b}
      modifies mgr`holes, mgr`live
      ensures Valid()
      ensures !gone ==> mgr.live == live && mgr.holes == holes
      ensures gone ==>
        var b := HandleBlock(VaHandle(va, size, mgr));
        !node && mgr.live == live + {b} && !VaHoles.Free(holes, b.va - 1) && !VaHoles.Free(holes, b.va + b.size)
    {
      ghost var b := HandleBlock(VaHandle(va, size, mgr));
      NextToNew(holes, live, mgr.holes, mgr.start, mgr.vaMax, b);
      gone := !node && !VaHoles.Free(holes, b.va - 1) && !VaHoles.Free(holes, b.va + b.size);
      mgr.FreeVa(va, size, node);
      if !gone {
        assert live + {b} - {b} == live;
        HolesDetermined(mgr.holes, holes, live, mgr.start, mgr.vaMax);
      }
    }

    /** `amdgpu_va_range_free`: address 0 is taken for "no range" and stays reserved. */
    method Free(handle: Option<VaHandle>, node: bool)
      requires Valid()
      requires handle.Some? ==> handle.value.mgr in Managers() && HandleBlock(handle.value) in handle.value.mgr.live
      modifies Managers()`holes, Managers()`live
      ensures Valid()
      ensures handle.Some? && handle.value.address != 0 ==> OthersUnchanged(handle.value.mgr)
      ensures handle.Some? && handle.value.address != 0 ==> GivenBack(handle.value, node)
      ensures handle.None? || handle.value.address == 0 ==> AllUnchanged()
    {
      if handle.None? || handle.value.address == 0 {
        return;
      }
      var h := handle.value;
      assert h.mgr.Valid();
      h.mgr.FreeVa(h.address, h.size, node);
    }

    /** Allocating a range and freeing its handle puts every hole list back exactly when
        the range is not at address 0. */
    method AllocThenFree(request: nat, wanted: nat, base: nat, flags: Flags)
        returns (ret: int, handle: Option<VaHandle>)
      requires Valid() && request > 0 && NoOverflow(request, wanted, base)
      modifies Managers()`holes, Managers()`live
      ensures Valid()
      ensures AllUnchanged() <==> !(ret == 0 && handle.Some? && handle.value.address == 0)
      ensures (forall m :: m in Managers() ==> m.start > 0) ==> AllUnchanged()
    {
      ret, handle := AllocNew(request, wanted, base, flags);
      if ret == 0 {
        FreeNew(handle.value, old(handle.value.mgr.holes), old(handle.value.mgr.live));
      } else {
        Free(None, true);
      }
    }

    /** An allocation with memory for everything. */
    method AllocNew(request: nat, wanted: nat, base: nat, flags: Flags) returns (ret: int, handle: Option<VaHandle>)
      requires Valid() && request > 0 && NoOverflow(request, wanted, base)
      modifies Managers()`holes, Managers()`live
      ensures Valid() && (ret != 0 ==> handle == None && AllUnchanged())
      ensures ret == 0 ==> handle.Some? && handle.value.mgr in Managers() && OthersUnchanged(handle.value.mgr)
      ensures ret == 0 ==>
        var h := handle.value;
        && h.mgr.start < h.mgr.vaMax && h.address >= h.mgr.start
        && HandleBlock(h) !in old(h.mgr.live) && h.mgr.live == old(h.mgr.live) + {HandleBlock(h)}
    {
      ghost var lost;
      ret, handle, lost := Alloc(request, wanted, base, flags, true, true, true, true);
      if ret == 0 { AboveStart(handle.value); }
    }

    /** Frees a block that was not there before, when the holes were `holes`. */
    method FreeNew(h: VaHandle, ghost holes: seq<Hole>, ghost live: set<Block>)
      requires Valid() && h.mgr in Managers() && h.mgr.start < h.mgr.vaMax
      requires Canonical(holes, h.mgr.start, h.mgr.vaMax) && Partition(holes, live, h.mgr.start, h.mgr.vaMax)
      requires HandleBlock(h) !in live && h.mgr.live == live + {HandleBlock(h)}
      modifies Managers()`holes, Managers()`live
      ensures Valid() && OthersUnchanged(h.mgr)
      ensures h.address != 0 ==> h.mgr.live == live && h.mgr.holes == holes
      ensures h.address == 0 ==> h.mgr.live != live
    {
      Free(Some(h), true);
      if h.address != 0 {
        assert live + {HandleBlock(h)} - {HandleBlock(h)} == live;
        HolesDetermined(h.mgr.holes, holes, live, h.mgr.start, h.mgr.vaMax);
      }
    }

    lemma AboveStart(h: VaHandle)
      requires Valid() && h.mgr in Managers() && HandleBlock(h) in h.mgr.live
      ensures h.address >= h.mgr.start
    {
    }
  }

  /** In one hole from 0 on, the lowest place is address 0. */
  lemma LowestIsZero(max: nat, size: nat, alignment: nat, ret: int, va: nat)
    requires 0 < size <= max && alignment > 0
    requires SearchResult([Hole(0, max)], 0, size, alignment, false, true, ret, va)
    ensures ret == 0 && va == 0
  {
    InsideIsFree([Hole(0, max)], 0, 0, size);
    assert Candidate([Hole(0, max)], 0, size, alignment);
  }

  method NewManagers() returns (m: VaRangeManager)
    ensures fresh(m) && fresh(m.Managers()) && m.Valid() && m.low32.holes == [Hole(0, 0x10000)]
    ensures m.low32.alignment == 0x1000
    ensures m.NoOverflow(0x1000, 0x1000, 0)
  {
    var low32 := new VaMgr(0, 0x10000, 0x1000);
    var low := new VaMgr(0x10000, 0x20000, 0x1000);
    var high32 := new VaMgr(0x20000, 0x30000, 0x1000);
    var high := new VaMgr(0x30000, 0x40000, 0x1000);
    m := new VaRangeManager(low, low32, high, high32);
    AlignUpLeast(0x1000, 0x1000, 0x1000);
  }

  /** A manager whose range starts at 0 hands out address 0, and freeing that range does not
      give it back. */
  method AddressZeroIsLost() returns (m: VaRangeManager, h: VaHandle)
    ensures m.Valid() && h.mgr == m.low32 && h.address == 0 && HandleBlock(h) in m.low32.live
  {
    m := NewManagers();
    var flags := Flags(true, false, false);
    var ret, handle, _ := m.Alloc(0x1000, 0x1000, 0, flags, true, true, true, true);
    AlignUpLeast(0x1000, 0x1000, 0x1000);
    ghost var va: nat := if ret == 0 then handle.value.address else 0;
    LowestIsZero(0x10000, 0x1000, 0x1000, ret, va);
    h := handle.value;
    m.Free(handle, true);
  }
}
