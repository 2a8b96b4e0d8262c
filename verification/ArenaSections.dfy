/** Critical sections of the free-list mutex store by store. Clients write into their blocks and threads
    write headers without the mutex, so their stores fall between those of a search, a push or a
    defragmentation; the effect is the same as if the section had been one step
    (src/memory/allocator.rs:33-41, 64-75, 129-135, 167-201, 334-364). */
module ArenaSections {
  import opened Wrappers
  import opened Slots
  import opened FreeList
  import opened Memory
  import opened Writes
  import opened Tiling
  import opened ArenaRep
  import opened ArenaThreads
  import opened ArenaMemory

  /** The stores of a search for `n` bytes, in the order of the code. */
  function SearchStores(free: seq<Node>, n: nat): seq<Write> {
    var k := FirstFit(free, n);
    if k == |free| then []
    else
      var unlink := if k == 0 then [] else [Write(LinkOf(free, k) + 8, AddrAt(free, k + 1))];
      if free[k].size < n + MIN_SLOT_SIZE then unlink
      else
        var at := free[k].addr + n;
        unlink + [Write(at, free[k].size - n), Write(at + 8, AddrAt(free, k + 1))] +
        if k == 0 then [] else [Write(LinkOf(free, k) + 8, at)]
  }

  /** Made one by one, these are the writes of the search. */
  lemma SearchStoresAre(m: Mem, head: nat, free: seq<Node>, n: nat)
    requires SearchWrites(m, head, free, n).Some?
    requires forall k | 0 < k <= |free| :: LinkOf(free, k) != 0
    ensures SearchWrites(m, head, free, n).value.0 == Applied(m, SearchStores(free, n))
  {
    hide Applied, FirstFit;
    var k := FirstFit(free, n);
    NoStores(m);
    if k < |free| {
      var at, next, prev := free[k].addr + n, AddrAt(free, k + 1), LinkOf(free, k);
      var unlink := if k == 0 then [] else [Write(prev + 8, next)];
      var node := [Write(at, free[k].size - n), Write(at + 8, next)];
      var link := if k == 0 then [] else [Write(prev + 8, at)];
      if k > 0 { AppliedOne(m, unlink[0]); }
      var m1 := Applied(m, unlink);
      assert m1 == Unlinked(m, free, k);
      if free[k].size >= n + MIN_SLOT_SIZE {
        AppliedConcat(m, unlink + node, link);
        AppliedConcat(m, unlink, node);
        AppliedTwo(m1, node[0], node[1]);
        var m2 := Applied(m1, node);
        NoStores(m2);
        if k > 0 { AppliedOne(m2, link[0]); }
        assert Applied(m2, link) == Split(m, free, k, at, free[k].size - n);
        assert SearchStores(free, n) == unlink + node + link;
      }
    }
  }

  /** All of them go to words of free nodes. */
  lemma SearchStoresInside(free: seq<Node>, n: nat)
    requires Regular(free)
    ensures forall i | 0 <= i < |SearchStores(free, n)| :: Inside(free, SearchStores(free, n)[i].addr)
  {
    var k := FirstFit(free, n);
    if k < |free| {
      hide FirstFit, Aligned;
      if k > 0 { assert RegularNode(free[k - 1]) && free[k - 1].Has(LinkOf(free, k) + 8); }
      if free[k].size >= n + MIN_SLOT_SIZE {
        assert free[k].Has(free[k].addr + n) && free[k].Has(free[k].addr + n + 8);
      }
    }
  }

  /** No store goes to a free node. */
  predicate OutsideFree(free: seq<Node>, ws: seq<Write>) {
    forall i | 0 <= i < |ws| :: !Inside(free, ws[i].addr)
  }

  /** The stores others can make meanwhile: into a carved slot, or into one carved at the bump pointer in
      the meantime. They never reach a free node. */
  lemma OthersOutside(arena: Arena, s: MemWorld, a: nat)
    requires MemInv(arena, s)
    requires (exists slot :: slot in s.w.carved && slot.Has(a)) || a >= arena.base + s.w.offset
    ensures !Inside(s.w.free, a)
  {
    hide MemInv, Inv, Heap, HeapOk, ListAt, HasWords, Headers, Layouts, Geometry;
    Parts(arena, s);
    HeapLayout(s.w.free, s.w.carved, arena.base, arena.base + s.w.offset);
    forall k | 0 <= k < |s.w.free|
      ensures !s.w.free[k].Has(a)
    {
      if slot :| slot in s.w.carved && slot.Has(a) {
        assert Before(s.w.free[k], s.w.carved[IndexOf(s.w.carved, slot)]);
      }
    }
  }

  /** A client's store is one of these ... */
  lemma ClientOutside(arena: Arena, s: MemWorld, g: Grant, a: nat, value: nat)
    requires MemInv(arena, s) && MemHappens(arena, s, ClientWrite(g, a, value)).Some?
    ensures !Inside(s.w.free, a)
  {
    hide MemInv, Inside;
    HeldGrant(arena, s, g);
    assert g.slot.Has(a);
    OthersOutside(arena, s, a);
  }

  /** ... and so are the two stores of a header. */
  lemma HeaderOutside(arena: Arena, s: MemWorld, t: nat, slot: Node, layout: Layout)
    requires MemInv(arena, s) && t < |s.w.pcs| && s.w.pcs[t] == Placing(slot) && layout == s.layouts[t]
    ensures Placeable(slot, layout) && GrantFor(slot, layout).ptr >= 16
    ensures var ptr := GrantFor(slot, layout).ptr;
      !Inside(s.w.free, ptr - 16) && !Inside(s.w.free, ptr - 8)
  {
    hide MemInv, Inv, Heap, HeapOk, ListAt, HasWords, Headers, Layouts, Geometry, Inside, ValidLayout, RequiredSlotSize;
    Parts(arena, s);
    ThreadParts(arena, s, t);
    HeldSlot(arena, s.w, t, slot);
    var ptr := PlacedGrant(slot, layout).ptr;
    assert slot.Has(ptr - 16) && slot.Has(ptr - 8);
    OthersOutside(arena, s, ptr - 16);
    OthersOutside(arena, s, ptr - 8);
  }

  lemma InsideApart(free: seq<Node>, xs: seq<Write>, ys: seq<Write>)
    requires OutsideFree(free, ys) && forall i | 0 <= i < |xs| :: Inside(free, xs[i].addr)
    ensures NoSharedWord(xs, ys)
  {
    hide Inside;
  }

  /** Whatever others store meanwhile, the section reads the free list as it was. */
  lemma ListUndisturbed(m: Mem, head: nat, free: seq<Node>, ys: seq<Write>)
    requires ListAt(m, head, free) && Regular(free) && OutsideFree(free, ys)
    requires forall i | 0 <= i < |ys| :: ys[i].addr in m
    ensures ListAt(Applied(m, ys), head, free) && Applied(m, ys).Keys == m.Keys
  {
    hide Applied, Aligned;
    AppliedKeeps(m, ys);
    forall k | 0 <= k < |free|
      ensures Spelled(Applied(m, ys), free, k)
    {
      assert Spelled(m, free, k) && RegularNode(free[k]);
      assert free[k].Has(free[k].addr) && free[k].Has(free[k].addr + 8);
      assert Untouched(ys, free[k].addr) && Untouched(ys, free[k].addr + 8);
    }
  }

  lemma FreeRegular(arena: Arena, s: MemWorld)
    requires MemInv(arena, s)
    ensures Regular(s.w.free) && ListAt(s.mem, s.head, s.w.free)
    ensures forall k | 0 < k <= |s.w.free| :: LinkOf(s.w.free, k) != 0
  {
    hide MemInv, Inv, Heap, ListAt, HasWords, Headers, Layouts, Geometry, Regular;
    Parts(arena, s);
    forall k | 0 < k <= |s.w.free|
      ensures LinkOf(s.w.free, k) != 0
    {
      NodePositive(s.mem, s.head, s.w.free, k - 1);
    }
  }

  /** A search whose stores are mixed in any way with stores of others does what it would do as one step,
      before them or after them. */
  lemma SearchIsAtomic(arena: Arena, s: MemWorld, n: nat, ys: seq<Write>, zs: seq<Write>)
    requires MemInv(arena, s) && Aligned(n) && MIN_SLOT_SIZE <= n
    requires Interleaves(SearchStores(s.w.free, n), ys, zs)
    requires OutsideFree(s.w.free, ys) && forall i | 0 <= i < |ys| :: ys[i].addr in s.mem
    ensures var r := SearchWrites(s.mem, s.head, s.w.free, n);
      r.Some? && Applied(s.mem, zs) == Applied(r.value.0, ys) &&
      SearchWrites(Applied(s.mem, ys), s.head, s.w.free, n) == Some((Applied(s.mem, zs), r.value.1))
  {
    hide MemInv, SearchWrites, SearchStores, Applied, Interleaves, OutsideFree, Regular, ListAt, Aligned, Inside;
    FreeRegular(arena, s);
    SearchInMemory(arena, s, n);
    SearchStoresAre(s.mem, s.head, s.w.free, n);
    SearchStoresInside(s.w.free, n);
    InsideApart(s.w.free, SearchStores(s.w.free, n), ys);
    MixedIsAtomic(s.mem, SearchStores(s.w.free, n), ys, zs);
    ListUndisturbed(s.mem, s.head, s.w.free, ys);
    SameOutcome(s.mem, Applied(s.mem, ys), s.head, s.w.free, n);
    SearchStoresAre(Applied(s.mem, ys), s.head, s.w.free, n);
  }

  /** Which writes a search makes depends on which words there are, not on what is in them. */
  lemma SameOutcome(m: Mem, o: Mem, head: nat, free: seq<Node>, n: nat)
    requires m.Keys == o.Keys && SearchWrites(m, head, free, n).Some?
    ensures SearchWrites(o, head, free, n).Some?
    ensures SearchWrites(o, head, free, n).value.1 == SearchWrites(m, head, free, n).value.1
  {
    hide FirstFit, Split, Unlinked, NewHead, AddrAt;
  }

  /** Likewise a defragmentation: any list of stores to free nodes that makes memory spell the defragmented
      list still does, and leaves what others stored, when theirs are mixed in. */
  lemma DefragIsAtomic(arena: Arena, s: MemWorld, stores: seq<Write>, head: nat, ys: seq<Write>, zs: seq<Write>)
    requires MemInv(arena, s) && MemHappens(arena, s, DefragTo(stores, head)).Some?
    requires Interleaves(stores, ys, zs)
    requires OutsideFree(s.w.free, ys) && forall i | 0 <= i < |ys| :: ys[i].addr in s.mem
    ensures Applied(s.mem, zs) == Applied(MemHappens(arena, s, DefragTo(stores, head)).value.mem, ys)
    ensures Applied(s.mem, zs) == Applied(Applied(s.mem, ys), stores)
    ensures ListAt(Applied(s.mem, zs), head, Defrag(s.w.free))
  {
    hide MemInv, Applied, Interleaves, Regular, ListAt, Inside, Defrag;
    assert forall i | 0 <= i < |stores| :: Inside(s.w.free, stores[i].addr);
    InsideApart(s.w.free, stores, ys);
    MixedIsAtomic(s.mem, stores, ys, zs);
    DefragRegularList(arena, s);
    StillOutside(s.w.free, ys);
    AppliedKeeps(s.mem, stores);
    ListUndisturbed(Applied(s.mem, stores), head, Defrag(s.w.free), ys);
  }

  lemma DefragRegularList(arena: Arena, s: MemWorld)
    requires MemInv(arena, s)
    ensures Regular(Defrag(s.w.free))
  {
    hide MemInv, Defrag;
    FreeRegular(arena, s);
    DefragRegular(s.w.free);
  }

  lemma StillOutside(free: seq<Node>, ys: seq<Write>)
    requires OutsideFree(free, ys)
    ensures OutsideFree(Defrag(free), ys)
  {
    hide Defrag;
    forall i | 0 <= i < |ys|
      ensures !Inside(Defrag(free), ys[i].addr)
    {
      forall k | 0 <= k < |Defrag(free)|
        ensures !Defrag(free)[k].Has(ys[i].addr)
      {
        if Defrag(free)[k].Has(ys[i].addr) { DefragInside(free, ys[i].addr, k); }
      }
    }
  }

  /** And a push: its two stores go to the freed slot, which nobody else writes. */
  lemma PushIsAtomic(m: Mem, slot: Node, head: nat, ys: seq<Write>, zs: seq<Write>)
    requires 16 <= slot.size && forall i | 0 <= i < |ys| :: !slot.Has(ys[i].addr)
    requires Interleaves([Write(slot.addr, slot.size), Write(slot.addr + 8, head)], ys, zs)
    ensures Applied(m, zs) == Applied(Pushed(m, slot, head), ys) == Pushed(Applied(m, ys), slot, head)
  {
    var v, w := Write(slot.addr, slot.size), Write(slot.addr + 8, head);
    assert slot.Has(slot.addr) && slot.Has(slot.addr + 8);
    hide Applied, Interleaves;
    MixedIsAtomic(m, [v, w], ys, zs);
    AppliedTwo(m, v, w);
    AppliedTwo(Applied(m, ys), v, w);
  }
}
