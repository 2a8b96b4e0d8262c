/** Laws across the operations of the sequential allocator. */
module ArenaLaws {
  import opened Collections
  import opened Wrappers
  import opened Slots
  import opened FreeList
  import opened Tiling
  import opened ArenaRep
  import opened Arena

  ghost predicate ViewOk(v: View, base: nat) {
    HeapOk(v.free, SlotsOf(v.grants), base, base + v.offset)
  }

  /** A request is served exactly if it fits beside the live slots and the tail and there is a free node
      large enough or room behind the bump pointer; a refusal leaves no trace. */
  lemma AllocServedIff(v: View, v': View, base: nat, capacity: nat, layout: Layout, r: Option<nat>)
    requires ValidLayout(layout) && AllocStep(v, v', base, capacity, layout, r)
    ensures var n := Needed(layout);
      r.Some? <==> v.used + n + v.locked <= capacity && (SomeNode(v.free, n) || v.offset + n <= capacity)
    ensures r.None? ==> v' == v
  {
    hide RequiredSlotSize, SlotOf, TakeAt;
    assert FirstFit(v.free, Needed(layout)) < |v.free| <==> SomeNode(v.free, Needed(layout));
  }

  /** The first node that is large enough serves it: its front where at least 16 bytes remain, which stay in
      its place, and else all of it, then counted whole. */
  lemma AllocTakes(v: View, v': View, base: nat, capacity: nat, layout: Layout, r: Option<nat>, k: nat)
    requires ValidLayout(layout) && AllocStep(v, v', base, capacity, layout, r) && r.Some?
    requires FirstOf(v.free, Needed(layout), k)
    ensures var n, node := Needed(layout), v.free[k];
      v' == if node.size >= n + 16
            then View(v.free[..k] + [Node(node.addr + n, node.size - n)] + v.free[k + 1..],
                      v.grants + [Grant(Node(node.addr, n), layout, r.value)], v.offset, v.used + n, v.locked)
            else View(v.free[..k] + v.free[k + 1..],
                      v.grants + [Grant(node, layout, r.value)], v.offset, v.used + node.size, v.locked)
  {
    hide RequiredSlotSize, SlotOf, TakeAt;
    var n := Needed(layout);
    FirstOfIs(v.free, n, k);
    if v.free[k].size >= n + 16 { TakeSplits(v.free, n, k); } else { TakeWhole(v.free, n, k); }
  }

  /** Only where no node is large enough does the bump pointer serve it. */
  lemma AllocBumps(v: View, v': View, base: nat, capacity: nat, layout: Layout, r: Option<nat>)
    requires ValidLayout(layout) && AllocStep(v, v', base, capacity, layout, r) && r.Some?
    requires !SomeNode(v.free, Needed(layout))
    ensures var n := Needed(layout);
      v' == View(v.free, v.grants + [Grant(Node(base + v.offset, n), layout, r.value)], v.offset + n, v.used + n,
                 v.locked)
  {
    hide RequiredSlotSize, SlotOf, TakeAt;
  }

  /** What `dealloc` of the `i`-th live allocation makes of a state (the contract of
      `ArenaAllocator.Dealloc`). */
  function Deallocated(v: View, i: nat): View
    requires i < |v.grants| && v.grants[i].slot.size <= v.used
  {
    View([v.grants[i].slot] + v.free, RemoveAt(v.grants, i), v.offset, v.used - v.grants[i].slot.size, v.locked)
  }

  /** Freeing what was just allocated restores the live allocations and `used`, and gives back
      precisely the slot's bytes: the free bytes are those from before, plus the slot when it was
      carved at the bump pointer. */
  lemma DeallocInvertsAlloc(v: View, v': View, base: nat, capacity: nat, layout: Layout, r: Option<nat>, b: int)
    requires ValidLayout(layout) && AllocStep(v, v', base, capacity, layout, r) && r.Some?
    ensures v'.grants != [] && v'.grants[|v.grants|].slot.size <= v'.used
    ensures var w := Deallocated(v', |v.grants|);
      w.grants == v.grants && w.used == v.used && w.locked == v.locked &&
      Cover(w.free, b) == Cover(v.free, b) + if base + v.offset <= b < base + w.offset then 1 else 0
  {
    var n, k := Needed(layout), FirstFit(v.free, Needed(layout));
    hide RequiredSlotSize;
    assert RemoveAt(v'.grants, |v.grants|) == v.grants;
    var slot := v'.grants[|v.grants|].slot;
    CoverConcat([slot], v'.free, b);
    assert Cover([slot], b) == One(slot, b);
    if k < |v.free| { TakeConserves(v.free, k, n, b); }
  }

  /** ... so after defragmentation nothing tells that the allocation ever happened, unless it moved
      the bump pointer. */
  lemma AllocFreeDefrag(v: View, v': View, base: nat, capacity: nat, layout: Layout, r: Option<nat>)
    requires ViewOk(v, base) && ValidLayout(layout) && AllocStep(v, v', base, capacity, layout, r) && r.Some?
    requires v'.offset == v.offset
    ensures v'.grants != [] && v'.grants[|v.grants|].slot.size <= v'.used
    ensures var w := Deallocated(v', |v.grants|);
      w.(free := Defrag(w.free)) == v.(free := Defrag(v.free))
  {
    DeallocInvertsAlloc(v, v', base, capacity, layout, r, 0);
    var w := Deallocated(v', |v.grants|);
    var slots := SlotsOf(v.grants);
    HeapDisjoint(v.free, slots, base, base + v.offset);
    forall b ensures Cover(w.free, b) == Cover(v.free, b) {
      DeallocInvertsAlloc(v, v', base, capacity, layout, r, b);
    }
    FreedPositive(v, v', base, capacity, layout, r);
    DefragConfluent(w.free, v.free);
  }

  lemma FreedPositive(v: View, v': View, base: nat, capacity: nat, layout: Layout, r: Option<nat>)
    requires Positive(v.free) && ValidLayout(layout) && AllocStep(v, v', base, capacity, layout, r) && r.Some?
    ensures Positive([v'.grants[|v.grants|].slot] + v'.free)
  {
    var n, k := Needed(layout), FirstFit(v.free, Needed(layout));
    hide RequiredSlotSize;
    if k < |v.free| {
      var out, rest := TakeAt(v.free, k, n), RestOf(v.free[k], n);
      forall i | 0 <= i < |out| ensures out[i].size > 0 {
        if i < k { assert out[i] == v.free[i]; }
        else if i >= k + |rest| { assert out[i] == v.free[i - |rest| + 1]; }
      }
    }
  }

  /** A request is served: the budget admits it and a free node or the bump pointer has room. */
  predicate Served(v: View, capacity: nat, n: nat) {
    Admits(v, capacity, n) && (FirstFit(v.free, n) < |v.free| || v.offset + n <= capacity)
  }

  /** Any request that would succeed now still succeeds after defragmentation; and when the bump
      pointer has no room, it then succeeds exactly when the budget admits it and some contiguous
      free region is large enough. */
  lemma DefragServed(v: View, base: nat, capacity: nat, n: nat)
    requires ViewOk(v, base) && n > 0
    ensures Served(v, capacity, n) ==> Served(v.(free := Defrag(v.free)), capacity, n)
    ensures v.offset + n > capacity ==>
      (Served(v.(free := Defrag(v.free)), capacity, n) <==> Admits(v, capacity, n) && exists a :: Run(v.free, a, n))
  {
    HeapDisjoint(v.free, SlotsOf(v.grants), base, base + v.offset);
    DefragServes(v.free, n);
    if FirstFit(v.free, n) < |v.free| { DefragServesMore(v.free, n); }
  }

  // ---- The tail reservation ----

  /** The reserved tail is kept clear of allocations exactly unless the first node that fits is 8
      bytes too large to fit exactly, too small to be split, and the budget has no 8 bytes to spare:
      those 8 bytes are added to `used` without asking the budget again. */
  lemma HeadroomExactlyWhen(v: View, v': View, base: nat, capacity: nat, layout: Layout, r: Option<nat>)
    requires ViewOk(v, base) && ValidLayout(layout) && AllocStep(v, v', base, capacity, layout, r) && r.Some?
    requires v.used + v.locked <= capacity
    ensures var n, k := Needed(layout), FirstFit(v.free, Needed(layout));
      v'.used + v'.locked <= capacity <==>
      !(k < |v.free| && v.free[k].size == n + 8 && v.used + n + v.locked > capacity - 8)
    ensures v'.used + v'.locked <= capacity + 8
  {
    var n, k := Needed(layout), FirstFit(v.free, Needed(layout));
    assert Aligned(n) && MIN_SLOT_SIZE <= n;
    hide RequiredSlotSize, HeapOk;
    if k < |v.free| {
      assert Regular(v.free) by { ViewRegular(v, base); }
      TakeRegular(v.free, k, n);
      AlignedExcess(v.free[k], n);
    }
  }

  lemma ViewRegular(v: View, base: nat)
    requires ViewOk(v, base)
    ensures Regular(v.free)
  {
  }

  /** A node handed out whole is exactly as large as asked or 8 bytes larger. */
  lemma AlignedExcess(node: Node, n: nat)
    requires RegularNode(node) && Aligned(n) && n <= node.size
    ensures SlotOf(node, n).size != n <==> node.size == n + 8
  {
    AlignedMod(node.size);
    AlignedMod(n);
  }

  /** An arena whose only free node was allocated at the bump pointer and freed again. */
  method OneFreeNode(base: nat, capacity: nat, n: nat) returns (arena: ArenaAllocator)
    requires 0 < base && Aligned(base) && base + capacity < Bits.USIZE && n <= capacity
    requires 24 <= n <= 0x2_0000_0000 && n % 8 == 0
    ensures fresh(arena) && fresh(arena.mem) && arena.Valid() && arena.capacity == capacity && arena.base == base
    ensures arena.Abs() == View([Node(base, n)], [], n, 0, 0)
  {
    ExactSize(n);
    hide RequiredSlotSize, ArenaAllocator.HeapValid, ArenaAllocator.Valid, AllocStep, SlotsOf, Aligned, Kept;
    arena := new ArenaAllocator(base, capacity);
    var p := arena.Alloc(Layout(n - 16, 1));
    FirstAlloc(arena.Abs(), base, capacity, Layout(n - 16, 1), p);
    var freed := arena.Dealloc(p.value, 0);
    assert [Node(base, n)] + [] == [Node(base, n)];
    assert arena.grants == [];
  }

  /** The first allocation of an empty arena comes from the bump pointer. */
  lemma FirstAlloc(v': View, base: nat, capacity: nat, layout: Layout, r: Option<nat>)
    requires ValidLayout(layout) && AllocStep(View([], [], 0, 0, 0), v', base, capacity, layout, r) &&
      Needed(layout) <= capacity
    ensures var n := Needed(layout);
      r.Some? && v' == View([], [Grant(Node(base, n), layout, r.value)], n, n, 0)
  {
    hide RequiredSlotSize;
    assert FirstFit([], Needed(layout)) == 0;
  }

  /** It happens: with one free node of 32 bytes, reserve all but 24 bytes of the arena and allocate
      24. */
  method HeadroomRun(base: nat, capacity: nat) returns (arena: ArenaAllocator)
    requires 0 < base && Aligned(base) && base + capacity < Bits.USIZE && capacity >= 32
    ensures fresh(arena) && arena.Valid() && arena.capacity == capacity
    ensures arena.used + arena.locked == capacity + 8
  {
    hide RequiredSlotSize, ArenaAllocator.HeapValid;
    arena := OneFreeNode(base, capacity, 32);
    var n := 24;
    var ok := arena.SetLockedSize(capacity - n);
    ExactSize(n);
    FirstOfOne(Node(base, 32), n);
    var q := arena.Alloc(Layout(n - 16, 1));
  }

  lemma FirstOfOne(node: Node, n: nat)
    requires n <= node.size < n + MIN_SLOT_SIZE
    ensures FirstFit([node], n) == 0 && SlotOf(node, n) == node
  {
  }
}
