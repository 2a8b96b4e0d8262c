/** The sequential arena allocator over an array of 8-byte words, with its free list and slot
    headers kept in the words themselves (src/memory/allocator.rs). */
module Arena {
  import opened Collections
  import opened Bits
  import opened Wrappers
  import opened Slots
  import opened FreeList
  import opened Memory
  import opened Tiling
  import opened ArenaRep
  import opened DefragRep

  /** What the allocator's state means: the free nodes in list order, the live allocations, the bump
      pointer and the two counters. */
  datatype View = View(free: seq<Node>, grants: seq<Grant>, offset: nat, used: nat, locked: nat)

  /** The byte budget admits `needed` more bytes. */
  predicate Admits(v: View, capacity: nat, needed: nat) {
    v.locked <= capacity && v.used + needed <= capacity - v.locked
  }

  /** What one call of `alloc` may do: refuse without a trace, carve from the first node that is
      large enough, or carve at the bump pointer. */
  ghost predicate AllocStep(v: View, v': View, base: nat, capacity: nat, layout: Layout, r: Option<nat>)
    requires ValidLayout(layout)
  {
    var n := Needed(layout);
    var k := FirstFit(v.free, n);
    if !Admits(v, capacity, n) || (k == |v.free| && v.offset + n > capacity) then r.None? && v' == v
    else
      var slot := if k < |v.free| then SlotOf(v.free[k], n) else Node(base + v.offset, n);
      r.Some? &&
      v' == View(if k < |v.free| then TakeAt(v.free, k, n) else v.free,
                 v.grants + [Grant(slot, layout, r.value)],
                 if k < |v.free| then v.offset else v.offset + n,
                 v.used + slot.size, v.locked)
  }

  datatype DeallocResult = Freed | Foreign | Corrupt

  class ArenaAllocator {
    const base: nat
    const capacity: nat
    const mem: array<nat>
    var used: nat
    var offset: nat
    var locked: nat
    var head: nat
    ghost var free: seq<Node>
    ghost var grants: seq<Grant>

    ghost function Words(): Mem
      reads mem
    {
      WordsOf(base, mem[..])
    }

    ghost predicate Geometry() {
      0 < base && Aligned(base) && base + capacity < USIZE && 8 * mem.Length <= capacity < 8 * mem.Length + 8
    }

    ghost predicate HeapValid()
      reads this, mem
    {
      Geometry() && offset <= capacity && Rep(Words(), head, free, grants, base, base + offset)
    }

    ghost predicate Valid()
      reads this, mem
    {
      HeapValid() && used == Total(SlotsOf(grants)) && locked <= capacity && used + locked <= capacity + 8
    }

    ghost function Abs(): View
      reads this
    {
      View(free, grants, offset, used, locked)
    }

    /** An arena as `init` leaves it: nothing carved, nothing reserved. */
    constructor (base: nat, capacity: nat)
      requires 0 < base && Aligned(base) && base + capacity < USIZE
      ensures Valid() && this.base == base && this.capacity == capacity && fresh(mem)
      ensures Abs() == View([], [], 0, 0, 0)
    {
      this.base := base;
      this.capacity := capacity;
      mem := new nat[capacity / 8];
      used, offset, locked, head := 0, 0, 0, 0;
      free, grants := [], [];
    }

    function Fetch(a: nat): (v: nat)
      requires a in Words()
      reads mem
      ensures v == Words()[a]
    {
      WordIndex(base, mem[..], a);
      mem[(a - base) / 8]
    }

    /** `*prev` */
    function Follow(prev: nat): (v: nat)
      requires LinkOk(Words(), prev)
      reads this, mem
      ensures v == ReadLink(Words(), head, prev)
    {
      if prev == 0 then head else Fetch(prev + 8)
    }

    /** `*prev = value` */
    method Assign(prev: nat, value: nat)
      requires LinkOk(Words(), prev)
      modifies this`head, mem
      ensures Words() == WriteLink(old(Words()), prev, value)
      ensures head == NewHead(old(head), prev, value)
    {
      if prev == 0 { head := value; } else { Store(prev + 8, value); }
    }

    method Store(a: nat, v: nat)
      requires a in Words()
      modifies mem
      ensures Words() == old(Words())[a := v]
    {
      WordIndex(base, mem[..], a);
      WordsUpdate(base, mem[..], (a - base) / 8, v);
      mem[(a - base) / 8] := v;
    }

    /** src/memory/allocator.rs:64-75. */
    method PlaceHeader(slot: nat, slotSize: nat, layout: Layout) returns (ptr: nat)
      requires Geometry() && ValidLayout(layout) && Aligned(slot) && Needed(layout) <= slotSize
      requires base <= slot && slot + slotSize <= base + capacity
      modifies mem
      ensures ptr == PlacedGrant(Node(slot, slotSize), layout).ptr
      ensures Words() == WithHeader(old(Words()), Node(slot, slotSize), ptr)
    {
      hide Words, GrantOk, Aligned, And, RequiredSlotSize;
      ghost var g := PlacedGrant(Node(slot, slotSize), layout);
      HeaderWords(slot, slotSize, g.ptr);
      ptr := UserPtr(slot, layout);
      StoreHeader(ptr, ptr - slot, slotSize);
    }

    method StoreHeader(ptr: nat, slotOffset: nat, slotSize: nat)
      requires ptr >= 16 && ptr - 16 in Words() && ptr - 8 in Words()
      modifies mem
      ensures Words() == old(Words())[ptr - 16 := slotOffset][ptr - 8 := slotSize]
    {
      Store(ptr - 16, slotOffset);
      Store(ptr - 8, slotSize);
    }

    /** The header words of a slot in the arena are words of the arena. */
    lemma HeaderWords(slot: nat, slotSize: nat, ptr: nat)
      requires Geometry() && base <= slot && slot + slotSize <= base + capacity
      requires slot + 16 <= ptr <= slot + slotSize && Aligned(ptr)
      ensures ptr - 16 in Words() && ptr - 8 in Words()
    {
      WordInArena(ptr - 16);
      WordInArena(ptr - 8);
    }

    lemma WordInArena(a: nat)
      requires Geometry() && Aligned(a) && base <= a && a + 8 <= base + capacity
      ensures a in Words()
    {
      AlignedMod(a); AlignedMod(base);
      WordKeys(base, mem[..], (a - base) / 8);
    }

    /** src/memory/allocator.rs:148-166; the compare-exchange may fail spuriously any number of times. */
    method ReserveUsed(needed: nat) returns (ok: bool)
      requires Geometry()
      modifies this`used
      ensures ok <==> old(used) + needed + locked <= capacity
      ensures used == if ok then old(used) + needed else old(used)
    {
      var current := used;
      var failures: nat := *;
      while true
        invariant current == used == old(used)
        decreases failures
      {
        if locked > capacity { return false; }
        var ceiling := capacity - locked;
        var newUsed := CheckedAdd(current, needed);
        if newUsed.None? || newUsed.value > ceiling { return false; }
        if failures == 0 {
          used := newUsed.value;
          return true;
        }
        failures, current := failures - 1, used;
      }
    }

    /** src/memory/allocator.rs:167-201: walk to the first node that is large enough, unlink it, and
        either leave the remainder linked in its place or hand the node out whole. */
    method AllocFromFreeList(needed: nat, layout: Layout) returns (r: Option<nat>)
      requires HeapValid() && ValidLayout(layout) && needed == Needed(layout)
      modifies this`used, this`head, this`free, this`grants, mem
      ensures HeapValid()
      ensures r.Some? <==> FirstFit(old(free), needed) < |old(free)|
      ensures r.None? ==> Abs() == old(Abs()) && Words() == old(Words()) && head == old(head)
      ensures r.Some? ==>
        var k := FirstFit(old(free), needed);
        var slot := SlotOf(old(free)[k], needed);
        free == TakeAt(old(free), k, needed) && grants == old(grants) + [Grant(slot, layout, r.value)] &&
        used == old(used) + slot.size - needed
      ensures Kept(old(Words()), Words(), SlotsOf(old(grants)))
    {
      hide Words, HeapOk, GrantsOk, HasWords, RequiredSlotSize, SlotsOf, LinkOk, ListAt, TakeAt;
      var prev, node, k := FindFit(needed, head, free);
      if node == 0 { return None; }
      var ptr := TakeNode(prev, needed, layout, k);
      r := Some(ptr);
    }

    /** The walk of `alloc_from_free_list`: `prev` ends as the link to the first node that is large
        enough, or to the end of the list. */
    method FindFit(needed: nat, ghost head0: nat, ghost fs: seq<Node>) returns (prev: nat, node: nat, ghost k: nat)
      requires head == head0 && ListAt(Words(), head0, fs)
      ensures k == FirstFit(fs, needed) && prev == LinkOf(fs, k) && LinkOk(Words(), prev)
      ensures node == AddrAt(fs, k) && (node == 0 <==> k == |fs|)
    {
      hide Words, ListAt, LinkOk;
      prev, k := 0, 0;
      ghost var m := Words();
      LinkReads(m, head0, fs, 0);
      node := Follow(prev);
      while node != 0 && Fetch(node) < needed
        modifies {}
        invariant Words() == m && head == head0
        invariant k <= |fs| && prev == LinkOf(fs, k) && LinkOk(m, prev)
        invariant node == AddrAt(fs, k)
        invariant k < |fs| ==> Spelled(m, fs, k)
        invariant forall j | 0 <= j < k :: fs[j].size < needed
        decreases |fs| - k
      {
        prev := node;
        k := k + 1;
        LinkReads(m, head0, fs, k);
        node := Follow(prev);
      }
    }

    /** The slot's owner is written into it: from a carved slot to a live allocation. */
    method Hand(slot: nat, slotSize: nat, layout: Layout, ghost m: Mem, ghost newFree: seq<Node>) returns (ptr: nat)
      requires Geometry() && ValidLayout(layout) && Needed(layout) <= slotSize && offset <= capacity
      requires Carved(m, Words(), head, newFree, grants, Node(slot, slotSize), base, base + offset)
      modifies this`free, this`grants, mem
      ensures HeapValid()
      ensures free == newFree && grants == old(grants) + [Grant(Node(slot, slotSize), layout, ptr)]
      ensures Kept(m, Words(), SlotsOf(old(grants)))
    {
      hide Carved, Rep, Kept, Words, WithHeader, UserPtr, GrantOk, Aligned, RequiredSlotSize, SlotsOf;
      CarvedInside(Words(), m, head, newFree, grants, Node(slot, slotSize), base, base + offset);
      ghost var n, g := Words(), PlacedGrant(Node(slot, slotSize), layout);
      Granted(m, n, head, newFree, grants, base, base + offset, g);
      ptr := PlaceHeader(slot, slotSize, layout);
      free, grants := newFree, grants + [g];
    }

    method TakeNode(prev: nat, needed: nat, layout: Layout, ghost k: nat) returns (ptr: nat)
      requires HeapValid() && ValidLayout(layout) && needed == Needed(layout)
      requires k < |free| && prev == LinkOf(free, k) && LinkOk(Words(), prev) && needed <= free[k].size
      modifies this`used, this`head, this`free, this`grants, mem
      ensures HeapValid()
      ensures free == TakeAt(old(free), k, needed)
      ensures grants == old(grants) + [Grant(SlotOf(old(free)[k], needed), layout, ptr)]
      ensures used == old(used) + SlotOf(old(free)[k], needed).size - needed
      ensures Kept(old(Words()), Words(), SlotsOf(old(grants)))
    {
      ghost var m, fs := Words(), free;
      hide Carved, Kept, Split, Words, HeapOk, GrantsOk, RequiredSlotSize, HasWords, SlotsOf, TakeAt, RestOf;
      LinkReads(m, head, fs, k);
      var node := Follow(prev);
      var nodeSize := Fetch(node);
      var leftover := nodeSize - needed;
      if leftover >= MIN_SLOT_SIZE {
        RemainderWords(m, fs, SlotsOf(grants), base, base + offset, k, needed);
        CarveSplit(m, head, fs, grants, base, base + offset, k, needed);
        UnlinkAndSplit(prev, node, node + needed, leftover, fs, k);
        ptr := Hand(node, needed, layout, m, TakeAt(fs, k, needed));
      } else {
        CarveWhole(m, head, fs, grants, base, base + offset, k, needed);
        Assign(prev, Fetch(node + 8));
        used := used + leftover;
        ptr := Hand(node, nodeSize, layout, m, TakeAt(fs, k, needed));
      }
    }

    /** The pointer writes of the splitting branch, in their order. */
    method UnlinkAndSplit(prev: nat, node: nat, remainder: nat, leftover: nat, ghost fs: seq<Node>, ghost k: nat)
      requires k < |fs| && prev == LinkOf(fs, k) && LinkOk(Words(), prev) && Spelled(Words(), fs, k) &&
        node == fs[k].addr
      requires remainder in Words() && remainder + 8 in Words()
      requires prev != 0 ==> prev + 8 != remainder
      modifies this`head, mem
      ensures Words() == Split(old(Words()), fs, k, remainder, leftover)
      ensures head == NewHead(old(head), prev, remainder)
    {
      Assign(prev, Fetch(node + 8));
      Store(remainder, leftover);
      Store(remainder + 8, Follow(prev));
      Assign(prev, remainder);
    }

    /** src/memory/allocator.rs:202-223; the compare-exchange may fail spuriously any number of times. */
    method AllocFromBump(needed: nat, layout: Layout) returns (r: Option<nat>)
      requires HeapValid() && ValidLayout(layout) && needed == Needed(layout)
      modifies this`offset, this`free, this`grants, mem
      ensures HeapValid()
      ensures r.Some? <==> old(offset) + needed <= capacity
      ensures r.None? ==> Abs() == old(Abs()) && Words() == old(Words())
      ensures r.Some? ==>
        offset == old(offset) + needed && free == old(free) &&
        grants == old(grants) + [Grant(Node(base + old(offset), needed), layout, r.value)]
      ensures Kept(old(Words()), Words(), SlotsOf(old(grants)))
    {
      hide Words, HeapOk, GrantsOk, HasWords, RequiredSlotSize, SlotsOf, ListAt, Aligned, And;
      OffsetAligned();
      var current := offset;
      var failures: nat := *;
      while true
        invariant current == offset && unchanged(this) && unchanged(mem)
        decreases failures
      {
        var slotStart := AlignUp(current, SLOT_ALIGN);
        var next := CheckedAdd(slotStart, needed);
        if next.None? || next.value > capacity { return None; }
        if failures == 0 {
          BumpCarves(needed);
          offset := next.value;
          var ptr := Hand(base + slotStart, needed, layout, Words(), free);
          return Some(ptr);
        }
        failures, current := failures - 1, offset;
      }
    }

    lemma OffsetAligned()
      requires HeapValid()
      ensures offset + SLOT_ALIGN - 1 < USIZE && AlignUp(offset, SLOT_ALIGN) == offset
    {
      hide ListAt, GrantsOk, HasWords, Words;
      AlignedSum(base, offset);
      assert base >= SLOT_ALIGN;
      AlignUpOfAligned(offset);
    }

    lemma BumpCarves(needed: nat)
      requires HeapValid() && offset + needed <= capacity && Aligned(needed) && MIN_SLOT_SIZE <= needed
      ensures Carved(Words(), Words(), head, free, grants, Node(base + offset, needed), base, base + offset + needed)
    {
      hide ListAt, GrantsOk, Words, SlotsOf;
      BumpKeeps(free, SlotsOf(grants), base, base + offset, needed);
      forall a: nat | base <= a < base + offset + needed && Aligned(a)
        ensures a in Words()
      {
        AlignedGap(a, base + offset + needed);
        WordInArena(a);
      }
    }

    /** src/memory/allocator.rs:77-101. */
    method Alloc(layout: Layout) returns (r: Option<nat>)
      requires Valid() && ValidLayout(layout)
      modifies this, mem
      ensures Valid()
      ensures AllocStep(old(Abs()), Abs(), base, capacity, layout, r)
      ensures var n := Needed(layout);
        r.Some? <==> old(used) + n + locked <= capacity && (SomeNode(old(free), n) || old(offset) + n <= capacity)
      ensures r.None? ==> Words() == old(Words()) && head == old(head)
      ensures Kept(old(Words()), Words(), SlotsOf(old(grants)))
    {
      hide Words, Rep, RequiredSlotSize, SlotsOf, TakeAt, Geometry;
      var size := RequiredSlotSize(layout);
      if size.None? { return None; }
      var needed := size.value;
      ghost var before, fs := grants, free;
      var reserved := ReserveUsed(needed);
      if !reserved { return None; }
      ExcessAtMost8(needed);
      r := AllocFromFreeList(needed, layout);
      if r.None? {
        r := AllocFromBump(needed, layout);
        if r.None? { used := used - needed; }
      }
      if r.Some? { TotalAppend(before, grants[|before|]); }
    }

    lemma ExcessAtMost8(needed: nat)
      requires HeapValid() && Aligned(needed) && MIN_SLOT_SIZE <= needed
      ensures var k := FirstFit(free, needed); k < |free| ==> needed <= SlotOf(free[k], needed).size <= needed + 8
    {
      hide ListAt, GrantsOk, HasWords, Words, SlotsOf;
      var k := FirstFit(free, needed);
      if k < |free| { TakeRegular(free, k, needed); }
    }

    /** src/memory/allocator.rs:103-145. The guards send a pointer outside the arena to the system's
        allocator and drop a slot that would leave the arena; for a live pointer neither happens. */
    method Dealloc(ptr: nat, ghost i: nat) returns (r: DeallocResult)
      requires Valid() && (base <= ptr < base + capacity ==> i < |grants| && ptr == grants[i].ptr)
      modifies this, mem
      ensures Valid()
      ensures r == if base <= ptr < base + capacity then Freed else Foreign
      ensures i < |old(grants)| && ptr == old(grants)[i].ptr ==> r == Freed
      ensures r == Foreign ==> Abs() == old(Abs()) && Words() == old(Words()) && head == old(head)
      ensures r == Freed ==>
        (i < |old(grants)| && free == [old(grants)[i].slot] + old(free) &&
         grants == old(grants)[..i] + old(grants)[i + 1..] && used == old(used) - old(grants)[i].slot.size &&
         offset == old(offset) && locked == old(locked))
      ensures Kept(old(Words()), Words(), SlotsOf(grants))
    {
      hide Words, Rep, SlotsOf, Aligned, Kept, Pushed;
      LiveInside(ptr, i);
      if ptr < base || ptr >= base + capacity {
        KeptItself(Words(), SlotsOf(grants));
        return Foreign;
      }
      ghost var m, head0, slot := Words(), head, grants[i].slot;
      LivePointer(m, head, free, grants, base, base + offset, i);
      Released(m, head, free, grants, base, base + offset, i);
      TotalRelease(grants, i);
      var slotOffset := Fetch(ptr - HEADER_SIZE);
      var slotSize := Fetch(ptr - HEADER_SIZE + 8);
      var slotStart := ptr - slotOffset;
      if slotStart < base || slotStart + slotSize > base + capacity { return Corrupt; }
      Push(slotStart, slotSize);
      free, grants := [slot] + free, RemoveAt(grants, i);
      used := used - slotSize;
      r := Freed;
    }

    lemma LiveInside(ptr: nat, i: nat)
      requires HeapValid()
      ensures i < |grants| && ptr == grants[i].ptr ==> base <= ptr < base + capacity
    {
      hide Words, Rep, SlotsOf, Aligned;
      if i < |grants| { LivePointer(Words(), head, free, grants, base, base + offset, i); }
    }

    method Push(node: nat, size: nat)
      requires node in Words() && node + 8 in Words()
      modifies this`head, mem
      ensures Words() == Pushed(old(Words()), Node(node, size), old(head)) && head == node
    {
      Store(node, size);
      Store(node + 8, head);
      head := node;
    }

    /** src/memory/allocator.rs:334-364: insertion sort of the free list by address, then one pass
        that merges neighbours, all by rewriting links and sizes in place. */
    method Defragment()
      requires Valid()
      modifies this`head, this`free, mem
      ensures Valid()
      ensures Abs() == old(Abs()).(free := Defrag(old(free)))
      ensures Kept(old(Words()), Words(), SlotsOf(grants))
    {
      hide Words, Kept, SlotsOf, HasWords, GrantsOk, ListAt, HeapOk, SortInto, Coalesce;
      ghost var m, slots := Words(), SlotsOf(grants);
      FreeAllOut(free, slots, base, base + offset);
      DefragKeeps(free, slots, base, base + offset);
      var sorted := SortList(slots);
      ghost var mid := Words();
      Coalescing(sorted, SortInto([], free), slots);
      head := sorted;
      KeptTrans(m, mid, Words(), slots);
      GrantsKept(m, Words(), grants);
      HasWordsKept(m, Words(), slots, base, base + offset);
      free := Defrag(free);
    }

    /** The insertion sort; afterwards the list hangs off `sorted` instead of `head`. */
    method SortList(ghost slots: seq<Node>) returns (sorted: nat)
      requires ListAt(Words(), head, free) && Spaced(free) && AllOut(free, slots)
      modifies mem
      ensures ListAt(Words(), sorted, SortInto([], free)) && Spaced(SortInto([], free)) &&
        AllOut(SortInto([], free), slots)
      ensures Kept(old(Words()), Words(), slots)
    {
      hide Words, Spaced, AllOut;
      sorted := 0;
      var current := head;
      ghost var m, done, rest := Words(), [], free;
      assert [] + free == free;
      while current != 0
        invariant Sorting(Words(), sorted, done, current, rest, slots)
        invariant SortInto(done, rest) == SortInto([], free)
        invariant Kept(m, Words(), slots)
        decreases |rest|
      {
        hide Kept;
        HeadIs(Words(), current, rest);
        var next := Fetch(current + 8);
        var prev, place, k := FindPlace(sorted, current, done);
        InsertStep(Words(), sorted, done, current, rest, k, slots);
        InsertIsInsertAt(done, rest[0], k);
        KeptTrans(m, Words(), Inserted(Words(), done, k, rest[0]), slots);
        Store(current + 8, place);
        if prev == 0 { sorted := current; } else { Store(prev + 8, current); }
        done, rest := InsertAt(done, k, rest[0]), rest[1..];
        current := next;
      }
      NullEnds(Words(), current, rest, 0);
      assert done + rest == done;
    }

    /** The inner walk of the sort: the link behind which the node at `current` belongs. */
    method FindPlace(sorted: nat, current: nat, ghost done: seq<Node>) returns (prev: nat, place: nat, ghost k: nat)
      requires ListAt(Words(), sorted, done)
      ensures k <= |done| && prev == LinkOf(done, k) && LinkOk(Words(), prev) && place == AddrAt(done, k)
      ensures prev == 0 <==> k == 0
      ensures forall j | 0 <= j < k :: done[j].addr < current
      ensures k < |done| ==> !(done[k].addr < current)
    {
      hide Words, ListAt, LinkOk;
      prev, place, k := 0, sorted, 0;
      ghost var m := Words();
      LinkReads(m, sorted, done, 0);
      while place != 0 && place < current
        modifies {}
        invariant Words() == m
        invariant k <= |done| && prev == LinkOf(done, k) && LinkOk(m, prev) && place == AddrAt(done, k)
        invariant prev == 0 <==> k == 0
        invariant k < |done| ==> Spelled(m, done, k)
        invariant forall j | 0 <= j < k :: done[j].addr < current
        decreases |done| - k
      {
        prev := place;
        place := Fetch(place + 8);
        k := k + 1;
        LinkReads(m, sorted, done, k);
      }
    }

    static lemma CoalesceNothing(fs: seq<Node>)
      ensures fs[..0] + Coalesce(fs[0..]) == Coalesce(fs)
    {
      assert fs[0..] == fs;
    }

    /** The merging pass over the sorted list. */
    method Coalescing(sorted: nat, ghost fs: seq<Node>, ghost slots: seq<Node>)
      requires ListAt(Words(), sorted, fs) && Spaced(fs) && AllOut(fs, slots)
      modifies mem
      ensures ListAt(Words(), sorted, Coalesce(fs))
      ensures Kept(old(Words()), Words(), slots)
    {
      hide Words, Spaced, AllOut, Kept, Coalesce;
      CoalesceNothing(fs);
      KeptItself(Words(), slots);
      var node := sorted;
      ghost var m, cur, i, target := Words(), fs, 0, Coalesce(fs);
      while node != 0 && Fetch(node + 8) != 0
        invariant Merging(Words(), sorted, cur, i, target, slots)
        invariant node == AddrAt(cur, i) && (i < |cur| ==> Spelled(Words(), cur, i))
        invariant Kept(m, Words(), slots)
        decreases |cur| - i
      {
        var next := Fetch(node + 8);
        assert i + 1 < |cur| && next == cur[i + 1].addr;
        assert Spelled(Words(), cur, i + 1);
        if node + Fetch(node) == next {
          MergeStep(Words(), sorted, cur, i, target, slots);
          KeptTrans(m, Words(), Merged(Words(), cur, i), slots);
          Store(node, Fetch(node) + Fetch(next));
          Store(node + 8, Fetch(next + 8));
          cur := MergeAt(cur, i);
        } else {
          SkipStep(Words(), sorted, cur, i, target, slots);
          node := next;
          i := i + 1;
        }
      }
      NullEnds(Words(), sorted, cur, i);
      NullEnds(Words(), sorted, cur, i + 1);
      LastStep(Words(), sorted, cur, i, target, slots);
    }

    /** src/memory/allocator.rs:311-319. */
    method SetLockedSize(size: nat) returns (ok: bool)
      requires Valid()
      modifies this`locked
      ensures Valid()
      ensures ok == (used + size <= capacity)
      ensures locked == if ok then size else old(locked)
    {
      hide Words, Rep, SlotsOf;
      var sum := CheckedAdd(used, size);
      if sum.None? || sum.value > capacity { return false; }
      locked := size;
      ok := true;
    }

    /** src/memory/allocator.rs:268-276: in a sequential run the subtraction never underflows, and
        the tail reservation is free up to the 8 bytes of a slot handed out whole. */
    method GetFreeMemSize() returns (r: nat)
      requires Valid()
      ensures r == capacity - Total(SlotsOf(grants))
      ensures locked <= r + 8
    {
      hide Words, ListAt, GrantsOk, HasWords, SlotsOf;
      TotalsAddUp(free, SlotsOf(grants), base, base + offset);
      r := capacity - used;
    }

    /** A client writes a word that overlaps its own block. */
    method UserWrite(a: nat, value: nat, ghost i: nat)
      requires Valid() && i < |grants| && a in Words() && Aligned(a)
      requires grants[i].ptr <= a < grants[i].ptr + grants[i].layout.size
      modifies mem
      ensures Valid() && Words() == old(Words())[a := value]
    {
      hide Words, Rep, SlotsOf, Aligned;
      UserWriteKeeps(Words(), head, free, grants, base, base + offset, i, a, value);
      Store(a, value);
    }
  }

  lemma CarvedInside(n: Mem, m: Mem, head: nat, free: seq<Node>, grants: seq<Grant>, slot: Node, lo: nat, hi: nat)
    requires Carved(m, n, head, free, grants, slot, lo, hi)
    ensures lo <= slot.addr && slot.End() <= hi && Aligned(slot.addr)
  {
    var slots := SlotsOf(grants) + [slot];
    HeapLayout(free, slots, lo, hi);
    assert slots[|slots| - 1] == slot && RegularNode(slot);
  }
}
