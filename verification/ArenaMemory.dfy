/** The concurrent allocator over the words of the arena: free-list nodes and slot headers live in
    memory, clients write into their blocks at any time, and `dealloc` learns the slot from the header
    words in front of the pointer, outside the mutex (src/memory/allocator.rs:33-41, 64-75, 103-137,
    167-201). Every run over memory is a run of `ArenaThreads`. */
module ArenaMemory {
  import opened Collections
  import opened Wrappers
  import opened Bits
  import opened Slots
  import opened FreeList
  import opened Memory
  import opened Writes
  import opened Tiling
  import opened ArenaRep
  import opened ArenaThreads

  /** `grants` are the allocations whose pointer the program has, by slot; `layouts` what each thread was
      last asked for. Both are bookkeeping: what the allocator reads is `mem` and `head`. */
  datatype MemWorld = MemWorld(w: World, mem: Mem, head: nat, grants: map<Node, Grant>, layouts: seq<Layout>)

  /** `ClientWrite` is a store that overlaps a block the program holds. `DefragTo` carries the
      stores of the two loops of a defragmentation, all of them to words of free nodes. */
  datatype MemEvent =
    | Alloc(t: nat, layout: Layout)
    | Free(t: nat, g: Grant)
    | SetLocked(t: nat, size: nat)
    | Access(t: nat, spurious: bool)
    | ClientWrite(g: Grant, a: nat, value: nat)
    | DefragTo(stores: seq<Write>, head: nat)

  /** src/memory/allocator.rs:115-127: the slot the header words name, when both range guards pass. */
  function Recovered(arena: Arena, m: Mem, ptr: nat): Option<Node> {
    if ptr < arena.base || ptr >= arena.base + arena.capacity then None
    else if ptr < 16 || ptr - 16 !in m || ptr - 8 !in m || m[ptr - 16] > ptr then None
    else
      var slot := Node(ptr - m[ptr - 16], m[ptr - 8]);
      if slot.addr < arena.base || slot.End() > arena.base + arena.capacity then None else Some(slot)
  }

  /** The writes of a search for `n` bytes; None when one would leave the arena. */
  function SearchWrites(m: Mem, head: nat, free: seq<Node>, n: nat): Option<(Mem, nat)> {
    var k := FirstFit(free, n);
    if k == |free| then Some((m, head))
    else
      var prev, at := LinkOf(free, k), free[k].addr + n;
      if !LinkOk(m, prev) then None
      else if free[k].size < n + MIN_SLOT_SIZE then
        Some((Unlinked(m, free, k), NewHead(head, prev, AddrAt(free, k + 1))))
      else if at !in m || at + 8 !in m then None
      else Some((Split(m, free, k, at, free[k].size - n), NewHead(head, prev, at)))
  }

  /** The header of this grant is inside the arena's words. */
  predicate HeaderWordsIn(m: Mem, g: Grant) {
    16 <= g.ptr && g.slot.addr <= g.ptr && g.ptr - 16 in m && g.ptr - 8 in m
  }

  ghost predicate Placeable(slot: Node, layout: Layout) {
    ValidLayout(layout) && slot.addr + Needed(layout) < USIZE
  }

  function GrantFor(slot: Node, layout: Layout): Grant
    requires Placeable(slot, layout)
  {
    Grant(slot, layout, UserPtr(slot.addr, layout))
  }

  /** An access of thread `t` together with what it does to memory; None when the thread is idle or would
      touch a word outside the arena. */
  ghost function MemAccess(arena: Arena, s: MemWorld, t: nat, spurious: bool): Option<MemWorld>
    requires t < |s.w.pcs| && t < |s.layouts|
  {
    if Advance(arena, s.w, t, spurious).None? then None
    else
      var w', m := Advance(arena, s.w, t, spurious).value, s.mem;
      match s.w.pcs[t]
      case Searching(n) =>
        var r := SearchWrites(m, s.head, s.w.free, n);
        if r.None? then None else Some(s.(w := w', mem := r.value.0, head := r.value.1))
      case Placing(slot) =>
        if Placeable(slot, s.layouts[t]) && HeaderWordsIn(m, GrantFor(slot, s.layouts[t])) then
          var g := GrantFor(slot, s.layouts[t]);
          Some(s.(w := w', mem := WithHeader(m, slot, g.ptr), grants := s.grants[slot := g]))
        else None
      case Freeing(slot) =>
        if NodeWords(m, slot) then Some(s.(w := w', mem := Pushed(m, slot, s.head), head := slot.addr)) else None
      case _ => Some(s.(w := w'))
  }

  /** Byte `a` belongs to a free node. */
  predicate Inside(free: seq<Node>, a: nat) {
    exists k | 0 <= k < |free| :: free[k].Has(a)
  }

  /** Stores to words of free nodes only. */
  ghost predicate InFree(m: Mem, free: seq<Node>, ws: seq<Write>) {
    forall i | 0 <= i < |ws| :: ws[i].addr in m && Inside(free, ws[i].addr)
  }

  /** The program holds this allocation. */
  predicate HasGrant(s: MemWorld, g: Grant) {
    g.slot in s.w.handed && g.slot in s.grants && s.grants[g.slot] == g
  }

  ghost function MemHappens(arena: Arena, s: MemWorld, e: MemEvent): Option<MemWorld> {
    match e
    case Alloc(t, layout) =>
      var w := Step(arena, s.w, t, StartAlloc(layout));
      if w.Some? && t < |s.layouts| then Some(s.(w := w.value, layouts := s.layouts[t := layout])) else None
    case SetLocked(t, size) =>
      var w := Step(arena, s.w, t, StartSetLocked(size));
      if w.Some? then Some(s.(w := w.value)) else None
    case Free(t, g) =>
      if t < |s.w.pcs| && s.w.pcs[t].Idle? && HasGrant(s, g) then
        var slot := Recovered(arena, s.mem, g.ptr);
        var w := s.w.(handed := s.w.handed - {g.slot});
        Some(s.(w := Goto(w, t, if slot.Some? then Freeing(slot.value) else Idle)))
      else None
    case Access(t, spurious) => if t < |s.w.pcs| && t < |s.layouts| then MemAccess(arena, s, t, spurious) else None
    case ClientWrite(g, a, value) =>
      if HasGrant(s, g) && Aligned(a) && a in s.mem && g.ptr <= a < g.ptr + g.layout.size
      then Some(s.(mem := s.mem[a := value])) else None
    case DefragTo(stores, head) =>
      if InFree(s.mem, s.w.free, stores) && ListAt(Applied(s.mem, stores), head, Defrag(s.w.free))
      then Some(s.(w := s.w.(free := Defrag(s.w.free)), mem := Applied(s.mem, stores), head := head)) else None
  }

  ghost function MemExec(arena: Arena, s: MemWorld, events: seq<MemEvent>): Option<MemWorld>
    decreases |events|
  {
    if events == [] then Some(s)
    else match MemHappens(arena, s, events[0])
      case None => None
      case Some(s') => MemExec(arena, s', events[1..])
  }

  // ---- The invariant ----

  /** The header words of a handed slot name that slot. */
  ghost predicate HeaderOk(s: MemWorld, slot: Node) {
    slot in s.grants && s.grants[slot].slot == slot && GrantOk(s.grants[slot]) && HeaderAt(s.mem, s.grants[slot])
  }

  /** A thread carves what its layout needs. */
  ghost predicate LayoutOk(pc: Pc, layout: Layout) {
    match pc
    case LoadingUsed(n) => ValidLayout(layout) && n == Needed(layout)
    case Deciding(n, _) => ValidLayout(layout) && n == Needed(layout)
    case Reserving(n, _) => ValidLayout(layout) && n == Needed(layout)
    case Searching(n) => ValidLayout(layout) && n == Needed(layout)
    case AddingExcess(n, slot) => ValidLayout(layout) && n == Needed(layout) && n <= slot.size
    case LoadingOffset(n) => ValidLayout(layout) && n == Needed(layout)
    case Bumping(n, _) => ValidLayout(layout) && n == Needed(layout)
    case Placing(slot) => ValidLayout(layout) && Needed(layout) <= slot.size
    case _ => true
  }

  ghost predicate Layouts(s: MemWorld) {
    |s.layouts| == |s.w.pcs| && forall t | 0 <= t < |s.w.pcs| :: LayoutOk(s.w.pcs[t], s.layouts[t])
  }

  ghost predicate Headers(s: MemWorld) {
    forall slot | slot in s.w.handed :: HeaderOk(s, slot)
  }

  predicate Geometry(arena: Arena) {
    ArenaOk(arena) && arena.base + arena.capacity < USIZE
  }

  /** Memory spells the free list and the headers of all allocations. */
  ghost predicate MemInv(arena: Arena, s: MemWorld) {
    Geometry(arena) && Inv(arena, s.w) && ListAt(s.mem, s.head, s.w.free) &&
    HasWords(s.mem, arena.base, arena.base + arena.capacity) && Headers(s) && Layouts(s)
  }

  /** What the invariant says, part by part. */
  lemma Parts(arena: Arena, s: MemWorld)
    requires MemInv(arena, s)
    ensures Geometry(arena) && Inv(arena, s.w) && Heap(arena, s.w) && Headers(s) && Layouts(s)
    ensures ListAt(s.mem, s.head, s.w.free)
    ensures HeapOk(s.w.free, s.w.carved, arena.base, arena.base + s.w.offset)
    ensures HasWords(s.mem, arena.base, arena.base + arena.capacity)
    ensures HasWords(s.mem, arena.base, arena.base + s.w.offset)
    ensures |s.layouts| == |s.w.pcs|
  {
    hide HeapOk, ListAt, Owned, Books, Headers;
    HasFewerWords(s.mem, arena.base, arena.base + arena.capacity, arena.base + s.w.offset);
  }

  lemma FromParts(arena: Arena, s: MemWorld)
    requires Geometry(arena) && Inv(arena, s.w) && ListAt(s.mem, s.head, s.w.free)
    requires HasWords(s.mem, arena.base, arena.base + arena.capacity) && Headers(s) && Layouts(s)
    ensures MemInv(arena, s)
  {
    hide Inv, ListAt, HasWords, Headers, Layouts;
  }

  lemma ThreadParts(arena: Arena, s: MemWorld, t: nat)
    requires MemInv(arena, s) && t < |s.w.pcs|
    ensures PcOk(arena, s.w.pcs[t]) && t < |s.layouts| && LayoutOk(s.w.pcs[t], s.layouts[t])
  {
    hide HeapOk, ListAt, HasWords, Owned, Headers, PcOk, LayoutOk;
  }

  lemma HasFewerWords(m: Mem, lo: nat, hi: nat, hi': nat)
    requires HasWords(m, lo, hi) && hi' <= hi
    ensures HasWords(m, lo, hi')
  {
  }

  /** A handed slot is carved, and no thread is at work on it. */
  lemma HandedAlone(arena: Arena, w: World, slot: Node, t: nat)
    requires Inv(arena, w) && slot in w.handed
    ensures slot in w.carved
    ensures t < |w.pcs| ==> !Holds(w.pcs[t], slot)
  {
    CarvedOnce(arena, w, slot);
    assert Owners(w, slot) == multiset(w.carved)[slot];
    assert slot in multiset(w.carved);
    if t < |w.pcs| && Holds(w.pcs[t], slot) { HolderCounts(w.pcs, t, slot); }
  }

  /** A grant the program holds has its block behind the header, inside its carved slot. */
  lemma HeldGrant(arena: Arena, s: MemWorld, g: Grant)
    requires MemInv(arena, s) && HasGrant(s, g)
    ensures g.slot in s.w.carved && g.slot.addr + 16 <= g.ptr && g.ptr + g.layout.size <= g.slot.End()
    ensures GrantOk(g) && HeaderAt(s.mem, g)
  {
    hide MemInv, Inv, ListAt, HasWords, Layouts, HeaderAt, GrantOk, Heap, HeapOk, Geometry;
    Parts(arena, s);
    assert HeaderOk(s, g.slot);
    HandedAlone(arena, s.w, g.slot, 0);
    GrantInside(g);
  }

  /** The header words lie in the slot, so writes elsewhere leave them. */
  lemma HeaderKept(m: Mem, n: Mem, g: Grant, slots: seq<Node>)
    requires GrantOk(g) && HeaderAt(m, g) && Kept(m, n, slots) && g.slot in slots
    ensures HeaderAt(n, g)
  {
    GrantInside(g);
    var i := IndexOf(slots, g.slot);
    assert slots[i].Has(g.ptr - 16) && slots[i].Has(g.ptr - 8);
  }

  lemma HeadersKept(arena: Arena, s: MemWorld, s': MemWorld)
    requires Inv(arena, s.w) && Headers(s) && s'.grants == s.grants && s'.w.handed <= s.w.handed
    requires Kept(s.mem, s'.mem, s.w.carved)
    ensures Headers(s')
  {
    hide Kept, HeaderAt, GrantOk, Inv;
    forall slot | slot in s'.w.handed
      ensures HeaderOk(s', slot)
    {
      assert HeaderOk(s, slot);
      HandedAlone(arena, s.w, slot, 0);
      HeaderKept(s.mem, s'.mem, s.grants[slot], s.w.carved);
    }
  }

  // ---- The steps ----

  /** What a search leaves behind: the list its branch makes, and every word of a carved slot. */
  ghost predicate Searched(s: MemWorld, n: nat, r: Option<(Mem, nat)>) {
    r.Some? && Kept(s.mem, r.value.0, s.w.carved) &&
    var k := FirstFit(s.w.free, n);
    ListAt(r.value.0, r.value.1, if k == |s.w.free| then s.w.free else TakeAt(s.w.free, k, n))
  }

  lemma SearchSplits(arena: Arena, s: MemWorld, n: nat, k: nat)
    requires MemInv(arena, s) && Aligned(n) && MIN_SLOT_SIZE <= n
    requires k == FirstFit(s.w.free, n) < |s.w.free| && n + MIN_SLOT_SIZE <= s.w.free[k].size
    ensures Searched(s, n, SearchWrites(s.mem, s.head, s.w.free, n))
  {
    hide MemInv, Inv, Heap, HeapOk, HasWords, ListAt, Headers, Layouts, Kept, Geometry, Aligned, FirstFit;
    Parts(arena, s);
    SplitInMemory(s.mem, s.head, s.w.free, s.w.carved, arena.base, arena.base + s.w.offset, k, n);
    hide Split, NewHead, TakeAt, LinkOk, LinkOf;
  }

  lemma SearchUnlinks(arena: Arena, s: MemWorld, n: nat, k: nat)
    requires MemInv(arena, s) && Aligned(n) && MIN_SLOT_SIZE <= n
    requires k == FirstFit(s.w.free, n) < |s.w.free| && s.w.free[k].size < n + MIN_SLOT_SIZE
    ensures Searched(s, n, SearchWrites(s.mem, s.head, s.w.free, n))
  {
    hide MemInv, Inv, Heap, HeapOk, HasWords, ListAt, Headers, Layouts, Kept, Geometry, Aligned, FirstFit;
    Parts(arena, s);
    UnlinkInMemory(s.mem, s.head, s.w.free, s.w.carved, arena.base, arena.base + s.w.offset, k, n);
    hide Unlinked, NewHead, TakeAt, LinkOk, LinkOf;
  }

  lemma SearchInMemory(arena: Arena, s: MemWorld, n: nat)
    requires MemInv(arena, s) && Aligned(n) && MIN_SLOT_SIZE <= n
    ensures Searched(s, n, SearchWrites(s.mem, s.head, s.w.free, n))
  {
    var k := FirstFit(s.w.free, n);
    if k == |s.w.free| {
      Parts(arena, s);
      KeptItself(s.mem, s.w.carved);
    } else if s.w.free[k].size < n + MIN_SLOT_SIZE {
      hide MemInv, Searched, SearchWrites;
      SearchUnlinks(arena, s, n, k);
    } else {
      hide MemInv, Searched, SearchWrites;
      SearchSplits(arena, s, n, k);
    }
  }

  /** A step that changes no word of a carved slot and keeps the list in memory. */
  lemma KeptKeeps(arena: Arena, s: MemWorld, s': MemWorld)
    requires MemInv(arena, s) && Inv(arena, s'.w) && ListAt(s'.mem, s'.head, s'.w.free) && Layouts(s')
    requires Kept(s.mem, s'.mem, s.w.carved) && s'.grants == s.grants && s'.w.handed <= s.w.handed
    ensures MemInv(arena, s')
  {
    hide Inv, ListAt, Headers, Layouts;
    HeadersKept(arena, s, s');
    HasWordsKept(s.mem, s'.mem, s.w.carved, arena.base, arena.base + arena.capacity);
  }

  lemma LayoutsKept(s: MemWorld, s': MemWorld, t: nat, pc: Pc)
    requires Layouts(s) && t < |s.w.pcs| && s'.w.pcs == s.w.pcs[t := pc] && s'.layouts == s.layouts
    requires LayoutOk(pc, s.layouts[t])
    ensures Layouts(s')
  {
  }

  /** Each access leads on to the carving of what the layout needs. */
  lemma AdvanceLayout(arena: Arena, w: World, t: nat, spurious: bool, layout: Layout) returns (pc: Pc)
    requires t < |w.pcs| && Advance(arena, w, t, spurious).Some? && LayoutOk(w.pcs[t], layout)
    ensures Advance(arena, w, t, spurious).value.pcs == w.pcs[t := pc] && LayoutOk(pc, layout)
  {
    hide ValidLayout, RequiredSlotSize, RemoveAt, IndexOf, TakeAt;
    pc := Advance(arena, w, t, spurious).value.pcs[t];
  }

  lemma SearchStep(arena: Arena, s: MemWorld, t: nat, spurious: bool)
    requires MemInv(arena, s) && t < |s.w.pcs| && s.w.pcs[t].Searching?
    ensures MemAccess(arena, s, t, spurious).Some? && MemInv(arena, MemAccess(arena, s, t, spurious).value)
  {
    hide MemInv, Inv, Heap, HeapOk, HasWords, ListAt, Headers, Layouts, Kept, SearchWrites, TakeAt, RequiredSlotSize;
    var n := s.w.pcs[t].needed;
    Parts(arena, s);
    ThreadParts(arena, s, t);
    SearchInMemory(arena, s, n);
    SearchKeeps(arena, s.w, t, n);
    var pc := AdvanceLayout(arena, s.w, t, spurious, s.layouts[t]);
    hide LayoutOk;
    var s' := MemAccess(arena, s, t, spurious).value;
    LayoutsKept(s, s', t, pc);
    KeptKeeps(arena, s, s');
  }

  /** Writing the header of a slot the thread holds. */
  lemma PlaceStep(arena: Arena, s: MemWorld, t: nat, spurious: bool)
    requires MemInv(arena, s) && t < |s.w.pcs| && s.w.pcs[t].Placing?
    ensures MemAccess(arena, s, t, spurious).Some? && MemInv(arena, MemAccess(arena, s, t, spurious).value)
  {
    hide MemInv, Inv, Heap, HeapOk, ListAt, HasWords, Headers, Layouts, Geometry;
    hide HeaderAt, SameOutside, WithHeader, ValidLayout, UserPtr, RequiredSlotSize;
    Parts(arena, s);
    ThreadParts(arena, s, t);
    var slot, layout := s.w.pcs[t].slot, s.layouts[t];
    HeldSlot(arena, s.w, t, slot);
    var g := PlacedGrant(slot, layout);
    assert g == GrantFor(slot, layout);
    hide GrantOk;
    HeaderInArena(arena, s, g);
    PlaceKeepsInv(arena, s.w, t, slot);
    var s' := MemAccess(arena, s, t, spurious).value;
    LayoutsKept(s, s', t, Idle);
    HeaderPlaced(s.mem, g);
    var lo := arena.base;
    SlotWriteList(s.mem, s'.mem, s.head, s.w.free, s.w.carved, lo, lo + s.w.offset, IndexOf(s.w.carved, slot));
    SameWords(s.mem, s'.mem, slot.addr, slot.End(), lo, lo + arena.capacity);
    PlacedHeaders(arena, s, s', t, slot, g);
    FromParts(arena, s');
  }

  lemma SameWords(m: Mem, n: Mem, lo: nat, hi: nat, base: nat, end: nat)
    requires HasWords(m, base, end) && SameOutside(m, n, lo, hi)
    ensures HasWords(n, base, end)
  {
  }

  /** A slot some thread works on is carved, on word boundaries and in the arena. */
  lemma HeldSlot(arena: Arena, w: World, t: nat, slot: Node)
    requires Inv(arena, w) && Geometry(arena) && t < |w.pcs| && Holds(w.pcs[t], slot)
    ensures slot in w.carved && arena.base <= slot.addr && slot.End() <= arena.base + w.offset
    ensures slot.End() < USIZE && Aligned(slot.addr) && 16 <= slot.size
  {
    OwnerCarved(w, t, slot);
    CarvedSlot(arena, w, slot);
  }

  lemma CarvedSlot(arena: Arena, w: World, slot: Node)
    requires Heap(arena, w) && Geometry(arena) && slot in w.carved
    ensures arena.base <= slot.addr && slot.End() <= arena.base + w.offset
    ensures slot.End() < USIZE && Aligned(slot.addr) && 16 <= slot.size
  {
    HeapLayout(w.free, w.carved, arena.base, arena.base + w.offset);
    assert RegularNode(w.carved[IndexOf(w.carved, slot)]);
  }

  lemma HeaderInArena(arena: Arena, s: MemWorld, g: Grant)
    requires MemInv(arena, s) && arena.base <= g.slot.addr && g.slot.End() <= arena.base + s.w.offset
    requires g.slot.addr + 16 <= g.ptr <= g.slot.End() && Aligned(g.ptr)
    ensures HeaderWordsIn(s.mem, g)
  {
    AlignedSum(8, g.ptr - 8);
    AlignedSum(16, g.ptr - 16);
  }

  lemma PlacedHeaders(arena: Arena, s: MemWorld, s': MemWorld, t: nat, slot: Node, g: Grant)
    requires Inv(arena, s.w) && Headers(s) && t < |s.w.pcs| && s.w.pcs[t] == Placing(slot)
    requires s'.w.handed == s.w.handed + {slot} && s'.grants == s.grants[slot := g] && g.slot == slot && GrantOk(g)
    requires SameOutside(s.mem, s'.mem, slot.addr, slot.End()) && HeaderAt(s'.mem, g)
    ensures Headers(s')
  {
    hide HeaderAt, GrantOk, SameOutside, Inv;
    forall x | x in s'.w.handed
      ensures HeaderOk(s', x)
    {
      if x != slot {
        assert HeaderOk(s, x);
        OtherHeader(arena, s.w, s.mem, s'.mem, t, slot, s.grants[x]);
      }
    }
  }

  /** Writes into a slot some thread or client holds do not reach another slot's header. */
  lemma OtherHeader(arena: Arena, w: World, m: Mem, n: Mem, t: nat, slot: Node, g: Grant)
    requires Inv(arena, w) && t < |w.pcs| && Holds(w.pcs[t], slot) && g.slot in w.handed && g.slot != slot
    requires GrantOk(g) && HeaderAt(m, g) && SameOutside(m, n, slot.addr, slot.End())
    ensures HeaderAt(n, g)
  {
    OwnerCarved(w, t, slot);
    HandedAlone(arena, w, g.slot, t);
    ApartHeader(arena, w, m, n, slot, g);
  }

  lemma ApartHeader(arena: Arena, w: World, m: Mem, n: Mem, slot: Node, g: Grant)
    requires Heap(arena, w) && slot in w.carved && g.slot in w.carved && g.slot != slot
    requires GrantOk(g) && HeaderAt(m, g) && SameOutside(m, n, slot.addr, slot.End())
    ensures HeaderAt(n, g)
  {
    CarvedApart(arena, w, slot, g.slot);
    GrantInside(g);
  }

  lemma CarvedApart(arena: Arena, w: World, x: Node, y: Node)
    requires Heap(arena, w) && x in w.carved && y in w.carved && x != y
    ensures Before(x, y)
  {
    HeapLayout(w.free, w.carved, arena.base, arena.base + w.offset);
    var i, j := IndexOf(w.carved, x), IndexOf(w.carved, y);
    if i < j { assert Before(w.carved[i], w.carved[j]); }
    if j < i { assert Before(w.carved[j], w.carved[i]); }
  }

  /** Pushing a slot the thread holds. */
  lemma PushStep(arena: Arena, s: MemWorld, t: nat, spurious: bool)
    requires MemInv(arena, s) && t < |s.w.pcs| && s.w.pcs[t].Freeing?
    ensures MemAccess(arena, s, t, spurious).Some? && MemInv(arena, MemAccess(arena, s, t, spurious).value)
  {
    hide MemInv, Inv, Heap, HeapOk, ListAt, HasWords, Headers, Layouts, Geometry;
    hide Pushed, SameOutside, Spaced, AllOut, Regular;
    Parts(arena, s);
    ThreadParts(arena, s, t);
    var slot := s.w.pcs[t].slot;
    var lo, hi := arena.base, arena.base + s.w.offset;
    HeldSlot(arena, s.w, t, slot);
    PushKeepsInv(arena, s.w, t, slot);
    SlotWords(s.mem, s.w.free, s.w.carved, lo, hi, IndexOf(s.w.carved, slot));
    FreeAllOut(s.w.free, s.w.carved, lo, hi);
    PushLists(s.mem, s.head, s.w.free, slot);
    var s' := MemAccess(arena, s, t, spurious).value;
    LayoutsKept(s, s', t, Subtracting(slot.size));
    PushedOutside(s.mem, slot, s.head);
    SameWords(s.mem, s'.mem, slot.addr, slot.End(), lo, lo + arena.capacity);
    PushedHeaders(arena, s, s', t, slot);
    FromParts(arena, s');
  }

  lemma PushedOutside(m: Mem, slot: Node, head: nat)
    requires NodeWords(m, slot) && 16 <= slot.size
    ensures SameOutside(m, Pushed(m, slot, head), slot.addr, slot.End())
  {
  }

  lemma PushedHeaders(arena: Arena, s: MemWorld, s': MemWorld, t: nat, slot: Node)
    requires Inv(arena, s.w) && Headers(s) && t < |s.w.pcs| && s.w.pcs[t] == Freeing(slot)
    requires s'.w.handed == s.w.handed && s'.grants == s.grants
    requires SameOutside(s.mem, s'.mem, slot.addr, slot.End())
    ensures Headers(s')
  {
    hide HeaderAt, GrantOk, SameOutside, Inv;
    forall x | x in s'.w.handed
      ensures HeaderOk(s', x)
    {
      assert HeaderOk(s, x);
      HandedAlone(arena, s.w, x, t);
      OtherHeader(arena, s.w, s.mem, s'.mem, t, slot, s.grants[x]);
    }
  }

  /** Nothing in memory, and no more slots handed. */
  lemma FreeFrame(arena: Arena, s: MemWorld, s': MemWorld)
    requires MemInv(arena, s) && Inv(arena, s'.w) && Layouts(s') && Kept(s.mem, s.mem, s.w.carved)
    requires s'.mem == s.mem && s'.head == s.head && s'.grants == s.grants
    requires s'.w.free == s.w.free && s'.w.handed <= s.w.handed
    ensures MemInv(arena, s')
  {
    hide Inv, ListAt, Layouts, Kept;
    KeptKeeps(arena, s, s');
  }

  lemma CounterFrame(arena: Arena, s: MemWorld, t: nat, spurious: bool)
    requires t < |s.w.pcs| && t < |s.layouts| && Advance(arena, s.w, t, spurious).Some?
    requires !s.w.pcs[t].Searching? && !s.w.pcs[t].Placing? && !s.w.pcs[t].Freeing?
    ensures MemAccess(arena, s, t, spurious).Some?
    ensures var s' := MemAccess(arena, s, t, spurious).value;
      s'.w == Advance(arena, s.w, t, spurious).value && s'.mem == s.mem && s'.head == s.head &&
      s'.grants == s.grants && s'.layouts == s.layouts &&
      s'.w.free == s.w.free && s'.w.handed == s.w.handed
  {
    hide Search, RemoveAt, IndexOf;
  }

  /** The accesses that touch no memory. */
  lemma CounterStep(arena: Arena, s: MemWorld, t: nat, spurious: bool)
    requires MemInv(arena, s) && t < |s.w.pcs| && Advance(arena, s.w, t, spurious).Some?
    requires !s.w.pcs[t].Searching? && !s.w.pcs[t].Placing? && !s.w.pcs[t].Freeing?
    ensures MemAccess(arena, s, t, spurious).Some? && MemInv(arena, MemAccess(arena, s, t, spurious).value)
  {
    hide MemInv, Inv, Heap, HeapOk, HasWords, ListAt, Headers, Layouts, Kept, LayoutOk, PcOk, MemAccess, Advance;
    Parts(arena, s);
    ThreadParts(arena, s, t);
    AdvanceKeeps(arena, s.w, t, spurious);
    var pc := AdvanceLayout(arena, s.w, t, spurious, s.layouts[t]);
    KeptItself(s.mem, s.w.carved);
    CounterFrame(arena, s, t, spurious);
    var s' := MemAccess(arena, s, t, spurious).value;
    LayoutsKept(s, s', t, pc);
    FreeFrame(arena, s, s');
  }

  /** Every access a thread can make stays inside the arena and keeps the invariant. */
  lemma AccessKeeps(arena: Arena, s: MemWorld, t: nat, spurious: bool)
    requires MemInv(arena, s) && t < |s.w.pcs| && Advance(arena, s.w, t, spurious).Some?
    ensures MemAccess(arena, s, t, spurious).Some? && MemInv(arena, MemAccess(arena, s, t, spurious).value)
  {
    assert |s.layouts| == |s.w.pcs|;
    hide MemInv, MemAccess;
    match s.w.pcs[t]
    case Searching(_) => SearchStep(arena, s, t, spurious);
    case Placing(_) => PlaceStep(arena, s, t, spurious);
    case Freeing(_) => PushStep(arena, s, t, spurious);
    case _ => CounterStep(arena, s, t, spurious);
  }

  /** The header in front of a pointer the program holds names its slot, whatever else is going on: both
      guards of `dealloc` pass, and it frees precisely that slot. */
  lemma PointerRecovers(arena: Arena, s: MemWorld, g: Grant)
    requires MemInv(arena, s) && HasGrant(s, g)
    ensures Recovered(arena, s.mem, g.ptr) == Some(g.slot)
  {
    assert HeaderOk(s, g.slot);
    HandedAlone(arena, s.w, g.slot, 0);
    CarvedSlot(arena, s.w, g.slot);
    GrantInside(g);
  }

  lemma BlocksApart(arena: Arena, s: MemWorld, g: Grant, other: Grant)
    requires MemInv(arena, s) && HasGrant(s, g)
    ensures HasGrant(s, other) ==> other.ptr >= 16
    ensures HasGrant(s, other) && other != g ==>
      Before(UserRange(g), UserRange(other)) && Before(UserRange(g), Node(other.ptr - 16, 16))
    ensures forall k | 0 <= k < |s.w.free| :: Before(UserRange(g), s.w.free[k])
  {
    hide MemInv, Inv, ListAt, HasWords, Layouts, HeaderAt, GrantOk, Heap, HeapOk, Geometry;
    Parts(arena, s);
    HeldGrant(arena, s, g);
    if HasGrant(s, other) {
      HeldGrant(arena, s, other);
      if other != g { CarvedApart(arena, s.w, g.slot, other.slot); }
    }
    HeapLayout(s.w.free, s.w.carved, arena.base, arena.base + s.w.offset);
    forall k | 0 <= k < |s.w.free|
      ensures Before(UserRange(g), s.w.free[k])
    {
      assert Before(s.w.free[k], s.w.carved[IndexOf(s.w.carved, g.slot)]);
    }
  }

  lemma FreeStep(arena: Arena, s: MemWorld, t: nat, g: Grant)
    requires MemInv(arena, s) && MemHappens(arena, s, Free(t, g)).Some?
    ensures var s' := MemHappens(arena, s, Free(t, g)).value;
      MemInv(arena, s') && Step(arena, s.w, t, StartFree(g.slot)) == Some(s'.w)
  {
    PointerRecovers(arena, s, g);
    FreeStartKeeps(arena, s.w, t, g.slot);
    var s' := MemHappens(arena, s, Free(t, g)).value;
    LayoutsKept(s, s', t, Freeing(g.slot));
    KeptItself(s.mem, s.w.carved);
    hide MemInv, Inv, ListAt, Kept, Layouts, Recovered;
    FreeFrame(arena, s, s');
  }

  /** A client's store into its own block disturbs neither the list nor any header. */
  lemma WriteStep(arena: Arena, s: MemWorld, g: Grant, a: nat, value: nat)
    requires MemInv(arena, s) && MemHappens(arena, s, ClientWrite(g, a, value)).Some?
    ensures MemInv(arena, MemHappens(arena, s, ClientWrite(g, a, value)).value)
  {
    hide MemInv, Inv, Heap, HeapOk, ListAt, HasWords, Headers, LayoutOk, HeaderAt, GrantOk, Geometry;
    Parts(arena, s);
    HeldGrant(arena, s, g);
    var s' := s.(mem := s.mem[a := value]);
    WriteInside(s.mem, a, value, g.slot);
    hide SameOutside;
    var lo := arena.base;
    SlotWriteList(s.mem, s'.mem, s.head, s.w.free, s.w.carved, lo, lo + s.w.offset, IndexOf(s.w.carved, g.slot));
    SameWords(s.mem, s'.mem, g.slot.addr, g.slot.End(), lo, lo + arena.capacity);
    WrittenHeaders(arena, s, s', g, a, value);
    FromParts(arena, s');
  }

  lemma WriteInside(m: Mem, a: nat, value: nat, slot: Node)
    requires a in m && slot.addr <= a < slot.End()
    ensures SameOutside(m, m[a := value], slot.addr, slot.End())
  {
  }

  lemma WrittenHeaders(arena: Arena, s: MemWorld, s': MemWorld, g: Grant, a: nat, value: nat)
    requires Inv(arena, s.w) && Headers(s) && HasGrant(s, g) && g.slot.addr + 16 <= g.ptr <= a
    requires a in s.mem && s' == s.(mem := s.mem[a := value])
    requires SameOutside(s.mem, s'.mem, g.slot.addr, g.slot.End())
    ensures Headers(s')
  {
    hide GrantOk, SameOutside, Inv;
    forall x | x in s'.w.handed
      ensures HeaderOk(s', x)
    {
      assert HeaderOk(s, x);
      HandedAlone(arena, s.w, x, 0);
      HandedAlone(arena, s.w, g.slot, 0);
      if x != g.slot { HeapPart(arena, s.w); ApartHeader(arena, s.w, s.mem, s'.mem, g.slot, s.grants[x]); }
    }
  }

  lemma HeapPart(arena: Arena, w: World)
    requires Inv(arena, w)
    ensures Heap(arena, w)
  {
  }

  /** Stores to free nodes leave every carved slot alone. */
  lemma FreeStoresKeep(m: Mem, free: seq<Node>, slots: seq<Node>, lo: nat, hi: nat, ws: seq<Write>)
    requires HeapOk(free, slots, lo, hi) && InFree(m, free, ws)
    ensures Kept(m, Applied(m, ws), slots)
  {
    hide HeapOk, Applied, Inside;
    HeapLayout(free, slots, lo, hi);
    AppliedKeeps(m, ws);
    forall j, a | 0 <= j < |slots| && slots[j].Has(a) && a in m
      ensures Applied(m, ws)[a] == m[a]
    {
      forall i | 0 <= i < |ws|
        ensures ws[i].addr != a
      {
        ApartFromSlot(free, slots[j], ws[i].addr);
      }
    }
  }

  lemma ApartFromSlot(free: seq<Node>, slot: Node, a: nat)
    requires Inside(free, a) && forall k | 0 <= k < |free| :: Before(free[k], slot)
    ensures !slot.Has(a)
  {
    var k :| 0 <= k < |free| && free[k].Has(a);
    assert Before(free[k], slot);
  }

  lemma DefragStep(arena: Arena, s: MemWorld, stores: seq<Write>, head: nat)
    requires MemInv(arena, s) && MemHappens(arena, s, DefragTo(stores, head)).Some?
    ensures MemInv(arena, MemHappens(arena, s, DefragTo(stores, head)).value)
  {
    hide MemInv, Inv, Heap, HeapOk, ListAt, HasWords, Headers, LayoutOk, Geometry, Kept, Defrag, Applied, InFree;
    Parts(arena, s);
    var s' := MemHappens(arena, s, DefragTo(stores, head)).value;
    HappensKeeps(arena, s.w, DefragPass);
    FreeStoresKeep(s.mem, s.w.free, s.w.carved, arena.base, arena.base + s.w.offset, stores);
    KeptKeeps(arena, s, s');
  }

  /** The stores that spell a list. */
  function Spelling(fs: seq<Node>): seq<Write> {
    if fs == [] then []
    else Spelling(fs[1..]) + [Write(fs[0].addr, fs[0].size), Write(fs[0].addr + 8, AddrAt(fs, 1))]
  }

  lemma SpellFirst(m: Mem, fs: seq<Node>)
    requires fs != []
    ensures Applied(m, Spelling(fs)) ==
            Applied(m, Spelling(fs[1..]))[fs[0].addr := fs[0].size][fs[0].addr + 8 := AddrAt(fs, 1)]
  {
    var two := [Write(fs[0].addr, fs[0].size), Write(fs[0].addr + 8, AddrAt(fs, 1))];
    AppliedConcat(m, Spelling(fs[1..]), two);
    AppliedTwo(Applied(m, Spelling(fs[1..])), two[0], two[1]);
  }

  lemma {:induction false} SpellingLists(m: Mem, fs: seq<Node>)
    requires Spaced(fs) && forall i | 0 <= i < |fs| :: NodeWords(m, fs[i])
    ensures ListAt(Applied(m, Spelling(fs)), AddrAt(fs, 0), fs) && Applied(m, Spelling(fs)).Keys == m.Keys
  {
    if fs != [] {
      var n := Applied(m, Spelling(fs[1..]));
      SpellingLists(m, fs[1..]);
      SpellFirst(m, fs);
      hide Spelling, Applied;
      forall i | 0 <= i < |fs|
        ensures Spelled(Applied(m, Spelling(fs)), fs, i)
      {
        if i > 0 { assert Spelled(n, fs[1..], i - 1) && Clear(fs[i], fs[0]); }
      }
    }
  }

  lemma {:induction false} SpellingInFree(m: Mem, free: seq<Node>, fs: seq<Node>)
    requires forall i | 0 <= i < |fs| :: NodeWords(m, fs[i]) && Inside(free, fs[i].addr) && Inside(free, fs[i].addr + 8)
    ensures InFree(m, free, Spelling(fs))
  {
    hide Inside;
    if fs != [] { SpellingInFree(m, free, fs[1..]); }
  }

  /** The bytes of the defragmented list are bytes of the list before. */
  lemma DefragInside(free: seq<Node>, b: nat, i: nat)
    requires i < |Defrag(free)| && Defrag(free)[i].Has(b)
    ensures Inside(free, b)
  {
    hide Defrag;
    CoverHas(Defrag(free), i, b);
    DefragCover(free, b);
    CoveredInside(free, b);
  }

  lemma {:induction false} CoveredInside(free: seq<Node>, b: nat)
    requires Cover(free, b) > 0
    ensures Inside(free, b)
  {
    if free != [] {
      if free[0].Has(b) {
      } else {
        CoveredInside(free[1..], b);
        var k :| 0 <= k < |free[1..]| && free[1..][k].Has(b);
        assert free[k + 1].Has(b);
      }
    }
  }

  /** A defragmentation is always possible. */
  lemma DefragPossible(arena: Arena, s: MemWorld) returns (e: MemEvent)
    requires MemInv(arena, s)
    ensures e.DefragTo? && MemHappens(arena, s, e).Some?
  {
    var fs, lo, hi := Defrag(s.w.free), arena.base, arena.base + s.w.offset;
    hide MemInv, Inv, Heap, HeapOk, HasWords, ListAt, Headers, Layouts, Geometry, Spaced, AllOut, Defrag;
    hide Spelling, Applied, Inside, InFree;
    Parts(arena, s);
    DefragKeeps(s.w.free, s.w.carved, lo, hi);
    FreeAllOut(fs, s.w.carved, lo, hi);
    forall i | 0 <= i < |fs|
      ensures NodeWords(s.mem, fs[i]) && Inside(s.w.free, fs[i].addr) && Inside(s.w.free, fs[i].addr + 8)
    {
      FreeNodeWords(s.mem, fs, s.w.carved, lo, hi, i);
      assert RegularNode(fs[i]);
      DefragInside(s.w.free, fs[i].addr, i);
      DefragInside(s.w.free, fs[i].addr + 8, i);
    }
    SpellingLists(s.mem, fs);
    SpellingInFree(s.mem, s.w.free, fs);
    e := DefragTo(Spelling(fs), AddrAt(fs, 0));
  }

  lemma FreeNodeWords(m: Mem, free: seq<Node>, slots: seq<Node>, lo: nat, hi: nat, i: nat)
    requires HeapOk(free, slots, lo, hi) && HasWords(m, lo, hi) && i < |free|
    ensures NodeWords(m, free[i])
  {
    HeapLayout(free, slots, lo, hi);
    assert RegularNode(free[i]);
    AlignedSum(free[i].addr, 8);
  }

  lemma AllocStarts(arena: Arena, s: MemWorld, t: nat, layout: Layout)
    requires MemInv(arena, s) && MemHappens(arena, s, Alloc(t, layout)).Some?
    ensures MemInv(arena, MemHappens(arena, s, Alloc(t, layout)).value)
  {
    var s' := MemHappens(arena, s, Alloc(t, layout)).value;
    StepKeeps(arena, s.w, t, StartAlloc(layout));
    assert Layouts(s') by { hide RequiredSlotSize, ValidLayout, Inv, ListAt; }
    KeptItself(s.mem, s.w.carved);
    hide MemInv, Inv, ListAt, Kept, Layouts, RequiredSlotSize, ValidLayout;
    FreeFrame(arena, s, s');
  }

  lemma LockStarts(arena: Arena, s: MemWorld, t: nat, size: nat)
    requires MemInv(arena, s) && MemHappens(arena, s, SetLocked(t, size)).Some?
    ensures MemInv(arena, MemHappens(arena, s, SetLocked(t, size)).value)
  {
    var s' := MemHappens(arena, s, SetLocked(t, size)).value;
    StepKeeps(arena, s.w, t, StartSetLocked(size));
    LayoutsKept(s, s', t, s'.w.pcs[t]);
    KeptItself(s.mem, s.w.carved);
    hide MemInv, Inv, ListAt, Kept, Layouts;
    FreeFrame(arena, s, s');
  }

  // ---- Every run ----

  /** The step of `ArenaThreads` a step over memory is; a client's store is none. */
  function Abs(e: MemEvent): (r: seq<Event>)
    ensures |r| <= 1
  {
    match e
    case Alloc(t, layout) => [ThreadStep(t, StartAlloc(layout))]
    case Free(t, g) => [ThreadStep(t, StartFree(g.slot))]
    case SetLocked(t, size) => [ThreadStep(t, StartSetLocked(size))]
    case Access(t, spurious) => [ThreadStep(t, Continue(spurious))]
    case ClientWrite(_, _, _) => []
    case DefragTo(_, _) => [DefragPass]
  }

  function AbsAll(events: seq<MemEvent>): seq<Event> {
    if events == [] then [] else Abs(events[0]) + AbsAll(events[1..])
  }

  /** What a step over memory does to the state of `ArenaThreads`. */
  lemma StepProjects(arena: Arena, s: MemWorld, e: MemEvent)
    requires MemInv(arena, s) && MemHappens(arena, s, e).Some?
    ensures var s' := MemHappens(arena, s, e).value;
      if Abs(e) == [] then s'.w == s.w else Happens(arena, s.w, Abs(e)[0]) == Some(s'.w)
  {
    if e.Free? { FreeStep(arena, s, e.t, e.g); }
    if e.Access? { AccessProjects(arena, s, e.t, e.spurious); }
    hide MemInv, Advance, MemAccess, Recovered, RequiredSlotSize, ListAt, Kept, Defrag;
  }

  lemma AccessProjects(arena: Arena, s: MemWorld, t: nat, spurious: bool)
    requires t < |s.w.pcs| && t < |s.layouts| && MemAccess(arena, s, t, spurious).Some?
    ensures Advance(arena, s.w, t, spurious) == Some(MemAccess(arena, s, t, spurious).value.w)
  {
    hide Advance, SearchWrites, WithHeader, Pushed;
  }

  lemma StepKeepsMem(arena: Arena, s: MemWorld, e: MemEvent)
    requires MemInv(arena, s) && MemHappens(arena, s, e).Some?
    ensures MemInv(arena, MemHappens(arena, s, e).value)
  {
    if e.Access? { AccessEnabled(arena, s, e.t, e.spurious); }
    hide MemInv;
    match e
    case Alloc(t, layout) => AllocStarts(arena, s, t, layout);
    case SetLocked(t, size) => LockStarts(arena, s, t, size);
    case Free(t, g) => FreeStep(arena, s, t, g);
    case Access(t, spurious) =>
      hide MemAccess, Advance;
      AccessKeeps(arena, s, t, spurious);
    case ClientWrite(g, a, value) => WriteStep(arena, s, g, a, value);
    case DefragTo(stores, head) => DefragStep(arena, s, stores, head);
  }

  lemma AccessEnabled(arena: Arena, s: MemWorld, t: nat, spurious: bool)
    requires MemHappens(arena, s, Access(t, spurious)).Some?
    ensures t < |s.w.pcs| && t < |s.layouts| && Advance(arena, s.w, t, spurious).Some?
  {
    hide Advance, SearchWrites, WithHeader, Pushed;
  }

  /** Every run over memory, with clients writing into their blocks at any time, is a run of
      `ArenaThreads`, and memory spells the free list and all headers throughout. */
  lemma {:induction false} EveryMemRunRefines(arena: Arena, s: MemWorld, events: seq<MemEvent>)
    requires MemInv(arena, s) && MemExec(arena, s, events).Some?
    ensures var v := MemExec(arena, s, events).value;
      MemInv(arena, v) && Exec(arena, s.w, AbsAll(events)) == Some(v.w)
    decreases |events|
  {
    hide MemInv, MemHappens, Happens, Abs;
    if events != [] {
      var s' := MemHappens(arena, s, events[0]).value;
      StepKeepsMem(arena, s, events[0]);
      StepProjects(arena, s, events[0]);
      EveryMemRunRefines(arena, s', events[1..]);
      ExecOne(arena, s.w, s'.w, Abs(events[0]), AbsAll(events[1..]));
    }
  }

  lemma ExecOne(arena: Arena, w: World, w': World, first: seq<Event>, rest: seq<Event>)
    requires |first| <= 1 && if first == [] then w' == w else Happens(arena, w, first[0]) == Some(w')
    ensures Exec(arena, w, first + rest) == Exec(arena, w', rest)
  {
    hide Happens;
    if first == [] { assert first + rest == rest; } else { assert (first + rest)[1..] == rest; }
  }

  /** The empty arena, with arbitrary words in it. */
  ghost predicate MemInit(arena: Arena, s: MemWorld, threads: nat) {
    Geometry(arena) && s.w == InitWorld(threads) && s.head == 0 && |s.layouts| == threads &&
    HasWords(s.mem, arena.base, arena.base + arena.capacity)
  }

  lemma Starts(arena: Arena, threads: nat) returns (s: MemWorld)
    requires Geometry(arena)
    ensures MemInit(arena, s, threads)
  {
    var words: Mem := map a: nat | arena.base <= a < arena.base + arena.capacity && Aligned(a) :: 0;
    s := MemWorld(InitWorld(threads), words, 0, map[], seq(threads, _ => Layout(0, 1)));
  }

  lemma MemInitOk(arena: Arena, s: MemWorld, threads: nat)
    requires MemInit(arena, s, threads)
    ensures MemInv(arena, s)
  {
    InitOk(arena, threads);
    hide Inv;
  }

  /** In every interleaving, for every pointer the program holds: freeing it finds its slot, and its
      block overlaps no other block, no other header and no free node. */
  lemma EveryPointerFrees(arena: Arena, s: MemWorld, threads: nat, events: seq<MemEvent>, g: Grant, other: Grant)
    requires MemInit(arena, s, threads) && MemExec(arena, s, events).Some?
    requires HasGrant(MemExec(arena, s, events).value, g)
    ensures var v := MemExec(arena, s, events).value;
      Recovered(arena, v.mem, g.ptr) == Some(g.slot) &&
      (HasGrant(v, other) && other != g ==>
        other.ptr >= 16 && Before(UserRange(g), UserRange(other)) && Before(UserRange(g), Node(other.ptr - 16, 16))) &&
      forall k | 0 <= k < |v.w.free| :: Before(UserRange(g), v.w.free[k])
  {
    MemInitOk(arena, s, threads);
    EveryMemRunRefines(arena, s, events);
    var v := MemExec(arena, s, events).value;
    PointerRecovers(arena, v, g);
    BlocksApart(arena, v, g, other);
  }
}
