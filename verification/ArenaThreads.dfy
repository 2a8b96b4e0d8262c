/** Any number of threads allocating, freeing, setting the tail reservation and defragmenting at the
    same time. One action is one atomic access of a shared counter or one critical section of the
    free-list mutex; a run is any sequence of enabled actions (src/memory/allocator.rs:77-223, 311-364). */
module ArenaThreads {
  import opened Collections
  import opened Wrappers
  import opened Slots
  import opened FreeList
  import opened Tiling

  /** Where a thread stands, with the local values it has loaded. */
  datatype Pc =
    | Idle
    | LoadingUsed(needed: nat)
    | Deciding(needed: nat, current: int)
    | Reserving(needed: nat, current: int)
    | Searching(needed: nat)
    | AddingExcess(needed: nat, slot: Node)
    | LoadingOffset(needed: nat)
    | Bumping(needed: nat, seen: nat)
    | Refunding(needed: nat)
    | Placing(slot: Node)
    | Freeing(slot: Node)
    | Subtracting(size: nat)
    | Locking(size: nat, current: int)

  /** The shared state and the threads. `handed` holds the slots whose pointer the program has. */
  datatype World = World(free: seq<Node>, carved: seq<Node>, handed: set<Node>, offset: nat, used: int, locked: nat,
    pcs: seq<Pc>)

  datatype Action =
    | StartAlloc(layout: Layout)
    | StartFree(slot: Node)
    | StartSetLocked(size: nat)
    | Continue(spurious: bool)

  datatype Arena = Arena(base: nat, capacity: nat)

  function InitWorld(threads: nat): World {
    World([], [], {}, 0, 0, 0, seq(threads, _ => Idle))
  }

  function Goto(w: World, t: nat, pc: Pc): World
    requires t < |w.pcs|
  {
    w.(pcs := w.pcs[t := pc])
  }

  function IndexOf(fs: seq<Node>, x: Node): (i: nat)
    requires x in fs
    ensures i < |fs| && fs[i] == x
  {
    if fs[0] == x then 0 else 1 + IndexOf(fs[1..], x)
  }

  /** One action of thread `t`; None when it is not enabled. A program may free a slot only when it
      holds its pointer, and gives the pointer up by doing so. */
  ghost function Step(arena: Arena, w: World, t: nat, a: Action): Option<World> {
    if t >= |w.pcs| then None
    else match a
      case StartAlloc(layout) =>
        if w.pcs[t].Idle? && ValidLayout(layout) then Some(Goto(w, t, LoadingUsed(Needed(layout)))) else None
      case StartFree(slot) =>
        if w.pcs[t].Idle? && slot in w.handed
        then Some(Goto(w.(handed := w.handed - {slot}), t, Freeing(slot))) else None
      case StartSetLocked(size) =>
        if w.pcs[t].Idle? then Some(Goto(w, t, Locking(size, w.used))) else None
      case Continue(spurious) => Advance(arena, w, t, spurious)
  }

  function Advance(arena: Arena, w: World, t: nat, spurious: bool): Option<World>
    requires t < |w.pcs|
  {
    match w.pcs[t]
    case Idle => None
    case LoadingUsed(n) => Some(Goto(w, t, Deciding(n, w.used)))
    case Deciding(n, current) =>
      // loads LOCKED_SIZE and decides against the ceiling it implies
      if w.locked <= arena.capacity && current + n <= arena.capacity - w.locked
      then Some(Goto(w, t, Reserving(n, current))) else Some(Goto(w, t, Idle))
    case Reserving(n, current) =>
      if w.used == current && !spurious then Some(Goto(w.(used := current + n), t, Searching(n)))
      else Some(Goto(w, t, Deciding(n, w.used)))
    case Searching(n) => Some(Search(w, t, n))
    case AddingExcess(n, slot) => Some(Goto(w.(used := w.used + (slot.size - n)), t, Placing(slot)))
    case LoadingOffset(n) => Some(Goto(w, t, Bumping(n, w.offset)))
    case Bumping(n, seen) =>
      // `align_up` of an aligned offset is that offset
      if seen + n > arena.capacity then Some(Goto(w, t, Refunding(n)))
      else if w.offset == seen && !spurious then
        var slot := Node(arena.base + seen, n);
        Some(Goto(w.(offset := seen + n, carved := w.carved + [slot]), t, Placing(slot)))
      else Some(Goto(w, t, Bumping(n, w.offset)))
    case Refunding(n) => Some(Goto(w.(used := w.used - n), t, Idle))
    case Placing(slot) => Some(Goto(w.(handed := w.handed + {slot}), t, Idle))
    case Freeing(slot) =>
      if slot in w.carved then
        Some(Goto(w.(free := [slot] + w.free, carved := RemoveAt(w.carved, IndexOf(w.carved, slot))), t,
          Subtracting(slot.size)))
      else None
    case Subtracting(size) => Some(Goto(w.(used := w.used - size), t, Idle))
    case Locking(size, current) =>
      Some(Goto(if current + size <= arena.capacity then w.(locked := size) else w, t, Idle))
  }

  /** The critical section of `alloc_from_free_list`. */
  function Search(w: World, t: nat, n: nat): World
    requires t < |w.pcs|
  {
    var k := FirstFit(w.free, n);
    if k == |w.free| then Goto(w, t, LoadingOffset(n))
    else
      var slot := SlotOf(w.free[k], n);
      var taken := w.(free := TakeAt(w.free, k, n), carved := w.carved + [slot]);
      Goto(taken, t, if slot.size > n then AddingExcess(n, slot) else Placing(slot))
  }

  datatype Event = ThreadStep(t: nat, a: Action) | DefragPass

  ghost function Happens(arena: Arena, w: World, e: Event): Option<World> {
    match e
    case ThreadStep(t, a) => Step(arena, w, t, a)
    case DefragPass => Some(w.(free := Defrag(w.free)))
  }

  ghost function Exec(arena: Arena, w: World, events: seq<Event>): Option<World>
    decreases |events|
  {
    if events == [] then Some(w)
    else match Happens(arena, w, events[0])
      case None => None
      case Some(w') => Exec(arena, w', events[1..])
  }

  // ---- The invariant ----

  /** What a thread's pending access still has to add to or take from `used`. */
  function Pending(pc: Pc): int {
    match pc
    case Searching(n) => n
    case AddingExcess(n, slot) => n - slot.size
    case LoadingOffset(n) => n
    case Bumping(n, _) => n
    case Refunding(n) => n
    case Subtracting(size) => size
    case _ => 0
  }

  function PendingSum(pcs: seq<Pc>): int {
    if pcs == [] then 0 else Pending(pcs[0]) + PendingSum(pcs[1..])
  }

  /** Between its reservation and the end of its carving, when it may still add an excess. */
  predicate InFlight(pc: Pc) {
    pc.Searching? || pc.AddingExcess? || pc.LoadingOffset? || pc.Bumping? || pc.Refunding?
  }

  function Flying(pcs: seq<Pc>): (n: nat)
    ensures n <= |pcs|
  {
    if pcs == [] then 0 else (if InFlight(pcs[0]) then 1 else 0) + Flying(pcs[1..])
  }

  predicate Holds(pc: Pc, slot: Node) {
    (pc.AddingExcess? || pc.Placing? || pc.Freeing?) && pc.slot == slot
  }

  predicate Request(n: nat) {
    Aligned(n) && MIN_SLOT_SIZE <= n
  }

  predicate PcOk(arena: Arena, pc: Pc) {
    match pc
    case LoadingUsed(n) => Request(n)
    case Deciding(n, _) => Request(n)
    case Reserving(n, current) => Request(n) && current + n <= arena.capacity
    case Searching(n) => Request(n)
    case AddingExcess(n, slot) => Request(n) && n < slot.size <= n + 8
    case LoadingOffset(n) => Request(n)
    case Bumping(n, _) => Request(n)
    case Refunding(n) => Request(n)
    case Locking(_, current) => 0 <= current
    case _ => true
  }

  function Holders(pcs: seq<Pc>, slot: Node): nat {
    if pcs == [] then 0 else (if Holds(pcs[0], slot) then 1 else 0) + Holders(pcs[1..], slot)
  }

  /** The owners of a slot: the program when it holds the pointer, and the threads working on it. */
  function Owners(w: World, slot: Node): nat {
    (if slot in w.handed then 1 else 0) + Holders(w.pcs, slot)
  }

  /** Every carved slot has an owner, counted with multiplicity, and nothing else has one. */
  ghost predicate Owned(w: World) {
    forall slot :: Owners(w, slot) == multiset(w.carved)[slot]
  }

  ghost predicate Heap(arena: Arena, w: World) {
    w.offset <= arena.capacity && HeapOk(w.free, w.carved, arena.base, arena.base + w.offset)
  }

  /** The counter `used` is the carved bytes plus what is pending, and exceeds the capacity by no
      more than 8 bytes for each thread. */
  ghost predicate Books(arena: Arena, w: World) {
    (forall t | 0 <= t < |w.pcs| :: PcOk(arena, w.pcs[t])) &&
    w.used == Total(w.carved) + PendingSum(w.pcs) &&
    w.used + 8 * Flying(w.pcs) <= arena.capacity + 8 * |w.pcs|
  }

  ghost predicate Inv(arena: Arena, w: World) {
    Heap(arena, w) && Owned(w) && Books(arena, w) && w.locked <= arena.capacity
  }

  lemma {:induction false} PendingUpdate(pcs: seq<Pc>, t: nat, pc: Pc)
    requires t < |pcs|
    ensures PendingSum(pcs[t := pc]) == PendingSum(pcs) - Pending(pcs[t]) + Pending(pc)
  {
    if t > 0 {
      assert pcs[t := pc][1..] == pcs[1..][t - 1 := pc];
      PendingUpdate(pcs[1..], t - 1, pc);
    } else {
      assert pcs[t := pc][1..] == pcs[1..];
    }
  }

  lemma {:induction false} FlyingUpdate(pcs: seq<Pc>, t: nat, pc: Pc)
    requires t < |pcs|
    ensures Flying(pcs[t := pc]) == Flying(pcs) - (if InFlight(pcs[t]) then 1 else 0) + (if InFlight(pc) then 1 else 0)
  {
    if t > 0 {
      assert pcs[t := pc][1..] == pcs[1..][t - 1 := pc];
      FlyingUpdate(pcs[1..], t - 1, pc);
    } else {
      assert pcs[t := pc][1..] == pcs[1..];
    }
  }

  lemma {:induction false} HoldersUpdate(pcs: seq<Pc>, t: nat, pc: Pc, slot: Node)
    requires t < |pcs|
    ensures Holders(pcs[t := pc], slot) ==
            Holders(pcs, slot) - (if Holds(pcs[t], slot) then 1 else 0) + (if Holds(pc, slot) then 1 else 0)
  {
    if t > 0 {
      assert pcs[t := pc][1..] == pcs[1..][t - 1 := pc];
      HoldersUpdate(pcs[1..], t - 1, pc, slot);
    } else {
      assert pcs[t := pc][1..] == pcs[1..];
    }
  }

  lemma {:induction false} HolderCounts(pcs: seq<Pc>, t: nat, slot: Node)
    requires t < |pcs| && Holds(pcs[t], slot)
    ensures Holders(pcs, slot) >= 1
  {
    if t > 0 { HolderCounts(pcs[1..], t - 1, slot); }
  }

  /** No slot is carved twice. */
  lemma CarvedOnce(arena: Arena, w: World, slot: Node)
    requires Heap(arena, w)
    ensures multiset(w.carved)[slot] <= 1
  {
    HeapDisjoint(w.free, w.carved, arena.base, arena.base + w.offset);
    DisjointOnce(w.carved, slot);
  }

  lemma {:induction false} DisjointOnce(fs: seq<Node>, x: Node)
    requires Disjoint(fs) && Positive(fs)
    ensures multiset(fs)[x] <= 1
  {
    if fs != [] {
      assert fs == [fs[0]] + fs[1..];
      forall b ensures Cover(fs[1..], b) <= 1 { assert Cover(fs, b) <= 1; }
      DisjointOnce(fs[1..], x);
      if x == fs[0] && x in fs[1..] {
        assert Cover(fs, x.addr) <= 1;
        CoverHas(fs[1..], IndexOf(fs[1..], x), x.addr);
        assert false;
      }
    }
  }

  /** Effect of an action of thread `t` on the books: what `used` gains, the carved bytes and the
      pending amounts gain too; and the bound survives. */
  lemma BooksKept(arena: Arena, w: World, w': World, t: nat, pc: Pc)
    requires Books(arena, w) && t < |w.pcs| && w'.pcs == w.pcs[t := pc] && PcOk(arena, pc)
    requires w'.used - w.used == Total(w'.carved) - Total(w.carved) + Pending(pc) - Pending(w.pcs[t])
    requires w'.used <= arena.capacity ||
             w'.used + (if InFlight(pc) then 8 else 0) <= w.used + (if InFlight(w.pcs[t]) then 8 else 0)
    ensures Books(arena, w')
  {
    PendingUpdate(w.pcs, t, pc);
    FlyingUpdate(w.pcs, t, pc);
    assert Flying(w'.pcs) <= |w'.pcs|;
  }

  /** How many of a slot's owners are the program and a thread at `pc`. */
  function Share(handed: set<Node>, pc: Pc, slot: Node): nat {
    (if slot in handed then 1 else 0) + (if Holds(pc, slot) then 1 else 0)
  }

  lemma OwnedKept(w: World, w': World, t: nat, pc: Pc)
    requires Owned(w) && t < |w.pcs| && w'.pcs == w.pcs[t := pc]
    requires forall slot ::
      Share(w'.handed, pc, slot) + multiset(w.carved)[slot] ==
        Share(w.handed, w.pcs[t], slot) + multiset(w'.carved)[slot]
    ensures Owned(w')
  {
    forall slot
      ensures Owners(w', slot) == multiset(w'.carved)[slot]
    {
      HoldersUpdate(w.pcs, t, pc, slot);
      assert Owners(w, slot) == multiset(w.carved)[slot];
    }
  }

  lemma TotalAppendOne(fs: seq<Node>, x: Node)
    ensures Total(fs + [x]) == Total(fs) + x.size
    ensures multiset(fs + [x]) == multiset(fs) + multiset{x}
  {
    TotalConcat(fs, [x]);
    assert Total([x]) == x.size;
  }

  /** Actions that touch no slot. */
  lemma QuietKeeps(arena: Arena, w: World, w': World, t: nat, pc: Pc)
    requires Inv(arena, w) && t < |w.pcs| && PcOk(arena, pc)
    requires w' == Goto(w, t, pc).(used := w'.used, locked := w'.locked) && w'.locked <= arena.capacity
    requires forall slot :: Holds(pc, slot) <==> Holds(w.pcs[t], slot)
    requires w'.used - w.used == Pending(pc) - Pending(w.pcs[t])
    requires w'.used <= arena.capacity ||
             w'.used + (if InFlight(pc) then 8 else 0) <= w.used + (if InFlight(w.pcs[t]) then 8 else 0)
    ensures Inv(arena, w')
  {
    BooksKept(arena, w, w', t, pc);
    OwnedKept(w, w', t, pc);
  }

  /** A newly carved slot belongs to the thread that carved it. */
  lemma CarveOwned(w: World, w': World, t: nat, pc: Pc, slot: Node)
    requires Owned(w) && t < |w.pcs| && w'.pcs == w.pcs[t := pc] && w'.handed == w.handed
    requires w'.carved == w.carved + [slot]
    requires Holds(pc, slot) && (w.pcs[t].Searching? || w.pcs[t].Bumping?)
    ensures Owned(w')
  {
    TotalAppendOne(w.carved, slot);
    OwnedKept(w, w', t, pc);
  }

  lemma PushOwned(w: World, w': World, t: nat, slot: Node, i: nat)
    requires Owned(w) && t < |w.pcs| && w.pcs[t] == Freeing(slot) && w'.handed == w.handed
    requires w'.pcs == w.pcs[t := Subtracting(slot.size)]
    requires i < |w.carved| && w.carved[i] == slot && w'.carved == RemoveAt(w.carved, i)
    ensures Owned(w')
  {
    MultisetRemoveAt(w.carved, i);
    OwnedKept(w, w', t, Subtracting(slot.size));
  }

  lemma OwnerCarved(w: World, t: nat, slot: Node)
    requires Owned(w) && t < |w.pcs| && Holds(w.pcs[t], slot)
    ensures slot in w.carved
  {
    HolderCounts(w.pcs, t, slot);
    assert Owners(w, slot) == multiset(w.carved)[slot];
    assert slot in multiset(w.carved);
  }

  // ---- `used` never wraps below zero ----

  /** The amount a thread at this point has certainly added to `used` and not yet taken back. */
  function Credit(pc: Pc): nat {
    match pc
    case Searching(n) => n
    case AddingExcess(n, _) => n
    case LoadingOffset(n) => n
    case Bumping(n, _) => n
    case Refunding(n) => n
    case Subtracting(size) => size
    case _ => 0
  }

  function CreditSum(pcs: seq<Pc>): nat {
    if pcs == [] then 0 else Credit(pcs[0]) + CreditSum(pcs[1..])
  }

  /** The slots whose excess is not in `used` yet. */
  function Unsettled(pcs: seq<Pc>): seq<Node> {
    if pcs == [] then [] else (if pcs[0].AddingExcess? then [pcs[0].slot] else []) + Unsettled(pcs[1..])
  }

  lemma {:induction false} PendingSplits(pcs: seq<Pc>)
    ensures PendingSum(pcs) == CreditSum(pcs) - Total(Unsettled(pcs))
  {
    if pcs != [] {
      PendingSplits(pcs[1..]);
      if pcs[0].AddingExcess? { assert Unsettled(pcs)[1..] == Unsettled(pcs[1..]); }
      else { assert Unsettled(pcs) == Unsettled(pcs[1..]); }
    }
  }

  lemma {:induction false} UnsettledHeld(pcs: seq<Pc>, slot: Node)
    ensures multiset(Unsettled(pcs))[slot] <= Holders(pcs, slot)
  {
    if pcs != [] { UnsettledHeld(pcs[1..], slot); }
  }

  lemma {:induction false} SubTotal(xs: seq<Node>, ys: seq<Node>)
    requires multiset(xs) <= multiset(ys)
    ensures Total(xs) <= Total(ys)
  {
    if xs != [] {
      assert xs == [xs[0]] + xs[1..];
      assert xs[0] in multiset(xs) && xs[0] in multiset(ys);
      var i := IndexOf(ys, xs[0]);
      MultisetRemoveAt(ys, i);
      TotalRemove(ys, i);
      SubTotal(xs[1..], RemoveAt(ys, i));
    }
  }

  lemma {:induction false} CreditOf(pcs: seq<Pc>, t: nat)
    requires t < |pcs|
    ensures Credit(pcs[t]) <= CreditSum(pcs)
  {
    if t > 0 { CreditOf(pcs[1..], t - 1); }
  }

  /** Whatever a thread is about to take from `used` (a refunded reservation or a freed slot) is in
      it, whatever the other threads have pending: no `fetch_sub` wraps around. */
  lemma SubtractionsNeverWrap(arena: Arena, w: World, t: nat)
    requires Inv(arena, w) && t < |w.pcs|
    ensures 0 <= Credit(w.pcs[t]) <= w.used
  {
    var owed := Unsettled(w.pcs);
    forall slot ensures multiset(owed)[slot] <= multiset(w.carved)[slot] {
      UnsettledHeld(w.pcs, slot);
      assert Owners(w, slot) == multiset(w.carved)[slot];
    }
    SubTotal(owed, w.carved);
    PendingSplits(w.pcs);
    CreditOf(w.pcs, t);
  }

  // ---- Every step keeps the invariant ----

  lemma SearchKeeps(arena: Arena, w: World, t: nat, n: nat)
    requires Inv(arena, w) && t < |w.pcs| && w.pcs[t] == Searching(n)
    ensures Inv(arena, Search(w, t, n))
  {
    var k := FirstFit(w.free, n);
    var w' := Search(w, t, n);
    assert PcOk(arena, w.pcs[t]);
    hide HeapOk, PendingSum, Flying, Total, Holders, TakeAt, Books, Owned;
    if k == |w.free| {
      QuietKeeps(arena, w, w', t, LoadingOffset(n));
    } else {
      var slot := SlotOf(w.free[k], n);
      TakeKeeps(w.free, w.carved, arena.base, arena.base + w.offset, k, n);
      TotalAppendOne(w.carved, slot);
      var pc := if slot.size > n then AddingExcess(n, slot) else Placing(slot);
      BooksKept(arena, w, w', t, pc);
      CarveOwned(w, w', t, pc, slot);
    }
  }

  lemma BumpKeepsInv(arena: Arena, w: World, t: nat, n: nat)
    requires Inv(arena, w) && t < |w.pcs| && w.pcs[t] == Bumping(n, w.offset) && w.offset + n <= arena.capacity
    ensures Inv(arena, Advance(arena, w, t, false).value)
  {
    var slot := Node(arena.base + w.offset, n);
    var w' := Advance(arena, w, t, false).value;
    assert PcOk(arena, w.pcs[t]);
    hide HeapOk, PendingSum, Flying, Total, Holders, Books, Owned;
    BumpKeeps(w.free, w.carved, arena.base, arena.base + w.offset, n);
    TotalAppendOne(w.carved, slot);
    BooksKept(arena, w, w', t, Placing(slot));
    CarveOwned(w, w', t, Placing(slot), slot);
  }

  lemma PushKeepsInv(arena: Arena, w: World, t: nat, slot: Node)
    requires Inv(arena, w) && t < |w.pcs| && w.pcs[t] == Freeing(slot)
    ensures slot in w.carved
    ensures Inv(arena, Advance(arena, w, t, false).value)
  {
    OwnerCarved(w, t, slot);
    var i := IndexOf(w.carved, slot);
    var w' := Advance(arena, w, t, false).value;
    hide HeapOk, PendingSum, Flying, Total, Holders, RemoveAt, Books, Owned;
    FreeKeeps(w.free, w.carved, arena.base, arena.base + w.offset, i);
    TotalRemove(w.carved, i);
    BooksKept(arena, w, w', t, Subtracting(slot.size));
    PushOwned(w, w', t, slot, i);
  }

  lemma PlaceKeepsInv(arena: Arena, w: World, t: nat, slot: Node)
    requires Inv(arena, w) && t < |w.pcs| && w.pcs[t] == Placing(slot)
    ensures Inv(arena, Advance(arena, w, t, false).value)
  {
    HolderCounts(w.pcs, t, slot);
    CarvedOnce(arena, w, slot);
    assert Owners(w, slot) == multiset(w.carved)[slot];
    var w' := Advance(arena, w, t, false).value;
    BooksKept(arena, w, w', t, Idle);
    OwnedKept(w, w', t, Idle);
  }

  lemma PcOkOf(arena: Arena, w: World, t: nat)
    requires Inv(arena, w) && t < |w.pcs|
    ensures PcOk(arena, w.pcs[t])
  {
    hide Heap, Owned, Total, PendingSum, Flying, PcOk;
  }

  lemma LockedOf(arena: Arena, w: World)
    requires Inv(arena, w)
    ensures w.locked <= arena.capacity
  {
  }

  /** The accesses that touch no slot. */
  lemma CountersKeepInv(arena: Arena, w: World, t: nat, spurious: bool)
    requires Inv(arena, w) && t < |w.pcs| && Advance(arena, w, t, spurious).Some?
    requires !w.pcs[t].Searching? && !w.pcs[t].Placing? && !w.pcs[t].Freeing?
    requires Advance(arena, w, t, spurious).value.carved == w.carved
    ensures Inv(arena, Advance(arena, w, t, spurious).value)
  {
    hide Heap, Owned, Total, PendingSum, Flying, Search, RemoveAt, IndexOf, Books;
    PcOkOf(arena, w, t);
    hide Inv;
    var w' := Advance(arena, w, t, spurious).value;
    LockedOf(arena, w);
    if w.pcs[t].Bumping? { assert w.carved + [Node(arena.base + w.pcs[t].seen, w.pcs[t].needed)] != w.carved; }
    QuietKeeps(arena, w, w', t, w'.pcs[t]);
  }

  /** Every atomic access of every thread keeps the invariant. */
  lemma AdvanceKeeps(arena: Arena, w: World, t: nat, spurious: bool)
    requires Inv(arena, w) && t < |w.pcs| && Advance(arena, w, t, spurious).Some?
    ensures Inv(arena, Advance(arena, w, t, spurious).value)
  {
    hide Inv, Search, RemoveAt, IndexOf;
    match w.pcs[t]
    case Searching(n) => SearchKeeps(arena, w, t, n);
    case Bumping(n, seen) =>
      if seen + n <= arena.capacity && w.offset == seen && !spurious {
        BumpKeepsInv(arena, w, t, n);
      } else {
        CountersKeepInv(arena, w, t, spurious);
      }
    case Placing(slot) => PlaceKeepsInv(arena, w, t, slot);
    case Freeing(slot) => PushKeepsInv(arena, w, t, slot);
    case Idle =>
    case _ => CountersKeepInv(arena, w, t, spurious);
  }

  lemma StartKeeps(arena: Arena, w: World, t: nat, pc: Pc)
    requires Inv(arena, w) && t < |w.pcs| && w.pcs[t].Idle? && PcOk(arena, pc) && (pc.LoadingUsed? || pc.Locking?)
    ensures Inv(arena, Goto(w, t, pc))
  {
    hide Heap, Owned, Books;
    QuietKeeps(arena, w, Goto(w, t, pc), t, pc);
  }

  lemma FreeStartKeeps(arena: Arena, w: World, t: nat, slot: Node)
    requires Inv(arena, w) && t < |w.pcs| && w.pcs[t].Idle? && slot in w.handed
    ensures Inv(arena, Goto(w.(handed := w.handed - {slot}), t, Freeing(slot)))
  {
    var w' := Goto(w.(handed := w.handed - {slot}), t, Freeing(slot));
    hide HeapOk, Books, Owned, Total, PendingSum, Flying;
    BooksKept(arena, w, w', t, Freeing(slot));
    OwnedKept(w, w', t, Freeing(slot));
  }

  lemma StepKeeps(arena: Arena, w: World, t: nat, a: Action)
    requires Inv(arena, w) && Step(arena, w, t, a).Some?
    ensures Inv(arena, Step(arena, w, t, a).value)
  {
    hide Inv, Advance, RequiredSlotSize;
    match a
    case StartAlloc(layout) => StartKeeps(arena, w, t, LoadingUsed(Needed(layout)));
    case StartSetLocked(size) =>
      SubtractionsNeverWrap(arena, w, t);
      StartKeeps(arena, w, t, Locking(size, w.used));
    case Continue(spurious) => AdvanceKeeps(arena, w, t, spurious);
    case StartFree(slot) => FreeStartKeeps(arena, w, t, slot);
  }

  lemma HappensKeeps(arena: Arena, w: World, e: Event)
    requires Inv(arena, w) && Happens(arena, w, e).Some?
    ensures Inv(arena, Happens(arena, w, e).value)
  {
    match e
    case ThreadStep(t, a) => StepKeeps(arena, w, t, a);
    case DefragPass =>
      DefragKeeps(w.free, w.carved, arena.base, arena.base + w.offset);
      assert Owned(Happens(arena, w, e).value) by {
        forall slot ensures Owners(Happens(arena, w, e).value, slot) == Owners(w, slot) {}
      }
  }

  predicate ArenaOk(arena: Arena) {
    0 < arena.base && Aligned(arena.base)
  }

  lemma InitOk(arena: Arena, threads: nat)
    requires ArenaOk(arena)
    ensures Inv(arena, InitWorld(threads))
  {
    IdleSums(InitWorld(threads).pcs);
  }

  lemma {:induction false} IdleSums(pcs: seq<Pc>)
    requires forall t | 0 <= t < |pcs| :: pcs[t].Idle?
    ensures PendingSum(pcs) == 0 && Flying(pcs) == 0 && forall slot :: Holders(pcs, slot) == 0
  {
    if pcs != [] { IdleSums(pcs[1..]); }
  }

  /** In every interleaving of allocating, freeing, reserving and defragmenting threads the free
      nodes and carved slots tile the bumped range exactly, every carved slot has one owner, and
      `used` is the carved bytes plus what is pending. */
  lemma {:induction false} EveryRunKeeps(arena: Arena, w: World, events: seq<Event>)
    requires Inv(arena, w) && Exec(arena, w, events).Some?
    ensures Inv(arena, Exec(arena, w, events).value)
    decreases |events|
  {
    if events != [] {
      HappensKeeps(arena, w, events[0]);
      EveryRunKeeps(arena, Happens(arena, w, events[0]).value, events[1..]);
    }
  }
}
