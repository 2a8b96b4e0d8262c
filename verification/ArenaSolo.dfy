/** A thread of the concurrent allocator that runs a whole call while no other thread moves, wherever the
    others stand: what it gets, what it leaves, and when it gives up (src/memory/allocator.rs:77-166, 202-223,
    311-319). */
module ArenaSolo {
  import opened Collections
  import opened Wrappers
  import opened Slots
  import opened FreeList
  import opened ArenaThreads

  function Times(e: Event, n: nat): seq<Event> {
    if n == 0 then [] else [e] + Times(e, n - 1)
  }

  function OnOf(t: nat): Event {
    ThreadStep(t, Continue(false))
  }

  /** One access of the thread, from `Goto(w, t, pc)` to `w1`. */
  lemma Takes(arena: Arena, w: World, t: nat, pc: Pc, w1: World, n: nat)
    requires t < |w.pcs| && Advance(arena, Goto(w, t, pc), t, false) == Some(w1)
    ensures Exec(arena, Goto(w, t, pc), Times(OnOf(t), n + 1)) == Exec(arena, w1, Times(OnOf(t), n))
  {
    hide Advance;
    assert ([OnOf(t)] + Times(OnOf(t), n))[1..] == Times(OnOf(t), n);
  }

  lemma Starts(arena: Arena, w: World, t: nat, a: Action, w1: World, rest: seq<Event>)
    requires Step(arena, w, t, a) == Some(w1)
    ensures Exec(arena, w, [ThreadStep(t, a)] + rest) == Exec(arena, w1, rest)
  {
    hide Step;
    assert ([ThreadStep(t, a)] + rest)[1..] == rest;
  }

  lemma NoMore(arena: Arena, w: World, e: Event)
    ensures Exec(arena, w, Times(e, 0)) == Some(w)
  {
  }

  lemma At(w: World, t: nat, pc: Pc, next: Pc)
    requires t < |w.pcs|
    ensures Goto(w, t, pc).pcs[t] == pc && Goto(Goto(w, t, pc), t, next) == Goto(w, t, next)
  {
    assert w.pcs[t := pc][t := next] == w.pcs[t := next];
  }

  lemma Stays(w: World, t: nat)
    requires t < |w.pcs| && w.pcs[t] == Idle
    ensures Goto(w, t, Idle) == w
  {
    assert w.pcs[t := Idle] == w.pcs;
  }

  /** From the call to the budget's verdict. */
  lemma Asks(arena: Arena, w: World, t: nat, layout: Layout, m: nat)
    requires t < |w.pcs| && w.pcs[t] == Idle && ValidLayout(layout) && w.locked <= arena.capacity
    ensures var n := Needed(layout);
      var next := if w.used + n + w.locked <= arena.capacity then Reserving(n, w.used) else Idle;
      Exec(arena, w, [ThreadStep(t, StartAlloc(layout))] + Times(OnOf(t), m + 2)) ==
      Exec(arena, Goto(w, t, next), Times(OnOf(t), m))
  {
    hide Exec, Times, RequiredSlotSize, Search, IndexOf, RemoveAt;
    var n := Needed(layout);
    At(w, t, LoadingUsed(n), Deciding(n, w.used));
    At(w, t, Deciding(n, w.used), Reserving(n, w.used));
    At(w, t, Deciding(n, w.used), Idle);
    Starts(arena, w, t, StartAlloc(layout), Goto(w, t, LoadingUsed(n)), Times(OnOf(t), m + 2));
    Takes(arena, w, t, LoadingUsed(n), Goto(w, t, Deciding(n, w.used)), m + 1);
    var next := if w.used + n + w.locked <= arena.capacity then Reserving(n, w.used) else Idle;
    Takes(arena, w, t, Deciding(n, w.used), Goto(w, t, next), m);
  }

  /** The bytes of `n` have been reserved: the budget had room beside the tail. */
  lemma Reserves(arena: Arena, w: World, t: nat, layout: Layout, m: nat)
    requires t < |w.pcs| && w.pcs[t] == Idle && ValidLayout(layout) && w.locked <= arena.capacity
    requires w.used + Needed(layout) + w.locked <= arena.capacity
    ensures Exec(arena, w, [ThreadStep(t, StartAlloc(layout))] + Times(OnOf(t), m + 3)) ==
            Exec(arena, Goto(w.(used := w.used + Needed(layout)), t, Searching(Needed(layout))), Times(OnOf(t), m))
  {
    hide Exec, Times, RequiredSlotSize, Search, IndexOf, RemoveAt;
    var n := Needed(layout);
    Asks(arena, w, t, layout, m + 1);
    At(w.(used := w.used + n), t, Reserving(n, w.used), Searching(n));
    Takes(arena, w, t, Reserving(n, w.used), Goto(w.(used := w.used + n), t, Searching(n)), m);
  }

  /** Without budget beside the tail the thread leaves as it came. */
  lemma RefusedAlone(arena: Arena, w: World, t: nat, layout: Layout)
    requires t < |w.pcs| && w.pcs[t] == Idle && ValidLayout(layout) && w.locked <= arena.capacity
    requires w.used + Needed(layout) + w.locked > arena.capacity
    ensures Exec(arena, w, [ThreadStep(t, StartAlloc(layout))] + Times(OnOf(t), 2)) == Some(w)
  {
    hide Exec, Times, RequiredSlotSize;
    Asks(arena, w, t, layout, 0);
    Stays(w, t);
    NoMore(arena, w, OnOf(t));
  }

  /** The last access of a successful call: the slot's pointer goes to the program. */
  lemma HandsOver(arena: Arena, w: World, w1: World, t: nat, slot: Node, m: nat)
    requires t < |w.pcs| && w.pcs[t] == Idle && w1.pcs == w.pcs
    ensures Exec(arena, Goto(w1, t, Placing(slot)), Times(OnOf(t), m + 1)) ==
            Exec(arena, w1.(handed := w1.handed + {slot}), Times(OnOf(t), m))
  {
    hide Exec, Times, RequiredSlotSize, Search, IndexOf, RemoveAt;
    var w2 := w1.(handed := w1.handed + {slot});
    At(w2, t, Placing(slot), Idle);
    Stays(w2, t);
    Takes(arena, w1, t, Placing(slot), w2, m);
  }

  /** The search takes node `k` if that is the first large enough. */
  lemma Finds(arena: Arena, w: World, t: nat, n: nat, k: nat, m: nat)
    requires t < |w.pcs| && FirstOf(w.free, n, k)
    ensures var node, slot := w.free[k], SlotOf(w.free[k], n);
      var w1 := w.(free := TakeAt(w.free, k, n), carved := w.carved + [slot]);
      Exec(arena, Goto(w, t, Searching(n)), Times(OnOf(t), m + 1)) ==
      Exec(arena, Goto(w1, t, if slot.size > n then AddingExcess(n, slot) else Placing(slot)), Times(OnOf(t), m))
  {
    hide Exec, Times, TakeAt, SlotOf, FirstFit, IndexOf, RemoveAt;
    FirstOfIs(w.free, n, k);
    var slot := SlotOf(w.free[k], n);
    var w1 := w.(free := TakeAt(w.free, k, n), carved := w.carved + [slot]);
    var next := if slot.size > n then AddingExcess(n, slot) else Placing(slot);
    At(w, t, Searching(n), next);
    At(w1, t, Searching(n), next);
    Takes(arena, w, t, Searching(n), Goto(w1, t, next), m);
  }

  lemma AddsExcess(arena: Arena, w: World, t: nat, n: nat, slot: Node, m: nat)
    requires t < |w.pcs|
    ensures Exec(arena, Goto(w, t, AddingExcess(n, slot)), Times(OnOf(t), m + 1)) ==
            Exec(arena, Goto(w.(used := w.used + (slot.size - n)), t, Placing(slot)), Times(OnOf(t), m))
  {
    hide Exec, Times, Search, IndexOf, RemoveAt;
    var w1 := w.(used := w.used + (slot.size - n));
    At(w, t, AddingExcess(n, slot), Placing(slot));
    At(w1, t, AddingExcess(n, slot), Placing(slot));
    Takes(arena, w, t, AddingExcess(n, slot), Goto(w1, t, Placing(slot)), m);
  }

  /** The search that finds nothing, and the load of the bump pointer after it. */
  lemma FindsNone(arena: Arena, w: World, t: nat, n: nat, m: nat)
    requires t < |w.pcs| && forall j | 0 <= j < |w.free| :: w.free[j].size < n
    ensures Exec(arena, Goto(w, t, Searching(n)), Times(OnOf(t), m + 2)) ==
            Exec(arena, Goto(w, t, Bumping(n, w.offset)), Times(OnOf(t), m))
  {
    hide Exec, Times, FirstFit, IndexOf, RemoveAt;
    assert FirstFit(w.free, n) == |w.free|;
    At(w, t, Searching(n), LoadingOffset(n));
    At(w, t, LoadingOffset(n), Bumping(n, w.offset));
    Takes(arena, w, t, Searching(n), Goto(w, t, LoadingOffset(n)), m + 1);
    Takes(arena, w, t, LoadingOffset(n), Goto(w, t, Bumping(n, w.offset)), m);
  }

  lemma Bumps(arena: Arena, w: World, t: nat, n: nat, m: nat)
    requires t < |w.pcs| && w.offset + n <= arena.capacity
    ensures var slot := Node(arena.base + w.offset, n);
      Exec(arena, Goto(w, t, Bumping(n, w.offset)), Times(OnOf(t), m + 1)) ==
      Exec(arena, Goto(w.(offset := w.offset + n, carved := w.carved + [slot]), t, Placing(slot)), Times(OnOf(t), m))
  {
    hide Exec, Times, Search, IndexOf, RemoveAt;
    var slot := Node(arena.base + w.offset, n);
    var w1 := w.(offset := w.offset + n, carved := w.carved + [slot]);
    At(w, t, Bumping(n, w.offset), Placing(slot));
    At(w1, t, Bumping(n, w.offset), Placing(slot));
    Takes(arena, w, t, Bumping(n, w.offset), Goto(w1, t, Placing(slot)), m);
  }

  lemma Refunds(arena: Arena, w: World, t: nat, n: nat, m: nat)
    requires t < |w.pcs| && w.pcs[t] == Idle && w.offset + n > arena.capacity
    ensures Exec(arena, Goto(w.(used := w.used + n), t, Bumping(n, w.offset)), Times(OnOf(t), m + 2)) ==
            Exec(arena, w, Times(OnOf(t), m))
  {
    hide Exec, Times, Search, IndexOf, RemoveAt;
    var w0 := w.(used := w.used + n);
    At(w0, t, Bumping(n, w.offset), Refunding(n));
    At(w0, t, Refunding(n), Idle);
    At(w, t, Refunding(n), Idle);
    Stays(w, t);
    Takes(arena, w0, t, Bumping(n, w.offset), Goto(w0, t, Refunding(n)), m + 1);
    Takes(arena, w0, t, Refunding(n), w, m);
  }

  /** With budget and a free node 16 bytes larger than needed: the first node that is large enough gives its
      front, and what remains of it stays in its place. */
  lemma SplitsAlone(arena: Arena, w: World, t: nat, layout: Layout, k: nat)
    requires t < |w.pcs| && w.pcs[t] == Idle && ValidLayout(layout) && w.locked <= arena.capacity
    requires w.used + Needed(layout) + w.locked <= arena.capacity
    requires FirstOf(w.free, Needed(layout), k) && w.free[k].size >= Needed(layout) + 16
    ensures var n, node := Needed(layout), w.free[k];
      Exec(arena, w, [ThreadStep(t, StartAlloc(layout))] + Times(OnOf(t), 5)) ==
      Some(w.(used := w.used + n, carved := w.carved + [Node(node.addr, n)], handed := w.handed + {Node(node.addr, n)},
              free := w.free[..k] + [Node(node.addr + n, node.size - n)] + w.free[k + 1..]))
  {
    hide Exec, Times, RequiredSlotSize, Goto;
    var n, node := Needed(layout), w.free[k];
    TakeSplits(w.free, n, k);
    var slot, w0 := Node(node.addr, n), w.(used := w.used + n);
    var w1 := w0.(free := w.free[..k] + [Node(node.addr + n, node.size - n)] + w.free[k + 1..],
                  carved := w.carved + [slot]);
    Reserves(arena, w, t, layout, 2);
    Finds(arena, w0, t, n, k, 1);
    HandsOver(arena, w, w1, t, slot, 0);
    NoMore(arena, w1.(handed := w.handed + {slot}), OnOf(t));
  }

  /** With budget and a first node that leaves less than 16 bytes, the whole node is the slot and counts whole. */
  lemma WholeAlone(arena: Arena, w: World, t: nat, layout: Layout, k: nat)
    requires t < |w.pcs| && w.pcs[t] == Idle && ValidLayout(layout) && w.locked <= arena.capacity
    requires w.used + Needed(layout) + w.locked <= arena.capacity
    requires FirstOf(w.free, Needed(layout), k) && w.free[k].size < Needed(layout) + 16
    ensures var node := w.free[k];
      Exec(arena, w, [ThreadStep(t, StartAlloc(layout))] +
                     Times(OnOf(t), if node.size > Needed(layout) then 6 else 5)) ==
      Some(w.(used := w.used + node.size, carved := w.carved + [node], handed := w.handed + {node},
              free := w.free[..k] + w.free[k + 1..]))
  {
    hide Exec, Times, RequiredSlotSize, SlotOf, TakeAt, Goto;
    var n, node := Needed(layout), w.free[k];
    TakeWhole(w.free, n, k);
    var w0 := w.(used := w.used + n);
    var w1 := w0.(free := w.free[..k] + w.free[k + 1..], carved := w.carved + [node]);
    var w2 := w1.(used := w.used + node.size);
    if node.size > n {
      Reserves(arena, w, t, layout, 3);
      Finds(arena, w0, t, n, k, 2);
      AddsExcess(arena, w1, t, n, node, 1);
    } else {
      Reserves(arena, w, t, layout, 2);
      Finds(arena, w0, t, n, k, 1);
    }
    HandsOver(arena, w, w2, t, node, 0);
    NoMore(arena, w2.(handed := w.handed + {node}), OnOf(t));
  }

  /** With budget and no node large enough, but room behind the bump pointer: the slot is carved there. */
  lemma BumpsAlone(arena: Arena, w: World, t: nat, layout: Layout)
    requires t < |w.pcs| && w.pcs[t] == Idle && ValidLayout(layout) && w.locked <= arena.capacity
    requires w.used + Needed(layout) + w.locked <= arena.capacity && w.offset + Needed(layout) <= arena.capacity
    requires forall j | 0 <= j < |w.free| :: w.free[j].size < Needed(layout)
    ensures var n := Needed(layout);
      var slot := Node(arena.base + w.offset, n);
      Exec(arena, w, [ThreadStep(t, StartAlloc(layout))] + Times(OnOf(t), 7)) ==
      Some(w.(used := w.used + n, offset := w.offset + n, carved := w.carved + [slot], handed := w.handed + {slot}))
  {
    hide Exec, Times, RequiredSlotSize, Goto, ValidLayout;
    var n := Needed(layout);
    var slot, w0 := Node(arena.base + w.offset, n), w.(used := w.used + n);
    var w1 := w0.(offset := w.offset + n, carved := w.carved + [slot]);
    Reserves(arena, w, t, layout, 4);
    FindsNone(arena, w0, t, n, 2);
    Bumps(arena, w0, t, n, 1);
    HandsOver(arena, w, w1, t, slot, 0);
    NoMore(arena, w1.(handed := w.handed + {slot}), OnOf(t));
  }

  /** With budget but room neither in the free list nor behind the bump pointer: what was reserved is given back. */
  lemma RefundedAlone(arena: Arena, w: World, t: nat, layout: Layout)
    requires t < |w.pcs| && w.pcs[t] == Idle && ValidLayout(layout) && w.locked <= arena.capacity
    requires w.used + Needed(layout) + w.locked <= arena.capacity && w.offset + Needed(layout) > arena.capacity
    requires forall j | 0 <= j < |w.free| :: w.free[j].size < Needed(layout)
    ensures Exec(arena, w, [ThreadStep(t, StartAlloc(layout))] + Times(OnOf(t), 7)) == Some(w)
  {
    hide Exec, Times, RequiredSlotSize, Goto, ValidLayout;
    var n := Needed(layout);
    Reserves(arena, w, t, layout, 4);
    FindsNone(arena, w.(used := w.used + n), t, n, 2);
    Refunds(arena, w, t, n, 0);
    NoMore(arena, w, OnOf(t));
  }

  /** The first node of at least `n` bytes, where there is one. */
  lemma FirstExists(free: seq<Node>, n: nat, j: nat) returns (k: nat)
    requires j < |free| && n <= free[j].size
    ensures FirstOf(free, n, k)
  {
    k := FirstFit(free, n);
  }

  /** `w1` is `w` with one more slot, of at least `n` bytes, in the program's hands. */
  ghost predicate GotSlot(w: World, w1: World, n: nat) {
    exists slot: Node :: (n <= slot.size && w1.carved == w.carved + [slot] && w1.handed == w.handed + {slot} &&
      w1.used == w.used + slot.size && w1.locked == w.locked && w1.pcs == w.pcs)
  }

  /** In whatever state the other threads stand, an allocation that nobody disturbs gets its slot exactly if
      the budget has room for it beside the tail and there is a free node large enough or room behind the
      bump pointer; otherwise it leaves no trace. */
  lemma ServedAlone(arena: Arena, w: World, t: nat, layout: Layout) returns (m: nat, w1: World)
    requires t < |w.pcs| && w.pcs[t] == Idle && ValidLayout(layout) && w.locked <= arena.capacity
    ensures Exec(arena, w, [ThreadStep(t, StartAlloc(layout))] + Times(OnOf(t), m)) == Some(w1)
    ensures var n := Needed(layout);
      if w.used + n + w.locked <= arena.capacity && (SomeNode(w.free, n) || w.offset + n <= arena.capacity)
      then GotSlot(w, w1, n) else w1 == w
  {
    hide Exec, Times, RequiredSlotSize, FirstFit, ValidLayout, GotSlot;
    var n := Needed(layout);
    w1 := w;
    if w.used + n + w.locked > arena.capacity {
      RefusedAlone(arena, w, t, layout);
      m := 2;
    } else if SomeNode(w.free, n) {
      var j :| 0 <= j < |w.free| && n <= w.free[j].size;
      var k := FirstExists(w.free, n, j);
      m, w1 := TakesAlone(arena, w, t, layout, k);
    } else if w.offset + n <= arena.capacity {
      BumpsAlone(arena, w, t, layout);
      var slot := Node(arena.base + w.offset, n);
      m := 7;
      w1 := w.(used := w.used + n, offset := w.offset + n, carved := w.carved + [slot], handed := w.handed + {slot});
      Got(w, w1, n, slot);
    } else {
      RefundedAlone(arena, w, t, layout);
      m := 7;
    }
  }

  lemma Got(w: World, w1: World, n: nat, slot: Node)
    requires n <= slot.size && w1.carved == w.carved + [slot] && w1.handed == w.handed + {slot}
    requires w1.used == w.used + slot.size && w1.locked == w.locked && w1.pcs == w.pcs
    ensures GotSlot(w, w1, n)
  {
  }

  lemma TakesAlone(arena: Arena, w: World, t: nat, layout: Layout, k: nat) returns (m: nat, w1: World)
    requires t < |w.pcs| && w.pcs[t] == Idle && ValidLayout(layout) && w.locked <= arena.capacity
    requires w.used + Needed(layout) + w.locked <= arena.capacity && FirstOf(w.free, Needed(layout), k)
    ensures Exec(arena, w, [ThreadStep(t, StartAlloc(layout))] + Times(OnOf(t), m)) == Some(w1)
    ensures GotSlot(w, w1, Needed(layout))
  {
    hide Exec, Times, RequiredSlotSize, FirstFit, ValidLayout, GotSlot;
    var n, node := Needed(layout), w.free[k];
    if node.size >= n + 16 {
      SplitsAlone(arena, w, t, layout, k);
      var slot := Node(node.addr, n);
      m := 5;
      w1 := w.(used := w.used + n, carved := w.carved + [slot], handed := w.handed + {slot},
               free := w.free[..k] + [Node(node.addr + n, node.size - n)] + w.free[k + 1..]);
      Got(w, w1, n, slot);
    } else {
      WholeAlone(arena, w, t, layout, k);
      m := if node.size > n then 6 else 5;
      w1 := w.(used := w.used + node.size, carved := w.carved + [node], handed := w.handed + {node},
               free := w.free[..k] + w.free[k + 1..]);
      Got(w, w1, n, node);
    }
  }

  lemma HandedCarved(arena: Arena, w: World, slot: Node)
    requires Inv(arena, w) && slot in w.handed
    ensures slot in w.carved
  {
    hide Heap, Books;
    assert Owners(w, slot) == multiset(w.carved)[slot];
    assert slot in multiset(w.carved);
  }

  lemma Pushes(arena: Arena, w: World, t: nat, slot: Node, m: nat)
    requires t < |w.pcs| && slot in w.carved
    ensures var i := IndexOf(w.carved, slot);
      var w1 := w.(free := [slot] + w.free, carved := w.carved[..i] + w.carved[i + 1..]);
      Exec(arena, Goto(w, t, Freeing(slot)), Times(OnOf(t), m + 1)) ==
      Exec(arena, Goto(w1, t, Subtracting(slot.size)), Times(OnOf(t), m))
  {
    hide Exec, Times, IndexOf, Search;
    var i := IndexOf(w.carved, slot);
    var w1 := w.(free := [slot] + w.free, carved := w.carved[..i] + w.carved[i + 1..]);
    At(w, t, Freeing(slot), Subtracting(slot.size));
    At(w1, t, Freeing(slot), Subtracting(slot.size));
    Takes(arena, w, t, Freeing(slot), Goto(w1, t, Subtracting(slot.size)), m);
  }

  lemma Subtracts(arena: Arena, w: World, t: nat, size: nat, m: nat)
    requires t < |w.pcs| && w.pcs[t] == Idle
    ensures Exec(arena, Goto(w, t, Subtracting(size)), Times(OnOf(t), m + 1)) ==
            Exec(arena, w.(used := w.used - size), Times(OnOf(t), m))
  {
    hide Exec, Times, IndexOf, RemoveAt, Search;
    var w1 := w.(used := w.used - size);
    At(w1, t, Subtracting(size), Idle);
    Stays(w1, t);
    Takes(arena, w, t, Subtracting(size), w1, m);
  }

  /** A free nobody interferes with: the slot goes to the front of the free list, off the carved ones, and
      out of `used`. */
  lemma FreesAlone(arena: Arena, w: World, t: nat, slot: Node)
    requires Inv(arena, w) && t < |w.pcs| && w.pcs[t] == Idle && slot in w.handed
    ensures slot in w.carved
    ensures var i := IndexOf(w.carved, slot);
      Exec(arena, w, [ThreadStep(t, StartFree(slot))] + Times(OnOf(t), 2)) ==
      Some(w.(free := [slot] + w.free, carved := w.carved[..i] + w.carved[i + 1..], handed := w.handed - {slot},
              used := w.used - slot.size))
  {
    hide Exec, Times, Inv, IndexOf, Advance;
    HandedCarved(arena, w, slot);
    var i := IndexOf(w.carved, slot);
    var w0 := w.(handed := w.handed - {slot});
    var w1 := w0.(free := [slot] + w.free, carved := w.carved[..i] + w.carved[i + 1..]);
    Starts(arena, w, t, StartFree(slot), Goto(w0, t, Freeing(slot)), Times(OnOf(t), 2));
    Pushes(arena, w0, t, slot, 1);
    Subtracts(arena, w1, t, slot.size, 0);
    NoMore(arena, w1.(used := w.used - slot.size), OnOf(t));
  }

  /** Setting the tail alone succeeds exactly if it fits beside `used`. */
  lemma LocksAlone(arena: Arena, w: World, t: nat, size: nat)
    requires t < |w.pcs| && w.pcs[t] == Idle
    ensures Exec(arena, w, [ThreadStep(t, StartSetLocked(size))] + Times(OnOf(t), 1)) ==
            Some(if w.used + size <= arena.capacity then w.(locked := size) else w)
  {
    hide Exec, Times, Search, IndexOf, RemoveAt;
    var w1 := if w.used + size <= arena.capacity then w.(locked := size) else w;
    At(w, t, Locking(size, w.used), Idle);
    At(w1, t, Locking(size, w.used), Idle);
    Starts(arena, w, t, StartSetLocked(size), Goto(w, t, Locking(size, w.used)), Times(OnOf(t), 1));
    Takes(arena, w, t, Locking(size, w.used), Goto(w1, t, Idle), 0);
    NoMore(arena, Goto(w1, t, Idle), OnOf(t));
    assert w.pcs[t := Idle] == w.pcs;
  }

  /** In any state of the others and through any failed compare-exchange: a thread gives an allocation up
      exactly where the `used` it last saw leaves no room beside the tail, or where the `offset` it last saw
      leaves none below the capacity and its reservation is given back; and what it expects of a
      compare-exchange it tries again is what the counter holds now. */
  lemma GivesUpExactlyWhen(arena: Arena, w: World, t: nat, spurious: bool)
    requires Inv(arena, w) && t < |w.pcs| && Advance(arena, w, t, spurious).Some?
    requires !w.pcs[t].Idle? && !w.pcs[t].Placing? && !w.pcs[t].Subtracting? && !w.pcs[t].Locking?
    ensures var pc, next := w.pcs[t], Advance(arena, w, t, spurious).value.pcs;
      t < |next| &&
      (next[t].Idle? <==> pc.Refunding? || (pc.Deciding? && pc.current + pc.needed + w.locked > arena.capacity)) &&
      (next[t].Refunding? <==> pc.Bumping? && pc.seen + pc.needed > arena.capacity) &&
      (next[t].Deciding? ==> next[t] == Deciding(pc.needed, w.used)) &&
      (next[t].Bumping? ==> next[t] == Bumping(pc.needed, w.offset))
  {
    LockedOf(arena, w);
    hide Inv, TakeAt, IndexOf, RemoveAt;
  }
}
