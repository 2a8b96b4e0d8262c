/** What the invariant of `ArenaThreads` gives in every reachable state, and the run in which the
    counter `used` overshoots the capacity. */
module ArenaRuns {
  import opened Collections
  import opened Wrappers
  import opened Slots
  import opened FreeList
  import opened Tiling
  import opened ArenaThreads

  ghost predicate Reachable(arena: Arena, threads: nat, w: World) {
    exists events :: Exec(arena, InitWorld(threads), events) == Some(w)
  }

  lemma ReachableInv(arena: Arena, threads: nat, w: World)
    requires ArenaOk(arena) && Reachable(arena, threads, w)
    ensures Inv(arena, w)
  {
    var events :| Exec(arena, InitWorld(threads), events) == Some(w);
    InitOk(arena, threads);
    EveryRunKeeps(arena, InitWorld(threads), events);
  }

  // ---- Quiescent states ----

  /** When no thread is inside the allocator, `used` is exactly the bytes of the slots the program
      holds, no slot is lost, and the free memory reported is what is left of the capacity. */
  lemma QuiescentBooks(arena: Arena, w: World)
    requires Inv(arena, w) && forall t | 0 <= t < |w.pcs| :: w.pcs[t].Idle?
    ensures w.used == Total(w.carved) && w.used <= w.offset <= arena.capacity
    ensures forall slot :: slot in w.carved <==> slot in w.handed
  {
    IdleSums(w.pcs);
    TotalsAddUp(w.free, w.carved, arena.base, arena.base + w.offset);
    forall slot ensures slot in w.carved <==> slot in w.handed {
      assert Owners(w, slot) == multiset(w.carved)[slot];
      assert slot in w.carved <==> slot in multiset(w.carved);
    }
  }

  lemma FirstIn(fs: seq<Node>)
    ensures fs != [] ==> exists x :: x in fs
  {
    if fs != [] { assert fs[0] in fs; }
  }

  lemma NothingCarved()
    ensures Total([]) == 0
  {
  }

  lemma HeapPart(arena: Arena, w: World)
    requires Inv(arena, w)
    ensures HeapOk(w.free, w.carved, arena.base, arena.base + w.offset)
  {
  }

  /** A free list that tiles a range alone defragments to one node. */
  lemma WholeRange(free: seq<Node>, lo: nat, hi: nat)
    requires HeapOk(free, [], lo, hi)
    ensures Defrag(free) == if lo == hi then [] else [Node(lo, hi - lo)]
  {
    var whole := if lo == hi then [] else [Node(lo, hi - lo)];
    HeapDisjoint(free, [], lo, hi);
    DefragCanonical(free);
    assert Canonical(whole);
    forall b
      ensures Cover(Defrag(free), b) > 0 <==> Cover(whole, b) > 0
    {
      DefragCover(free, b);
      assert Cover(free, b) + Cover([], b) == if lo <= b < hi then 1 else 0;
      if lo < hi { assert Cover(whole, b) == One(whole[0], b); }
    }
    CanonicalUnique(Defrag(free), whole);
  }

  /** When in addition the program holds nothing, one defragmentation reclaims everything: the free list
      becomes a single node over the whole bumped range. */
  lemma EverythingReclaimed(arena: Arena, w: World)
    requires Inv(arena, w) && (forall t | 0 <= t < |w.pcs| :: w.pcs[t].Idle?) && w.handed == {}
    ensures w.used == 0
    ensures Happens(arena, w, DefragPass).value.free == if w.offset == 0 then [] else [Node(arena.base, w.offset)]
  {
    hide Inv, HeapOk, Total, Defrag, Owned, Books;
    QuiescentBooks(arena, w);
    FirstIn(w.carved);
    assert Total(w.carved) == 0 by { NothingCarved(); }
    HeapPart(arena, w);
    WholeRange(w.free, arena.base, arena.base + w.offset);
  }

  /** Slots with different owners share no byte, and a slot never has two owners. */
  lemma OwnersApart(arena: Arena, w: World, x: Node, y: Node)
    requires Inv(arena, w) && Owners(w, x) > 0 && Owners(w, y) > 0
    ensures Owners(w, x) == 1
    ensures x != y ==> Before(x, y)
  {
    CarvedOnce(arena, w, x);
    assert Owners(w, x) == multiset(w.carved)[x];
    assert Owners(w, y) == multiset(w.carved)[y];
    assert x in multiset(w.carved) && y in multiset(w.carved);
    HeapLayout(w.free, w.carved, arena.base, arena.base + w.offset);
    var i, j := IndexOf(w.carved, x), IndexOf(w.carved, y);
    if i < j { assert Before(w.carved[i], w.carved[j]); }
    if j < i { assert Before(w.carved[j], w.carved[i]); }
  }

  // ---- `used` above the capacity ----

  /** `used` exceeds the capacity by what the pending amounts exceed the free bytes, and never by
      more than 8 bytes for each thread. */
  lemma OvershootBooks(arena: Arena, w: World)
    requires Inv(arena, w)
    ensures w.used > arena.capacity <==> PendingSum(w.pcs) > Total(w.free) + (arena.capacity - w.offset)
    ensures w.used <= arena.capacity + 8 * |w.pcs|
  {
    TotalsAddUp(w.free, w.carved, arena.base, arena.base + w.offset);
  }

  lemma {:induction false} ExecConcat(arena: Arena, w: World, xs: seq<Event>, ys: seq<Event>)
    requires Exec(arena, w, xs).Some?
    ensures Exec(arena, w, xs + ys) == Exec(arena, Exec(arena, w, xs).value, ys)
    decreases |xs|
  {
    if xs == [] {
      assert xs + ys == ys;
    } else {
      assert (xs + ys)[1..] == xs[1..] + ys;
      ExecConcat(arena, Happens(arena, w, xs[0]).value, xs[1..], ys);
    }
  }

  /** One more event at the end of a run. */
  lemma Extend(arena: Arena, threads: nat, w: World, e: Event)
    requires Reachable(arena, threads, w) && Happens(arena, w, e).Some?
    ensures Reachable(arena, threads, Happens(arena, w, e).value)
  {
    var events :| Exec(arena, InitWorld(threads), events) == Some(w);
    ExecConcat(arena, InitWorld(threads), events, [e]);
    assert Exec(arena, w, [e]) == Some(Happens(arena, w, e).value) by {
      assert [e][1..] == [];
    }
    assert Exec(arena, InitWorld(threads), events + [e]) == Some(Happens(arena, w, e).value);
  }

  /** Thread `t` takes its next step without interference. */
  lemma Go(arena: Arena, threads: nat, w: World, t: nat, w': World)
    requires Reachable(arena, threads, w) && t < |w.pcs| && Advance(arena, w, t, false) == Some(w')
    ensures Reachable(arena, threads, w')
  {
    Extend(arena, threads, w, ThreadStep(t, Continue(false)));
  }

  lemma GotoTwice(w: World, t: nat, p: Pc, q: Pc)
    requires t < |w.pcs|
    ensures Goto(Goto(w, t, p), t, q) == Goto(w, t, q)
  {
    assert w.pcs[t := p][t := q] == w.pcs[t := q];
  }

  /** A reservation nobody interferes with. */
  lemma Reserved(arena: Arena, threads: nat, w: World, t: nat, layout: Layout)
    requires Reachable(arena, threads, w) && t < |w.pcs| && w.pcs[t] == Idle && ValidLayout(layout)
    requires w.locked == 0 && w.used + Needed(layout) <= arena.capacity
    ensures Reachable(arena, threads, Goto(w.(used := w.used + Needed(layout)), t, Searching(Needed(layout))))
  {
    hide Reachable, RequiredSlotSize;
    var n := Needed(layout);
    Extend(arena, threads, w, ThreadStep(t, StartAlloc(layout)));
    GotoTwice(w, t, LoadingUsed(n), Deciding(n, w.used));
    Go(arena, threads, Goto(w, t, LoadingUsed(n)), t, Goto(w, t, Deciding(n, w.used)));
    GotoTwice(w, t, Deciding(n, w.used), Reserving(n, w.used));
    Go(arena, threads, Goto(w, t, Deciding(n, w.used)), t, Goto(w, t, Reserving(n, w.used)));
    GotoTwice(w.(used := w.used + n), t, Reserving(n, w.used), Searching(n));
    Go(arena, threads, Goto(w, t, Reserving(n, w.used)), t, Goto(w.(used := w.used + n), t, Searching(n)));
  }

  const GIB8 := 0x2_0000_0000

  /** A reservation of `n` bytes nobody interferes with. */
  lemma ReservedBytes(arena: Arena, threads: nat, w: World, t: nat, n: nat)
    requires 24 <= n <= GIB8 && n % 8 == 0
    requires Reachable(arena, threads, w) && t < |w.pcs| && w.pcs[t] == Idle
    requires w.locked == 0 && w.used + n <= arena.capacity
    ensures Reachable(arena, threads, Goto(w.(used := w.used + n), t, Searching(n)))
  {
    hide Reachable;
    ExactSize(n);
    hide RequiredSlotSize;
    Reserved(arena, threads, w, t, Layout(n - 16, 1));
  }

  /** The world of two threads at `p` and `q`. */
  function Two(free: seq<Node>, carved: seq<Node>, handed: set<Node>, offset: nat, used: int, p: Pc, q: Pc): World {
    World(free, carved, handed, offset, used, 0, [p, q])
  }

  lemma First(w: World, p: Pc, q: Pc, x: Pc)
    requires w.pcs == [p, q]
    ensures Goto(w, 0, x) == w.(pcs := [x, q])
    ensures Goto(w, 1, x) == w.(pcs := [p, x])
  {
    assert [p, q][0 := x] == [x, q];
    assert [p, q][1 := x] == [p, x];
  }

  lemma InitReachable(arena: Arena)
    ensures Reachable(arena, 2, Two([], [], {}, 0, 0, Idle, Idle))
  {
    var w0 := Two([], [], {}, 0, 0, Idle, Idle);
    assert w0 == InitWorld(2) by { assert seq(2, _ => Idle) == [Idle, Idle]; }
    assert Exec(arena, w0, []) == Some(w0);
  }

  /** Thread 0 reserves 32 bytes of an empty arena. */
  lemma ReserveFirst(arena: Arena)
    requires arena.capacity == GIB8
    ensures Reachable(arena, 2, Two([], [], {}, 0, 32, Searching(32), Idle))
  {
    var w0 := Two([], [], {}, 0, 0, Idle, Idle);
    InitReachable(arena);
    hide Reachable;
    ReservedBytes(arena, 2, w0, 0, 32);
    First(w0.(used := 32), Idle, Idle, Searching(32));
  }

  /** It finds the free list empty and goes for the bump pointer ... */
  lemma MissFirst(arena: Arena)
    requires Reachable(arena, 2, Two([], [], {}, 0, 32, Searching(32), Idle))
    ensures Reachable(arena, 2, Two([], [], {}, 0, 32, Bumping(32, 0), Idle))
  {
    hide Reachable;
    var w1 := Two([], [], {}, 0, 32, Searching(32), Idle);
    First(w1, Searching(32), Idle, LoadingOffset(32));
    var w2 := Two([], [], {}, 0, 32, LoadingOffset(32), Idle);
    Go(arena, 2, w1, 0, w2);
    First(w2, LoadingOffset(32), Idle, Bumping(32, 0));
    Go(arena, 2, w2, 0, Two([], [], {}, 0, 32, Bumping(32, 0), Idle));
  }

  /** ... where it carves its slot. */
  lemma CarveFirst(arena: Arena, slot: Node)
    requires arena.capacity == GIB8 && slot == Node(arena.base, 32)
    requires Reachable(arena, 2, Two([], [], {}, 0, 32, Bumping(32, 0), Idle))
    ensures Reachable(arena, 2, Two([], [slot], {slot}, 32, 32, Idle, Idle))
  {
    hide Reachable;
    var w3 := Two([], [], {}, 0, 32, Bumping(32, 0), Idle);
    First(w3.(offset := 32, carved := [slot]), Bumping(32, 0), Idle, Placing(slot));
    var w4 := Two([], [slot], {}, 32, 32, Placing(slot), Idle);
    assert [] + [slot] == [slot];
    Go(arena, 2, w3, 0, w4);
    assert {} + {slot} == {slot};
    First(w4.(handed := {slot}), Placing(slot), Idle, Idle);
    Go(arena, 2, w4, 0, Two([], [slot], {slot}, 32, 32, Idle, Idle));
  }

  /** Then thread 0 frees the slot again. */
  lemma FreeFirst(arena: Arena, slot: Node)
    requires Reachable(arena, 2, Two([], [slot], {slot}, 32, 32, Idle, Idle)) && slot.size == 32
    ensures Reachable(arena, 2, Two([slot], [], {}, 32, 0, Idle, Idle))
  {
    hide Reachable;
    var w5 := Two([], [slot], {slot}, 32, 32, Idle, Idle);
    var w6 := Two([], [slot], {}, 32, 32, Freeing(slot), Idle);
    First(w5.(handed := {}), Idle, Idle, Freeing(slot));
    assert w5.handed - {slot} == {};
    assert Happens(arena, w5, ThreadStep(0, StartFree(slot))) == Some(w6);
    Extend(arena, 2, w5, ThreadStep(0, StartFree(slot)));
    var w7 := Two([slot], [], {}, 32, 32, Subtracting(32), Idle);
    First(w6.(free := [slot], carved := []), Freeing(slot), Idle, Subtracting(32));
    assert RemoveAt([slot], 0) == [] && [slot] + [] == [slot];
    Go(arena, 2, w6, 0, w7);
    First(w7.(used := 0), Subtracting(32), Idle, Idle);
    Go(arena, 2, w7, 0, Two([slot], [], {}, 32, 0, Idle, Idle));
  }

  /** The budget is used up by two reservations. */
  lemma ReserveBoth(arena: Arena, slot: Node)
    requires arena.capacity == GIB8
    requires Reachable(arena, 2, Two([slot], [], {}, 32, 0, Idle, Idle))
    ensures Reachable(arena, 2, Two([slot], [], {}, 32, GIB8, Searching(24), Searching(GIB8 - 24)))
  {
    var big := GIB8 - 24;
    hide Reachable;
    var w8 := Two([slot], [], {}, 32, 0, Idle, Idle);
    ReservedBytes(arena, 2, w8, 0, 24);
    First(w8.(used := 24), Idle, Idle, Searching(24));
    var w9 := Two([slot], [], {}, 32, 24, Searching(24), Idle);
    ReservedBytes(arena, 2, w9, 1, big);
    First(w9.(used := GIB8), Searching(24), Idle, Searching(big));
  }

  /** Thread 0 is handed the whole free node and adds its excess. */
  lemma TakeWhole(arena: Arena, slot: Node, big: nat)
    requires slot.size == 32
    requires Reachable(arena, 2, Two([slot], [], {}, 32, GIB8, Searching(24), Searching(big)))
    ensures Reachable(arena, 2, Two([], [slot], {}, 32, GIB8 + 8, Placing(slot), Searching(big)))
  {
    hide Reachable;
    var w10 := Two([slot], [], {}, 32, GIB8, Searching(24), Searching(big));
    assert FirstFit([slot], 24) == 0 && TakeAt([slot], 0, 24) == [] && [] + [slot] == [slot];
    First(w10.(free := [], carved := [slot]), Searching(24), Searching(big), AddingExcess(24, slot));
    var w11 := Two([], [slot], {}, 32, GIB8, AddingExcess(24, slot), Searching(big));
    Go(arena, 2, w10, 0, w11);
    First(w11.(used := GIB8 + 8), AddingExcess(24, slot), Searching(big), Placing(slot));
    Go(arena, 2, w11, 0, Two([], [slot], {}, 32, GIB8 + 8, Placing(slot), Searching(big)));
  }

  /** Two threads suffice to push `used` above the capacity: one has the whole rest of the budget
      reserved while the other is handed a free node 8 bytes larger than it reserved. */
  lemma OvershootReachable(arena: Arena) returns (w: World)
    requires ArenaOk(arena) && arena.capacity == GIB8
    ensures Reachable(arena, 2, w) && w.used == arena.capacity + 8
  {
    var slot := Node(arena.base, 32);
    ReserveFirst(arena);
    MissFirst(arena);
    CarveFirst(arena, slot);
    FreeFirst(arena, slot);
    ReserveBoth(arena, slot);
    TakeWhole(arena, slot, GIB8 - 24);
    w := Two([], [slot], {}, 32, GIB8 + 8, Placing(slot), Searching(GIB8 - 24));
  }
}
