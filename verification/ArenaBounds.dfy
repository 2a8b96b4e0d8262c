/** The two bounds on the counters that concurrent threads can break, and exactly which accesses break
    them: `used <= capacity`, which `get_free_mem_size` relies on, and `used + locked <= capacity`,
    which the tail reservation is for (src/memory/allocator.rs:148-195, 268-276, 311-319). */
module ArenaBounds {
  import opened Collections
  import opened Wrappers
  import opened FreeList
  import opened Slots
  import opened Tiling
  import opened ArenaThreads
  import opened ArenaRuns

  // ---- `used` within the capacity ----

  /** Thread `e.t` adds the excess of a node handed out whole, which no budget check covers. */
  predicate Overfills(arena: Arena, w: World, e: Event) {
    e.ThreadStep? && e.a.Continue? && e.t < |w.pcs| && w.pcs[e.t].AddingExcess? &&
    w.used + (w.pcs[e.t].slot.size - w.pcs[e.t].needed) > arena.capacity
  }

  lemma SearchCounts(w: World, t: nat, n: nat)
    requires t < |w.pcs|
    ensures Search(w, t, n).used == w.used && Search(w, t, n).locked == w.locked
  {
    hide TakeAt, SlotOf, FirstFit;
  }

  /** `capacity - used` starts to underflow exactly at the unchecked addition of an excess. */
  lemma UnderflowsExactlyWhen(arena: Arena, w: World, e: Event)
    requires Inv(arena, w) && w.used <= arena.capacity && Happens(arena, w, e).Some?
    ensures Happens(arena, w, e).value.used > arena.capacity <==> Overfills(arena, w, e)
  {
    if e.ThreadStep? && e.a.Continue? { assert PcOk(arena, w.pcs[e.t]); }
    hide Inv, Search, RemoveAt, IndexOf, Defrag, RequiredSlotSize;
    if e.ThreadStep? && e.a.Continue? && w.pcs[e.t].Searching? { SearchCounts(w, e.t, w.pcs[e.t].needed); }
  }

  ghost predicate StaysWithin(arena: Arena, w: World, events: seq<Event>)
    decreases |events|
  {
    w.used <= arena.capacity &&
    (events != [] && Happens(arena, w, events[0]).Some? ==>
      StaysWithin(arena, Happens(arena, w, events[0]).value, events[1..]))
  }

  ghost predicate NeverOverfills(arena: Arena, w: World, events: seq<Event>)
    decreases |events|
  {
    events != [] && Happens(arena, w, events[0]).Some? ==>
      !Overfills(arena, w, events[0]) && NeverOverfills(arena, Happens(arena, w, events[0]).value, events[1..])
  }

  /** In every run `used` stays within the capacity exactly as long as no excess is added that does not fit. */
  lemma {:induction false} WithinExactlyWhen(arena: Arena, w: World, events: seq<Event>)
    requires Inv(arena, w) && w.used <= arena.capacity
    ensures StaysWithin(arena, w, events) <==> NeverOverfills(arena, w, events)
    decreases |events|
  {
    hide Inv, Overfills, Happens;
    if events != [] && Happens(arena, w, events[0]).Some? {
      var w' := Happens(arena, w, events[0]).value;
      UnderflowsExactlyWhen(arena, w, events[0]);
      HappensKeeps(arena, w, events[0]);
      if w'.used <= arena.capacity { WithinExactlyWhen(arena, w', events[1..]); }
    }
  }

  lemma {:induction false} OthersOwe(pcs: seq<Pc>, t: nat)
    requires t < |pcs| && forall u | 0 <= u < |pcs| && u != t :: Pending(pcs[u]) <= 0
    ensures PendingSum(pcs) <= Pending(pcs[t])
    decreases |pcs|
  {
    if t > 0 { OthersOwe(pcs[1..], t - 1); }
    else { NothingPending(pcs[1..]); }
  }

  lemma {:induction false} NothingPending(pcs: seq<Pc>)
    requires forall u | 0 <= u < |pcs| :: Pending(pcs[u]) <= 0
    ensures PendingSum(pcs) <= 0
  {
    if pcs != [] { NothingPending(pcs[1..]); }
  }

  /** It takes two: an excess always fits while no other thread has a reservation or a free under way. */
  lemma AloneNeverOverfills(arena: Arena, w: World, e: Event)
    requires Inv(arena, w) && e.ThreadStep?
    requires forall u | 0 <= u < |w.pcs| && u != e.t :: Pending(w.pcs[u]) <= 0
    ensures !Overfills(arena, w, e)
  {
    if e.t < |w.pcs| && w.pcs[e.t].AddingExcess? {
      OthersOwe(w.pcs, e.t);
      TotalsAddUp(w.free, w.carved, arena.base, arena.base + w.offset);
    }
  }

  /** A single thread therefore never makes `capacity - used` underflow. */
  lemma {:induction false} OneThreadStaysWithin(arena: Arena, w: World, events: seq<Event>)
    requires Inv(arena, w) && w.used <= arena.capacity && |w.pcs| == 1
    ensures StaysWithin(arena, w, events)
    decreases |events|
  {
    hide Inv, Overfills, Advance, RequiredSlotSize, PendingSum;
    if events != [] && Happens(arena, w, events[0]).Some? {
      UnderflowsExactlyWhen(arena, w, events[0]);
      if events[0].ThreadStep? { AloneNeverOverfills(arena, w, events[0]); }
      HappensKeeps(arena, w, events[0]);
      SameThreads(arena, w, events[0]);
      OneThreadStaysWithin(arena, Happens(arena, w, events[0]).value, events[1..]);
    }
  }

  lemma SameThreads(arena: Arena, w: World, e: Event)
    requires Happens(arena, w, e).Some?
    ensures |Happens(arena, w, e).value.pcs| == |w.pcs|
  {
    hide RemoveAt, IndexOf, TakeAt, SlotOf, FirstFit, Defrag, RequiredSlotSize;
  }

  // ---- The tail reservation ----

  /** The accesses that can take `used` into the reserved tail: an excess nobody checks; a reservation
      decided on before the tail grew; and a tail decided on before `used` grew. */
  predicate Intrudes(arena: Arena, w: World, e: Event) {
    e.ThreadStep? && e.a.Continue? && e.t < |w.pcs| &&
    match w.pcs[e.t]
    case AddingExcess(n, slot) => w.used + (slot.size - n) + w.locked > arena.capacity
    case Reserving(n, current) => w.used == current && !e.a.spurious && current + n + w.locked > arena.capacity
    case Locking(size, current) => current + size <= arena.capacity < w.used + size
    case _ => false
  }

  /** The tail is lost exactly at one of these accesses. */
  lemma TailLostExactlyWhen(arena: Arena, w: World, e: Event)
    requires Inv(arena, w) && w.used + w.locked <= arena.capacity && Happens(arena, w, e).Some?
    ensures var w' := Happens(arena, w, e).value;
      w'.used + w'.locked > arena.capacity <==> Intrudes(arena, w, e)
  {
    if e.ThreadStep? && e.a.Continue? { assert PcOk(arena, w.pcs[e.t]); }
    hide Inv, Search, RemoveAt, IndexOf, Defrag, RequiredSlotSize;
    if e.ThreadStep? && e.a.Continue? && w.pcs[e.t].Searching? { SearchCounts(w, e.t, w.pcs[e.t].needed); }
  }

  /** Only a tail that fitted beside the `used` loaded before it is ever stored, and it always is. */
  lemma TailChangesExactlyWhen(arena: Arena, w: World, e: Event)
    requires Happens(arena, w, e).Some?
    ensures Happens(arena, w, e).value.locked ==
      if e.ThreadStep? && e.a.Continue? && w.pcs[e.t].Locking? &&
         w.pcs[e.t].current + w.pcs[e.t].size <= arena.capacity
      then w.pcs[e.t].size else w.locked
  {
    hide Search, RemoveAt, IndexOf, Defrag, RequiredSlotSize;
    if e.ThreadStep? && e.a.Continue? && w.pcs[e.t].Searching? { SearchCounts(w, e.t, w.pcs[e.t].needed); }
  }

  ghost predicate TailKept(arena: Arena, w: World, events: seq<Event>)
    decreases |events|
  {
    w.used + w.locked <= arena.capacity &&
    (events != [] && Happens(arena, w, events[0]).Some? ==>
      TailKept(arena, Happens(arena, w, events[0]).value, events[1..]))
  }

  ghost predicate NeverIntrudes(arena: Arena, w: World, events: seq<Event>)
    decreases |events|
  {
    events != [] && Happens(arena, w, events[0]).Some? ==>
      !Intrudes(arena, w, events[0]) && NeverIntrudes(arena, Happens(arena, w, events[0]).value, events[1..])
  }

  /** In every run the reserved tail stays clear exactly as long as no such access happens. */
  lemma {:induction false} TailKeptExactlyWhen(arena: Arena, w: World, events: seq<Event>)
    requires Inv(arena, w) && w.used + w.locked <= arena.capacity
    ensures TailKept(arena, w, events) <==> NeverIntrudes(arena, w, events)
    decreases |events|
  {
    hide Inv, Intrudes, Happens;
    if events != [] && Happens(arena, w, events[0]).Some? {
      var w' := Happens(arena, w, events[0]).value;
      TailLostExactlyWhen(arena, w, events[0]);
      HappensKeeps(arena, w, events[0]);
      if w'.used + w'.locked <= arena.capacity { TailKeptExactlyWhen(arena, w', events[1..]); }
    }
  }

  /** A reservation decided on before the tail grew, or a tail decided on before `used` grew. */
  predicate Stale(arena: Arena, w: World, e: Event) {
    Intrudes(arena, w, e) && !w.pcs[e.t].AddingExcess?
  }

  /** The reserved tail is entered by excesses only, at most one of 8 bytes for each thread. */
  ghost predicate ExcessOnly(arena: Arena, w: World) {
    w.used + w.locked + 8 * Flying(w.pcs) <= arena.capacity + 8 * |w.pcs|
  }

  lemma ExcessOnlyKept(arena: Arena, w: World, w': World, t: nat, pc: Pc)
    requires ExcessOnly(arena, w) && t < |w.pcs| && w'.pcs == w.pcs[t := pc]
    requires w'.used + w'.locked <= arena.capacity ||
             w'.used + w'.locked + (if InFlight(pc) then 8 else 0) <=
               w.used + w.locked + (if InFlight(w.pcs[t]) then 8 else 0)
    ensures ExcessOnly(arena, w')
  {
    FlyingUpdate(w.pcs, t, pc);
    assert Flying(w'.pcs) <= |w'.pcs|;
  }

  lemma SearchFlies(w: World, t: nat, n: nat)
    requires t < |w.pcs| && w.pcs[t] == Searching(n)
    ensures var w' := Search(w, t, n);
      w'.used == w.used && w'.locked == w.locked && w'.pcs == w.pcs[t := w'.pcs[t]]
  {
    hide TakeAt, SlotOf, FirstFit;
  }

  lemma AdvanceExcessOnly(arena: Arena, w: World, t: nat, spurious: bool)
    requires t < |w.pcs| && PcOk(arena, w.pcs[t]) && ExcessOnly(arena, w) && Advance(arena, w, t, spurious).Some?
    requires !Stale(arena, w, ThreadStep(t, Continue(spurious)))
    ensures ExcessOnly(arena, Advance(arena, w, t, spurious).value)
  {
    var w' := Advance(arena, w, t, spurious).value;
    hide ExcessOnly, Search, RemoveAt, IndexOf;
    if w.pcs[t].Searching? { SearchFlies(w, t, w.pcs[t].needed); }
    var pc := w'.pcs[t];
    assert w'.pcs == w.pcs[t := pc];
    ExcessOnlyKept(arena, w, w', t, pc);
  }

  lemma StepExcessOnly(arena: Arena, w: World, e: Event)
    requires Inv(arena, w) && ExcessOnly(arena, w) && Happens(arena, w, e).Some? && !Stale(arena, w, e)
    ensures ExcessOnly(arena, Happens(arena, w, e).value)
  {
    if e.ThreadStep? {
      assert PcOk(arena, w.pcs[e.t]);
      hide Inv, Advance, RequiredSlotSize;
      if e.a.Continue? {
        hide ExcessOnly, Stale, PcOk;
        AdvanceExcessOnly(arena, w, e.t, e.a.spurious);
      } else {
        ExcessOnlyKept(arena, w, Happens(arena, w, e).value, e.t, Happens(arena, w, e).value.pcs[e.t]);
      }
    }
  }

  ghost predicate NeverStale(arena: Arena, w: World, events: seq<Event>)
    decreases |events|
  {
    events != [] && Happens(arena, w, events[0]).Some? ==>
      !Stale(arena, w, events[0]) && NeverStale(arena, Happens(arena, w, events[0]).value, events[1..])
  }

  /** Without the two stale accesses the tail loses at most 8 bytes a thread, in every run. */
  lemma {:induction false} ExcessAlone(arena: Arena, w: World, events: seq<Event>)
    requires Inv(arena, w) && ExcessOnly(arena, w) && Exec(arena, w, events).Some? && NeverStale(arena, w, events)
    ensures ExcessOnly(arena, Exec(arena, w, events).value)
    decreases |events|
  {
    hide Inv, ExcessOnly, Stale, Happens;
    if events != [] {
      StepExcessOnly(arena, w, events[0]);
      HappensKeeps(arena, w, events[0]);
      ExcessAlone(arena, Happens(arena, w, events[0]).value, events[1..]);
    }
  }

  // ---- Where stale accesses come from ----

  /** Every reservation decided on fits beside the tail as it is now. */
  ghost predicate ReservationsFit(arena: Arena, w: World) {
    forall t | 0 <= t < |w.pcs| && w.pcs[t].Reserving? ::
      w.pcs[t].current + w.pcs[t].needed + w.locked <= arena.capacity
  }

  /** The tail grows between some thread's budget check and its compare-exchange. */
  predicate RaisesTail(arena: Arena, w: World, e: Event) {
    e.ThreadStep? && e.a.Continue? && e.t < |w.pcs| && w.pcs[e.t].Locking? &&
    w.pcs[e.t].current + w.pcs[e.t].size <= arena.capacity && w.pcs[e.t].size > w.locked &&
    exists u :: 0 <= u < |w.pcs| && w.pcs[u].Reserving?
  }

  /** A tail is stored although `used` has grown since its check. */
  predicate StaleTail(arena: Arena, w: World, e: Event) {
    e.ThreadStep? && e.a.Continue? && e.t < |w.pcs| && w.pcs[e.t].Locking? &&
    w.pcs[e.t].current + w.pcs[e.t].size <= arena.capacity < w.used + w.pcs[e.t].size
  }

  lemma AdvanceFits(arena: Arena, w: World, t: nat, spurious: bool)
    requires t < |w.pcs| && w.locked <= arena.capacity && ReservationsFit(arena, w)
    requires Advance(arena, w, t, spurious).Some? && !RaisesTail(arena, w, ThreadStep(t, Continue(spurious)))
    ensures ReservationsFit(arena, Advance(arena, w, t, spurious).value)
  {
    hide Search, RemoveAt, IndexOf;
    if w.pcs[t].Searching? { SearchFlies(w, t, w.pcs[t].needed); SearchWaits(w, t, w.pcs[t].needed); }
    var w' := Advance(arena, w, t, spurious).value;
    forall u | 0 <= u < |w'.pcs| && w'.pcs[u].Reserving?
      ensures w'.pcs[u].current + w'.pcs[u].needed + w'.locked <= arena.capacity
    {
      if u != t { assert w.pcs[u].Reserving?; }
    }
  }

  lemma SearchWaits(w: World, t: nat, n: nat)
    requires t < |w.pcs|
    ensures |Search(w, t, n).pcs| == |w.pcs| && !Search(w, t, n).pcs[t].Reserving?
  {
    hide TakeAt, SlotOf, FirstFit;
  }

  lemma StepFits(arena: Arena, w: World, e: Event)
    requires Inv(arena, w) && ReservationsFit(arena, w) && Happens(arena, w, e).Some? && !RaisesTail(arena, w, e)
    ensures ReservationsFit(arena, Happens(arena, w, e).value)
  {
    LockedOf(arena, w);
    hide Inv, Advance, RequiredSlotSize, Defrag;
    if e.ThreadStep? && e.a.Continue? {
      hide ReservationsFit, RaisesTail;
      AdvanceFits(arena, w, e.t, e.a.spurious);
    }
  }

  ghost predicate NeverRaisesTail(arena: Arena, w: World, events: seq<Event>)
    decreases |events|
  {
    events != [] && Happens(arena, w, events[0]).Some? ==>
      !RaisesTail(arena, w, events[0]) && NeverRaisesTail(arena, Happens(arena, w, events[0]).value, events[1..])
  }

  ghost predicate NeverStaleTail(arena: Arena, w: World, events: seq<Event>)
    decreases |events|
  {
    events != [] && Happens(arena, w, events[0]).Some? ==>
      !StaleTail(arena, w, events[0]) && NeverStaleTail(arena, Happens(arena, w, events[0]).value, events[1..])
  }

  /** The budget check is against capacity less tail: as long as the tail does not grow between a check and
      its compare-exchange, whatever is about to be reserved fits beside the tail. */
  lemma {:induction false} ChecksHold(arena: Arena, w: World, events: seq<Event>)
    requires Inv(arena, w) && ReservationsFit(arena, w)
    requires Exec(arena, w, events).Some? && NeverRaisesTail(arena, w, events)
    ensures ReservationsFit(arena, Exec(arena, w, events).value)
    ensures NeverStaleTail(arena, w, events) ==> NeverStale(arena, w, events)
    decreases |events|
  {
    hide Inv, ReservationsFit, Happens, RaisesTail, Stale, StaleTail;
    if events != [] {
      StepFits(arena, w, events[0]);
      HappensKeeps(arena, w, events[0]);
      if !StaleTail(arena, w, events[0]) { FitsNotStale(arena, w, events[0]); }
      ChecksHold(arena, Happens(arena, w, events[0]).value, events[1..]);
    }
  }

  lemma FitsNotStale(arena: Arena, w: World, e: Event)
    requires ReservationsFit(arena, w) && !StaleTail(arena, w, e)
    ensures !Stale(arena, w, e)
  {
  }

  /** So from the start: a tail that never grows between a check and its compare-exchange, and is never
      stored on the strength of an outdated `used`, is entered by excesses only. */
  lemma TailRespected(arena: Arena, threads: nat, events: seq<Event>)
    requires ArenaOk(arena) && Exec(arena, InitWorld(threads), events).Some?
    requires NeverRaisesTail(arena, InitWorld(threads), events)
    ensures ReservationsFit(arena, Exec(arena, InitWorld(threads), events).value)
    ensures NeverStaleTail(arena, InitWorld(threads), events) ==>
      ExcessOnly(arena, Exec(arena, InitWorld(threads), events).value)
  {
    var w := InitWorld(threads);
    InitOk(arena, threads);
    IdleSums(w.pcs);
    assert ReservationsFit(arena, w) && ExcessOnly(arena, w);
    hide Inv, ReservationsFit, ExcessOnly, InitWorld;
    ChecksHold(arena, w, events);
    if NeverStaleTail(arena, w, events) { ExcessAlone(arena, w, events); }
  }

  /** So from the start: 8 bytes a thread without stale accesses, and whatever happens no more than
      the capacity again. */
  lemma TailLossBounded(arena: Arena, threads: nat, events: seq<Event>)
    requires ArenaOk(arena) && Exec(arena, InitWorld(threads), events).Some?
    ensures var w := Exec(arena, InitWorld(threads), events).value;
      w.used + w.locked <= 2 * arena.capacity + 8 * threads &&
      (NeverStale(arena, InitWorld(threads), events) ==> w.used + w.locked <= arena.capacity + 8 * threads)
  {
    InitOk(arena, threads);
    EveryRunKeeps(arena, InitWorld(threads), events);
    SameThreadsRun(arena, InitWorld(threads), events);
    OvershootBooks(arena, Exec(arena, InitWorld(threads), events).value);
    IdleSums(InitWorld(threads).pcs);
    if NeverStale(arena, InitWorld(threads), events) { ExcessAlone(arena, InitWorld(threads), events); }
  }

  lemma {:induction false} SameThreadsRun(arena: Arena, w: World, events: seq<Event>)
    requires Exec(arena, w, events).Some?
    ensures |Exec(arena, w, events).value.pcs| == |w.pcs|
    decreases |events|
  {
    hide Happens;
    if events != [] {
      SameThreads(arena, w, events[0]);
      SameThreadsRun(arena, Happens(arena, w, events[0]).value, events[1..]);
    }
  }

  /** A run with one more action in front. */
  lemma Before(arena: Arena, w: World, e: Event, w1: World, rest: seq<Event>, z: World)
    requires Happens(arena, w, e) == Some(w1) && !RaisesTail(arena, w, e)
    requires Exec(arena, w1, rest) == Some(z) && NeverRaisesTail(arena, w1, rest)
    ensures Exec(arena, w, [e] + rest) == Some(z) && NeverRaisesTail(arena, w, [e] + rest)
  {
    hide Happens, RaisesTail;
    assert ([e] + rest)[1..] == rest;
  }

  lemma ReservesBefore(arena: Arena, w: World, t: nat, n: nat, rest: seq<Event>, z: World) returns (events: seq<Event>)
    requires 24 <= n <= GIB8 && n % 8 == 0 && t < |w.pcs| && w.pcs[t] == Idle
    requires w.locked == 0 && w.used + n <= arena.capacity
    requires var w1 := Goto(w.(used := w.used + n), t, Searching(n));
      Exec(arena, w1, rest) == Some(z) && NeverRaisesTail(arena, w1, rest)
    ensures Exec(arena, w, events) == Some(z) && NeverRaisesTail(arena, w, events)
  {
    ExactSize(n);
    hide Exec, NeverRaisesTail, RequiredSlotSize, Search, IndexOf, RemoveAt;
    var on := ThreadStep(t, Continue(false));
    var w1 := Goto(w, t, LoadingUsed(n));
    var w2 := Goto(w, t, Deciding(n, w.used));
    var w3 := Goto(w, t, Reserving(n, w.used));
    var w4 := Goto(w.(used := w.used + n), t, Searching(n));
    GotoTwice(w, t, LoadingUsed(n), Deciding(n, w.used));
    GotoTwice(w, t, Deciding(n, w.used), Reserving(n, w.used));
    GotoTwice(w.(used := w.used + n), t, Reserving(n, w.used), Searching(n));
    Before(arena, w3, on, w4, rest, z);
    Before(arena, w2, on, w3, [on] + rest, z);
    Before(arena, w1, on, w2, [on] + ([on] + rest), z);
    Before(arena, w, ThreadStep(t, StartAlloc(Layout(n - 16, 1))), w1, [on] + ([on] + ([on] + rest)), z);
    events := [ThreadStep(t, StartAlloc(Layout(n - 16, 1)))] + ([on] + ([on] + ([on] + rest)));
  }

  /** And a stale access does cost that much, a tail stored too late being enough: one thread sets a tail of
      the whole capacity on the strength of a `used` it loaded before another thread reserved the whole
      capacity. */
  lemma TailLostReachable(arena: Arena) returns (w: World, events: seq<Event>)
    requires ArenaOk(arena) && arena.capacity == GIB8
    ensures Exec(arena, InitWorld(2), events) == Some(w) && NeverRaisesTail(arena, InitWorld(2), events)
    ensures w.used == w.locked == arena.capacity
  {
    var w0 := Two([], [], {}, 0, 0, Idle, Idle);
    assert w0 == InitWorld(2) by { assert seq(2, _ => Idle) == [Idle, Idle]; }
    hide Exec, NeverRaisesTail, RequiredSlotSize, InitWorld;
    var w1 := Two([], [], {}, 0, 0, Locking(GIB8, 0), Idle);
    var w2 := Two([], [], {}, 0, GIB8, Locking(GIB8, 0), Searching(GIB8));
    w := Two([], [], {}, 0, GIB8, Idle, Searching(GIB8)).(locked := GIB8);
    First(w0, Idle, Idle, Locking(GIB8, 0));
    First(w1.(used := GIB8), Locking(GIB8, 0), Idle, Searching(GIB8));
    First(w2.(locked := GIB8), Locking(GIB8, 0), Searching(GIB8), Idle);
    EndsAt(arena, w);
    Before(arena, w2, ThreadStep(0, Continue(false)), w, [], w);
    var rest := ReservesBefore(arena, w1, 1, GIB8, [ThreadStep(0, Continue(false))] + [], w);
    Before(arena, w0, ThreadStep(0, StartSetLocked(GIB8)), w1, rest, w);
    events := [ThreadStep(0, StartSetLocked(GIB8))] + rest;
  }

  lemma EndsAt(arena: Arena, w: World)
    ensures Exec(arena, w, []) == Some(w) && NeverRaisesTail(arena, w, [])
  {
  }
}
