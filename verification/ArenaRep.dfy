/** How the arena's memory represents its free list and its live allocations: facts about memory
    values, used by the imperative allocator in `Arena`. */
module ArenaRep {
  import opened Collections
  import opened Bits
  import opened Slots
  import opened FreeList
  import opened Memory
  import opened Tiling

  /** A live allocation: its slot, the layout asked for, the pointer handed out. */
  datatype Grant = Grant(slot: Node, layout: Layout, ptr: nat)

  function SlotsOf(grants: seq<Grant>): seq<Node> {
    seq(|grants|, i requires 0 <= i < |grants| => grants[i].slot)
  }

  ghost predicate GrantOk(g: Grant) {
    ValidLayout(g.layout) && Aligned(g.slot.addr) && Needed(g.layout) <= g.slot.size &&
    g.slot.End() < USIZE && g.ptr == UserPtr(g.slot.addr, g.layout)
  }

  /** The two header words in front of the user block let `dealloc` find the slot again. */
  predicate HeaderAt(m: Mem, g: Grant) {
    16 <= g.ptr && g.slot.addr <= g.ptr - 16 && g.ptr <= g.slot.End() &&
    g.ptr - 16 in m && g.ptr - 8 in m &&
    m[g.ptr - 16] == g.ptr - g.slot.addr && m[g.ptr - 8] == g.slot.size
  }

  ghost predicate GrantsOk(m: Mem, grants: seq<Grant>) {
    forall i | 0 <= i < |grants| :: GrantOk(grants[i]) && HeaderAt(m, grants[i])
  }

  /** `m` and `n` agree on every word of the given slots. */
  ghost predicate Kept(m: Mem, n: Mem, slots: seq<Node>) {
    m.Keys == n.Keys && forall j, a | 0 <= j < |slots| && slots[j].Has(a) && a in m :: n[a] == m[a]
  }

  /** No slot contains either of the two words of a node starting at `a`. */
  predicate OutOfSlots(a: nat, slots: seq<Node>) {
    forall j | 0 <= j < |slots| :: !slots[j].Has(a) && !slots[j].Has(a + 8)
  }

  predicate AllOut(fs: seq<Node>, slots: seq<Node>) {
    forall i | 0 <= i < |fs| :: OutOfSlots(fs[i].addr, slots)
  }

  /** Every word address of `[lo, hi)` is in memory. */
  ghost predicate HasWords(m: Mem, lo: nat, hi: nat) {
    forall a: nat | lo <= a < hi && Aligned(a) :: a in m
  }

  lemma HasWordsKept(m: Mem, n: Mem, slots: seq<Node>, lo: nat, hi: nat)
    requires HasWords(m, lo, hi) && Kept(m, n, slots)
    ensures HasWords(n, lo, hi)
  {
  }

  /** The arena's memory represents the free list `free` and the live allocations `grants`. */
  ghost predicate Rep(m: Mem, head: nat, free: seq<Node>, grants: seq<Grant>, lo: nat, hi: nat) {
    HeapOk(free, SlotsOf(grants), lo, hi) && ListAt(m, head, free) && GrantsOk(m, grants) &&
    HasWords(m, lo, hi)
  }

  /** Memory after `place_header` has written the two header words in front of `ptr`. */
  function WithHeader(m: Mem, slot: Node, ptr: nat): Mem
    requires ptr >= 16 && slot.addr <= ptr
  {
    m[ptr - 16 := ptr - slot.addr][ptr - 8 := slot.size]
  }

  /** The grant `place_header` makes of a slot large enough for the layout. */
  function PlacedGrant(slot: Node, layout: Layout): (g: Grant)
    requires ValidLayout(layout) && Aligned(slot.addr) && Needed(layout) <= slot.size && slot.End() < USIZE
    ensures GrantOk(g) && g.slot == slot && g.layout == layout
    ensures slot.addr + 16 <= g.ptr && g.ptr + layout.size <= slot.End() && Aligned(g.ptr)
  {
    SlotGeometry(slot.addr, slot.size, layout);
    Grant(slot, layout, UserPtr(slot.addr, layout))
  }

  lemma HeaderPlaced(m: Mem, g: Grant)
    requires g.slot.addr + 16 <= g.ptr <= g.slot.End() && g.ptr - 16 in m && g.ptr - 8 in m
    ensures HeaderAt(WithHeader(m, g.slot, g.ptr), g)
    ensures SameOutside(m, WithHeader(m, g.slot, g.ptr), g.slot.addr, g.slot.End())
  {
  }

  lemma KeptItself(m: Mem, slots: seq<Node>)
    ensures Kept(m, m, slots)
  {
  }

  lemma KeptTrans(m: Mem, n: Mem, o: Mem, slots: seq<Node>)
    requires Kept(m, n, slots) && Kept(n, o, slots)
    ensures Kept(m, o, slots)
  {
  }

  /** Headers survive writes outside the live slots. */
  lemma GrantsKept(m: Mem, n: Mem, grants: seq<Grant>)
    requires GrantsOk(m, grants) && Kept(m, n, SlotsOf(grants))
    ensures GrantsOk(n, grants)
  {
    var slots := SlotsOf(grants);
    forall i | 0 <= i < |grants|
      ensures GrantOk(grants[i]) && HeaderAt(n, grants[i])
    {
      var g := grants[i];
      assert slots[i] == g.slot && HeaderAt(m, g);
      assert slots[i].Has(g.ptr - 16) && slots[i].Has(g.ptr - 8);
    }
  }

  lemma FreeAllOut(free: seq<Node>, slots: seq<Node>, lo: nat, hi: nat)
    requires HeapOk(free, slots, lo, hi)
    ensures AllOut(free, slots) && Spaced(free) && Regular(free)
  {
    HeapLayout(free, slots, lo, hi);
    HeapDisjoint(free, slots, lo, hi);
    DisjointSpaced(free);
    forall i, j | 0 <= i < |free| && 0 <= j < |slots|
      ensures !slots[j].Has(free[i].addr) && !slots[j].Has(free[i].addr + 8)
    {
      assert Before(free[i], slots[j]) && RegularNode(free[i]);
    }
  }

  // ---- First fit in memory ----

  /** Memory and head after `*prev = (*node).next` at position `k`. */
  function Unlinked(m: Mem, fs: seq<Node>, k: nat): Mem
    requires k < |fs| && LinkOk(m, LinkOf(fs, k))
  {
    WriteLink(m, LinkOf(fs, k), AddrAt(fs, k + 1))
  }

  /** ... and after the remainder node at `at` has been written and linked in its place. */
  function Split(m: Mem, fs: seq<Node>, k: nat, at: nat, left: nat): Mem
    requires k < |fs| && LinkOk(m, LinkOf(fs, k)) && at in m && at + 8 in m
  {
    WriteLink(Unlinked(m, fs, k)[at := left][at + 8 := AddrAt(fs, k + 1)], LinkOf(fs, k), at)
  }

  lemma UnlinkedKeeps(m: Mem, head: nat, fs: seq<Node>, k: nat, slots: seq<Node>)
    requires ListAt(m, head, fs) && Spaced(fs) && AllOut(fs, slots) && k < |fs|
    requires LinkOk(m, LinkOf(fs, k))
    ensures ListAt(Unlinked(m, fs, k), NewHead(head, LinkOf(fs, k), AddrAt(fs, k + 1)), RemoveAt(fs, k))
    ensures Kept(m, Unlinked(m, fs, k), slots)
  {
    Unlink(m, head, fs, k);
    if k > 0 { assert Spelled(m, fs, k - 1); assert OutOfSlots(fs[k - 1].addr, slots); }
  }

  /** Splitting node `k` in memory yields the list with the remainder in its place. */
  lemma SplitLists(m: Mem, head: nat, fs: seq<Node>, k: nat, n: nat)
    requires ListAt(m, head, fs) && Spaced(fs) && Regular(fs) && k < |fs|
    requires n + MIN_SLOT_SIZE <= fs[k].size
    requires forall i | 0 <= i < |fs| && i != k :: Before(fs[k], fs[i])
    requires LinkOk(m, LinkOf(fs, k)) && fs[k].addr + n in m && fs[k].addr + n + 8 in m
    ensures ListAt(Split(m, fs, k, fs[k].addr + n, fs[k].size - n), NewHead(head, LinkOf(fs, k), fs[k].addr + n),
      TakeAt(fs, k, n))
  {
    hide ListAt, Spaced, Regular, Spelled;
    var x := Node(fs[k].addr + n, fs[k].size - n);
    var others := RemoveAt(fs, k);
    var head1 := NewHead(head, LinkOf(fs, k), AddrAt(fs, k + 1));
    NodePositive(m, head, fs, k);
    Unlink(m, head, fs, k);
    ClearOfOthers(fs, k, x);
    SpacedRemove(fs, k);
    assert LinkOf(others, k) == LinkOf(fs, k) && AddrAt(others, k) == AddrAt(fs, k + 1);
    LinkRemainder(Unlinked(m, fs, k), head1, others, k, x);
    assert InsertAt(others, k, x) == TakeAt(fs, k, n);
  }

  lemma NodePositive(m: Mem, head: nat, fs: seq<Node>, k: nat)
    requires ListAt(m, head, fs) && k < |fs|
    ensures fs[k].addr > 0
  {
    assert Spelled(m, fs, k);
  }

  /** Writing a node's size and linking it in at position `k`. */
  lemma LinkRemainder(m: Mem, head: nat, fs: seq<Node>, k: nat, x: Node)
    requires ListAt(m, head, fs) && Spaced(fs) && k <= |fs|
    requires LinkOk(m, LinkOf(fs, k)) && NodeWords(m, x)
    requires forall i | 0 <= i < |fs| :: Clear(x, fs[i])
    ensures ListAt(WriteLink(m[x.addr := x.size][x.addr + 8 := AddrAt(fs, k)], LinkOf(fs, k), x.addr),
      NewHead(head, LinkOf(fs, k), x.addr), InsertAt(fs, k, x))
  {
    forall i | 0 <= i < |fs|
      ensures fs[i].addr + 16 <= x.addr || x.addr + 16 <= fs[i].addr
    {
      assert Clear(x, fs[i]);
    }
    ListStable(m, m[x.addr := x.size], head, fs, x.addr, x.addr + 16);
    Link(m[x.addr := x.size], head, fs, k, x);
  }

  /** A node cut from node `k` shares no word with the other nodes. */
  lemma ClearOfOthers(fs: seq<Node>, k: nat, x: Node)
    requires Regular(fs) && k < |fs| && fs[k].addr <= x.addr && x.addr + 16 <= fs[k].End()
    requires forall i | 0 <= i < |fs| && i != k :: Before(fs[k], fs[i])
    ensures forall i | 0 <= i < |RemoveAt(fs, k)| :: Clear(x, RemoveAt(fs, k)[i])
  {
    var others := RemoveAt(fs, k);
    forall i | 0 <= i < |others|
      ensures Clear(x, others[i])
    {
      var j := if i < k then i else i + 1;
      assert others[i] == fs[j] && Before(fs[k], fs[j]) && RegularNode(fs[j]);
    }
  }

  lemma SplitKept(m: Mem, head: nat, fs: seq<Node>, k: nat, at: nat, left: nat, slots: seq<Node>)
    requires ListAt(m, head, fs) && AllOut(fs, slots) && k < |fs|
    requires LinkOk(m, LinkOf(fs, k)) && at in m && at + 8 in m && OutOfSlots(at, slots)
    ensures Kept(m, Split(m, fs, k, at, left), slots)
  {
    if k > 0 { assert OutOfSlots(fs[k - 1].addr, slots); assert Spelled(m, fs, k - 1); }
  }

  lemma SpacedRemove(fs: seq<Node>, k: nat)
    requires Spaced(fs) && k < |fs|
    ensures Spaced(RemoveAt(fs, k))
  {
    var out := RemoveAt(fs, k);
    forall i, j | 0 <= i < |out| && 0 <= j < |out| && i != j
      ensures Clear(out[i], out[j])
    {
      var i', j' := if i < k then i else i + 1, if j < k then j else j + 1;
      assert out[i] == fs[i'] && out[j] == fs[j'];
    }
  }

  /** What holds between carving a slot and writing its header: the memory represents the new free
      list and the old allocations, and the new slot's bytes belong to nobody else. */
  ghost predicate Carved(m: Mem, n: Mem, head: nat, free: seq<Node>, grants: seq<Grant>, slot: Node, lo: nat, hi: nat) {
    HeapOk(free, SlotsOf(grants) + [slot], lo, hi) && ListAt(n, head, free) && GrantsOk(n, grants) &&
    Kept(m, n, SlotsOf(grants)) && HasWords(n, lo, hi)
  }

  lemma RemainderWords(m: Mem, fs: seq<Node>, slots: seq<Node>, lo: nat, hi: nat, k: nat, n: nat)
    requires HeapOk(fs, slots, lo, hi) && HasWords(m, lo, hi)
    requires k < |fs| && n + MIN_SLOT_SIZE <= fs[k].size && Aligned(n)
    ensures fs[k].addr + n in m && fs[k].addr + n + 8 in m
    ensures OutOfSlots(fs[k].addr + n, slots)
    ensures k > 0 ==> fs[k - 1].addr + 8 != fs[k].addr + n
  {
    HeapLayout(fs, slots, lo, hi);
    assert RegularNode(fs[k]);
    if k > 0 { assert Before(fs[k - 1], fs[k]) && RegularNode(fs[k - 1]); }
    AlignedSum(fs[k].addr, n);
    AlignedSum(fs[k].addr + n, 8);
    forall j | 0 <= j < |slots|
      ensures !slots[j].Has(fs[k].addr + n) && !slots[j].Has(fs[k].addr + n + 8)
    {
      assert Before(fs[k], slots[j]);
    }
  }

  lemma OthersBefore(fs: seq<Node>, slots: seq<Node>, lo: nat, hi: nat, k: nat)
    requires HeapOk(fs, slots, lo, hi) && k < |fs|
    ensures forall i | 0 <= i < |fs| && i != k :: Before(fs[k], fs[i])
  {
    HeapLayout(fs, slots, lo, hi);
    forall i | 0 <= i < |fs| && i != k
      ensures Before(fs[k], fs[i])
    {
      if i < k { assert Before(fs[i], fs[k]); } else { assert Before(fs[k], fs[i]); }
    }
  }

  /** The writes of the splitting branch: the remainder takes the node's place in the list, and no word
      of any slot changes. */
  lemma SplitInMemory(m: Mem, head: nat, fs: seq<Node>, slots: seq<Node>, lo: nat, hi: nat, k: nat, n: nat)
    requires HeapOk(fs, slots, lo, hi) && ListAt(m, head, fs) && HasWords(m, lo, hi)
    requires k < |fs| && MIN_SLOT_SIZE <= n && n + MIN_SLOT_SIZE <= fs[k].size && Aligned(n)
    ensures LinkOk(m, LinkOf(fs, k)) && fs[k].addr + n in m && fs[k].addr + n + 8 in m
    ensures var n' := Split(m, fs, k, fs[k].addr + n, fs[k].size - n);
      ListAt(n', NewHead(head, LinkOf(fs, k), fs[k].addr + n), TakeAt(fs, k, n)) && Kept(m, n', slots)
  {
    hide HeapOk, ListAt, Kept, AllOut, Spaced, Regular, HasWords, Split, NewHead, TakeAt, LinkOk, LinkOf, OutOfSlots;
    hide Aligned, Spelled;
    LinkReads(m, head, fs, k);
    FreeAllOut(fs, slots, lo, hi);
    RemainderWords(m, fs, slots, lo, hi, k, n);
    OthersBefore(fs, slots, lo, hi, k);
    SplitLists(m, head, fs, k, n);
    SplitKept(m, head, fs, k, fs[k].addr + n, fs[k].size - n, slots);
  }

  /** The write of the whole-node branch: the node leaves the list, and no word of any slot changes. */
  lemma UnlinkInMemory(m: Mem, head: nat, fs: seq<Node>, slots: seq<Node>, lo: nat, hi: nat, k: nat, n: nat)
    requires HeapOk(fs, slots, lo, hi) && ListAt(m, head, fs)
    requires k < |fs| && n <= fs[k].size < n + MIN_SLOT_SIZE
    ensures LinkOk(m, LinkOf(fs, k))
    ensures var n' := Unlinked(m, fs, k);
      ListAt(n', NewHead(head, LinkOf(fs, k), AddrAt(fs, k + 1)), TakeAt(fs, k, n)) && Kept(m, n', slots)
  {
    hide HeapOk, ListAt, Kept, AllOut, Spaced, Regular, Unlinked, NewHead, LinkOk, LinkOf, Spelled;
    LinkReads(m, head, fs, k);
    FreeAllOut(fs, slots, lo, hi);
    UnlinkedKeeps(m, head, fs, k, slots);
    assert RemoveAt(fs, k) == TakeAt(fs, k, n);
  }

  /** Carving by splitting node `k`. */
  lemma CarveSplit(m: Mem, head: nat, fs: seq<Node>, grants: seq<Grant>, lo: nat, hi: nat, k: nat, n: nat)
    requires Rep(m, head, fs, grants, lo, hi) && k < |fs| && LinkOk(m, LinkOf(fs, k))
    requires MIN_SLOT_SIZE <= n && n + MIN_SLOT_SIZE <= fs[k].size && Aligned(n)
    requires fs[k].addr + n in m && fs[k].addr + n + 8 in m
    ensures Carved(m, Split(m, fs, k, fs[k].addr + n, fs[k].size - n), NewHead(head, LinkOf(fs, k), fs[k].addr + n),
                   TakeAt(fs, k, n), grants, Node(fs[k].addr, n), lo, hi)
  {
    hide HeapOk, ListAt, GrantsOk, Kept, HasWords, Split, NewHead, TakeAt, LinkOk;
    var slots := SlotsOf(grants);
    var n' := Split(m, fs, k, fs[k].addr + n, fs[k].size - n);
    TakeKeeps(fs, slots, lo, hi, k, n);
    SplitInMemory(m, head, fs, slots, lo, hi, k, n);
    GrantsKept(m, n', grants);
    HasWordsKept(m, n', slots, lo, hi);
  }

  /** Carving by handing node `k` out whole. */
  lemma CarveWhole(m: Mem, head: nat, fs: seq<Node>, grants: seq<Grant>, lo: nat, hi: nat, k: nat, n: nat)
    requires Rep(m, head, fs, grants, lo, hi) && k < |fs| && LinkOk(m, LinkOf(fs, k))
    requires MIN_SLOT_SIZE <= n <= fs[k].size < n + MIN_SLOT_SIZE && Aligned(n)
    ensures Carved(m, Unlinked(m, fs, k), NewHead(head, LinkOf(fs, k), AddrAt(fs, k + 1)),
                   TakeAt(fs, k, n), grants, fs[k], lo, hi)
  {
    hide HeapOk, ListAt, GrantsOk, Kept, HasWords, Unlinked, NewHead, LinkOk, TakeAt;
    var slots := SlotsOf(grants);
    var n' := Unlinked(m, fs, k);
    TakeKeeps(fs, slots, lo, hi, k, n);
    UnlinkInMemory(m, head, fs, slots, lo, hi, k, n);
    GrantsKept(m, n', grants);
    HasWordsKept(m, n', slots, lo, hi);
  }

  // ---- Handing out a carved slot ----

  lemma SlotsAppend(grants: seq<Grant>, g: Grant)
    ensures SlotsOf(grants + [g]) == SlotsOf(grants) + [g.slot]
  {
  }

  lemma TotalAppend(grants: seq<Grant>, g: Grant)
    ensures Total(SlotsOf(grants + [g])) == Total(SlotsOf(grants)) + g.slot.size
  {
    SlotsAppend(grants, g);
    TotalConcat(SlotsOf(grants), [g.slot]);
    assert Total([g.slot]) == g.slot.size;
  }

  lemma TotalRelease(grants: seq<Grant>, i: nat)
    requires i < |grants|
    ensures Total(SlotsOf(RemoveAt(grants, i))) == Total(SlotsOf(grants)) - grants[i].slot.size
  {
    SlotsRemove(grants, i);
    TotalRemove(SlotsOf(grants), i);
  }

  /** A live pointer leads back to its slot: the header words are in memory, hold the slot's offset
      and size, and both the pointer and the slot lie in the tiled range. */
  lemma LivePointer(m: Mem, head: nat, free: seq<Node>, grants: seq<Grant>, lo: nat, hi: nat, i: nat)
    requires Rep(m, head, free, grants, lo, hi) && i < |grants|
    ensures HeaderAt(m, grants[i])
    ensures lo <= grants[i].slot.addr < grants[i].ptr < grants[i].slot.End() <= hi
  {
    hide ListAt, HasWords, HeaderAt;
    var slots := SlotsOf(grants);
    HeapLayout(free, slots, lo, hi);
    GrantInside(grants[i]);
    assert slots[i] == grants[i].slot;
  }

  lemma SlotsRemove(grants: seq<Grant>, i: nat)
    requires i < |grants|
    ensures SlotsOf(RemoveAt(grants, i)) == RemoveAt(SlotsOf(grants), i)
  {
  }

  /** Writing the header of a freshly carved slot disturbs neither the free list nor any other slot,
      so the memory represents the allocation too. */
  lemma Granted(m: Mem, n: Mem, head: nat, free: seq<Node>, grants: seq<Grant>, lo: nat, hi: nat, g: Grant)
    requires Carved(m, n, head, free, grants, g.slot, lo, hi)
    requires GrantOk(g) && g.slot.addr + 16 <= g.ptr <= g.slot.End() && Aligned(g.ptr)
    ensures g.ptr - 16 in n && g.ptr - 8 in n
    ensures Rep(WithHeader(n, g.slot, g.ptr), head, free, grants + [g], lo, hi)
    ensures Kept(m, WithHeader(n, g.slot, g.ptr), SlotsOf(grants))
  {
    hide HeapOk, ListAt, Kept, HasWords, SameOutside, GrantOk, HeaderAt, WithHeader, SlotsOf;
    var carved := SlotsOf(grants) + [g.slot];
    SlotsAppend(grants, g);
    GrantWords(n, carved, free, lo, hi, g);
    HeaderPlaced(n, g);
    var o := WithHeader(n, g.slot, g.ptr);
    SlotWriteList(n, o, head, free, carved, lo, hi, |carved| - 1);
    FreshKept(n, o, carved, free, lo, hi, SlotsOf(grants), g.slot);
    GrantsKept(n, o, grants);
    KeptTrans(m, n, o, SlotsOf(grants));
    HasWordsKept(n, o, SlotsOf(grants), lo, hi);
  }

  lemma GrantWords(m: Mem, carved: seq<Node>, free: seq<Node>, lo: nat, hi: nat, g: Grant)
    requires HeapOk(free, carved, lo, hi) && carved != [] && carved[|carved| - 1] == g.slot
    requires HasWords(m, lo, hi)
    requires g.slot.addr + 16 <= g.ptr <= g.slot.End() && Aligned(g.ptr)
    ensures g.ptr - 16 in m && g.ptr - 8 in m
  {
    HeapLayout(free, carved, lo, hi);
    AlignedSum(8, g.ptr - 8);
    AlignedSum(16, g.ptr - 16);
  }

  /** Writes inside a carved slot leave the free list as it is. */
  lemma SlotWriteList(m: Mem, n: Mem, head: nat, free: seq<Node>, slots: seq<Node>, lo: nat, hi: nat, i: nat)
    requires HeapOk(free, slots, lo, hi) && i < |slots|
    requires ListAt(m, head, free) && SameOutside(m, n, slots[i].addr, slots[i].End())
    ensures ListAt(n, head, free)
  {
    HeapLayout(free, slots, lo, hi);
    forall k | 0 <= k < |free|
      ensures free[k].addr + 16 <= slots[i].addr || slots[i].End() <= free[k].addr
    {
      assert Before(free[k], slots[i]) && RegularNode(free[k]);
    }
    ListStable(m, n, head, free, slots[i].addr, slots[i].End());
  }

  lemma FreshKept(m: Mem, n: Mem, carved: seq<Node>, free: seq<Node>, lo: nat, hi: nat, slots: seq<Node>, slot: Node)
    requires HeapOk(free, carved, lo, hi) && carved == slots + [slot]
    requires SameOutside(m, n, slot.addr, slot.End())
    ensures Kept(m, n, slots)
  {
    HeapLayout(free, carved, lo, hi);
    forall j, a | 0 <= j < |slots| && slots[j].Has(a) && a in m
      ensures n[a] == m[a]
    {
      assert slots[j] == carved[j] && Before(carved[j], carved[|slots|]);
    }
  }

  // ---- Taking a slot back ----

  /** Memory after `dealloc` has pushed a slot onto the free list. */
  function Pushed(m: Mem, slot: Node, head: nat): Mem {
    m[slot.addr := slot.size][slot.addr + 8 := head]
  }

  /** Pushing a live slot onto the free list overwrites no other slot. */
  lemma Released(m: Mem, head: nat, free: seq<Node>, grants: seq<Grant>, lo: nat, hi: nat, i: nat)
    requires Rep(m, head, free, grants, lo, hi) && i < |grants|
    ensures grants[i].slot.addr in m && grants[i].slot.addr + 8 in m
    ensures Rep(Pushed(m, grants[i].slot, head), grants[i].slot.addr, [grants[i].slot] + free, RemoveAt(grants, i), lo,
      hi)
    ensures Kept(m, Pushed(m, grants[i].slot, head), SlotsOf(RemoveAt(grants, i)))
  {
    hide ListAt, Kept, HasWords, GrantsOk, HeapOk, GrantOk, HeaderAt, Pushed, Spaced;
    var slots, slot := SlotsOf(grants), grants[i].slot;
    SlotsRemove(grants, i);
    SlotWords(m, free, slots, lo, hi, i);
    FreeKeeps(free, slots, lo, hi, i);
    FreeAllOut(free, slots, lo, hi);
    PushLists(m, head, free, slot);
    PushKept(m, head, free, slots, lo, hi, i);
    GrantsRemove(m, grants, i);
    GrantsKept(m, Pushed(m, slot, head), RemoveAt(grants, i));
    HasWordsKept(m, Pushed(m, slot, head), RemoveAt(slots, i), lo, hi);
  }

  lemma GrantsRemove(m: Mem, grants: seq<Grant>, i: nat)
    requires GrantsOk(m, grants) && i < |grants|
    ensures GrantsOk(m, RemoveAt(grants, i))
  {
  }

  lemma SlotWords(m: Mem, free: seq<Node>, slots: seq<Node>, lo: nat, hi: nat, i: nat)
    requires HeapOk(free, slots, lo, hi) && HasWords(m, lo, hi) && i < |slots|
    ensures NodeWords(m, slots[i])
    ensures forall j | 0 <= j < |free| :: Clear(slots[i], free[j])
  {
    HeapLayout(free, slots, lo, hi);
    assert RegularNode(slots[i]);
    AlignedSum(slots[i].addr, 8);
    forall j | 0 <= j < |free|
      ensures Clear(slots[i], free[j])
    {
      assert Before(free[j], slots[i]) && RegularNode(free[j]);
    }
  }

  lemma PushLists(m: Mem, head: nat, free: seq<Node>, slot: Node)
    requires ListAt(m, head, free) && Spaced(free) && NodeWords(m, slot)
    requires forall j | 0 <= j < |free| :: Clear(slot, free[j])
    ensures ListAt(Pushed(m, slot, head), slot.addr, [slot] + free)
  {
    LinkRemainder(m, head, free, 0, slot);
    assert InsertAt(free, 0, slot) == [slot] + free;
  }

  lemma PushKept(m: Mem, head: nat, free: seq<Node>, slots: seq<Node>, lo: nat, hi: nat, i: nat)
    requires HeapOk(free, slots, lo, hi) && i < |slots| && NodeWords(m, slots[i])
    ensures Kept(m, Pushed(m, slots[i], head), RemoveAt(slots, i))
  {
    HeapLayout(free, slots, lo, hi);
    var rest := RemoveAt(slots, i);
    forall j | 0 <= j < |rest|
      ensures !rest[j].Has(slots[i].addr) && !rest[j].Has(slots[i].addr + 8)
    {
      var j' := if j < i then j else j + 1;
      assert rest[j] == slots[j'] && RegularNode(slots[i]);
      if j' < i { assert Before(slots[j'], slots[i]); } else { assert Before(slots[i], slots[j']); }
    }
  }

  // ---- What clients rely on ----

  /** The bytes handed to a client. */
  function UserRange(g: Grant): Node {
    Node(g.ptr, g.layout.size)
  }

  lemma GrantInside(g: Grant)
    requires GrantOk(g)
    ensures g.slot.addr + 16 <= g.ptr && g.ptr + g.layout.size <= g.slot.End() && Aligned(g.ptr)
  {
    SlotGeometry(g.slot.addr, g.slot.size, g.layout);
  }

  /** Live user blocks never overlap each other, another block's header, or a free node, and lie
      below the bump pointer. */
  lemma UserRangesApart(m: Mem, head: nat, free: seq<Node>, grants: seq<Grant>, lo: nat, hi: nat, i: nat, j: nat)
    requires Rep(m, head, free, grants, lo, hi) && i < |grants| && j < |grants| && i != j
    ensures Before(UserRange(grants[i]), UserRange(grants[j]))
    ensures Before(UserRange(grants[i]), Node(grants[j].ptr - 16, 16))
    ensures forall k | 0 <= k < |free| :: Before(UserRange(grants[i]), free[k])
    ensures lo <= grants[i].ptr && UserRange(grants[i]).End() <= hi
  {
    hide ListAt, HasWords, HeaderAt;
    var slots := SlotsOf(grants);
    HeapLayout(free, slots, lo, hi);
    GrantInside(grants[i]);
    GrantInside(grants[j]);
    assert slots[i] == grants[i].slot && slots[j] == grants[j].slot;
    assert Before(slots[i], slots[j]) by {
      if i < j { assert Before(slots[i], slots[j]); } else { assert Before(slots[j], slots[i]); }
    }
    forall k | 0 <= k < |free|
      ensures Before(UserRange(grants[i]), free[k])
    {
      assert Before(free[k], slots[i]);
    }
  }

  /** A client may write any word that overlaps its own block: free list and headers stay intact. */
  lemma UserWriteKeeps(m: Mem, head: nat, free: seq<Node>, grants: seq<Grant>, lo: nat, hi: nat, i: nat, a: nat,
          value: nat)
    requires Rep(m, head, free, grants, lo, hi) && i < |grants|
    requires a in m && Aligned(a) && grants[i].ptr <= a < grants[i].ptr + grants[i].layout.size
    ensures Rep(m[a := value], head, free, grants, lo, hi)
  {
    hide HeapOk, GrantsOk, ListAt, HasWords, HeaderAt, GrantOk, Aligned;
    UserWriteList(m, head, free, grants, lo, hi, i, a, value);
    UserWriteHeaders(m, free, grants, lo, hi, i, a, value);
    UserWriteWords(m, lo, hi, a, value);
  }

  lemma UserWriteWords(m: Mem, lo: nat, hi: nat, a: nat, value: nat)
    requires HasWords(m, lo, hi) && a in m
    ensures HasWords(m[a := value], lo, hi)
  {
  }

  lemma UserWriteList(m: Mem, head: nat, free: seq<Node>, grants: seq<Grant>, lo: nat, hi: nat, i: nat, a: nat,
          value: nat)
    requires HeapOk(free, SlotsOf(grants), lo, hi) && ListAt(m, head, free) && GrantsOk(m, grants) && i < |grants|
    requires a in m && grants[i].ptr <= a < grants[i].ptr + grants[i].layout.size
    ensures ListAt(m[a := value], head, free)
  {
    GrantInside(grants[i]);
    hide HeapOk, ListAt;
    SlotWriteList(m, m[a := value], head, free, SlotsOf(grants), lo, hi, i);
  }

  lemma UserWriteHeaders(m: Mem, free: seq<Node>, grants: seq<Grant>, lo: nat, hi: nat, i: nat, a: nat, value: nat)
    requires HeapOk(free, SlotsOf(grants), lo, hi) && GrantsOk(m, grants) && i < |grants|
    requires a in m && grants[i].ptr <= a < grants[i].ptr + grants[i].layout.size
    ensures GrantsOk(m[a := value], grants)
  {
    var slots := SlotsOf(grants);
    HeapLayout(free, slots, lo, hi);
    GrantInside(grants[i]);
    forall j | 0 <= j < |grants|
      ensures GrantOk(grants[j]) && HeaderAt(m[a := value], grants[j])
    {
      assert HeaderAt(m, grants[j]);
      if j < i { assert Before(slots[j], slots[i]); }
      if i < j { assert Before(slots[i], slots[j]); }
    }
  }
}
