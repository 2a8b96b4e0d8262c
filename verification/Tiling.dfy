/** The arena's global invariant: free nodes and carved slots tile `[lo, hi)` exactly, where `hi` is
    the bump pointer. The lemmas are the atomic changes the allocator makes to the tiling. */
module Tiling {
  import opened Collections
  import opened Slots
  import opened FreeList

  /** Every byte of `[lo, hi)` belongs to exactly one free node or carved slot, no other byte does. */
  ghost predicate Tiles(free: seq<Node>, carved: seq<Node>, lo: nat, hi: nat) {
    forall b :: Cover(free, b) + Cover(carved, b) == if lo <= b < hi then 1 else 0
  }

  ghost predicate HeapOk(free: seq<Node>, carved: seq<Node>, lo: nat, hi: nat) {
    0 < lo <= hi && Aligned(lo) && Aligned(hi) &&
    Regular(free) && Regular(carved) && Tiles(free, carved, lo, hi)
  }

  lemma RegularConcat(xs: seq<Node>, ys: seq<Node>)
    requires Regular(xs) && Regular(ys)
    ensures Regular(xs + ys)
  {
  }

  /** First fit moves one slot's bytes from the free list to the carved slots. */
  lemma TakeKeeps(free: seq<Node>, carved: seq<Node>, lo: nat, hi: nat, k: nat, n: nat)
    requires HeapOk(free, carved, lo, hi)
    requires k < |free| && MIN_SLOT_SIZE <= n <= free[k].size && Aligned(n)
    ensures HeapOk(TakeAt(free, k, n), carved + [SlotOf(free[k], n)], lo, hi)
    ensures SlotOf(free[k], n).size - n in {0, 8}
  {
    var slot := SlotOf(free[k], n);
    TakeRegular(free, k, n);
    RegularConcat(carved, [slot]);
    forall b
      ensures Cover(TakeAt(free, k, n), b) + Cover(carved + [slot], b) == Cover(free, b) + Cover(carved, b)
    {
      TakeConserves(free, k, n, b);
      CoverConcat(carved, [slot], b);
    }
  }

  /** The bump pointer carves the bytes directly above the tiled range. */
  lemma BumpKeeps(free: seq<Node>, carved: seq<Node>, lo: nat, hi: nat, n: nat)
    requires HeapOk(free, carved, lo, hi)
    requires MIN_SLOT_SIZE <= n && Aligned(n)
    ensures HeapOk(free, carved + [Node(hi, n)], lo, hi + n)
  {
    RegularConcat(carved, [Node(hi, n)]);
    AlignedSum(hi, n);
    forall b
      ensures Cover(carved + [Node(hi, n)], b) == Cover(carved, b) + One(Node(hi, n), b)
    {
      CoverConcat(carved, [Node(hi, n)], b);
    }
  }

  /** Freeing moves a carved slot to the front of the free list. */
  lemma FreeKeeps(free: seq<Node>, carved: seq<Node>, lo: nat, hi: nat, i: nat)
    requires HeapOk(free, carved, lo, hi) && i < |carved|
    ensures HeapOk([carved[i]] + free, RemoveAt(carved, i), lo, hi)
  {
    RegularConcat([carved[i]], free);
    RegularConcat(carved[..i], carved[i + 1..]);
    forall b
      ensures Cover([carved[i]] + free, b) + Cover(RemoveAt(carved, i), b) == Cover(free, b) + Cover(carved, b)
    {
      CoverRemove(carved, i, b);
    }
  }

  lemma DefragKeeps(free: seq<Node>, carved: seq<Node>, lo: nat, hi: nat)
    requires HeapOk(free, carved, lo, hi)
    ensures HeapOk(Defrag(free), carved, lo, hi)
  {
    DefragRegular(free);
    forall b ensures Cover(Defrag(free), b) == Cover(free, b) { DefragCover(free, b); }
  }

  lemma HeapDisjoint(free: seq<Node>, carved: seq<Node>, lo: nat, hi: nat)
    requires HeapOk(free, carved, lo, hi)
    ensures Disjoint(free) && Disjoint(carved) && Positive(free) && Positive(carved)
  {
    forall b ensures Cover(free, b) <= 1 && Cover(carved, b) <= 1 {
      assert Cover(free, b) + Cover(carved, b) <= 1;
    }
    forall i | 0 <= i < |free| ensures free[i].size > 0 { assert RegularNode(free[i]); }
    forall i | 0 <= i < |carved| ensures carved[i].size > 0 { assert RegularNode(carved[i]); }
  }

  /** Two nodes that share no byte lie one before the other. */
  predicate Before(x: Node, y: Node) {
    x.End() <= y.addr || y.End() <= x.addr
  }

  lemma NoSharedByte(x: Node, y: Node)
    requires x.size > 0 && y.size > 0
    requires !(x.Has(x.addr) && y.Has(x.addr)) && !(x.Has(y.addr) && y.Has(y.addr))
    ensures Before(x, y)
  {
  }

  /** Every node and slot lies in the tiled range; free nodes and carved slots never overlap. */
  lemma HeapLayout(free: seq<Node>, carved: seq<Node>, lo: nat, hi: nat)
    requires HeapOk(free, carved, lo, hi)
    ensures forall i | 0 <= i < |free| :: lo <= free[i].addr && free[i].End() <= hi
    ensures forall i | 0 <= i < |carved| :: lo <= carved[i].addr && carved[i].End() <= hi
    ensures forall i, j | 0 <= i < |free| && 0 <= j < |carved| :: Before(free[i], carved[j])
    ensures forall i, j | 0 <= i < j < |free| :: Before(free[i], free[j])
    ensures forall i, j | 0 <= i < j < |carved| :: Before(carved[i], carved[j])
  {
    HeapDisjoint(free, carved, lo, hi);
    forall i | 0 <= i < |free| ensures lo <= free[i].addr && free[i].End() <= hi {
      CoverHas(free, i, free[i].addr); CoverHas(free, i, free[i].End() - 1);
    }
    forall i | 0 <= i < |carved| ensures lo <= carved[i].addr && carved[i].End() <= hi {
      CoverHas(carved, i, carved[i].addr); CoverHas(carved, i, carved[i].End() - 1);
    }
    forall i, j | 0 <= i < |free| && 0 <= j < |carved| ensures Before(free[i], carved[j]) {
      NeverBoth(free, carved, lo, hi, i, j, free[i].addr);
      NeverBoth(free, carved, lo, hi, i, j, carved[j].addr);
      NoSharedByte(free[i], carved[j]);
    }
    forall i, j | 0 <= i < j < |free| ensures Before(free[i], free[j]) { DisjointBefore(free, i, j); }
    forall i, j | 0 <= i < j < |carved| ensures Before(carved[i], carved[j]) { DisjointBefore(carved, i, j); }
  }

  lemma NeverBoth(free: seq<Node>, carved: seq<Node>, lo: nat, hi: nat, i: nat, j: nat, b: int)
    requires Tiles(free, carved, lo, hi) && i < |free| && j < |carved|
    ensures !(free[i].Has(b) && carved[j].Has(b))
  {
    assert Cover(free, b) + Cover(carved, b) <= 1;
    if free[i].Has(b) {
      CoverHas(free, i, b);
      if carved[j].Has(b) { CoverHas(carved, j, b); }
    }
  }

  lemma DisjointBefore(fs: seq<Node>, i: nat, j: nat)
    requires Disjoint(fs) && Positive(fs) && i < j < |fs|
    ensures Before(fs[i], fs[j])
  {
    DisjointApart(fs, i, j, fs[i].addr);
    DisjointApart(fs, i, j, fs[j].addr);
    NoSharedByte(fs[i], fs[j]);
  }

  // ---- Counting bytes ----

  function CoverSum(fs: seq<Node>, lo: nat, hi: nat): nat
    decreases hi - lo
  {
    if lo >= hi then 0 else Cover(fs, lo) + CoverSum(fs, lo + 1, hi)
  }

  lemma {:induction false} CoverSumSplit(fs: seq<Node>, lo: nat, hi: nat)
    requires fs != []
    ensures CoverSum(fs, lo, hi) == CoverSum([fs[0]], lo, hi) + CoverSum(fs[1..], lo, hi)
    decreases hi - lo
  {
    if lo < hi {
      assert Cover([fs[0]], lo) == One(fs[0], lo);
      CoverSumSplit(fs, lo + 1, hi);
    }
  }

  lemma {:induction false} CoverSumOne(node: Node, lo: nat, hi: nat)
    requires lo <= hi
    ensures CoverSum([node], lo, hi) == if node.End() <= lo || hi <= node.addr then 0
                                       else (if node.End() < hi then node.End() else hi) - Max(node.addr, lo)
    decreases hi - lo
  {
    if lo < hi {
      assert Cover([node], lo) == One(node, lo);
      CoverSumOne(node, lo + 1, hi);
    }
  }

  lemma {:induction false} CoverSumTotal(fs: seq<Node>, lo: nat, hi: nat)
    requires lo <= hi
    requires forall i | 0 <= i < |fs| :: lo <= fs[i].addr && fs[i].End() <= hi
    ensures CoverSum(fs, lo, hi) == Total(fs)
    decreases |fs|
  {
    if fs == [] {
      CoverSumEmpty(lo, hi);
    } else {
      CoverSumSplit(fs, lo, hi);
      CoverSumOne(fs[0], lo, hi);
      CoverSumTotal(fs[1..], lo, hi);
    }
  }

  lemma {:induction false} CoverSumEmpty(lo: nat, hi: nat)
    ensures CoverSum([], lo, hi) == 0
    decreases hi - lo
  {
    if lo < hi { CoverSumEmpty(lo + 1, hi); }
  }

  lemma {:induction false} CoverSumTiled(free: seq<Node>, carved: seq<Node>, lo: nat, at: nat, hi: nat)
    requires Tiles(free, carved, lo, hi) && lo <= at <= hi
    ensures CoverSum(free, at, hi) + CoverSum(carved, at, hi) == hi - at
    decreases hi - at
  {
    if at < hi {
      assert Cover(free, at) + Cover(carved, at) == 1;
      CoverSumTiled(free, carved, lo, at + 1, hi);
    }
  }

  /** Free and carved bytes add up to the bytes handed out by the bump pointer. */
  lemma TotalsAddUp(free: seq<Node>, carved: seq<Node>, lo: nat, hi: nat)
    requires HeapOk(free, carved, lo, hi)
    ensures Total(free) + Total(carved) == hi - lo
  {
    HeapLayout(free, carved, lo, hi);
    CoverSumTotal(free, lo, hi);
    CoverSumTotal(carved, lo, hi);
    CoverSumTiled(free, carved, lo, lo, hi);
  }
}
