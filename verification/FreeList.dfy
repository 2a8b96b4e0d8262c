/** The arena's free list as a sequence of nodes in list order: first fit with splitting, and
    defragmentation. `Cover` counts how many nodes contain a byte, so "no gap, no overlap" is the
    one statement `Cover == 1`. The word-array implementation is in `Arena`. */
module FreeList {
  import opened Collections
  import opened Slots

  datatype Node = Node(addr: nat, size: nat) {
    function End(): nat { addr + size }
    predicate Has(b: int) { addr <= b < End() }
  }

  function One(node: Node, b: int): nat {
    if node.Has(b) then 1 else 0
  }

  function Cover(fs: seq<Node>, b: int): nat {
    if fs == [] then 0 else One(fs[0], b) + Cover(fs[1..], b)
  }

  function Total(fs: seq<Node>): nat {
    if fs == [] then 0 else fs[0].size + Total(fs[1..])
  }

  /** The shape every free node and every carved slot has. */
  predicate Regular(fs: seq<Node>) {
    forall i | 0 <= i < |fs| :: RegularNode(fs[i])
  }

  predicate RegularNode(node: Node) {
    Aligned(node.addr) && Aligned(node.size) && MIN_SLOT_SIZE <= node.size
  }

  ghost predicate Disjoint(fs: seq<Node>) {
    forall b :: Cover(fs, b) <= 1
  }

  lemma {:induction false} CoverConcat(xs: seq<Node>, ys: seq<Node>, b: int)
    ensures Cover(xs + ys, b) == Cover(xs, b) + Cover(ys, b)
  {
    if xs == [] {
      assert xs + ys == ys;
    } else {
      assert (xs + ys)[1..] == xs[1..] + ys;
      CoverConcat(xs[1..], ys, b);
    }
  }

  lemma {:induction false} TotalConcat(xs: seq<Node>, ys: seq<Node>)
    ensures Total(xs + ys) == Total(xs) + Total(ys)
  {
    if xs == [] {
      assert xs + ys == ys;
    } else {
      assert (xs + ys)[1..] == xs[1..] + ys;
      TotalConcat(xs[1..], ys);
    }
  }

  lemma CoverSplit(fs: seq<Node>, i: nat, b: int)
    requires i < |fs|
    ensures Cover(fs, b) == Cover(fs[..i], b) + One(fs[i], b) + Cover(fs[i + 1..], b)
  {
    assert fs == fs[..i] + fs[i..];
    CoverConcat(fs[..i], fs[i..], b);
  }

  lemma CoverRemove(fs: seq<Node>, i: nat, b: int)
    requires i < |fs|
    ensures Cover(RemoveAt(fs, i), b) == Cover(fs, b) - One(fs[i], b)
  {
    CoverSplit(fs, i, b);
    CoverConcat(fs[..i], fs[i + 1..], b);
  }

  lemma TotalRemove(fs: seq<Node>, i: nat)
    requires i < |fs|
    ensures Total(RemoveAt(fs, i)) == Total(fs) - fs[i].size
  {
    assert fs == fs[..i] + fs[i..];
    TotalConcat(fs[..i], fs[i..]);
    TotalConcat(fs[..i], fs[i + 1..]);
  }

  /** A byte is covered exactly when some node contains it. */
  lemma {:induction false} CoverFinds(fs: seq<Node>, b: int) returns (i: nat)
    requires Cover(fs, b) > 0
    ensures i < |fs| && fs[i].Has(b)
  {
    if fs[0].Has(b) {
      i := 0;
    } else {
      i := CoverFinds(fs[1..], b);
      i := i + 1;
    }
  }

  lemma CoverHas(fs: seq<Node>, i: nat, b: int)
    requires i < |fs| && fs[i].Has(b)
    ensures Cover(fs, b) > 0
  {
    CoverSplit(fs, i, b);
  }

  /** Two different positions never share a byte of a disjoint list. */
  lemma DisjointApart(fs: seq<Node>, i: nat, j: nat, b: int)
    requires Cover(fs, b) <= 1 && i < j < |fs|
    ensures !(fs[i].Has(b) && fs[j].Has(b))
  {
    CoverSplit(fs, i, b);
    if fs[j].Has(b) { CoverHas(fs[i + 1..], j - i - 1, b); }
  }

  // ---- First fit (src/memory/allocator.rs:167-201) ----

  /** Position of the first node of at least `n` bytes, or the length of the list. */
  function FirstFit(fs: seq<Node>, n: nat): (k: nat)
    ensures k <= |fs|
    ensures forall j | 0 <= j < k :: fs[j].size < n
    ensures k < |fs| ==> fs[k].size >= n
  {
    if fs == [] || fs[0].size >= n then 0 else 1 + FirstFit(fs[1..], n)
  }

  /** The slot carved from a node and what stays of it on the list: a node of at least
      `MIN_SLOT_SIZE` spare bytes is split, any other is handed out whole. */
  function SlotOf(node: Node, n: nat): Node
    requires n <= node.size
  {
    if node.size - n >= MIN_SLOT_SIZE then Node(node.addr, n) else node
  }

  function RestOf(node: Node, n: nat): seq<Node>
    requires n <= node.size
  {
    if node.size - n >= MIN_SLOT_SIZE then [Node(node.addr + n, node.size - n)] else []
  }

  /** The list after carving `n` bytes from the node at position `k`. */
  function TakeAt(fs: seq<Node>, k: nat, n: nat): seq<Node>
    requires k < |fs| && n <= fs[k].size
  {
    fs[..k] + RestOf(fs[k], n) + fs[k + 1..]
  }

  /** Node `k` is the first of at least `n` bytes. */
  predicate FirstOf(fs: seq<Node>, n: nat, k: nat) {
    k < |fs| && n <= fs[k].size && forall j | 0 <= j < k :: fs[j].size < n
  }

  predicate SomeNode(fs: seq<Node>, n: nat) {
    exists j :: 0 <= j < |fs| && n <= fs[j].size
  }

  lemma FirstOfIs(fs: seq<Node>, n: nat, k: nat)
    requires FirstOf(fs, n, k)
    ensures FirstFit(fs, n) == k
  {
  }

  /** From a node at least 16 bytes too large the front is taken, and the remainder stands in its place. */
  lemma TakeSplits(fs: seq<Node>, n: nat, k: nat)
    requires k < |fs| && fs[k].size >= n + 16
    ensures SlotOf(fs[k], n) == Node(fs[k].addr, n)
    ensures TakeAt(fs, k, n) == fs[..k] + [Node(fs[k].addr + n, fs[k].size - n)] + fs[k + 1..]
  {
  }

  /** Any other is taken whole. */
  lemma TakeWhole(fs: seq<Node>, n: nat, k: nat)
    requires k < |fs| && n <= fs[k].size < n + 16
    ensures SlotOf(fs[k], n) == fs[k] && TakeAt(fs, k, n) == fs[..k] + fs[k + 1..]
  {
    assert fs[..k] + [] + fs[k + 1..] == fs[..k] + fs[k + 1..];
  }

  lemma TakeConserves(fs: seq<Node>, k: nat, n: nat, b: int)
    requires k < |fs| && n <= fs[k].size
    ensures Cover(TakeAt(fs, k, n), b) + One(SlotOf(fs[k], n), b) == Cover(fs, b)
  {
    CoverSplit(fs, k, b);
    CoverConcat(fs[..k] + RestOf(fs[k], n), fs[k + 1..], b);
    CoverConcat(fs[..k], RestOf(fs[k], n), b);
  }

  /** On regular lists and word-sized requests carving leaves a regular list and a regular slot,
      and the excess of a slot handed out whole is 0 or 8 bytes. */
  lemma TakeRegular(fs: seq<Node>, k: nat, n: nat)
    requires Regular(fs) && k < |fs| && n <= fs[k].size
    requires Aligned(n) && n >= MIN_SLOT_SIZE
    ensures Regular(TakeAt(fs, k, n)) && RegularNode(SlotOf(fs[k], n))
    ensures SlotOf(fs[k], n).size - n in {0, 8}
  {
    var left := fs[k].size - n;
    assert RegularNode(fs[k]);
    AlignedSum(n, left);
    AlignedSum(fs[k].addr, n);
    var out := TakeAt(fs, k, n);
    var rest := RestOf(fs[k], n);
    forall i | 0 <= i < |out|
      ensures RegularNode(out[i])
    {
      if i < k {
        assert out[i] == fs[i];
      } else if i >= k + |rest| {
        assert out[i] == fs[i - |rest| + 1];
      } else {
        assert out[i] == rest[0];
      }
    }
  }

  // ---- Defragmentation (src/memory/allocator.rs:334-364) ----

  function Insert(sorted: seq<Node>, node: Node): seq<Node> {
    if sorted == [] || !(sorted[0].addr < node.addr) then [node] + sorted
    else [sorted[0]] + Insert(sorted[1..], node)
  }

  function SortInto(sorted: seq<Node>, fs: seq<Node>): seq<Node>
    decreases fs
  {
    if fs == [] then sorted else SortInto(Insert(sorted, fs[0]), fs[1..])
  }

  function Coalesce(fs: seq<Node>): seq<Node>
    decreases |fs|
  {
    if |fs| < 2 then fs
    else if fs[0].End() == fs[1].addr then Coalesce([Node(fs[0].addr, fs[0].size + fs[1].size)] + fs[2..])
    else [fs[0]] + Coalesce(fs[1..])
  }

  function Defrag(fs: seq<Node>): seq<Node> {
    Coalesce(SortInto([], fs))
  }

  predicate Sorted(fs: seq<Node>) {
    forall i, j | 0 <= i < j < |fs| :: fs[i].addr <= fs[j].addr
  }

  predicate Positive(fs: seq<Node>) {
    forall i | 0 <= i < |fs| :: fs[i].size > 0
  }

  /** Address order with a gap between any two nodes: nothing left to merge. */
  predicate Canonical(fs: seq<Node>) {
    Positive(fs) && forall i, j | 0 <= i < j < |fs| :: fs[i].End() < fs[j].addr
  }

  lemma {:induction false} InsertCover(sorted: seq<Node>, node: Node, b: int)
    ensures Cover(Insert(sorted, node), b) == Cover(sorted, b) + One(node, b)
  {
    if sorted != [] && sorted[0].addr < node.addr {
      InsertCover(sorted[1..], node, b);
    } else {
      CoverConcat([node], sorted, b);
    }
  }

  lemma {:induction false} SortCover(sorted: seq<Node>, fs: seq<Node>, b: int)
    ensures Cover(SortInto(sorted, fs), b) == Cover(sorted, b) + Cover(fs, b)
    decreases fs
  {
    if fs != [] {
      SortCover(Insert(sorted, fs[0]), fs[1..], b);
      InsertCover(sorted, fs[0], b);
    }
  }

  lemma {:induction false} CoalesceCover(fs: seq<Node>, b: int)
    ensures Cover(Coalesce(fs), b) == Cover(fs, b)
    decreases |fs|
  {
    if |fs| >= 2 {
      if fs[0].End() == fs[1].addr {
        var merged := Node(fs[0].addr, fs[0].size + fs[1].size);
        CoalesceCover([merged] + fs[2..], b);
        assert ([merged] + fs[2..])[1..] == fs[1..][1..];
      } else {
        CoalesceCover(fs[1..], b);
      }
    }
  }

  /** Defragmenting covers exactly the same bytes, whatever the list. */
  lemma DefragCover(fs: seq<Node>, b: int)
    ensures Cover(Defrag(fs), b) == Cover(fs, b)
  {
    SortCover([], fs, b);
    CoalesceCover(SortInto([], fs), b);
  }

  /** Every node of `Insert(sorted, node)` is `node` or a node of `sorted`. */
  lemma {:induction false} InsertSorted(sorted: seq<Node>, node: Node)
    requires Sorted(sorted)
    ensures Sorted(Insert(sorted, node))
    ensures forall x | x in Insert(sorted, node) :: x == node || x in sorted
  {
    if sorted != [] && sorted[0].addr < node.addr {
      var rest := Insert(sorted[1..], node);
      InsertSorted(sorted[1..], node);
      forall i, j | 0 <= i < j < |rest| + 1
        ensures ([sorted[0]] + rest)[i].addr <= ([sorted[0]] + rest)[j].addr
      {
        if i == 0 { assert rest[j - 1] in rest; }
      }
    }
  }

  lemma {:induction false} SortSorted(sorted: seq<Node>, fs: seq<Node>)
    requires Sorted(sorted)
    ensures Sorted(SortInto(sorted, fs))
    ensures forall x | x in SortInto(sorted, fs) :: x in sorted || x in fs
    decreases fs
  {
    if fs != [] {
      InsertSorted(sorted, fs[0]);
      SortSorted(Insert(sorted, fs[0]), fs[1..]);
    }
  }

  /** In a disjoint sorted list a node ends before the next one starts. */
  lemma SortedApart(fs: seq<Node>, i: nat, j: nat)
    requires Sorted(fs) && Positive(fs) && Disjoint(fs) && i < j < |fs|
    ensures fs[i].End() <= fs[j].addr
  {
    DisjointApart(fs, i, j, fs[j].addr);
  }

  predicate Apart(fs: seq<Node>) {
    Positive(fs) && forall i, j | 0 <= i < j < |fs| :: fs[i].End() <= fs[j].addr
  }

  lemma {:induction false} CoalesceCanonical(fs: seq<Node>)
    requires Apart(fs)
    ensures Canonical(Coalesce(fs))
    ensures fs != [] ==> Coalesce(fs) != [] && Coalesce(fs)[0].addr == fs[0].addr
    decreases |fs|
  {
    if |fs| >= 2 {
      if fs[0].End() == fs[1].addr {
        CoalesceCanonical([Node(fs[0].addr, fs[0].size + fs[1].size)] + fs[2..]);
      } else {
        CoalesceCanonical(fs[1..]);
      }
    }
  }

  /** The result of `defragment` on disjoint free nodes is address-sorted with no two adjacent nodes. */
  lemma DefragCanonical(fs: seq<Node>)
    requires Disjoint(fs) && Positive(fs)
    ensures Canonical(Defrag(fs))
  {
    var sorted := SortInto([], fs);
    SortSorted([], fs);
    forall b ensures Cover(sorted, b) <= 1 { SortCover([], fs, b); }
    forall i | 0 <= i < |sorted| ensures sorted[i].size > 0 { assert sorted[i] in fs; }
    forall i, j | 0 <= i < j < |sorted| ensures sorted[i].End() <= sorted[j].addr { SortedApart(sorted, i, j); }
    CoalesceCanonical(sorted);
  }

  /** Defragmenting keeps node shapes. */
  lemma DefragRegular(fs: seq<Node>)
    requires Regular(fs)
    ensures Regular(Defrag(fs))
  {
    var sorted := SortInto([], fs);
    SortSorted([], fs);
    forall i | 0 <= i < |sorted| ensures RegularNode(sorted[i]) { assert sorted[i] in fs; }
    CoalesceRegular(sorted);
  }

  lemma {:induction false} CoalesceRegular(fs: seq<Node>)
    requires Regular(fs)
    ensures Regular(Coalesce(fs))
    decreases |fs|
  {
    if |fs| >= 2 {
      if fs[0].End() == fs[1].addr {
        var merged := Node(fs[0].addr, fs[0].size + fs[1].size);
        assert RegularNode(fs[0]) && RegularNode(fs[1]);
        AlignedSum(fs[0].size, fs[1].size);
        CoalesceRegular([merged] + fs[2..]);
      } else {
        CoalesceRegular(fs[1..]);
      }
    }
  }

  lemma FirstCovered(fs: seq<Node>)
    requires Positive(fs)
    ensures fs != [] ==> Cover(fs, fs[0].addr) > 0
  {
  }

  lemma CanonicalTail(fs: seq<Node>)
    requires Canonical(fs) && fs != []
    ensures Canonical(fs[1..])
    ensures forall b | b <= fs[0].End() :: Cover(fs[1..], b) == 0
  {
    forall b | b <= fs[0].End() ensures Cover(fs[1..], b) == 0 {
      if Cover(fs[1..], b) > 0 { var i := CoverFinds(fs[1..], b); }
    }
  }

  /** A canonical list is determined by the bytes it covers. */
  lemma {:induction false} CanonicalUnique(fs: seq<Node>, gs: seq<Node>)
    requires Canonical(fs) && Canonical(gs)
    requires forall b :: Cover(fs, b) > 0 <==> Cover(gs, b) > 0
    ensures fs == gs
    decreases |fs|
  {
    FirstCovered(fs);
    FirstCovered(gs);
    if fs != [] {
      assert gs != [];
      var f, g := fs[0], gs[0];
      CanonicalTail(fs); CanonicalTail(gs);
      assert Cover(gs, f.addr) > 0 && Cover(fs, g.addr) > 0;
      assert f.addr == g.addr by { FirstByte(fs, g.addr); FirstByte(gs, f.addr); }
      assert Cover(fs, f.End()) == 0 && Cover(gs, g.End()) == 0;
      assert Cover(fs, g.End()) == 0 && Cover(gs, f.End()) == 0;
      assert f == g;
      forall b ensures Cover(fs[1..], b) > 0 <==> Cover(gs[1..], b) > 0 {
        assert Cover(fs, b) > 0 <==> Cover(gs, b) > 0;
      }
      CanonicalUnique(fs[1..], gs[1..]);
    }
  }

  lemma FirstByte(fs: seq<Node>, b: int)
    requires Canonical(fs) && fs != [] && Cover(fs, b) > 0
    ensures fs[0].addr <= b
  {
    var i := CoverFinds(fs, b);
  }

  /** Any two free lists over the same free bytes defragment to the same list. */
  lemma DefragConfluent(fs: seq<Node>, gs: seq<Node>)
    requires Disjoint(fs) && Positive(fs) && Disjoint(gs) && Positive(gs)
    requires forall b :: Cover(fs, b) == Cover(gs, b)
    ensures Defrag(fs) == Defrag(gs)
  {
    DefragCanonical(fs);
    DefragCanonical(gs);
    forall b ensures Cover(Defrag(fs), b) > 0 <==> Cover(Defrag(gs), b) > 0 {
      DefragCover(fs, b); DefragCover(gs, b);
    }
    CanonicalUnique(Defrag(fs), Defrag(gs));
  }

  lemma CanonicalDisjoint(fs: seq<Node>)
    requires Canonical(fs)
    ensures Disjoint(fs)
    decreases |fs|
  {
    if fs != [] {
      CanonicalTail(fs);
      CanonicalDisjoint(fs[1..]);
    }
  }

  lemma DefragIdempotent(fs: seq<Node>)
    requires Disjoint(fs) && Positive(fs)
    ensures Defrag(Defrag(fs)) == Defrag(fs)
  {
    var once := Defrag(fs);
    DefragCanonical(fs);
    CanonicalDisjoint(once);
    forall b ensures Cover(once, b) == Cover(fs, b) { DefragCover(fs, b); }
    DefragConfluent(once, fs);
  }

  /** `n` contiguous free bytes starting at `a`. */
  ghost predicate Run(fs: seq<Node>, a: int, n: nat) {
    forall b | a <= b < a + n :: Cover(fs, b) > 0
  }

  /** A byte at or directly after a node of a canonical list belongs to no other node. */
  lemma AbuttingIsSame(fs: seq<Node>, i: nat, j: nat, b: int)
    requires Canonical(fs) && i < |fs| && j < |fs|
    requires fs[i].addr <= b <= fs[i].End() && fs[j].Has(b)
    ensures i == j
  {
  }

  /** In a canonical list a contiguous run of covered bytes lies in one node. */
  lemma {:induction false} RunInOneNode(fs: seq<Node>, a: int, n: nat) returns (i: nat)
    requires Canonical(fs) && n > 0 && Run(fs, a, n)
    ensures i < |fs| && fs[i].addr <= a && a + n <= fs[i].End()
    decreases n
  {
    if n == 1 {
      i := CoverFinds(fs, a);
    } else {
      i := RunInOneNode(fs, a, n - 1);
      var j := CoverFinds(fs, a + n - 1);
      AbuttingIsSame(fs, i, j, a + n - 1);
    }
  }

  /** After defragmentation first fit succeeds for `n` bytes exactly when some region of `n`
      contiguous free bytes exists. */
  lemma DefragServes(fs: seq<Node>, n: nat)
    requires Disjoint(fs) && Positive(fs) && n > 0
    ensures FirstFit(Defrag(fs), n) < |Defrag(fs)| <==> exists a :: Run(fs, a, n)
  {
    var d := Defrag(fs);
    DefragCanonical(fs);
    var k := FirstFit(d, n);
    if k < |d| {
      forall b | d[k].addr <= b < d[k].addr + n ensures Cover(fs, b) > 0 {
        CoverHas(d, k, b);
        DefragCover(fs, b);
      }
      assert Run(fs, d[k].addr, n);
    }
    if a :| Run(fs, a, n) {
      forall b | a <= b < a + n ensures Cover(d, b) > 0 { DefragCover(fs, b); }
      var i := RunInOneNode(d, a, n);
    }
  }

  /** Whatever the list could serve before defragmentation it can serve after. */
  lemma DefragServesMore(fs: seq<Node>, n: nat)
    requires Disjoint(fs) && Positive(fs) && n > 0
    requires FirstFit(fs, n) < |fs|
    ensures FirstFit(Defrag(fs), n) < |Defrag(fs)|
  {
    var k := FirstFit(fs, n);
    forall b | fs[k].addr <= b < fs[k].addr + n ensures Cover(fs, b) > 0 { CoverHas(fs, k, b); }
    assert Run(fs, fs[k].addr, n);
    DefragServes(fs, n);
  }
}
