/** What the two loops of `defragment` keep true of memory while they relink the free list in
    place (src/memory/allocator.rs:334-364). */
module DefragRep {
  import opened FreeList
  import opened Memory
  import opened ArenaRep

  /** The nodes sorted so far hang off `sorted`, the nodes still to be sorted off `current`; no two
      of them share a word and none lies in a live slot. */
  ghost predicate Sorting(m: Mem, sorted: nat, done: seq<Node>, current: nat, rest: seq<Node>, slots: seq<Node>) {
    ListAt(m, sorted, done) && ListAt(m, current, rest) && Spaced(done + rest) && AllOut(done + rest, slots)
  }

  /** Memory after `(*current).next = *prev; *prev = current`. */
  function Inserted(m: Mem, done: seq<Node>, k: nat, x: Node): Mem
    requires k <= |done| && x.addr + 8 in m && LinkOk(m, LinkOf(done, k))
  {
    WriteLink(m[x.addr + 8 := AddrAt(done, k)], LinkOf(done, k), x.addr)
  }

  lemma SpacedParts(xs: seq<Node>, ys: seq<Node>, slots: seq<Node>)
    requires Spaced(xs + ys) && AllOut(xs + ys, slots)
    ensures Spaced(xs) && Spaced(ys) && AllOut(xs, slots) && AllOut(ys, slots)
    ensures forall i, j | 0 <= i < |xs| && 0 <= j < |ys| :: Clear(ys[j], xs[i])
  {
    var all := xs + ys;
    forall i, j | 0 <= i < |xs| && 0 <= j < |xs| && i != j ensures Clear(xs[i], xs[j]) { assert Clear(all[i], all[j]); }
    forall i, j | 0 <= i < |ys| && 0 <= j < |ys| && i != j
      ensures Clear(ys[i], ys[j])
    {
      assert Clear(all[|xs| + i], all[|xs| + j]);
    }
    forall i, j | 0 <= i < |xs| && 0 <= j < |ys| ensures Clear(ys[j], xs[i]) { assert Clear(all[|xs| + j], all[i]); }
    forall i | 0 <= i < |xs| ensures OutOfSlots(xs[i].addr, slots) { assert OutOfSlots(all[i].addr, slots); }
    forall i | 0 <= i < |ys| ensures OutOfSlots(ys[i].addr, slots) { assert OutOfSlots(all[|xs| + i].addr, slots); }
  }

  /** Moving the first unsorted node among the sorted ones permutes the nodes. */
  lemma SpacedMoved(done: seq<Node>, rest: seq<Node>, k: nat, slots: seq<Node>)
    requires Spaced(done + rest) && AllOut(done + rest, slots) && rest != [] && k <= |done|
    ensures Spaced(InsertAt(done, k, rest[0]) + rest[1..]) && AllOut(InsertAt(done, k, rest[0]) + rest[1..], slots)
  {
    var all, out := done + rest, InsertAt(done, k, rest[0]) + rest[1..];
    forall i | 0 <= i < |out|
      ensures out[i] == all[Moved(i, k, |done|)]
    {
    }
    forall i, j | 0 <= i < |out| && 0 <= j < |out| && i != j
      ensures Clear(out[i], out[j])
    {
      assert Clear(all[Moved(i, k, |done|)], all[Moved(j, k, |done|)]);
    }
    forall i | 0 <= i < |out|
      ensures OutOfSlots(out[i].addr, slots)
    {
      assert OutOfSlots(all[Moved(i, k, |done|)].addr, slots);
    }
  }

  function Moved(i: nat, k: nat, n: nat): nat {
    if i < k || i > n then i else if i == k then n else i - 1
  }

  lemma InsertStep(m: Mem, sorted: nat, done: seq<Node>, current: nat, rest: seq<Node>, k: nat, slots: seq<Node>)
    requires Sorting(m, sorted, done, current, rest, slots) && rest != [] && k <= |done|
    requires rest[0].addr + 8 in m && LinkOk(m, LinkOf(done, k))
    ensures Sorting(Inserted(m, done, k, rest[0]), NewHead(sorted, LinkOf(done, k), current),
      InsertAt(done, k, rest[0]), AddrAt(rest, 1), rest[1..], slots)
    ensures Kept(m, Inserted(m, done, k, rest[0]), slots)
  {
    hide AllOut, OutOfSlots, Spaced, Kept, ListAt;
    SpacedParts(done, rest, slots);
    SpacedMoved(done, rest, k, slots);
    InsertLists(m, sorted, done, current, rest, k);
    InsertKept(m, sorted, done, current, rest, k, slots);
    assert rest[0].addr == current by { HeadIs(m, current, rest); }
  }

  lemma HeadIs(m: Mem, head: nat, fs: seq<Node>)
    requires ListAt(m, head, fs) && fs != []
    ensures fs[0].addr == head && Spelled(m, fs, 0)
  {
  }

  lemma InsertLists(m: Mem, sorted: nat, done: seq<Node>, current: nat, rest: seq<Node>, k: nat)
    requires ListAt(m, sorted, done) && ListAt(m, current, rest) && rest != [] && k <= |done|
    requires Spaced(done) && Spaced(rest)
    requires forall i, j | 0 <= i < |done| && 0 <= j < |rest| :: Clear(rest[j], done[i])
    requires rest[0].addr + 8 in m && LinkOk(m, LinkOf(done, k))
    ensures ListAt(Inserted(m, done, k, rest[0]), NewHead(sorted, LinkOf(done, k), rest[0].addr),
      InsertAt(done, k, rest[0]))
    ensures ListAt(Inserted(m, done, k, rest[0]), AddrAt(rest, 1), rest[1..])
  {
    hide ListAt, Spaced, Clear;
    HeadIs(m, current, rest);
    Link(m, sorted, done, k, rest[0]);
    RestUnlinked(m, current, rest);
    hide Spelled, NodeIs;
    RestStable(m, done, rest, k, sorted);
  }

  lemma RestUnlinked(m: Mem, current: nat, rest: seq<Node>)
    requires ListAt(m, current, rest) && rest != []
    ensures ListAt(m, AddrAt(rest, 1), rest[1..])
  {
    forall i | 0 <= i < |rest| - 1
      ensures Spelled(m, rest[1..], i)
    {
      assert Spelled(m, rest, i + 1);
    }
  }

  lemma RestStable(m: Mem, done: seq<Node>, rest: seq<Node>, k: nat, sorted: nat)
    requires rest != [] && ListAt(m, AddrAt(rest, 1), rest[1..]) && ListAt(m, sorted, done) && k <= |done|
    requires Spaced(rest)
    requires forall i, j | 0 <= i < |done| && 0 <= j < |rest| :: Clear(rest[j], done[i])
    requires rest[0].addr + 8 in m && LinkOk(m, LinkOf(done, k))
    ensures ListAt(Inserted(m, done, k, rest[0]), AddrAt(rest, 1), rest[1..])
  {
    var x, m1 := rest[0], m[rest[0].addr + 8 := AddrAt(done, k)];
    forall i | 0 <= i < |rest| - 1
      ensures rest[1..][i].addr + 16 <= x.addr || x.addr + 16 <= rest[1..][i].addr
    {
      assert Clear(rest[i + 1], rest[0]);
    }
    ListStable(m, m1, AddrAt(rest, 1), rest[1..], x.addr, x.addr + 16);
    if k > 0 {
      var p := done[k - 1];
      forall i | 0 <= i < |rest| - 1
        ensures rest[1..][i].addr + 16 <= p.addr || p.addr + 16 <= rest[1..][i].addr
      {
        assert Clear(rest[i + 1], done[k - 1]);
      }
      ListStable(m1, WriteLink(m1, LinkOf(done, k), x.addr), AddrAt(rest, 1), rest[1..], p.addr, p.addr + 16);
    }
  }

  lemma InsertKept(m: Mem, sorted: nat, done: seq<Node>, current: nat, rest: seq<Node>, k: nat, slots: seq<Node>)
    requires AllOut(done, slots) && AllOut(rest, slots) && rest != [] && k <= |done|
    requires rest[0].addr + 8 in m && LinkOk(m, LinkOf(done, k))
    ensures Kept(m, Inserted(m, done, k, rest[0]), slots)
  {
    assert OutOfSlots(rest[0].addr, slots);
    if k > 0 { assert OutOfSlots(done[k - 1].addr, slots); }
  }

  /** Insertion at the found position is the sorted insertion. */
  lemma {:induction false} InsertIsInsertAt(done: seq<Node>, x: Node, k: nat)
    requires k <= |done| && forall j | 0 <= j < k :: done[j].addr < x.addr
    requires k < |done| ==> !(done[k].addr < x.addr)
    ensures Insert(done, x) == InsertAt(done, k, x)
  {
    if k > 0 {
      InsertIsInsertAt(done[1..], x, k - 1);
      assert InsertAt(done, k, x) == [done[0]] + InsertAt(done[1..], k - 1, x);
    }
  }

  // ---- The coalescing pass ----

  /** `cur` hangs off `head`; merging from position `i` on would turn it into `target`. */
  ghost predicate Merging(m: Mem, head: nat, cur: seq<Node>, i: nat, target: seq<Node>, slots: seq<Node>) {
    ListAt(m, head, cur) && Spaced(cur) && AllOut(cur, slots) &&
    i <= |cur| && cur[..i] + Coalesce(cur[i..]) == target
  }

  function Merged(m: Mem, fs: seq<Node>, k: nat): Mem
    requires k + 1 < |fs|
  {
    m[fs[k].addr := fs[k].size + fs[k + 1].size][fs[k].addr + 8 := AddrAt(fs, k + 2)]
  }

  lemma MergeStep(m: Mem, head: nat, cur: seq<Node>, i: nat, target: seq<Node>, slots: seq<Node>)
    requires Merging(m, head, cur, i, target, slots) && i + 1 < |cur| && cur[i].End() == cur[i + 1].addr
    ensures Merging(Merged(m, cur, i), head, MergeAt(cur, i), i, target, slots)
    ensures Kept(m, Merged(m, cur, i), slots)
  {
    hide ListAt, Spaced, AllOut, Kept, OutOfSlots;
    Merge(m, head, cur, i);
    MergeSpaced(cur, i, slots);
    MergeKept(m, head, cur, i, slots);
    var out := MergeAt(cur, i);
    assert out[..i] == cur[..i];
    assert out[i..] == [Node(cur[i].addr, cur[i].size + cur[i + 1].size)] + cur[i..][2..];
  }

  lemma MergeSpaced(cur: seq<Node>, i: nat, slots: seq<Node>)
    requires Spaced(cur) && AllOut(cur, slots) && i + 1 < |cur|
    ensures Spaced(MergeAt(cur, i)) && AllOut(MergeAt(cur, i), slots)
  {
    var out := MergeAt(cur, i);
    forall a, b | 0 <= a < |out| && 0 <= b < |out| && a != b
      ensures Clear(out[a], out[b])
    {
      var a', b' := if a <= i then a else a + 1, if b <= i then b else b + 1;
      assert Clear(cur[a'], cur[b']);
    }
    forall a | 0 <= a < |out|
      ensures OutOfSlots(out[a].addr, slots)
    {
      var a' := if a <= i then a else a + 1;
      assert OutOfSlots(cur[a'].addr, slots);
    }
  }

  lemma MergeKept(m: Mem, head: nat, cur: seq<Node>, i: nat, slots: seq<Node>)
    requires ListAt(m, head, cur) && AllOut(cur, slots) && i + 1 < |cur|
    ensures Kept(m, Merged(m, cur, i), slots)
  {
    assert OutOfSlots(cur[i].addr, slots);
    assert Spelled(m, cur, i);
  }

  lemma SkipStep(m: Mem, head: nat, cur: seq<Node>, i: nat, target: seq<Node>, slots: seq<Node>)
    requires Merging(m, head, cur, i, target, slots) && i + 1 < |cur| && cur[i].End() != cur[i + 1].addr
    ensures Merging(m, head, cur, i + 1, target, slots)
  {
    hide ListAt, Spaced, AllOut;
    assert cur[i..][1..] == cur[i + 1..];
    assert cur[..i] + ([cur[i]] + Coalesce(cur[i + 1..])) == cur[..i + 1] + Coalesce(cur[i + 1..]);
  }

  lemma LastStep(m: Mem, head: nat, cur: seq<Node>, i: nat, target: seq<Node>, slots: seq<Node>)
    requires Merging(m, head, cur, i, target, slots) && i + 1 >= |cur|
    ensures cur == target && ListAt(m, head, target)
  {
    assert Coalesce(cur[i..]) == cur[i..];
    assert cur[..i] + cur[i..] == cur;
  }
}
