/** Single stores to memory, and stores of two parties one between the other. */
module Writes {
  import opened Memory

  datatype Write = Write(addr: nat, value: nat)

  /** Memory after these stores, one after the other. */
  function Applied(m: Mem, ws: seq<Write>): Mem
    decreases |ws|
  {
    if ws == [] then m else Applied(m[ws[0].addr := ws[0].value], ws[1..])
  }

  /** `zs` is `xs` and `ys`, each in its own order, mixed in any way. */
  predicate Interleaves(xs: seq<Write>, ys: seq<Write>, zs: seq<Write>)
    decreases |zs|
  {
    if zs == [] then xs == [] && ys == []
    else
      (xs != [] && xs[0] == zs[0] && Interleaves(xs[1..], ys, zs[1..])) ||
      (ys != [] && ys[0] == zs[0] && Interleaves(xs, ys[1..], zs[1..]))
  }

  predicate Untouched(ws: seq<Write>, a: nat) {
    forall i | 0 <= i < |ws| :: ws[i].addr != a
  }

  /** No word is stored to by both. */
  predicate NoSharedWord(xs: seq<Write>, ys: seq<Write>) {
    forall i | 0 <= i < |xs| :: Untouched(ys, xs[i].addr)
  }

  lemma NoStores(m: Mem)
    ensures Applied(m, []) == m
  {
  }

  lemma AppliedOne(m: Mem, w: Write)
    ensures Applied(m, [w]) == m[w.addr := w.value]
  {
    assert [w][1..] == [];
  }

  lemma AppliedTwo(m: Mem, v: Write, w: Write)
    ensures Applied(m, [v, w]) == m[v.addr := v.value][w.addr := w.value]
  {
    assert [v, w][1..] == [w];
    AppliedOne(m[v.addr := v.value], w);
  }

  lemma {:induction false} AppliedConcat(m: Mem, xs: seq<Write>, ys: seq<Write>)
    ensures Applied(m, xs + ys) == Applied(Applied(m, xs), ys)
    decreases |xs|
  {
    if xs == [] {
      assert xs + ys == ys;
    } else {
      assert (xs + ys)[1..] == xs[1..] + ys;
      AppliedConcat(m[xs[0].addr := xs[0].value], xs[1..], ys);
    }
  }

  /** A store commutes with stores to other words. */
  lemma {:induction false} StoreCommutes(m: Mem, w: Write, ws: seq<Write>)
    requires Untouched(ws, w.addr)
    ensures Applied(m[w.addr := w.value], ws) == Applied(m, ws)[w.addr := w.value]
    decreases |ws|
  {
    if ws != [] {
      var first := ws[0];
      assert m[w.addr := w.value][first.addr := first.value] == m[first.addr := first.value][w.addr := w.value];
      StoreCommutes(m[first.addr := first.value], w, ws[1..]);
    }
  }

  lemma {:induction false} StoresCommute(m: Mem, xs: seq<Write>, ys: seq<Write>)
    requires NoSharedWord(xs, ys)
    ensures Applied(Applied(m, xs), ys) == Applied(Applied(m, ys), xs)
    decreases |xs|
  {
    if xs != [] {
      StoresCommute(m[xs[0].addr := xs[0].value], xs[1..], ys);
      StoreCommutes(m, xs[0], ys);
    }
  }

  /** Stores of two parties to different words have the same effect however they are mixed: as if either
      party had made all of its stores first. */
  lemma {:induction false} MixedIsAtomic(m: Mem, xs: seq<Write>, ys: seq<Write>, zs: seq<Write>)
    requires Interleaves(xs, ys, zs) && NoSharedWord(xs, ys)
    ensures Applied(m, zs) == Applied(Applied(m, xs), ys) == Applied(Applied(m, ys), xs)
    decreases |zs|
  {
    StoresCommute(m, xs, ys);
    if zs != [] {
      var n := m[zs[0].addr := zs[0].value];
      if xs != [] && xs[0] == zs[0] && Interleaves(xs[1..], ys, zs[1..]) {
        MixedIsAtomic(n, xs[1..], ys, zs[1..]);
      } else {
        MixedIsAtomic(n, xs, ys[1..], zs[1..]);
        StoreAmong(m, xs, ys[0], ys);
      }
    }
  }

  lemma StoreAmong(m: Mem, xs: seq<Write>, w: Write, ys: seq<Write>)
    requires NoSharedWord(xs, ys) && w in ys
    ensures Applied(m[w.addr := w.value], xs) == Applied(m, xs)[w.addr := w.value]
  {
    forall i | 0 <= i < |xs|
      ensures xs[i].addr != w.addr
    {
      assert Untouched(ys, xs[i].addr);
    }
    StoreCommutes(m, w, xs);
  }

  /** Stores keep every word they do not go to. */
  lemma {:induction false} AppliedKeeps(m: Mem, ws: seq<Write>)
    requires forall i | 0 <= i < |ws| :: ws[i].addr in m
    ensures Applied(m, ws).Keys == m.Keys
    ensures forall a | a in m && Untouched(ws, a) :: Applied(m, ws)[a] == m[a]
    decreases |ws|
  {
    if ws != [] {
      var n := m[ws[0].addr := ws[0].value];
      assert n.Keys == m.Keys;
      AppliedKeeps(n, ws[1..]);
      forall a | a in m && Untouched(ws, a)
        ensures Applied(m, ws)[a] == m[a]
      {
        assert Untouched(ws[1..], a) && a != ws[0].addr;
      }
    }
  }
}
