/** The arena's memory as a map from word addresses to 8-byte words, and the intrusive free list
    threaded through it: a node's first word is its size, its second the address of the next node,
    0 for null. */
module Memory {
  import opened Collections
  import opened FreeList

  type Mem = map<nat, nat>

  /** The words of an array laid out from address `base`. */
  function WordsOf(base: nat, words: seq<nat>): Mem {
    if words == [] then map[]
    else var last := |words| - 1; WordsOf(base, words[..last])[base + 8 * last := words[last]]
  }

  lemma {:induction false} WordKeys(base: nat, words: seq<nat>, i: nat)
    requires i < |words|
    ensures base + 8 * i in WordsOf(base, words) && WordsOf(base, words)[base + 8 * i] == words[i]
  {
    var last := |words| - 1;
    if i < last { WordKeys(base, words[..last], i); }
  }

  /** Every word address is the base plus a whole number of words. */
  lemma {:induction false} WordIndex(base: nat, words: seq<nat>, a: nat)
    requires a in WordsOf(base, words)
    ensures a >= base && (a - base) / 8 < |words| && a == base + 8 * ((a - base) / 8)
    ensures WordsOf(base, words)[a] == words[(a - base) / 8]
  {
    var last := |words| - 1;
    if a != base + 8 * last { WordIndex(base, words[..last], a); }
  }

  lemma {:induction false} WordsUpdate(base: nat, words: seq<nat>, i: nat, value: nat)
    requires i < |words|
    ensures WordsOf(base, words[i := value]) == WordsOf(base, words)[base + 8 * i := value]
  {
    var last := |words| - 1;
    var updated := words[i := value];
    if i == last {
      assert updated[..last] == words[..last];
    } else {
      assert updated[..last] == words[..last][i := value];
      WordsUpdate(base, words[..last], i, value);
    }
  }

  /** `m` and `n` agree on every word that starts outside `[lo, hi)`. */
  ghost predicate SameOutside(m: Mem, n: Mem, lo: nat, hi: nat) {
    m.Keys == n.Keys && forall a | a in m && (a < lo || hi <= a) :: n[a] == m[a]
  }

  /** The two words of a node are words of the arena. */
  predicate NodeWords(m: Mem, node: Node) {
    node.addr > 0 && node.addr in m && node.addr + 8 in m
  }

  predicate NodeIs(m: Mem, node: Node, next: nat) {
    NodeWords(m, node) && m[node.addr] == node.size && m[node.addr + 8] == next
  }

  function AddrAt(fs: seq<Node>, i: nat): nat {
    if i < |fs| then fs[i].addr else 0
  }

  /** Node `k` of the list is in memory, linked to its successor. */
  predicate Spelled(m: Mem, fs: seq<Node>, k: nat)
    requires k < |fs|
  {
    NodeIs(m, fs[k], AddrAt(fs, k + 1))
  }

  /** The list starting at `head` spells exactly the nodes `fs`, in this order. */
  ghost predicate ListAt(m: Mem, head: nat, fs: seq<Node>) {
    head == AddrAt(fs, 0) && forall i | 0 <= i < |fs| :: Spelled(m, fs, i)
  }

  predicate Clear(x: Node, y: Node) {
    x.addr + 16 <= y.addr || y.addr + 16 <= x.addr
  }

  predicate Spaced(fs: seq<Node>) {
    forall i, j | 0 <= i < |fs| && 0 <= j < |fs| && i != j :: Clear(fs[i], fs[j])
  }

  /** A pointer to a pointer: 0 stands for the head variable, any other value for the `next` field
      of the node at that address. */
  function LinkOf(fs: seq<Node>, k: nat): nat
    requires k <= |fs|
  {
    if k == 0 then 0 else fs[k - 1].addr
  }

  predicate LinkOk(m: Mem, prev: nat) {
    prev != 0 ==> prev + 8 in m
  }

  function ReadLink(m: Mem, head: nat, prev: nat): nat
    requires LinkOk(m, prev)
  {
    if prev == 0 then head else m[prev + 8]
  }

  function WriteLink(m: Mem, prev: nat, value: nat): Mem
    requires LinkOk(m, prev)
  {
    if prev == 0 then m else m[prev + 8 := value]
  }

  function NewHead(head: nat, prev: nat, value: nat): nat {
    if prev == 0 then value else head
  }

  lemma LinkReads(m: Mem, head: nat, fs: seq<Node>, k: nat)
    requires ListAt(m, head, fs) && k <= |fs|
    ensures LinkOk(m, LinkOf(fs, k))
    ensures ReadLink(m, head, LinkOf(fs, k)) == AddrAt(fs, k)
    ensures k < |fs| ==> Spelled(m, fs, k)
  {
    if k > 0 { assert Spelled(m, fs, k - 1); }
  }

  lemma NullEnds(m: Mem, head: nat, fs: seq<Node>, k: nat)
    requires ListAt(m, head, fs)
    ensures AddrAt(fs, k) == 0 <==> k >= |fs|
  {
    if k < |fs| { assert Spelled(m, fs, k); }
  }

  /** `*prev = (*node).next` takes node `k` out of the list. */
  lemma Unlink(m: Mem, head: nat, fs: seq<Node>, k: nat)
    requires ListAt(m, head, fs) && Spaced(fs) && k < |fs|
    requires LinkOk(m, LinkOf(fs, k))
    ensures ListAt(WriteLink(m, LinkOf(fs, k), AddrAt(fs, k + 1)), NewHead(head, LinkOf(fs, k), AddrAt(fs, k + 1)),
      RemoveAt(fs, k))
  {
    var out := RemoveAt(fs, k);
    var n := WriteLink(m, LinkOf(fs, k), AddrAt(fs, k + 1));
    if k > 0 { assert Spelled(m, fs, k - 1); }
    assert AddrAt(out, 0) == if k == 0 then AddrAt(fs, 1) else AddrAt(fs, 0);
    forall i | 0 <= i < |out|
      ensures Spelled(n, out, i)
    {
      var j := if i < k then i else i + 1;
      assert out[i] == fs[j];
      assert Spelled(m, fs, j);
      if k > 0 && j != k - 1 { assert Clear(fs[j], fs[k - 1]); }
    }
  }

  function InsertAt(fs: seq<Node>, k: nat, x: Node): seq<Node>
    requires k <= |fs|
  {
    fs[..k] + [x] + fs[k..]
  }

  /** `(*x).next = *prev; *prev = x` puts `x` in front of position `k`. */
  lemma Link(m: Mem, head: nat, fs: seq<Node>, k: nat, x: Node)
    requires ListAt(m, head, fs) && Spaced(fs) && k <= |fs|
    requires LinkOk(m, LinkOf(fs, k)) && NodeWords(m, x) && m[x.addr] == x.size
    requires forall i | 0 <= i < |fs| :: Clear(x, fs[i])
    ensures ListAt(WriteLink(m[x.addr + 8 := AddrAt(fs, k)], LinkOf(fs, k), x.addr),
      NewHead(head, LinkOf(fs, k), x.addr), InsertAt(fs, k, x))
  {
    var out := InsertAt(fs, k, x);
    var n := WriteLink(m[x.addr + 8 := AddrAt(fs, k)], LinkOf(fs, k), x.addr);
    if k > 0 { assert Spelled(m, fs, k - 1) && Clear(x, fs[k - 1]); }
    assert AddrAt(out, 0) == if k == 0 then x.addr else AddrAt(fs, 0);
    forall i | 0 <= i < |out|
      ensures Spelled(n, out, i)
    {
      if i == k {
        assert out[i] == x && AddrAt(out, i + 1) == AddrAt(fs, k);
      } else {
        var j := if i < k then i else i - 1;
        assert out[i] == fs[j];
        assert Spelled(m, fs, j);
        assert Clear(x, fs[j]);
        if k > 0 && j != k - 1 { assert Clear(fs[j], fs[k - 1]); }
      }
    }
  }

  /** The list after node `k` has swallowed its successor. */
  function MergeAt(fs: seq<Node>, k: nat): seq<Node>
    requires k + 1 < |fs|
  {
    fs[..k] + [Node(fs[k].addr, fs[k].size + fs[k + 1].size)] + fs[k + 2..]
  }

  /** Growing node `k` by its successor's size and skipping the successor merges the two. */
  lemma Merge(m: Mem, head: nat, fs: seq<Node>, k: nat)
    requires ListAt(m, head, fs) && Spaced(fs) && k + 1 < |fs|
    ensures ListAt(m[fs[k].addr := fs[k].size + fs[k + 1].size][fs[k].addr + 8 := AddrAt(fs, k + 2)], head,
      MergeAt(fs, k))
  {
    var out := MergeAt(fs, k);
    var n := m[fs[k].addr := fs[k].size + fs[k + 1].size][fs[k].addr + 8 := AddrAt(fs, k + 2)];
    forall i | 0 <= i < |out|
      ensures Spelled(n, out, i)
    {
      var j := if i <= k then i else i + 1;
      assert Spelled(m, fs, j);
      if i != k { assert out[i] == fs[j] && Clear(fs[j], fs[k]); }
    }
  }

  /** Writes that stay out of every node's two words leave the list as it is. */
  lemma ListStable(m: Mem, n: Mem, head: nat, fs: seq<Node>, lo: nat, hi: nat)
    requires ListAt(m, head, fs) && SameOutside(m, n, lo, hi)
    requires forall i | 0 <= i < |fs| :: fs[i].addr + 16 <= lo || hi <= fs[i].addr
    ensures ListAt(n, head, fs)
  {
    forall i | 0 <= i < |fs|
      ensures Spelled(n, fs, i)
    {
      assert Spelled(m, fs, i);
    }
  }

  lemma DisjointSpaced(fs: seq<Node>)
    requires Disjoint(fs) && Regular(fs)
    ensures Spaced(fs)
  {
    forall i, j | 0 <= i < j < |fs|
      ensures Clear(fs[i], fs[j]) && Clear(fs[j], fs[i])
    {
      DisjointApart(fs, i, j, fs[i].addr);
      DisjointApart(fs, i, j, fs[j].addr);
      assert RegularNode(fs[i]) && RegularNode(fs[j]);
    }
  }
}
