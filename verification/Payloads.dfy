/** The five largest payload sizes seen by a queue. */
module Payloads {
  import opened Collections
  import opened QueueModel

  predicate Sorted(b: seq<nat>) {
    forall i, j | 0 <= i < j < |b| :: b[i] <= b[j]
  }

  /** `b` holds, in ascending order, the five largest of `all`. */
  ghost predicate TopFive(b: seq<nat>, all: multiset<nat>) {
    |b| == 5 && Sorted(b) && multiset(b) <= all && forall x | x in all - multiset(b) :: x <= b[0]
  }

  lemma ZerosAreTop()
    ensures TopFive([0, 0, 0, 0, 0], multiset{} + multiset{0, 0, 0, 0, 0})
  {
    var zeros: seq<nat> := [0, 0, 0, 0, 0];
    assert multiset(zeros) == multiset{0, 0, 0, 0, 0};
  }

  /** The payload sizes of the live messages, with multiplicity. */
  ghost function Lengths(m: map<nat, Message>): multiset<nat> {
    if m == map[] then multiset{}
    else
      var k :| k in m;
      assert Without(m, k).Keys == m.Keys - {k};
      Lengths(Without(m, k)) + multiset{|m[k].payload|}
  }

  lemma LengthsPick(m: map<nat, Message>) returns (j: nat)
    requires m != map[]
    ensures j in m && Lengths(m) == Lengths(Without(m, j)) + multiset{|m[j].payload|}
  {
    j :| j in m && Lengths(m) == Lengths(Without(m, j)) + multiset{|m[j].payload|};
  }

  lemma RemovedSwap(m: map<nat, Message>, j: nat, k: nat)
    requires j in m && k in m && j != k
    ensures Without(Without(m, j), k) == Without(Without(m, k), j)
    ensures k in Without(m, j) && Without(m, j)[k] == m[k]
    ensures |Without(m, j).Keys| < |m.Keys|
  {
    assert Without(m, j).Keys == m.Keys - {j};
  }

  /** The order in which the messages are visited does not matter. */
  lemma {:induction false} LengthsAnyOrder(m: map<nat, Message>, k: nat)
    requires k in m
    ensures Lengths(m) == Lengths(Without(m, k)) + multiset{|m[k].payload|}
    decreases |m.Keys|
  {
    hide Lengths, Without;
    var j := LengthsPick(m);
    if j != k {
      RemovedSwap(m, j, k);
      RemovedSwap(m, k, j);
      LengthsAnyOrder(Without(m, j), k);
      LengthsAnyOrder(Without(m, k), j);
    }
  }

  /** The array after `x` was inserted at position `d`, everything up to there shifted down by one. */
  function Shifted(b: seq<nat>, d: nat, x: nat): seq<nat>
    requires d < |b|
  {
    b[1..d + 1] + [x] + b[d + 1..]
  }

  lemma ShiftedMultiset(b: seq<nat>, d: nat, x: nat)
    requires d < |b|
    ensures multiset(Shifted(b, d, x)) + multiset{b[0]} == multiset(b) + multiset{x}
  {
    assert b == [b[0]] + b[1..d + 1] + b[d + 1..];
  }

  lemma ShiftedSorted(b: seq<nat>, d: nat, x: nat)
    requires Sorted(b) && d < |b| && b[d] < x && forall j | d < j < |b| :: x <= b[j]
    ensures Sorted(Shifted(b, d, x)) && b[0] <= Shifted(b, d, x)[0]
  {
    var b' := Shifted(b, d, x);
    forall i | 0 <= i < |b|
      ensures b'[i] == if i < d then b[i + 1] else if i == d then x else b[i]
    {
    }
  }

  lemma ShiftedKeepsTop(b: seq<nat>, all: multiset<nat>, d: nat, x: nat)
    requires TopFive(b, all) && d < 5 && b[d] < x && forall j | d < j < 5 :: x <= b[j]
    ensures TopFive(Shifted(b, d, x), all + multiset{x})
  {
    ShiftedMultiset(b, d, x);
    ShiftedSorted(b, d, x);
    var b' := Shifted(b, d, x);
    hide Sorted, Shifted;
    SwapKeepsRest(multiset(b), multiset(b'), all, b[0], x);
    forall y | y in all + multiset{x} - multiset(b')
      ensures y <= b'[0]
    {
      assert y == b[0] || y in all - multiset(b);
    }
  }

  lemma SwapKeepsRest(m: multiset<nat>, m': multiset<nat>, all: multiset<nat>, out: nat, x: nat)
    requires m' + multiset{out} == m + multiset{x} && m <= all
    ensures m' <= all + multiset{x}
    ensures forall y | y in all + multiset{x} - m' :: y == out || y in all - m
  {
    forall y ensures m'[y] + multiset{out}[y] == m[y] + multiset{x}[y] {
      assert (m' + multiset{out})[y] == (m + multiset{x})[y];
    }
  }

  lemma SkippedKeepsTop(b: seq<nat>, all: multiset<nat>, x: nat)
    requires TopFive(b, all) && x <= b[0]
    ensures TopFive(b, all + multiset{x})
  {
    forall y | y in all + multiset{x} - multiset(b)
      ensures y <= b[0]
    {
      assert y == x || y in all - multiset(b);
    }
  }

  /** The last entry is the maximum. */
  lemma TopIsMaximum(b: seq<nat>, all: multiset<nat>)
    requires TopFive(b, all)
    ensures b[4] in all && forall x | x in all :: x <= b[4]
  {
    assert b[4] in multiset(b);
    forall x | x in all ensures x <= b[4] {
      if x in multiset(b) {
        assert x in b;
      } else {
        assert x in all - multiset(b);
      }
    }
  }

  lemma LastIsLargest(b: seq<nat>, x: nat)
    requires Sorted(b) && x in multiset(b)
    ensures b != [] && x <= b[|b| - 1] && b[|b| - 1] in multiset(b)
  {
    var i :| 0 <= i < |b| && b[i] == x;
  }

  lemma DropLast(b: seq<nat>)
    requires b != []
    ensures multiset(b[..|b| - 1]) == multiset(b) - multiset{b[|b| - 1]}
  {
    assert b == b[..|b| - 1] + [b[|b| - 1]];
  }

  /** Sequences with the same elements have the same length and, when sorted, the same last one. */
  lemma SameLast(b: seq<nat>, c: seq<nat>)
    requires Sorted(b) && Sorted(c) && multiset(b) == multiset(c)
    ensures |b| == |c| && (b != [] ==> b[|b| - 1] == c[|c| - 1])
  {
    assert |b| == |multiset(b)| == |multiset(c)| == |c|;
    if b != [] {
      var l := |b| - 1;
      LastIsLargest(b, b[l]);
      LastIsLargest(c, b[l]);
      LastIsLargest(b, c[l]);
    }
  }

  lemma {:induction false} SortedUnique(b: seq<nat>, c: seq<nat>)
    requires Sorted(b) && Sorted(c) && multiset(b) == multiset(c)
    ensures b == c
    decreases |b|
  {
    hide Sorted;
    SameLast(b, c);
    if b != [] {
      var l := |b| - 1;
      DropLast(b);
      DropLast(c);
      SortedPrefix(b);
      SortedPrefix(c);
      SortedUnique(b[..l], c[..l]);
      assert b == b[..l] + [b[l]];
      assert c == c[..l] + [c[l]];
    }
  }

  lemma SortedPrefix(b: seq<nat>)
    requires Sorted(b) && b != []
    ensures Sorted(b[..|b| - 1])
  {
  }

  lemma DiffSizes(m: multiset<nat>, n: multiset<nat>)
    requires |m| == |n|
    ensures |m - n| == |n - m|
    ensures m - n == multiset{} ==> m == n
  {
    assert |m - n| + |n - m| + 2 * |m * n| == |m| + |n|;
    if m - n == multiset{} {
      assert n - m == multiset{};
      forall x ensures m[x] == n[x] {
        assert (m - n)[x] == 0 && (n - m)[x] == 0;
      }
    }
  }

  /** The five largest are determined by the sizes alone. */
  lemma TopFiveUnique(b: seq<nat>, c: seq<nat>, all: multiset<nat>)
    requires TopFive(b, all) && TopFive(c, all)
    ensures b == c
  {
    hide TopFive, Sorted;
    TopFacts(b, all);
    TopFacts(c, all);
    if multiset(b) == multiset(c) {
      SortedUnique(b, c);
    } else {
      var x, y := Differ(multiset(b), multiset(c));
      OutsiderBetween(b, c, all, x);
      OutsiderBetween(c, b, all, y);
    }
  }

  /** Of two different multisets of one size each has an element the other has less often. */
  lemma Differ(m: multiset<nat>, n: multiset<nat>) returns (x: nat, y: nat)
    requires |m| == |n| && m != n
    ensures x in m - n && y in n - m && x != y
  {
    DiffSizes(m, n);
    x :| x in m - n;
    assert |n - m| > 0;
    y :| y in n - m;
  }

  lemma TopFacts(b: seq<nat>, all: multiset<nat>)
    requires TopFive(b, all)
    ensures |b| == |multiset(b)| == 5 && Sorted(b) && multiset(b) <= all
  {
  }

  /** A size that only `b` keeps lies between the two minima. */
  lemma OutsiderBetween(b: seq<nat>, c: seq<nat>, all: multiset<nat>, x: nat)
    requires TopFive(b, all) && TopFive(c, all) && x in multiset(b) - multiset(c)
    ensures b[0] <= x <= c[0]
  {
    assert x in all - multiset(c);
    assert x in multiset(b);
    var i :| 0 <= i < |b| && b[i] == x;
  }
}
