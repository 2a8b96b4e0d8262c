/** Runs in which a plausible promise fails. `QueueAgreement`, `QueuePanics`, `QueueLiveness` and
    `QueueTimers` have the exact conditions. */
module QueueWitnesses {
  import opened Collections
  import opened Wrappers
  import opened Bytes
  import opened QueueModel
  import opened QueueAgreement
  import opened QueueCursor
  import opened QueueLiveness
  import opened QueueTimers

  /** A queue holding the unlocked message 1. */
  function One(a: Message): State {
    State([1], map[1 := a], map[], Some(1))
  }

  lemma FirstEnqueue(payload: seq<byte>, publisher: nat, time: nat)
    ensures Enqueue(EMPTY, payload, publisher, time) == One(Message(payload, publisher, time, None))
  {
    assert [] + [1] == [1];
  }

  lemma SecondEnqueue(a: Message, payload: seq<byte>, publisher: nat, time: nat)
    ensures Enqueue(One(a), payload, publisher, time) ==
            State([1, 2], map[1 := a, 2 := Message(payload, publisher, time, None)], map[], Some(1))
  {
    assert [1] + [2] == [1, 2];
  }

  /** Deleting the newest message leaves a tombstone at the tail, so the next message gets id 1 again
      and overwrites the live message 1: three messages sent, one deleted, one left. */
  lemma TombstoneTailLosesMessage(a: seq<byte>, b: seq<byte>, d: seq<byte>, client: nat)
    ensures var ops := [EnqueueOp(a, 0, 0), EnqueueOp(b, 0, 0), DeleteOp(client, 2), EnqueueOp(d, 0, 0)];
      Run(EMPTY, ops).queue == map[1 := Message(d, 0, 0, None)]
  {
    var ma, mb := Message(a, 0, 0, None), Message(b, 0, 0, None);
    FirstEnqueue(a, 0, 0);
    SecondEnqueue(ma, b, 0, 0);
    var q2 := State([1, 2], map[1 := ma, 2 := mb], map[], Some(1));
    assert Find([1, 2], 2) == 1 by { assert [1, 2][1..] == [2]; }
    assert [1, 2][1 := 0] == [1, 0];
    assert Without(q2.queue, 2) == map[1 := ma];
    var q3 := State([1, 0], map[1 := ma], map[], Some(1));
    assert Held(q2, client) == [] && Find([], 2) == 0;
    assert Apply(q2, DeleteOp(client, 2)) == q3;
    assert Apply(q3, EnqueueOp(d, 0, 0)).queue == map[1 := Message(d, 0, 0, None)];
    var o1, o2, o3, o4 := EnqueueOp(a, 0, 0), EnqueueOp(b, 0, 0), DeleteOp(client, 2), EnqueueOp(d, 0, 0);
    RunFour(EMPTY, o1, o2, o3, o4);
  }

  lemma RunStep(q: State, a: Op, rest: seq<Op>)
    ensures Run(q, [a] + rest) == Run(Apply(q, a), rest)
  {
    assert ([a] + rest)[1..] == rest;
  }

  lemma RunThree(q: State, a: Op, b: Op, c: Op)
    ensures Run(q, [a, b, c]) == Apply(Apply(Apply(q, a), b), c)
  {
    hide Apply;
    assert [a, b, c] == [a] + [b, c] && [b, c] == [b] + [c] && [c] == [c] + [];
    RunStep(q, a, [b, c]);
    RunStep(Apply(q, a), b, [c]);
    RunStep(Apply(Apply(q, a), b), c, []);
  }

  lemma RunFour(q: State, a: Op, b: Op, c: Op, d: Op)
    ensures Run(q, [a, b, c, d]) == Apply(Apply(Apply(Apply(q, a), b), c), d)
  {
    hide Apply;
    assert [a, b, c, d] == [a] + [b, c, d];
    RunStep(q, a, [b, c, d]);
    RunThree(Apply(q, a), b, c, d);
  }

  // An acknowledgement fails an `unwrap` when the client's list holds a dead id.

  /** One way to that is to delete, by id, what another client has locked. */
  lemma ForeignDeleteThenAckPanics(a: seq<byte>, holder: nat, other: nat)
    requires holder != other
    ensures Panics(Run(EMPTY, [EnqueueOp(a, 0, 0), LockOp(holder), DeleteOp(other, 1)]), AckOp(holder))
  {
    var m := Message(a, 0, 0, None);
    FirstEnqueue(a, 0, 0);
    LockOne(m, holder);
    var q2 := State([1], map[1 := m.(lockedBy := Some(holder))], map[holder := [1]], None);
    assert Held(q2, other) == [] && Find([], 1) == 0 && Find([1], 1) == 0;
    assert [1][0 := 0] == [0];
    assert Without(q2.queue, 1) == map[];
    var q3 := State([0], map[], map[holder := [1]], None);
    assert Apply(q2, DeleteOp(other, 1)) == q3;
    assert Dequeue(q3, holder, None).1.Panicked?;
    RunThree(EMPTY, EnqueueOp(a, 0, 0), LockOp(holder), DeleteOp(other, 1));
  }

  lemma {:induction false} RunConcat(q: State, xs: seq<Op>, ys: seq<Op>)
    ensures Run(q, xs + ys) == Run(Run(q, xs), ys)
    decreases |xs|
  {
    if xs == [] {
      assert xs + ys == ys;
    } else {
      assert (xs + ys)[1..] == xs[1..] + ys;
      RunConcat(Apply(q, xs[0]), xs[1..], ys);
    }
  }

  // The other way is to reuse a live id. Behind a tombstone tail a new message takes over the id, and
  // the place in the order, of a locked one.

  /** Where a lock of message `id` sends the cursor, without draining tombstones. */
  predicate GoesTo(order: seq<nat>, id: nat, next: Option<nat>) {
    order != [] && next == SkipTombstone(order, After(order, id)) && (next.None? ==> RemoveZeroes(order) == order)
  }

  /** What a lock makes of a queue. */
  lemma LockMakes(q: State, c: nat, id: nat, q': State)
    requires q.next == Some(id) && Waiting(q, id) && GoesTo(q.order, id, q'.next) && q'.order == q.order
    requires q'.queue == q.queue[id := q.queue[id].(lockedBy := Some(c))]
    requires q'.locked == q.locked[c := Held(q, c) + [id]]
    ensures Apply(q, LockOp(c)) == q'
  {
    hide Find, FirstNonzero, RemoveZeroes, After;
  }

  /** Messages 1 and 2, the first locked. */
  function OneOfTwo(a: Message, b: Message, holder: nat): State {
    State([1, 2], map[1 := a.(lockedBy := Some(holder)), 2 := b], map[holder := [1]], Some(2))
  }

  lemma FirstGoesToSecond()
    ensures GoesTo([1, 2], 1, Some(2))
  {
    assert After([1, 2], 1) == Some(2);
  }

  lemma LockFirst(a: Message, b: Message, holder: nat)
    requires a.lockedBy.None? && b.lockedBy.None?
    ensures Apply(State([1, 2], map[1 := a, 2 := b], map[], Some(1)), LockOp(holder)) == OneOfTwo(a, b, holder)
  {
    hide GoesTo, Apply;
    FirstGoesToSecond();
    var q, locked := State([1, 2], map[1 := a, 2 := b], map[], Some(1)), a.(lockedBy := Some(holder));
    assert q.queue[1 := locked] == map[1 := locked, 2 := b];
    assert Held(q, holder) + [1] == [1];
    LockMakes(q, holder, 1, OneOfTwo(a, b, holder));
  }

  lemma DeleteSecond(a: Message, b: Message, holder: nat, other: nat)
    requires b.lockedBy.None?
    ensures OwnOrUnlocked(OneOfTwo(a, b, holder), other, 2)
    ensures Apply(OneOfTwo(a, b, holder), DeleteOp(other, 2)) ==
            State([1, 0], map[1 := a.(lockedBy := Some(holder))], map[holder := [1]], None)
  {
    var q := OneOfTwo(a, b, holder);
    assert Find([1, 2], 2) == 1 by { assert [1, 2][1..] == [2]; }
    assert [1, 2][1 := 0] == [1, 0];
    assert Without(q.queue, 2) == map[1 := a.(lockedBy := Some(holder))];
    assert Find(Held(q, other), 2) == |Held(q, other)|;
  }

  /** The new message 1 is there twice, and in the list of a client that never locked it. */
  function TakenOver(m: Message, holder: nat): State {
    State([1, 0, 1], map[1 := m], map[holder := [1]], Some(1))
  }

  lemma EnqueueTakesOver(a: Message, holder: nat, payload: seq<byte>)
    ensures Apply(State([1, 0], map[1 := a], map[holder := [1]], None), EnqueueOp(payload, 0, 0)) ==
            TakenOver(Message(payload, 0, 0, None), holder)
  {
    assert [1, 0] + [1] == [1, 0, 1];
  }

  lemma TakenOverGoesToItself()
    ensures GoesTo([1, 0, 1], 1, Some(1))
  {
    assert After([1, 0, 1], 1) == Some(0) && FirstNonzero([1, 0, 1]) == Some(1);
  }

  lemma LockTakenOver(m: Message, holder: nat, second: nat)
    requires holder != second && m.lockedBy.None?
    ensures Apply(TakenOver(m, holder), LockOp(second)) ==
            State([1, 0, 1], map[1 := m.(lockedBy := Some(second))], map[holder := [1], second := [1]], Some(1))
  {
    hide GoesTo, Apply;
    TakenOverGoesToItself();
    var q, locked := TakenOver(m, holder), m.(lockedBy := Some(second));
    assert q.queue[1 := locked] == map[1 := locked];
    assert Held(q, second) + [1] == [1];
    LockMakes(q, second, 1, State([1, 0, 1], map[1 := locked], map[holder := [1], second := [1]], Some(1)));
  }

  lemma AckTakenOver(m: Message, holder: nat, second: nat)
    requires holder != second
    ensures var q := State([1, 0, 1], map[1 := m], map[holder := [1], second := [1]], Some(1));
      Panics(Apply(q, AckOp(second)), AckOp(holder))
  {
    var q := State([1, 0, 1], map[1 := m], map[holder := [1], second := [1]], Some(1));
    assert [1, 0, 1][0 := 0] == [0, 0, 1] && Without(q.queue, 1) == map[];
    assert Apply(q, AckOp(second)).order == [0, 0, 1];
  }

  /** Two messages, the first locked and the second deleted, and then a third. */
  function ReuseOps(a: seq<byte>, b: seq<byte>, d: seq<byte>, holder: nat, other: nat): seq<Op> {
    [EnqueueOp(a, 0, 0), EnqueueOp(b, 0, 0), LockOp(holder), DeleteOp(other, 2)] + [EnqueueOp(d, 0, 0)]
  }

  lemma ReuseRun(a: seq<byte>, b: seq<byte>, d: seq<byte>, holder: nat, other: nat)
    ensures Run(EMPTY, ReuseOps(a, b, d, holder, other)) == TakenOver(Message(d, 0, 0, None), holder)
  {
    var ma, mb := Message(a, 0, 0, None), Message(b, 0, 0, None);
    var o1, o2, o3 := EnqueueOp(a, 0, 0), EnqueueOp(b, 0, 0), LockOp(holder);
    var o4, o5 := DeleteOp(other, 2), EnqueueOp(d, 0, 0);
    FirstEnqueue(a, 0, 0);
    SecondEnqueue(ma, b, 0, 0);
    hide LockToRead, Dequeue, Enqueue;
    LockFirst(ma, mb, holder);
    DeleteSecond(ma, mb, holder, other);
    EnqueueTakesOver(ma.(lockedBy := Some(holder)), holder, d);
    RunFour(EMPTY, o1, o2, o3, o4);
    RunConcat(EMPTY, [o1, o2, o3, o4], [o5] + []);
    RunStep(Run(EMPTY, [o1, o2, o3, o4]), o5, []);
    assert [o5] + [] == [o5];
  }

  /** No deletion here touches a lock of another client, and still, when the new message is locked and
      acknowledged by a second client, the first one's acknowledgement fails. */
  lemma ReusedIdThenAckPanics(a: seq<byte>, b: seq<byte>, d: seq<byte>, holder: nat, second: nat, other: nat)
    requires holder != second
    ensures Panics(Run(EMPTY, ReuseOps(a, b, d, holder, other) + [LockOp(second), AckOp(second)]), AckOp(holder))
  {
    var ops := ReuseOps(a, b, d, holder, other);
    var m := Message(d, 0, 0, None);
    hide Apply, Run, Panics;
    ReuseRun(a, b, d, holder, other);
    LockTakenOver(m, holder, second);
    AckTakenOver(m.(lockedBy := Some(second)), holder, second);
    RunConcat(EMPTY, ops, [LockOp(second), AckOp(second)]);
    RunTwo(TakenOver(m, holder), LockOp(second), AckOp(second));
  }

  lemma RunTwo(q: State, a: Op, b: Op)
    ensures Run(q, [a, b]) == Apply(Apply(q, a), b)
  {
    hide Apply;
    assert [a, b] == [a] + [b] && [b] == [b] + [];
    RunStep(q, a, [b]);
    RunStep(Apply(q, a), b, []);
  }

  lemma LockOne(m: Message, c: nat)
    requires m.lockedBy.None?
    ensures LockToRead(One(m), c).0 == State([1], map[1 := m.(lockedBy := Some(c))], map[c := [1]], None)
  {
    assert Find([1], 1) == 0;
    assert RemoveZeroes([1]) == [1];
    assert [] + [1] == [1];
  }

  /** Naming an unknown id acknowledges, and so loses, the message the client is working on. */
  lemma UnknownIdAcknowledges(a: seq<byte>, c: nat, id: nat)
    requires id != 1
    ensures Run(EMPTY, [EnqueueOp(a, 0, 0), LockOp(c), DeleteOp(c, id)]).queue == map[]
  {
    var m := Message(a, 0, 0, None);
    FirstEnqueue(a, 0, 0);
    LockOne(m, c);
    var q2 := State([1], map[1 := m.(lockedBy := Some(c))], map[c := [1]], None);
    assert Without(q2.queue, 1) == map[];
    assert Apply(q2, DeleteOp(c, id)).queue == map[];
    RunThree(EMPTY, EnqueueOp(a, 0, 0), LockOp(c), DeleteOp(c, id));
  }

  /** A message is withheld: with the second of three deleted, locking the first sends the cursor back
      to that very message, and the third is withheld. */
  lemma CursorSticks(a: Message, d: Message, c: nat, other: nat)
    requires a.lockedBy.None? && d.lockedBy.None?
    ensures var q := LockToRead(State([1, 0, 3], map[1 := a, 3 := d], map[], Some(1)), c).0;
      Waiting(q, 3) && LockToRead(q, other).1 == Failed(AlreadyLocked)
  {
    var order := [1, 0, 3];
    assert Find(order, 1) == 0 && order[1] == 0;
    assert FirstNonzero(order) == Some(1);
  }

  /** Three messages, none locked. */
  function Three(a: Message, b: Message, d: Message): State {
    State([1, 2, 3], map[1 := a, 2 := b, 3 := d], map[], Some(1))
  }

  lemma ThirdEnqueue(a: Message, b: Message, payload: seq<byte>)
    ensures Enqueue(State([1, 2], map[1 := a, 2 := b], map[], Some(1)), payload, 0, 0) ==
            Three(a, b, Message(payload, 0, 0, None))
  {
    assert [1, 2] + [3] == [1, 2, 3];
  }

  lemma DeleteMiddle(a: Message, b: Message, d: Message, client: nat)
    ensures Apply(Three(a, b, d), DeleteOp(client, 2)) == State([1, 0, 3], map[1 := a, 3 := d], map[], Some(1))
  {
    var order, q := [1, 2, 3], Three(a, b, d);
    assert Find(order, 2) == 1 by { assert order[1..] == [2, 3]; }
    assert Held(q, client) == [] && Find([], 2) == 0;
    hide Find, RemoveZeroes, FirstNonzero, After;
    assert order[1 := 0] == [1, 0, 3];
    assert Without(q.queue, 2) == map[1 := a, 3 := d];
  }

  /** The state before is one any queue reaches by three enqueues and one deletion. */
  lemma StickingStateReached(a: seq<byte>, b: seq<byte>, d: seq<byte>, client: nat)
    ensures Run(EMPTY, [EnqueueOp(a, 0, 0), EnqueueOp(b, 0, 0), EnqueueOp(d, 0, 0), DeleteOp(client, 2)]) ==
            State([1, 0, 3], map[1 := Message(a, 0, 0, None), 3 := Message(d, 0, 0, None)], map[], Some(1))
  {
    hide Enqueue, Dequeue;
    var ma, mb, md := Message(a, 0, 0, None), Message(b, 0, 0, None), Message(d, 0, 0, None);
    FirstEnqueue(a, 0, 0);
    SecondEnqueue(ma, b, 0, 0);
    ThirdEnqueue(ma, mb, d);
    DeleteMiddle(ma, mb, md, client);
    RunFour(EMPTY, EnqueueOp(a, 0, 0), EnqueueOp(b, 0, 0), EnqueueOp(d, 0, 0), DeleteOp(client, 2));
  }

  // ---- A timer that releases another delivery than its own ----

  /** The queue after the first message was locked and acknowledged. */
  function Acknowledged(c: nat): State {
    State([0], map[], map[c := []], None)
  }

  /** A second message, under id 1 again. */
  function Renewed(m: Message, c: nat): State {
    State([0, 1], map[1 := m], map[c := []], Some(1))
  }

  function RenewedLocked(m: Message, c: nat): State {
    State([0, 1], map[1 := m.(lockedBy := Some(c))], map[c := [1]], None)
  }

  lemma AckOne(m: Message, c: nat)
    ensures Apply(State([1], map[1 := m], map[c := [1]], None), AckOp(c)) == Acknowledged(c)
  {
    var q := State([1], map[1 := m], map[c := [1]], None);
    assert Find([1], 1) == 0 && [1][0 := 0] == [0] && Without(q.queue, 1) == map[] && [1][1..] == [];
  }

  lemma EnqueueRenews(c: nat, payload: seq<byte>)
    ensures Apply(Acknowledged(c), EnqueueOp(payload, 0, 0)) == Renewed(Message(payload, 0, 0, None), c)
  {
    assert [0] + [1] == [0, 1];
  }

  lemma RenewedGoesNowhere()
    ensures GoesTo([0, 1], 1, None)
  {
    assert Find([0, 1], 1) == 1 by { assert [0, 1][1..] == [1]; }
  }

  lemma LockRenewed(m: Message, c: nat)
    requires m.lockedBy.None?
    ensures Apply(Renewed(m, c), LockOp(c)) == RenewedLocked(m, c)
  {
    hide GoesTo, Apply;
    RenewedGoesNowhere();
    var q, locked := Renewed(m, c), m.(lockedBy := Some(c));
    assert q.queue[1 := locked] == map[1 := locked];
    assert Held(q, c) + [1] == [1] && q.locked[c := [1]] == map[c := [1]];
    LockMakes(q, c, 1, RenewedLocked(m, c));
  }

  lemma ExpireRenewed(m: Message, c: nat)
    requires m.lockedBy.None?
    ensures Apply(RenewedLocked(m, c), ExpireOp(c, 1)) == Renewed(m, c)
  {
    var q, held := RenewedLocked(m, c), [1];
    assert Find(held, 1) == 0 && RemoveAt(held, 0) == [];
    assert q.queue[1 := m] == map[1 := m];
  }

  lemma RenewalHeld(m: Message, c: nat)
    ensures IsLocked(RenewedLocked(m, c), c, 1)
  {
  }

  lemma TimedNothing(t: Timed)
    ensures TimedRun(t, []) == t && OrderlyRun(t.q, [])
  {
  }

  lemma EnqueuesOrderly(a: seq<byte>, b: seq<byte>, c: nat)
    ensures Orderly(EMPTY, EnqueueOp(a, 0, 0)) && Orderly(Acknowledged(c), EnqueueOp(b, 0, 0))
  {
  }

  /** The two deliveries and the acknowledgement between them. */
  lemma RenewalSteps(a: Message, b: Message, c: nat)
    requires a.lockedBy.None? && b.lockedBy.None?
    ensures var q := State([1], map[1 := a.(lockedBy := Some(c))], map[c := [1]], None);
      TimedApply(Timed(One(a), 0, map[]), LockOp(c)) == Timed(q, 1, map[1 := 0]) &&
      Delivers(One(a), LockOp(c)) == Some(1) &&
      TimedApply(Timed(q, 1, map[1 := 0]), AckOp(c)) == Timed(Acknowledged(c), 1, map[1 := 0])
    ensures TimedApply(Timed(Renewed(b, c), 1, map[1 := 0]), LockOp(c)) == Timed(RenewedLocked(b, c), 2, map[1 := 1])
  {
    LockOne(a, c);
    AckOne(a.(lockedBy := Some(c)), c);
    LockRenewed(b, c);
    assert LockRefusal(One(a)).None? && LockRefusal(Renewed(b, c)).None?;
    hide LockToRead, Dequeue, LockRefusal;
    assert map[1 := 0][1 := 1] == map[1 := 1];
  }

  lemma TimedStep(t: Timed, op: Op, rest: seq<Op>)
    ensures TimedRun(t, [op] + rest) == TimedRun(TimedApply(t, op), rest)
    ensures OrderlyRun(t.q, [op] + rest) <==> Orderly(t.q, op) && OrderlyRun(TimedApply(t, op).q, rest)
  {
    hide Apply, Orderly;
    assert ([op] + rest)[1..] == rest;
  }

  lemma TimedFive(t: Timed, a: Op, b: Op, c: Op, d: Op, e: Op)
    ensures TimedRun(t, [a, b, c, d, e]) ==
      TimedApply(TimedApply(TimedApply(TimedApply(TimedApply(t, a), b), c), d), e)
    ensures OrderlyRun(t.q, [a, b, c, d, e]) <==>
      Orderly(t.q, a) && Orderly(TimedApply(t, a).q, b) && Orderly(TimedApply(TimedApply(t, a), b).q, c) &&
      Orderly(TimedApply(TimedApply(TimedApply(t, a), b), c).q, d) &&
      Orderly(TimedApply(TimedApply(TimedApply(TimedApply(t, a), b), c), d).q, e)
  {
    hide TimedApply, TimedRun, OrderlyRun, Orderly;
    var t1 := TimedApply(t, a);
    var t2 := TimedApply(t1, b);
    var t3 := TimedApply(t2, c);
    var t4 := TimedApply(t3, d);
    assert [a, b, c, d, e] == [a] + [b, c, d, e] && [b, c, d, e] == [b] + [c, d, e];
    assert [c, d, e] == [c] + [d, e] && [d, e] == [d] + [e] && [e] == [e] + [];
    TimedStep(t, a, [b, c, d, e]);
    TimedStep(t1, b, [c, d, e]);
    TimedStep(t2, c, [d, e]);
    TimedStep(t3, d, [e]);
    TimedStep(t4, e, []);
    TimedNothing(TimedApply(t4, e));
  }

  lemma RenewalEnqueues(a: seq<byte>, b: seq<byte>, c: nat)
    ensures TimedApply(Timed(EMPTY, 0, map[]), EnqueueOp(a, 0, 0)) == Timed(One(Message(a, 0, 0, None)), 0, map[])
    ensures TimedApply(Timed(Acknowledged(c), 1, map[1 := 0]), EnqueueOp(b, 0, 0)) ==
            Timed(Renewed(Message(b, 0, 0, None), c), 1, map[1 := 0])
  {
    hide Enqueue, Acknowledged, Renewed;
    FirstEnqueue(a, 0, 0);
    EnqueueRenews(c, b);
  }

  /** Two messages, each locked by the same client, the first acknowledged before the second is sent. */
  function RenewalOps(a: seq<byte>, b: seq<byte>, c: nat): seq<Op> {
    [EnqueueOp(a, 0, 0), LockOp(c), AckOp(c), EnqueueOp(b, 0, 0), LockOp(c)]
  }

  lemma RenewalRun(a: seq<byte>, b: seq<byte>, c: nat)
    ensures TimedRun(Timed(EMPTY, 0, map[]), RenewalOps(a, b, c)) ==
            Timed(RenewedLocked(Message(b, 0, 0, None), c), 2, map[1 := 1])
    ensures OrderlyRun(EMPTY, RenewalOps(a, b, c))
  {
    hide TimedRun, TimedApply, OrderlyRun, Acknowledged, Renewed, RenewedLocked, Guarded, Ahead, Delivers, One;
    LocksOrderly(c);
    EnqueuesOrderly(a, b, c);
    hide Orderly;
    RenewalEnqueues(a, b, c);
    RenewalSteps(Message(a, 0, 0, None), Message(b, 0, 0, None), c);
    TimedFive(Timed(EMPTY, 0, map[]), EnqueueOp(a, 0, 0), LockOp(c), AckOp(c), EnqueueOp(b, 0, 0), LockOp(c));
  }

  lemma LocksOrderly(c: nat)
    ensures forall q :: Orderly(q, LockOp(c)) && Orderly(q, AckOp(c))
  {
  }

  /** One client, every message acknowledged before the next is locked: the first delivery's timer still
      takes the second message away from it, since that has the first one's id. No guard excludes it. */
  lemma StaleTimerReleases(a: seq<byte>, b: seq<byte>, c: nat)
    ensures var t := TimedRun(Timed(EMPTY, 0, map[]), RenewalOps(a, b, c));
      Delivers(Apply(EMPTY, EnqueueOp(a, 0, 0)), LockOp(c)) == Some(1) &&
      t.q == RenewedLocked(Message(b, 0, 0, None), c) && Misfires(t, c, 1, 0) &&
      Apply(t.q, ExpireOp(c, 1)) == Renewed(Message(b, 0, 0, None), c)
    ensures OrderlyRun(EMPTY, RenewalOps(a, b, c))
  {
    hide TimedRun, OrderlyRun, RenewalOps, Renewed, RenewedLocked, IsLocked, Delivers, One, Enqueue, Expire;
    RenewalRun(a, b, c);
    FirstEnqueue(a, 0, 0);
    RenewalSteps(Message(a, 0, 0, None), Message(b, 0, 0, None), c);
    ExpireRenewed(Message(b, 0, 0, None), c);
    RenewalHeld(Message(b, 0, 0, None), c);
  }

  // ---- A timer that releases another client's delivery ----

  lemma TakenOverDelivered(m: Message, holder: nat, second: nat)
    requires m.lockedBy.None?
    ensures Delivers(TakenOver(m, holder), LockOp(second)) == Some(1)
  {
  }

  lemma FirstDelivery(a: Message, b: Message, holder: nat)
    requires a.lockedBy.None? && b.lockedBy.None?
    ensures var q2 := State([1, 2], map[1 := a, 2 := b], map[], Some(1));
      TimedApply(Timed(q2, 0, map[]), LockOp(holder)) == Timed(OneOfTwo(a, b, holder), 1, map[1 := 0])
  {
    LockFirst(a, b, holder);
    var q2 := State([1, 2], map[1 := a, 2 := b], map[], Some(1));
    assert LockRefusal(q2).None? && Delivers(q2, LockOp(holder)) == Some(1);
    hide LockToRead, LockRefusal;
  }

  /** The queue after a second client has locked what took over the first one's message. */
  function BothHold(m: Message, holder: nat, second: nat): State {
    State([1, 0, 1], map[1 := m.(lockedBy := Some(second))], map[holder := [1], second := [1]], Some(1))
  }

  /** The first client's timer then unlocks the message, which the second client is working on. */
  lemma ExpireForeign(m: Message, holder: nat, second: nat)
    requires holder != second && m.lockedBy.None?
    ensures var q := Apply(BothHold(m, holder, second), ExpireOp(holder, 1));
      q.queue == map[1 := m] && Held(q, second) == [1] && Held(q, holder) == []
  {
    var q, held := BothHold(m, holder, second), [1];
    assert Find(held, 1) == 0 && RemoveAt(held, 0) == [];
    assert q.queue[1 := m] == map[1 := m];
  }

  lemma ForeignBefore(a: seq<byte>, b: seq<byte>, holder: nat)
    ensures TimedRun(Timed(EMPTY, 0, map[]), [EnqueueOp(a, 0, 0), EnqueueOp(b, 0, 0), LockOp(holder)]) ==
            Timed(OneOfTwo(Message(a, 0, 0, None), Message(b, 0, 0, None), holder), 1, map[1 := 0])
  {
    var ma, mb := Message(a, 0, 0, None), Message(b, 0, 0, None);
    var t0, t1 := Timed(EMPTY, 0, map[]), Timed(One(ma), 0, map[]);
    var t2 := Timed(State([1, 2], map[1 := ma, 2 := mb], map[], Some(1)), 0, map[]);
    hide TimedRun, OrderlyRun, Enqueue, LockToRead, OneOfTwo, LockRefusal;
    FirstEnqueue(a, 0, 0);
    SecondEnqueue(ma, b, 0, 0);
    FirstDelivery(ma, mb, holder);
    assert TimedApply(t0, EnqueueOp(a, 0, 0)) == t1 && TimedApply(t1, EnqueueOp(b, 0, 0)) == t2;
    hide TimedApply;
    TimedThree(t0, EnqueueOp(a, 0, 0), EnqueueOp(b, 0, 0), LockOp(holder));
  }

  lemma BothHoldIs(m: Message, holder: nat, second: nat)
    ensures BothHold(m, holder, second) ==
            State([1, 0, 1], map[1 := m.(lockedBy := Some(second))], map[holder := [1], second := [1]], Some(1))
  {
  }

  lemma NoEnd(a: Message, b: Message, holder: nat, second: nat, other: nat, q1: State, d: seq<byte>, m: Message)
    requires holder != second
    ensures !Ends(OneOfTwo(a, b, holder), DeleteOp(other, 2), holder, 1)
    ensures !Ends(q1, EnqueueOp(d, 0, 0), holder, 1) && !Ends(TakenOver(m, holder), LockOp(second), holder, 1)
  {
  }

  lemma EndsThree(q: State, a: Op, q1: State, b: Op, q2: State, c: Op, client: nat, id: nat)
    requires q1 == Apply(q, a) && q2 == Apply(q1, b)
    requires !Ends(q, a, client, id) && !Ends(q1, b, client, id) && !Ends(q2, c, client, id)
    ensures !EndsDuring(q, [a, b, c], client, id)
  {
    hide Ends, Apply, IsLocked;
    assert [a, b, c] == [a] + [b, c] && [b, c] == [b] + [c] && [c] == [c] + [];
    EndsStep(q, a, [b, c], client, id);
    EndsStep(q1, b, [c], client, id);
    EndsStep(q2, c, [], client, id);
  }

  lemma EndsStep(q: State, op: Op, rest: seq<Op>, client: nat, id: nat)
    requires !Ends(q, op, client, id)
    ensures EndsDuring(q, [op] + rest, client, id) <==> EndsDuring(Apply(q, op), rest, client, id)
  {
    hide Ends, Apply, IsLocked;
    assert ([op] + rest)[1..] == rest;
  }

  lemma TimedThree(t: Timed, a: Op, b: Op, c: Op)
    ensures TimedRun(t, [a, b, c]) == TimedApply(TimedApply(TimedApply(t, a), b), c)
  {
    hide TimedApply, TimedRun, OrderlyRun, Orderly;
    var t1 := TimedApply(t, a);
    var t2 := TimedApply(t1, b);
    assert [a, b, c] == [a] + [b, c] && [b, c] == [b] + [c] && [c] == [c] + [];
    TimedStep(t, a, [b, c]);
    TimedStep(t1, b, [c]);
    TimedStep(t2, c, []);
    TimedNothing(TimedApply(t2, c));
  }

  lemma HeldByBoth(m: Message, holder: nat, second: nat)
    requires holder != second
    ensures IsLocked(BothHold(m, holder, second), holder, 1)
  {
  }

  lemma ForeignSteps(a: Message, b: Message, d: seq<byte>, holder: nat, second: nat, other: nat)
    requires holder != second && a.lockedBy.None? && b.lockedBy.None?
    ensures var la, m := a.(lockedBy := Some(holder)), Message(d, 0, 0, None);
      var q0, q1 := OneOfTwo(a, b, holder), State([1, 0], map[1 := la], map[holder := [1]], None);
      var q2, q3 := TakenOver(m, holder), BothHold(m, holder, second);
      Apply(q0, DeleteOp(other, 2)) == q1 && Apply(q1, EnqueueOp(d, 0, 0)) == q2 &&
      TimedApply(Timed(q0, 1, map[1 := 0]), DeleteOp(other, 2)) == Timed(q1, 1, map[1 := 0]) &&
      TimedApply(Timed(q1, 1, map[1 := 0]), EnqueueOp(d, 0, 0)) == Timed(q2, 1, map[1 := 0]) &&
      TimedApply(Timed(q2, 1, map[1 := 0]), LockOp(second)) == Timed(q3, 2, map[1 := 1])
  {
    var m := Message(d, 0, 0, None);
    hide Apply, OneOfTwo, TakenOver, BothHold, LockRefusal;
    DeleteSecond(a, b, holder, other);
    EnqueueTakesOver(a.(lockedBy := Some(holder)), holder, d);
    LockTakenOver(m, holder, second);
    BothHoldIs(m, holder, second);
    TakenOverDelivered(m, holder, second);
    assert map[1 := 0][1 := 1] == map[1 := 1];
  }

  lemma ForeignAfter(a: Message, b: Message, d: seq<byte>, holder: nat, second: nat, other: nat)
    requires holder != second && a.lockedBy.None? && b.lockedBy.None?
    ensures var own := Timed(OneOfTwo(a, b, holder), 1, map[1 := 0]);
      var after := [DeleteOp(other, 2), EnqueueOp(d, 0, 0), LockOp(second)];
      TimedRun(own, after).q == BothHold(Message(d, 0, 0, None), holder, second) &&
      Misfires(TimedRun(own, after), holder, 1, 0) && !EndsDuring(own.q, after, holder, 1)
  {
    var m, la := Message(d, 0, 0, None), a.(lockedBy := Some(holder));
    var own := Timed(OneOfTwo(a, b, holder), 1, map[1 := 0]);
    var q1 := State([1, 0], map[1 := la], map[holder := [1]], None);
    hide TimedRun, TimedApply, OrderlyRun, Apply, OneOfTwo, TakenOver, BothHold, EndsDuring, Ends, IsLocked;
    ForeignSteps(a, b, d, holder, second, other);
    NoEnd(a, b, holder, second, other, q1, d, m);
    HeldByBoth(m, holder, second);
    TimedThree(own, DeleteOp(other, 2), EnqueueOp(d, 0, 0), LockOp(second));
    EndsThree(own.q, DeleteOp(other, 2), q1, EnqueueOp(d, 0, 0), TakenOver(m, holder), LockOp(second), holder, 1);
  }

  /** With a reused id a timer releases another client's delivery: here the first client's own hold has
      not ended, and it was delivered nothing again. */
  lemma ForeignTimerReleases(a: seq<byte>, b: seq<byte>, d: seq<byte>, holder: nat, second: nat, other: nat)
    requires holder != second
    ensures var own := Timed(OneOfTwo(Message(a, 0, 0, None), Message(b, 0, 0, None), holder), 1, map[1 := 0]);
      var before := [EnqueueOp(a, 0, 0), EnqueueOp(b, 0, 0), LockOp(holder)];
      var after := [DeleteOp(other, 2), EnqueueOp(d, 0, 0), LockOp(second)];
      var m := Message(d, 0, 0, None);
      TimedRun(Timed(EMPTY, 0, map[]), before) == own &&
      TimedRun(own, after).q == BothHold(m, holder, second) &&
      Misfires(TimedRun(own, after), holder, 1, 0) && !EndsDuring(own.q, after, holder, 1) &&
      var q := Apply(BothHold(m, holder, second), ExpireOp(holder, 1));
      q.queue == map[1 := m] && Held(q, second) == [1]
  {
    var ma, mb, m := Message(a, 0, 0, None), Message(b, 0, 0, None), Message(d, 0, 0, None);
    ForeignBefore(a, b, holder);
    ForeignAfter(ma, mb, d, holder, second, other);
    hide TimedRun, Misfires, EndsDuring, OneOfTwo, BothHold, Apply;
    ExpireForeign(m, holder, second);
  }

  // ---- An "empty" answer that is not true ----

  /** A run given by the states it goes through. */
  lemma {:induction false} Trace(qs: seq<State>, ops: seq<Op>)
    requires |qs| == |ops| + 1 && forall i | 0 <= i < |ops| :: Apply(qs[i], ops[i]) == qs[i + 1]
    ensures Run(qs[0], ops) == qs[|ops|]
    ensures (forall i | 0 <= i < |ops| :: Guarded(qs[i], ops[i])) ==> GuardedRun(qs[0], ops)
    decreases |ops|
  {
    hide Apply, Guarded;
    if ops != [] {
      forall i | 0 <= i < |ops| - 1
        ensures Apply(qs[1..][i], ops[1..][i]) == qs[1..][i + 1]
      {
        assert Apply(qs[i + 1], ops[i + 1]) == qs[i + 2];
      }
      Trace(qs[1..], ops[1..]);
      if forall i | 0 <= i < |ops| :: Guarded(qs[i], ops[i]) {
        forall i | 0 <= i < |ops| - 1
          ensures Guarded(qs[1..][i], ops[1..][i])
        {
          assert Guarded(qs[i + 1], ops[i + 1]);
        }
      }
    }
  }

  function Unheld(payload: seq<byte>): Message {
    Message(payload, 0, 0, None)
  }

  lemma FirstOfThreeGoesOn()
    ensures GoesTo([1, 2, 3], 1, Some(2))
  {
    assert After([1, 2, 3], 1) == Some(2);
  }

  lemma LockOfThree(a: Message, b: Message, d: Message, c: nat)
    requires a.lockedBy.None?
    ensures Apply(Three(a, b, d), LockOp(c)) ==
            State([1, 2, 3], map[1 := a.(lockedBy := Some(c)), 2 := b, 3 := d], map[c := [1]], Some(2))
  {
    hide GoesTo, Apply;
    FirstOfThreeGoesOn();
    var q, locked := Three(a, b, d), a.(lockedBy := Some(c));
    assert q.queue[1 := locked] == map[1 := locked, 2 := b, 3 := d];
    assert Held(q, c) + [1] == [1];
    LockMakes(q, c, 1, State([1, 2, 3], map[1 := locked, 2 := b, 3 := d], map[c := [1]], Some(2)));
  }

  /** Messages 2 and 3 left, nothing held. */
  function LastTwo(b: Message, d: Message, c: nat): State {
    State([0, 2, 3], map[2 := b, 3 := d], map[c := []], Some(2))
  }

  lemma AckOfThree(a: Message, b: Message, d: Message, c: nat)
    ensures Apply(State([1, 2, 3], map[1 := a, 2 := b, 3 := d], map[c := [1]], Some(2)), AckOp(c)) == LastTwo(b, d, c)
  {
    var order, held := [1, 2, 3], [1];
    var q := State(order, map[1 := a, 2 := b, 3 := d], map[c := held], Some(2));
    assert Find(order, 1) == 0 && held[1..] == [];
    hide Find, LeadingZeros;
    assert order[0 := 0] == [0, 2, 3];
    assert Without(q.queue, 1) == map[2 := b, 3 := d];
  }

  lemma SecondOfThreeGoesOn()
    ensures GoesTo([0, 2, 3], 2, Some(3))
  {
    assert Find([0, 2, 3], 2) == 1 by { assert [0, 2, 3][1..] == [2, 3]; }
  }

  lemma LockOfTwo(b: Message, d: Message, c: nat)
    requires b.lockedBy.None?
    ensures Apply(LastTwo(b, d, c), LockOp(c)) ==
            State([0, 2, 3], map[2 := b.(lockedBy := Some(c)), 3 := d], map[c := [2]], Some(3))
  {
    hide GoesTo, Apply;
    SecondOfThreeGoesOn();
    var q, locked := LastTwo(b, d, c), b.(lockedBy := Some(c));
    assert q.queue[2 := locked] == map[2 := locked, 3 := d];
    assert Held(q, c) + [2] == [2] && q.locked[c := [2]] == map[c := [2]];
    LockMakes(q, c, 2, State([0, 2, 3], map[2 := locked, 3 := d], map[c := [2]], Some(3)));
  }

  lemma DeleteLast(b: Message, d: Message, c: nat, other: nat)
    ensures Apply(State([0, 2, 3], map[2 := b, 3 := d], map[c := [2]], Some(3)), DeleteOp(other, 3)) ==
            State([0, 2, 0], map[2 := b], map[c := [2]], None)
  {
    var order, held := [0, 2, 3], [2];
    var q := State(order, map[2 := b, 3 := d], map[c := held], Some(3));
    assert Find(order, 3) == 2 by { assert order[1..] == [2, 3] && order[1..][1..] == [3]; }
    assert After(order, 3) == None;
    assert Find(held, 3) == 1 && Find([], 3) == 0;
    hide Find, FirstNonzero, RemoveZeroes, After;
    assert order[2 := 0] == [0, 2, 0];
    assert Without(q.queue, 3) == map[2 := b];
  }

  /** Message 1 behind the locked message 2. */
  function OutOfOrder(b: Message, d: Message, held: map<nat, seq<nat>>, next: Option<nat>): State {
    State([0, 2, 0, 1], map[2 := b, 1 := d], held, next)
  }

  lemma EnqueueBehind(b: Message, c: nat, payload: seq<byte>)
    ensures Apply(State([0, 2, 0], map[2 := b], map[c := [2]], None), EnqueueOp(payload, 0, 0)) ==
            OutOfOrder(b, Unheld(payload), map[c := [2]], Some(1))
  {
    assert [0, 2, 0] + [1] == [0, 2, 0, 1];
  }

  lemma NackBehind(b: Message, d: Message, c: nat)
    requires b.lockedBy.None?
    ensures Apply(OutOfOrder(b.(lockedBy := Some(c)), d, map[c := [2]], Some(1)), NackOp(c)) ==
            OutOfOrder(b, d, map[c := []], Some(1))
  {
    var held := [2];
    assert Find(held, 2) == 0 && RemoveAt(held, 0) == [];
    hide Find, RemoveAt;
    var q := OutOfOrder(b.(lockedBy := Some(c)), d, map[c := held], Some(1));
    assert q.queue[2 := b] == map[2 := b, 1 := d];
    assert q.locked[c := []] == map[c := []];
  }

  lemma BehindGoesNowhere()
    ensures GoesTo([0, 2, 0, 1], 1, None)
  {
    var order := [0, 2, 0, 1];
    assert Find(order, 1) == 3 by {
      assert order[1..] == [2, 0, 1] && order[1..][1..] == [0, 1] && order[1..][1..][1..] == [1];
    }
  }

  lemma LockBehind(b: Message, d: Message, c: nat, g: nat)
    requires d.lockedBy.None?
    ensures Apply(OutOfOrder(b, d, map[c := []], Some(1)), LockOp(g)) ==
            OutOfOrder(b, d.(lockedBy := Some(g)), map[c := []][g := [1]], None)
  {
    hide GoesTo, Apply;
    BehindGoesNowhere();
    var q, locked := OutOfOrder(b, d, map[c := []], Some(1)), d.(lockedBy := Some(g));
    assert q.queue[1 := locked] == map[2 := b, 1 := locked];
    assert Held(q, g) + [1] == [1];
    LockMakes(q, g, 1, OutOfOrder(b, locked, map[c := []][g := [1]], None));
  }

  function EmptyLieOps(a: seq<byte>, b: seq<byte>, d: seq<byte>, e: seq<byte>, c: nat, other: nat, g: nat): seq<Op> {
    [EnqueueOp(a, 0, 0), EnqueueOp(b, 0, 0), EnqueueOp(d, 0, 0), LockOp(c), AckOp(c), LockOp(c), DeleteOp(other, 3),
     EnqueueOp(e, 0, 0), NackOp(c), LockOp(g)]
  }

  /** The states of that run. */
  function EmptyLieStates(a: seq<byte>, b: seq<byte>, d: seq<byte>, e: seq<byte>, c: nat, g: nat): seq<State> {
    var la, lb := Unheld(a).(lockedBy := Some(c)), Unheld(b).(lockedBy := Some(c));
    [EMPTY, One(Unheld(a)), State([1, 2], map[1 := Unheld(a), 2 := Unheld(b)], map[], Some(1)),
     Three(Unheld(a), Unheld(b), Unheld(d)),
     State([1, 2, 3], map[1 := la, 2 := Unheld(b), 3 := Unheld(d)], map[c := [1]], Some(2)),
     LastTwo(Unheld(b), Unheld(d), c),
     State([0, 2, 3], map[2 := lb, 3 := Unheld(d)], map[c := [2]], Some(3)),
     State([0, 2, 0], map[2 := lb], map[c := [2]], None),
     OutOfOrder(lb, Unheld(e), map[c := [2]], Some(1)),
     OutOfOrder(Unheld(b), Unheld(e), map[c := []], Some(1)),
     OutOfOrder(Unheld(b), Unheld(e).(lockedBy := Some(g)), map[c := []][g := [1]], None)]
  }

  lemma EmptyLieSteps(a: seq<byte>, b: seq<byte>, d: seq<byte>, e: seq<byte>, c: nat, other: nat, g: nat)
    ensures var qs, ops := EmptyLieStates(a, b, d, e, c, g), EmptyLieOps(a, b, d, e, c, other, g);
      forall i | 0 <= i < |ops| :: Apply(qs[i], ops[i]) == qs[i + 1]
  {
    var ma, mb, md, me := Unheld(a), Unheld(b), Unheld(d), Unheld(e);
    var la, lb := ma.(lockedBy := Some(c)), mb.(lockedBy := Some(c));
    hide LockToRead, Dequeue, Unlock, Enqueue, Three, LastTwo, OutOfOrder, One;
    FirstEnqueue(a, 0, 0);
    SecondEnqueue(ma, b, 0, 0);
    ThirdEnqueue(ma, mb, d);
    LockOfThree(ma, mb, md, c);
    AckOfThree(la, mb, md, c);
    LockOfTwo(mb, md, c);
    DeleteLast(lb, md, c, other);
    EnqueueBehind(lb, c, e);
    NackBehind(mb, me, c);
    LockBehind(mb, me, c, g);
  }

  lemma EmptyLieGuarded(a: seq<byte>, b: seq<byte>, d: seq<byte>, e: seq<byte>, c: nat, other: nat, g: nat)
    ensures var qs, ops := EmptyLieStates(a, b, d, e, c, g), EmptyLieOps(a, b, d, e, c, other, g);
      forall i | 0 <= i < |ops| :: Guarded(qs[i], ops[i])
  {
  }

  /** New ids are fresh and nobody deletes what others hold; still, once an id was reused behind a larger
      one, the cursor is lost while message 2 waits, and every client is told that the queue is empty. */
  lemma EmptyAnswerUntrue(a: seq<byte>, b: seq<byte>, d: seq<byte>, e: seq<byte>, c: nat, other: nat, g: nat, any: nat)
    ensures var ops := EmptyLieOps(a, b, d, e, c, other, g);
      GuardedRun(EMPTY, ops) && Waiting(Run(EMPTY, ops), 2) && Run(EMPTY, ops).next == None &&
      LockToRead(Run(EMPTY, ops), any).1 == Failed(QueueIsEmpty)
  {
    var qs, ops := EmptyLieStates(a, b, d, e, c, g), EmptyLieOps(a, b, d, e, c, other, g);
    assert qs[0] == EMPTY && Waiting(qs[10], 2) && qs[10].next == None && |qs| == 11 && |ops| == 10;
    hide EmptyLieStates, EmptyLieOps, Apply, Guarded, Run, GuardedRun, Waiting;
    EmptyLieSteps(a, b, d, e, c, other, g);
    EmptyLieGuarded(a, b, d, e, c, other, g);
    Trace(qs, ops);
  }
}
