/** The three structures of a queue agree as long as a new id is never a live one and nobody deletes
    a message another client holds. */
module QueueAgreement {
  import opened Collections
  import opened Wrappers
  import opened QueueModel
  import opened QueueSafety

  predicate Live(q: State, m: nat) {
    m in q.queue
  }

  predicate LockedBy(q: State, m: nat, c: nat) {
    m in q.queue && q.queue[m].lockedBy == Some(c)
  }

  /** Every live id is in the order exactly once and no other id is; 0 is no id. */
  ghost predicate OrderAgrees(q: State) {
    0 !in q.queue && forall m :: m != 0 ==> multiset(q.order)[m] == if Live(q, m) then 1 else 0
  }

  /** A client's list holds exactly the messages locked by it, each once. */
  ghost predicate LocksAgree(q: State) {
    forall c: nat, m: nat :: multiset(Held(q, c))[m] == if LockedBy(q, m, c) then 1 else 0
  }

  ghost predicate Agree(q: State) {
    OrderAgrees(q) && LocksAgree(q) && q.next != Some(0)
  }

  /** The id computed for a new message is not live. */
  predicate FreshId(q: State) {
    NewId(q.order) !in q.queue
  }

  /** The message named is unlocked or held by the caller. */
  predicate OwnOrUnlocked(q: State, c: nat, id: nat) {
    id in q.queue ==> q.queue[id].lockedBy.None? || q.queue[id].lockedBy == Some(c)
  }

  predicate Guarded(q: State, op: Op) {
    match op
    case EnqueueOp(_, _, _) => FreshId(q)
    case DeleteOp(c, id) => OwnOrUnlocked(q, c, id)
    case RequeueOp(c, id, _) => id in q.queue ==> FreshId(q) && OwnOrUnlocked(q, c, id)
    case _ => true
  }

  predicate GuardedRun(q: State, ops: seq<Op>)
    decreases |ops|
  {
    ops != [] ==> Guarded(q, ops[0]) && GuardedRun(Apply(q, ops[0]), ops[1..])
  }

  predicate Panics(q: State, op: Op) {
    match op
    case AckOp(c) => Dequeue(q, c, None).1.Panicked?
    case DeleteOp(c, id) => Dequeue(q, c, Some(id)).1.Panicked?
    case RequeueOp(c, id, time) => Requeue(q, c, id, time).1.Panicked?
    case _ => false
  }

  lemma InitAgrees()
    ensures Agree(EMPTY)
  {
  }

  // ---- Multisets of sequences ----

  lemma MultisetDrain(order: seq<nat>, m: nat)
    requires m != 0
    ensures multiset(RemoveZeroes(order))[m] == multiset(order)[m]
  {
    var z := LeadingZeros(order);
    assert order == order[..z] + order[z..];
    ZerosOnly(order[..z], m);
    if z == |order| { assert order[..z] == order; }
  }

  lemma {:induction false} ZerosOnly(s: seq<nat>, m: nat)
    requires m != 0 && forall i | 0 <= i < |s| :: s[i] == 0
    ensures multiset(s)[m] == 0
  {
    InMultiset(s, m);
  }

  lemma InMultiset(s: seq<nat>, m: nat)
    ensures multiset(s)[m] > 0 <==> m in s
  {
    assert m in multiset(s) <==> m in s;
  }

  /** The order after an id was tombstoned and perhaps the leading tombstones drained. */
  predicate Tombstoned(order: seq<nat>, order': seq<nat>, id: nat) {
    var i := Find(order, id);
    i < |order| && (order' == order[i := 0] || order' == RemoveZeroes(order[i := 0]))
  }

  lemma TombstonedAgrees(q: State, q': State, id: nat)
    requires OrderAgrees(q) && id in q.queue && Tombstoned(q.order, q'.order, id)
    requires q'.queue == Without(q.queue, id)
    ensures OrderAgrees(q')
  {
    var i := Find(q.order, id);
    var zeroed := q.order[i := 0];
    forall m: nat | m != 0
      ensures multiset(q'.order)[m] == if Live(q', m) then 1 else 0
    {
      assert multiset(zeroed) == multiset(q.order) - multiset{id} + multiset{0};
      assert multiset(q.order)[m] == if Live(q, m) then 1 else 0;
      MultisetDrain(zeroed, m);
    }
  }

  lemma LiveInOrder(q: State, id: nat)
    requires OrderAgrees(q) && id in q.queue
    ensures id != 0 && Find(q.order, id) < |q.order|
  {
    assert multiset(q.order)[id] == if Live(q, id) then 1 else 0;
    InMultiset(q.order, id);
  }

  /** Removing message `id` from its holder's list, or from nobody's when it is unlocked. */
  lemma RemovedLocksAgree(q: State, q': State, c: nat, id: nat)
    requires LocksAgree(q) && id in q.queue && q'.queue == Without(q.queue, id)
    requires OwnOrUnlocked(q, c, id)
    requires q'.locked ==
      if id in Held(q, c) then q.locked[c := RemoveAt(Held(q, c), Find(Held(q, c), id))] else q.locked
    ensures LocksAgree(q')
  {
    var held := Held(q, c);
    InMultiset(held, id);
    assert multiset(Held(q, c))[id] == if LockedBy(q, id, c) then 1 else 0;
    if id in held { MultisetRemoveAt(held, Find(held, id)); }
    forall d: nat, m: nat
      ensures multiset(Held(q', d))[m] == if LockedBy(q', m, d) then 1 else 0
    {
      assert multiset(Held(q, d))[m] == if LockedBy(q, m, d) then 1 else 0;
    }
  }

  // ---- Operations ----

  lemma EnqueueAgrees(q: State, payload: seq<Bytes.byte>, publisher: nat, time: nat)
    requires Agree(q) && FreshId(q)
    ensures Agree(Enqueue(q, payload, publisher, time))
  {
    var q' := Enqueue(q, payload, publisher, time);
    var id := NewId(q.order);
    forall m: nat | m != 0
      ensures multiset(q'.order)[m] == if Live(q', m) then 1 else 0
    {
      assert multiset(q'.order) == multiset(q.order) + multiset{id};
      assert multiset(q.order)[m] == if Live(q, m) then 1 else 0;
    }
    forall d: nat, m: nat
      ensures multiset(Held(q', d))[m] == if LockedBy(q', m, d) then 1 else 0
    {
      assert multiset(Held(q, d))[m] == if LockedBy(q, m, d) then 1 else 0;
    }
  }

  lemma LockAgrees(q: State, c: nat)
    requires Agree(q)
    ensures Agree(LockToRead(q, c).0)
  {
    var q' := LockToRead(q, c).0;
    if LockRefusal(q).None? {
      var id := q.next.value;
      AfterIn(q.order, id);
      forall m: nat | m != 0
        ensures multiset(q'.order)[m] == if Live(q', m) then 1 else 0
      {
        MultisetDrain(q.order, m);
        assert multiset(q.order)[m] == if Live(q, m) then 1 else 0;
      }
      forall d: nat, m: nat
        ensures multiset(Held(q', d))[m] == if LockedBy(q', m, d) then 1 else 0
      {
        assert multiset(Held(q, d))[m] == if LockedBy(q, m, d) then 1 else 0;
        assert d == c ==> multiset(Held(q', d)) == multiset(Held(q, c)) + multiset{id};
      }
    }
  }

  lemma DeleteAgrees(q: State, c: nat, id: nat)
    requires Agree(q) && id in q.queue && OwnOrUnlocked(q, c, id)
    ensures Agree(DeleteById(q, c, id).0)
  {
    LiveInOrder(q, id);
    AfterIn(q.order, id);
    var q' := DeleteById(q, c, id).0;
    hide OrderAgrees, LocksAgree, RemoveZeroes;
    TombstonedAgrees(q, q', id);
    RemovedLocksAgree(q, q', c, id);
  }

  /** The first entry of a client's list is a live message locked by it. */
  lemma FirstHeld(q: State, c: nat)
    requires LocksAgree(q) && Held(q, c) != []
    ensures LockedBy(q, Held(q, c)[0], c)
  {
    var id := Held(q, c)[0];
    InMultiset(Held(q, c), id);
    assert multiset(Held(q, c))[id] == if LockedBy(q, id, c) then 1 else 0;
  }

  lemma AckAgrees(q: State, c: nat)
    requires Agree(q)
    ensures Agree(AckFirst(q, c).0) && !AckFirst(q, c).1.Panicked?
  {
    if Held(q, c) != [] {
      var id := Held(q, c)[0];
      FirstHeld(q, c);
      LiveInOrder(q, id);
      var q' := AckFirst(q, c).0;
      assert Find(Held(q, c), id) == 0;
      assert RemoveAt(Held(q, c), 0) == Held(q, c)[1..];
      hide OrderAgrees, LocksAgree, RemoveZeroes;
      TombstonedAgrees(q, q', id);
      RemovedLocksAgree(q, q', c, id);
    }
  }

  lemma ReleaseAgrees(q: State, c: nat, id: nat)
    requires Agree(q) && id in Held(q, c)
    ensures Agree(Release(q, c, id)) && LockedBy(q, id, c)
  {
    var q' := Release(q, c, id);
    var held := Held(q, c);
    InMultiset(held, id);
    assert multiset(Held(q, c))[id] == if LockedBy(q, id, c) then 1 else 0;
    MultisetRemoveAt(held, Find(held, id));
    forall m: nat | m != 0
      ensures multiset(q'.order)[m] == if Live(q', m) then 1 else 0
    {
      assert multiset(q.order)[m] == if Live(q, m) then 1 else 0;
    }
    forall d: nat, m: nat
      ensures multiset(Held(q', d))[m] == if LockedBy(q', m, d) then 1 else 0
    {
      assert multiset(Held(q, d))[m] == if LockedBy(q, m, d) then 1 else 0;
    }
  }

  lemma DequeueAgrees(q: State, c: nat, id: Option<nat>)
    requires Agree(q) && (id.Some? ==> OwnOrUnlocked(q, c, id.value))
    ensures Agree(Dequeue(q, c, id).0) && !Dequeue(q, c, id).1.Panicked?
  {
    hide Agree, AckFirst;
    if id.Some? && id.value in q.queue { DeleteAgrees(q, c, id.value); }
    AckAgrees(q, c);
  }

  lemma UnlockAgrees(q: State, c: nat, id: Option<nat>)
    requires Agree(q)
    ensures Agree(Unlock(q, c, id).0)
  {
    hide Agree, Release;
    if c in q.locked {
      if id.Some? && id.value in q.locked[c] { ReleaseAgrees(q, c, id.value); }
      if q.locked[c] != [] { ReleaseAgrees(q, c, q.locked[c][0]); }
    }
  }

  lemma UpdateAgrees(q: State, id: nat, payload: seq<Bytes.byte>)
    requires Agree(q)
    ensures Agree(Update(q, id, payload).0)
  {
    var q' := Update(q, id, payload).0;
    forall m: nat | m != 0
      ensures multiset(q'.order)[m] == if Live(q', m) then 1 else 0
    {
      assert multiset(q.order)[m] == if Live(q, m) then 1 else 0;
    }
    forall d: nat, m: nat
      ensures multiset(Held(q', d))[m] == if LockedBy(q', m, d) then 1 else 0
    {
      assert multiset(Held(q, d))[m] == if LockedBy(q, m, d) then 1 else 0;
    }
  }

  lemma RequeueAgrees(q: State, c: nat, id: nat, time: nat)
    requires Agree(q) && (id in q.queue ==> FreshId(q) && OwnOrUnlocked(q, c, id))
    ensures Agree(Requeue(q, c, id, time).0) && !Requeue(q, c, id, time).1.Panicked?
  {
    if id in q.queue {
      var m := q.queue[id];
      EnqueueAgrees(q, m.payload, m.publisher, time);
      var q1 := Enqueue(q, m.payload, m.publisher, time);
      assert q1.queue[id] == m;
      hide Agree, Dequeue;
      DequeueAgrees(q1, c, Some(id));
    }
  }

  /** With fresh ids, and nobody deleting what others hold, every operation keeps the order, the
      messages and the lock lists in agreement, and no `unwrap` fails. */
  lemma ApplyAgrees(q: State, op: Op)
    requires Agree(q) && Guarded(q, op)
    ensures Agree(Apply(q, op)) && !Panics(q, op)
  {
    hide Agree, Dequeue, Unlock, Requeue, Update, LockToRead, Enqueue;
    match op
    case EnqueueOp(payload, publisher, time) => EnqueueAgrees(q, payload, publisher, time);
    case LockOp(c) => LockAgrees(q, c);
    case AckOp(c) => DequeueAgrees(q, c, None);
    case DeleteOp(c, id) => DequeueAgrees(q, c, Some(id));
    case NackOp(c) => UnlockAgrees(q, c, None);
    case ExpireOp(c, id) => UnlockAgrees(q, c, Some(id));
    case RequeueOp(c, id, time) => RequeueAgrees(q, c, id, time);
    case UpdateOp(id, payload) => UpdateAgrees(q, id, payload);
  }

  lemma {:induction false} EveryGuardedRunAgrees(q: State, ops: seq<Op>)
    requires Agree(q) && GuardedRun(q, ops)
    ensures Agree(Run(q, ops))
    ensures forall k | 0 <= k < |ops| :: !Panics(Run(q, ops[..k]), ops[k])
    decreases |ops|
  {
    if ops != [] {
      ApplyAgrees(q, ops[0]);
      EveryGuardedRunAgrees(Apply(q, ops[0]), ops[1..]);
      forall k | 0 <= k < |ops|
        ensures !Panics(Run(q, ops[..k]), ops[k])
      {
        if k > 0 { assert ops[..k][1..] == ops[1..][..k - 1]; }
      }
    }
  }

  // ---- The guards are exact ----

  /** An enqueue keeps every live message exactly when its id is fresh: otherwise it overwrites one. */
  lemma EnqueueKeepsAllIffFresh(q: State, payload: seq<Bytes.byte>, publisher: nat, time: nat)
    ensures |Enqueue(q, payload, publisher, time).queue| == |q.queue| + 1 <==> FreshId(q)
  {
    var id := NewId(q.order);
    hide NewId;
    var m := q.queue[id := Message(payload, publisher, time, None)];
    assert m.Keys == q.queue.Keys + {id};
    assert |m| == |m.Keys| && |q.queue| == |q.queue.Keys|;
    if id in q.queue { assert m.Keys == q.queue.Keys; }
  }

  /** In an agreeing state an enqueue keeps the agreement exactly when its id is fresh. */
  lemma EnqueueAgreesIff(q: State, payload: seq<Bytes.byte>, publisher: nat, time: nat)
    requires Agree(q)
    ensures Agree(Enqueue(q, payload, publisher, time)) <==> FreshId(q)
  {
    var id, q' := NewId(q.order), Enqueue(q, payload, publisher, time);
    if FreshId(q) {
      EnqueueAgrees(q, payload, publisher, time);
    } else {
      assert multiset(q.order)[id] == if Live(q, id) then 1 else 0;
      assert multiset(q'.order) == multiset(q.order) + multiset{id};
      assert multiset(q'.order)[id] == 2;
    }
  }

  /** In an agreeing state, deleting a live message by id keeps the agreement exactly when it is
      unlocked or held by the caller: otherwise the holder's list keeps a dead id. */
  lemma DeleteAgreesIff(q: State, c: nat, id: nat)
    requires Agree(q) && id in q.queue
    ensures Agree(DeleteById(q, c, id).0) <==> OwnOrUnlocked(q, c, id)
  {
    var q' := DeleteById(q, c, id).0;
    if OwnOrUnlocked(q, c, id) {
      DeleteAgrees(q, c, id);
    } else {
      var d := q.queue[id].lockedBy.value;
      assert multiset(Held(q, d))[id] == if LockedBy(q, id, d) then 1 else 0;
      assert Held(q', d) == Held(q, d);
      assert multiset(Held(q', d))[id] == 1 && !LockedBy(q', id, d);
    }
  }

  // ---- Counting messages ----

  /** Messages an operation adds or takes away, read off its outcome. */
  function Change(q: State, op: Op): int {
    match op
    case EnqueueOp(_, _, _) => 1
    case AckOp(c) => if Dequeue(q, c, None).1.Done? then -1 else 0
    case DeleteOp(c, id) => if Dequeue(q, c, Some(id)).1.Done? then -1 else 0
    case _ => 0
  }

  function Changes(q: State, ops: seq<Op>): int
    decreases |ops|
  {
    if ops == [] then 0 else Change(q, ops[0]) + Changes(Apply(q, ops[0]), ops[1..])
  }

  lemma RemovedCount(m: map<nat, Message>, id: nat)
    requires id in m
    ensures |Without(m, id)| == |m| - 1
  {
    assert Without(m, id).Keys == m.Keys - {id};
    assert |Without(m, id)| == |Without(m, id).Keys| && |m| == |m.Keys|;
  }

  lemma SameKeysCount(m: map<nat, Message>, n: map<nat, Message>)
    requires m.Keys == n.Keys
    ensures |m| == |n|
  {
    assert |m| == |m.Keys| && |n| == |n.Keys|;
  }

  lemma DequeueCount(q: State, c: nat, id: Option<nat>)
    requires Agree(q)
    ensures |Dequeue(q, c, id).0.queue| == |q.queue| - if Dequeue(q, c, id).1.Done? then 1 else 0
  {
    if q.order != [] {
      if id.Some? && id.value in q.queue {
        RemovedCount(q.queue, id.value);
      } else if Held(q, c) != [] {
        FirstHeld(q, c);
        RemovedCount(q.queue, Held(q, c)[0]);
      }
    }
  }

  lemma RequeueCount(q: State, c: nat, id: nat, time: nat)
    requires Agree(q) && (id in q.queue ==> FreshId(q))
    ensures |Requeue(q, c, id, time).0.queue| == |q.queue|
  {
    if q.order != [] && id in q.queue {
      var m := q.queue[id];
      EnqueueKeepsAllIffFresh(q, m.payload, m.publisher, time);
      EnqueueAgrees(q, m.payload, m.publisher, time);
      DequeueCount(Enqueue(q, m.payload, m.publisher, time), c, Some(id));
    }
  }

  lemma ApplyCounts(q: State, op: Op)
    requires Agree(q) && Guarded(q, op)
    ensures |Apply(q, op).queue| == |q.queue| + Change(q, op)
  {
    hide Agree, Dequeue, Requeue, Enqueue;
    match op
    case EnqueueOp(payload, publisher, time) => EnqueueKeepsAllIffFresh(q, payload, publisher, time);
    case AckOp(c) => DequeueCount(q, c, None);
    case DeleteOp(c, id) => DequeueCount(q, c, Some(id));
    case RequeueOp(c, id, time) => RequeueCount(q, c, id, time);
    case _ => SameKeysCount(q.queue, Apply(q, op).queue);
  }

  /** No message is lost and none appears: after any guarded run the live messages are the enqueued
      ones less the acknowledged and deleted ones. */
  lemma {:induction false} RunCounts(q: State, ops: seq<Op>)
    requires Agree(q) && GuardedRun(q, ops)
    ensures |Run(q, ops).queue| == |q.queue| + Changes(q, ops)
    decreases |ops|
  {
    if ops != [] {
      ApplyCounts(q, ops[0]);
      ApplyAgrees(q, ops[0]);
      RunCounts(Apply(q, ops[0]), ops[1..]);
    }
  }
}
