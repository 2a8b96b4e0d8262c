/** When a waiting message is withheld: which operations leave the cursor on a message that is locked or
    gone, and that without them every lock is served (src/net/queue.rs:208-248, 263-279, 365-371). */
module QueueLiveness {
  import opened Collections
  import opened Wrappers
  import opened QueueModel
  import opened QueueAgreement
  import opened QueueSafety
  import opened QueueCursor

  /** The cursor rests on a message nobody can lock. */
  predicate Stranded(q: State) {
    q.next.Some? && !Waiting(q, q.next.value)
  }

  /** Deleting the message under the cursor sends the cursor to the entry behind it, or, when that is a
      tombstone, to the first entry left. */
  predicate DeleteStrands(q: State, id: nat) {
    id in q.queue && q.next == Some(id) &&
    var behind := After(q.order, id);
    behind.Some? &&
    if behind.value != 0 then !Waiting(q, behind.value)
    else
      var first := FirstNonzero(q.order[Find(q.order, id) := 0]);
      first.Some? && !Waiting(q, first.value)
  }

  /** The operations that strand the cursor: a lock whose message has a tombstone or an unavailable
      message right behind it, and a deletion as above, also as the second half of a requeue. */
  predicate Strands(q: State, op: Op) {
    match op
    case LockOp(_) =>
      LockRefusal(q).None? && After(q.order, q.next.value).Some? && !Waiting(q, After(q.order, q.next.value).value)
    case DeleteOp(_, id) => DeleteStrands(q, id)
    case RequeueOp(_, id, time) =>
      id in q.queue && DeleteStrands(Enqueue(q, q.queue[id].payload, q.queue[id].publisher, time), id)
    case _ => false
  }

  /** Guards of both invariants. */
  predicate Orderly(q: State, op: Op) {
    Guarded(q, op) && Ahead(q, op)
  }

  /** Both invariants, and a cursor that is on a waiting message or nowhere. */
  ghost predicate Flowing(q: State) {
    Agree(q) && CursorOk(q) && !Stranded(q)
  }

  lemma LockStrands(q: State, c: nat)
    requires Flowing(q)
    ensures Stranded(LockToRead(q, c).0) <==> Strands(q, LockOp(c))
  {
    hide RemoveZeroes, OrderAgrees, LocksAgree;
    if LockRefusal(q).None? {
      var id := q.next.value;
      var behind := After(q.order, id);
      if behind == Some(0) {
        var i := Find(q.order, id);
        FirstIsLeast(q.order, id);
        var first := FirstNonzero(q.order).value;
        assert first != id ==> !Waiting(q, first);
      } else if behind.Some? && Waiting(q, behind.value) {
        NotTwice(q.order, id);
      }
    }
  }

  /** In an ascending order an entry differs from the one behind it. */
  lemma NotTwice(order: seq<nat>, id: nat)
    requires Ascending(order) && id != 0
    ensures After(order, id) != Some(id)
  {
  }

  lemma TombstonedFirst(order: seq<nat>, id: nat)
    requires Ascending(order) && id in order && id != 0
    ensures FirstNonzero(order[Find(order, id) := 0]) != Some(id)
  {
    var i := Find(order, id);
    var r := FirstNonzero(order[i := 0]);
    if r.Some? {
      var j :| 0 <= j < |order| && order[i := 0][j] == r.value;
    }
  }

  lemma DeleteCursorIs(q: State, c: nat, id: nat)
    requires id in q.queue && id in q.order
    ensures DeleteById(q, c, id).0.next ==
      if q.next != Some(id) then SkipTombstone(q.order[Find(q.order, id) := 0], q.next)
      else SkipTombstone(q.order[Find(q.order, id) := 0], After(q.order, id))
    ensures DeleteById(q, c, id).0.queue == Without(q.queue, id)
  {
    hide RemoveZeroes, RemoveAt, SkipTombstone, After;
  }

  lemma DeleteStrandsIff(q: State, c: nat, id: nat)
    requires Flowing(q) && id in q.queue
    ensures Stranded(DeleteById(q, c, id).0) <==> DeleteStrands(q, id)
  {
    LiveInOrder(q, id);
    NotTwice(q.order, id);
    TombstonedFirst(q.order, id);
    DeleteCursorIs(q, c, id);
    hide Agree, CursorOk, DeleteById, FirstNonzero, After;
  }

  lemma AckKeepsFlow(q: State, c: nat)
    requires Flowing(q)
    ensures !Stranded(AckFirst(q, c).0)
  {
    hide RemoveZeroes, OrderAgrees, LocksAgree;
    if Held(q, c) != [] { FirstHeld(q, c); }
  }

  lemma ReleaseKeepsFlow(q: State, c: nat, id: nat)
    requires Flowing(q) && id in Held(q, c)
    ensures !Stranded(Release(q, c, id))
  {
    ReleaseAgrees(q, c, id);
    hide OrderAgrees, LocksAgree, RemoveAt;
  }

  lemma EnqueueKeepsFlow(q: State, payload: seq<Bytes.byte>, publisher: nat, time: nat)
    requires Flowing(q) && FreshId(q) && AheadId(q)
    ensures Flowing(Enqueue(q, payload, publisher, time))
  {
    EnqueueAgrees(q, payload, publisher, time);
    EnqueueCursor(q, payload, publisher, time);
  }

  lemma RequeueStrands(q: State, c: nat, id: nat, time: nat)
    requires Flowing(q) && Orderly(q, RequeueOp(c, id, time))
    ensures Stranded(Requeue(q, c, id, time).0) <==> Strands(q, RequeueOp(c, id, time))
  {
    if id in q.queue {
      var m := q.queue[id];
      EnqueueKeepsFlow(q, m.payload, m.publisher, time);
      LiveInOrder(q, id);
      hide Flowing, Stranded, DeleteById, DeleteStrands;
      DeleteStrandsIff(Enqueue(q, m.payload, m.publisher, time), c, id);
    } else {
      assert Requeue(q, c, id, time).0 == q;
    }
  }

  /** While the cursor is on a waiting message or nowhere, exactly these operations change that. */
  lemma StrandsExactlyWhen(q: State, op: Op)
    requires Flowing(q) && Orderly(q, op)
    ensures Stranded(Apply(q, op)) <==> Strands(q, op)
  {
    assert !Stranded(q);
    if op.DeleteOp? && op.id in q.queue { LiveInOrder(q, op.id); }
    hide Flowing, LockToRead, AckFirst, DeleteById, Release, Requeue, DeleteStrands;
    match op
    case EnqueueOp(payload, publisher, time) => FlowEnqueue(q, op);
    case LockOp(c) => LockStrands(q, c);
    case AckOp(c) => AckKeepsFlow(q, c);
    case DeleteOp(c, id) =>
      AckKeepsFlow(q, c);
      if id in q.queue { DeleteStrandsIff(q, c, id); } else { assert !DeleteStrands(q, id) by { NoDelete(q, id); } }
    case NackOp(c) => if Held(q, c) != [] { ReleaseKeepsFlow(q, c, Held(q, c)[0]); }
    case ExpireOp(c, id) => if id in Held(q, c) { ReleaseKeepsFlow(q, c, id); }
    case RequeueOp(c, id, time) => RequeueStrands(q, c, id, time);
    case UpdateOp(id, payload) =>
  }

  lemma FlowEnqueue(q: State, op: Op)
    requires Flowing(q) && Orderly(q, op) && op.EnqueueOp?
    ensures !Stranded(Apply(q, op))
  {
    EnqueueKeepsFlow(q, op.payload, op.publisher, op.time);
  }

  lemma NoDelete(q: State, id: nat)
    requires id !in q.queue
    ensures !DeleteStrands(q, id)
  {
  }

  predicate OrderlyRun(q: State, ops: seq<Op>)
    decreases |ops|
  {
    ops != [] ==> Orderly(q, ops[0]) && OrderlyRun(Apply(q, ops[0]), ops[1..])
  }

  predicate NeverStrands(q: State, ops: seq<Op>)
    decreases |ops|
  {
    ops != [] ==> !Strands(q, ops[0]) && NeverStrands(Apply(q, ops[0]), ops[1..])
  }

  lemma {:induction false} FlowKept(q: State, ops: seq<Op>)
    requires Flowing(q) && OrderlyRun(q, ops) && NeverStrands(q, ops)
    ensures Flowing(Run(q, ops))
    decreases |ops|
  {
    hide Apply, Agree, CursorOk, Stranded, Strands, Guarded, Ahead;
    if ops != [] {
      ApplyAgrees(q, ops[0]);
      ApplyCursor(q, ops[0]);
      StrandsExactlyWhen(q, ops[0]);
      FlowKept(Apply(q, ops[0]), ops[1..]);
    }
  }

  /** In any state a queue can reach, while a message waits: a lock is refused exactly when there is no
      cursor or it is stranded. */
  lemma WithheldExactlyWhen(q: State, c: nat, k: nat)
    requires Safe(q) && Waiting(q, k)
    ensures !LockToRead(q, c).1.Done? <==> q.next.None? || Stranded(q)
  {
    assert k in q.order;
  }

  /** The cursor invariant leaves only the stranded cursor. */
  lemma CursorWhileWaiting(q: State, k: nat)
    requires CursorOk(q) && Waiting(q, k)
    ensures q.next.Some?
  {
  }

  /** In a flowing queue a lock succeeds exactly when a message waits. */
  lemma ServedIff(q: State, c: nat)
    requires Flowing(q)
    ensures LockToRead(q, c).1.Done? <==> exists k :: Waiting(q, k)
  {
    if LockToRead(q, c).1.Done? { assert Waiting(q, q.next.value); }
    if k :| Waiting(q, k) {
      CursorWhileWaiting(q, k);
      WithheldExactlyWhen(q, c, k);
    }
  }

  /** From an empty queue, as long as new ids are ahead, nobody deletes what others hold and no
      operation strands the cursor: every lock is served while a message waits. */
  lemma EveryLockServed(ops: seq<Op>, c: nat)
    requires OrderlyRun(EMPTY, ops) && NeverStrands(EMPTY, ops)
    ensures LockToRead(Run(EMPTY, ops), c).1.Done? <==> exists k :: Waiting(Run(EMPTY, ops), k)
  {
    InitAgrees();
    InitCursor();
    hide LockToRead;
    FlowKept(EMPTY, ops);
    ServedIff(Run(EMPTY, ops), c);
  }
}
