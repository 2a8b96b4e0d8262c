/** The delivery cursor: as long as new ids are larger than all ids still around, no unlocked message
    is ever behind the cursor, so every delivery is of the oldest unlocked message. */
module QueueCursor {
  import opened Wrappers
  import opened QueueModel
  import opened QueueSafety

  predicate Ascending(order: seq<nat>) {
    forall i, j | 0 <= i < j < |order| && order[i] != 0 && order[j] != 0 :: order[i] < order[j]
  }

  predicate Waiting(q: State, k: nat) {
    k in q.queue && q.queue[k].lockedBy.None?
  }

  /** No unlocked message is behind the cursor; without a cursor none is unlocked. */
  ghost predicate Bounded(q: State) {
    forall k | Waiting(q, k) :: q.next.Some? && q.next.value <= k
  }

  ghost predicate CursorOk(q: State) {
    Safe(q) && Ascending(q.order) && Bounded(q)
  }

  /** The new id is above every id in the order and not behind the cursor. */
  predicate AheadId(q: State) {
    (forall i | 0 <= i < |q.order| && q.order[i] != 0 :: q.order[i] < NewId(q.order)) &&
    (q.next.Some? ==> q.next.value <= NewId(q.order))
  }

  predicate Ahead(q: State, op: Op) {
    match op
    case EnqueueOp(_, _, _) => AheadId(q)
    case RequeueOp(_, id, _) => id in q.queue ==> AheadId(q)
    case _ => true
  }

  predicate AheadRun(q: State, ops: seq<Op>)
    decreases |ops|
  {
    ops != [] ==> Ahead(q, ops[0]) && AheadRun(Apply(q, ops[0]), ops[1..])
  }

  lemma InitCursor()
    ensures CursorOk(EMPTY)
  {
    InitSafe();
  }

  lemma {:induction false} FirstIsLeast(order: seq<nat>, k: nat)
    requires Ascending(order) && k in order && k != 0
    ensures FirstNonzero(order).Some? && FirstNonzero(order).value <= k
  {
    if order[0] == 0 {
      assert k in order[1..];
      FirstIsLeast(order[1..], k);
    }
  }

  lemma AscendingDrained(order: seq<nat>)
    requires Ascending(order)
    ensures Ascending(RemoveZeroes(order))
  {
  }

  lemma SmallerIsEarlier(order: seq<nat>, i: nat, j: nat)
    requires Ascending(order) && i < |order| && j < |order| && order[i] != 0 && order[i] < order[j]
    ensures i < j
  {
  }

  /** Every larger id in the order is at or behind the entry that follows `id`. */
  lemma NextIsLeast(order: seq<nat>, id: nat, k: nat)
    requires Ascending(order) && id in order && id != 0 && k in order && k > id
    ensures After(order, id).Some? && After(order, id).value <= k
  {
    var i := Find(order, id);
    var j :| 0 <= j < |order| && order[j] == k;
    SmallerIsEarlier(order, i, j);
    if j > i + 1 && order[i + 1] != 0 { assert order[i + 1] < order[j]; }
  }

  // ---- Operations ----

  lemma EnqueueCursor(q: State, payload: seq<Bytes.byte>, publisher: nat, time: nat)
    requires CursorOk(q) && AheadId(q)
    ensures CursorOk(Enqueue(q, payload, publisher, time))
  {
    EnqueueSafe(q, EnqueueOp(payload, publisher, time));
    var q' := Enqueue(q, payload, publisher, time);
    forall k | Waiting(q', k) ensures q'.next.Some? && q'.next.value <= k {
      assert k == NewId(q.order) || Waiting(q, k);
    }
  }

  lemma LockCursor(q: State, c: nat)
    requires CursorOk(q)
    ensures CursorOk(LockToRead(q, c).0)
  {
    hide RemoveZeroes, After, FirstNonzero;
    LockSafe(q, c);
    AscendingDrained(q.order);
    var q' := LockToRead(q, c).0;
    if LockRefusal(q).None? {
      var id := q.next.value;
      forall k | Waiting(q', k) ensures q'.next.Some? && q'.next.value <= k {
        assert Waiting(q, k) && k != id;
        NextIsLeast(q.order, id, k);
        FirstIsLeast(q.order, k);
      }
    }
  }

  lemma DeleteCursor(q: State, c: nat, id: nat)
    requires CursorOk(q) && id in q.queue
    ensures CursorOk(DeleteById(q, c, id).0)
  {
    DeleteSafe(q, c, id);
    var q' := DeleteById(q, c, id).0;
    var i := Find(q.order, id);
    var zeroed := q.order[i := 0];
    assert Ascending(zeroed);
    AscendingDrained(zeroed);
    forall k | Waiting(q', k) ensures q'.next.Some? && q'.next.value <= k {
      assert Waiting(q, k) && k != id;
      if q.next == Some(id) {
        NextIsLeast(q.order, id, k);
        TombstoneIn(q.order, i, k);
        FirstIsLeast(zeroed, k);
      }
    }
  }

  lemma AckCursor(q: State, c: nat)
    requires CursorOk(q)
    ensures CursorOk(AckFirst(q, c).0)
  {
    AckSafe(q, c);
    var q' := AckFirst(q, c).0;
    if Held(q, c) != [] {
      var i := Find(q.order, Held(q, c)[0]);
      if i < |q.order| { AscendingDrained(q.order[i := 0]); } else { AscendingDrained(q.order); }
      forall k | Waiting(q', k) ensures Waiting(q, k) {}
    }
  }

  lemma ReleaseCursor(q: State, c: nat, id: nat)
    requires CursorOk(q) && id in Held(q, c)
    ensures CursorOk(Release(q, c, id))
  {
    ReleaseSafe(q, c, id);
    var q' := Release(q, c, id);
    forall k | Waiting(q', k) ensures q'.next.Some? && q'.next.value <= k {
      assert k == id || Waiting(q, k);
    }
  }

  lemma DequeueCursor(q: State, c: nat, id: Option<nat>)
    requires CursorOk(q)
    ensures CursorOk(Dequeue(q, c, id).0)
  {
    hide CursorOk, AckFirst, DeleteById;
    if id.Some? && id.value in q.queue { DeleteCursor(q, c, id.value); }
    AckCursor(q, c);
  }

  lemma UnlockCursor(q: State, c: nat, id: Option<nat>)
    requires CursorOk(q)
    ensures CursorOk(Unlock(q, c, id).0)
  {
    hide CursorOk, Release;
    if c in q.locked {
      if id.Some? && id.value in q.locked[c] { ReleaseCursor(q, c, id.value); }
      if q.locked[c] != [] { ReleaseCursor(q, c, q.locked[c][0]); }
    }
  }

  lemma RequeueCursor(q: State, c: nat, id: nat, time: nat)
    requires CursorOk(q) && (id in q.queue ==> AheadId(q))
    ensures CursorOk(Requeue(q, c, id, time).0)
  {
    if id in q.queue {
      var m := q.queue[id];
      EnqueueCursor(q, m.payload, m.publisher, time);
      hide CursorOk, Dequeue, Enqueue;
      DequeueCursor(Enqueue(q, m.payload, m.publisher, time), c, Some(id));
    }
  }

  lemma UpdateCursor(q: State, id: nat, payload: seq<Bytes.byte>)
    requires CursorOk(q)
    ensures CursorOk(Update(q, id, payload).0)
  {
    UpdateSafe(q, id, payload);
    var q' := Update(q, id, payload).0;
    forall k | Waiting(q', k) ensures Waiting(q, k) {}
  }

  lemma ApplyCursor(q: State, op: Op)
    requires CursorOk(q) && Ahead(q, op)
    ensures CursorOk(Apply(q, op))
  {
    hide CursorOk, Dequeue, Unlock, Requeue, Update, LockToRead, Enqueue, AheadId;
    match op
    case EnqueueOp(payload, publisher, time) => EnqueueCursor(q, payload, publisher, time);
    case LockOp(c) => LockCursor(q, c);
    case AckOp(c) => DequeueCursor(q, c, None);
    case DeleteOp(c, id) => DequeueCursor(q, c, Some(id));
    case NackOp(c) => UnlockCursor(q, c, None);
    case ExpireOp(c, id) => UnlockCursor(q, c, Some(id));
    case RequeueOp(c, id, time) => RequeueCursor(q, c, id, time);
    case UpdateOp(id, payload) => UpdateCursor(q, id, payload);
  }

  lemma {:induction false} EveryAheadRunKeeps(q: State, ops: seq<Op>)
    requires CursorOk(q) && AheadRun(q, ops)
    ensures CursorOk(Run(q, ops))
    decreases |ops|
  {
    if ops != [] {
      ApplyCursor(q, ops[0]);
      EveryAheadRunKeeps(Apply(q, ops[0]), ops[1..]);
    }
  }

  // ---- What a consumer sees ----

  /** A delivered message was unlocked, is now locked by the client, and every other unlocked message
      is behind it in the order. */
  lemma DeliversOldest(q: State, c: nat, k: nat)
    requires CursorOk(q) && LockToRead(q, c).1.Done?
    ensures var d := LockToRead(q, c).1.value;
      Waiting(q, d.id) && d.message == q.queue[d.id].(lockedBy := Some(c)) &&
      LockToRead(q, c).0.queue == q.queue[d.id := d.message] &&
      (Waiting(q, k) && k != d.id ==> Find(q.order, d.id) < Find(q.order, k) < |q.order|)
  {
    var id := q.next.value;
    if Waiting(q, k) && k != id {
      var i, j := Find(q.order, id), Find(q.order, k);
      assert id in q.order && k in q.order;
      SmallerIsEarlier(q.order, i, j);
    }
  }

  /** When a client is told that the queue is empty, no message is unlocked. */
  lemma EmptyIsTruthful(q: State, c: nat)
    requires CursorOk(q) && LockToRead(q, c).1 == Failed(QueueIsEmpty)
    ensures forall k :: !Waiting(q, k)
  {
    forall k ensures !Waiting(q, k) {
      if k in q.queue { assert k in q.order; }
    }
  }

  /** The guard is exact: an enqueue keeps the cursor invariant exactly when its id is ahead. */
  lemma EnqueueCursorIff(q: State, payload: seq<Bytes.byte>, publisher: nat, time: nat)
    requires CursorOk(q)
    ensures CursorOk(Enqueue(q, payload, publisher, time)) <==> AheadId(q)
  {
    var id, q' := NewId(q.order), Enqueue(q, payload, publisher, time);
    if AheadId(q) {
      EnqueueCursor(q, payload, publisher, time);
    }
    if CursorOk(q') {
      assert Waiting(q', id);
      forall i | 0 <= i < |q.order| && q.order[i] != 0
        ensures q.order[i] < id
      {
        assert q'.order[i] < q'.order[|q.order|];
      }
    }
  }

  /** Behind a nonzero tail the new id is ahead unless u128 wraps or the cursor dangles far above the
      tail; so otherwise the guard can only fail behind a tombstone tail. */
  lemma AheadIffTail(q: State)
    requires Ascending(q.order) && q.next != Some(0)
    requires q.order != [] && q.order[|q.order| - 1] != 0
    ensures var last := q.order[|q.order| - 1];
      AheadId(q) <==> last + 1 < U128 && (q.next.Some? ==> q.next.value <= last + 1)
  {
    var last := |q.order| - 1;
    if q.order[last] + 1 < U128 {
      forall i | 0 <= i < |q.order| && q.order[i] != 0
        ensures q.order[i] < NewId(q.order)
      {
        if i < last { assert q.order[i] < q.order[last]; }
      }
    } else {
      assert q.order[last] >= NewId(q.order);
    }
  }
}
