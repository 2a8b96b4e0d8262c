/** Operation by operation, what the invariants together guarantee: `Safe` without any guard, the
    agreement of the structures and the cursor invariant under theirs. */
module QueueKeeps {
  import opened Collections
  import opened Wrappers
  import opened QueueModel
  import opened QueueSafety
  import opened QueueAgreement
  import opened QueueCursor
  import opened QueueFrame
  import opened QueueRequeue
  import opened QueueSpec

  lemma EnqueueKeeps(q: State, payload: seq<Bytes.byte>, publisher: nat, time: nat)
    requires Safe(q)
    ensures var q' := Enqueue(q, payload, publisher, time);
      Safe(q') &&
      (Agree(q) ==> (Agree(q') <==> FreshId(q))) &&
      (CursorOk(q) ==> (CursorOk(q') <==> AheadId(q))) && Enqueued(q, payload, publisher, time, q')
  {
    EnqueueDoes(q, payload, publisher, time);
    EnqueueSafe(q, EnqueueOp(payload, publisher, time));
    if Agree(q) { EnqueueAgreesIff(q, payload, publisher, time); }
    if CursorOk(q) { EnqueueCursorIff(q, payload, publisher, time); }
  }

  /** An answer "empty" is the truth; a delivered message was unlocked, and all other unlocked ones are
      behind it. */
  ghost predicate Oldest(q: State, r: Outcome<Delivery>) {
    (r == Failed(QueueIsEmpty) ==> forall k :: !Waiting(q, k)) &&
    (r.Done? ==>
      Waiting(q, r.value.id) &&
      forall k | Waiting(q, k) && k != r.value.id ::
        Find(q.order, r.value.id) < Find(q.order, k) < |q.order|)
  }

  lemma LockIsOldest(q: State, c: nat)
    requires CursorOk(q)
    ensures Oldest(q, LockToRead(q, c).1)
  {
    var r := LockToRead(q, c).1;
    hide CursorOk, LockToRead, Waiting;
    if r == Failed(QueueIsEmpty) { EmptyIsTruthful(q, c); }
    if r.Done? {
      DeliversOldest(q, c, 0);
      forall k | Waiting(q, k) && k != r.value.id
        ensures Find(q.order, r.value.id) < Find(q.order, k) < |q.order|
      {
        DeliversOldest(q, c, k);
      }
    }
  }

  lemma LockKeeps(q: State, c: nat)
    requires Safe(q)
    ensures var (q', r) := LockToRead(q, c);
      Safe(q') && (Agree(q) ==> Agree(q')) && (CursorOk(q) ==> CursorOk(q') && Oldest(q, r)) &&
      (r.Failed? ==> q' == q) && Delivered(q, c, q', r)
  {
    hide Safe, Agree, CursorOk, LockToRead, Oldest, Delivered;
    LockDoes(q, c);
    LockSafe(q, c);
    if Agree(q) { LockAgrees(q, c); }
    if CursorOk(q) {
      LockCursor(q, c);
      LockIsOldest(q, c);
    }
    RefusalChangesNothing(q, c, None, 0, 0, []);
  }

  lemma DeleteKeeps(q: State, c: nat, id: nat)
    requires Safe(q) && id in q.queue
    ensures var q' := DeleteById(q, c, id).0;
      Safe(q') && (Agree(q) ==> (Agree(q') <==> OwnOrUnlocked(q, c, id))) && (CursorOk(q) ==> CursorOk(q')) &&
      Deleted(q, c, id, q', DeleteById(q, c, id).1)
  {
    hide Safe, Agree, CursorOk, DeleteById, Deleted, OwnOrUnlocked;
    DeleteDoes(q, c, id);
    DeleteSafe(q, c, id);
    if Agree(q) { DeleteAgreesIff(q, c, id); }
    if CursorOk(q) { DeleteCursor(q, c, id); }
  }

  /** What a success has taken away, and the size reported. */
  predicate TakesOne(q: State, q': State, c: nat, id: Option<nat>, size: nat) {
    var k := if id.Some? && id.value in q.queue then id.value else if Held(q, c) != [] then Held(q, c)[0] else 0;
    k in q.queue && size == |q.queue[k].payload| && q'.queue == Without(q.queue, k)
  }

  lemma DequeueTakes(q: State, c: nat, id: Option<nat>)
    requires Dequeue(q, c, id).1.Done?
    ensures TakesOne(q, Dequeue(q, c, id).0, c, id, Dequeue(q, c, id).1.value)
  {
    assert (id.Some? && id.value in q.queue) || Held(q, c) != [] by { hide DeleteById, RemoveZeroes, Find; }
    hide Dequeue, Held, Without;
    DequeueTakesOne(q, c, id, Dequeue(q, c, id).1.value);
  }

  lemma DequeueOthers(q: State, c: nat, id: Option<nat>, d: nat)
    requires d != c
    ensures Held(Dequeue(q, c, id).0, d) == Held(q, d)
  {
    hide Dequeue, Held;
    if id.Some? { OtherListsUntouched(q, DeleteOp(c, id.value), d); } else { OtherListsUntouched(q, AckOp(c), d); }
  }

  lemma DequeueKeeps(q: State, c: nat, id: Option<nat>)
    requires Safe(q)
    ensures var (q', r) := Dequeue(q, c, id);
      Safe(q') && (CursorOk(q) ==> CursorOk(q')) &&
      (Agree(q) && (id.Some? ==> OwnOrUnlocked(q, c, id.value)) ==> Agree(q') && !r.Panicked?) &&
      (r.Failed? ==> q' == q) &&
      (r.Done? ==> TakesOne(q, q', c, id, r.value)) && Dequeued(q, c, id, q', r) &&
      forall d | d != c :: Held(q', d) == Held(q, d)
  {
    hide Safe, Agree, CursorOk, Dequeue, OwnOrUnlocked, Held, TakesOne, Dequeued;
    DequeueDoes(q, c, id);
    if Dequeue(q, c, id).1.Done? { DequeueTakes(q, c, id); }
    DequeueSafe(q, c, id);
    if Agree(q) && (id.Some? ==> OwnOrUnlocked(q, c, id.value)) { DequeueAgrees(q, c, id); }
    if CursorOk(q) { DequeueCursor(q, c, id); }
    RefusalChangesNothing(q, c, id, 0, 0, []);
    forall d | d != c { DequeueOthers(q, c, id, d); }
  }

  lemma UnlockKeeps(q: State, c: nat, id: Option<nat>)
    requires Safe(q)
    ensures var (q', r) := Unlock(q, c, id);
      Safe(q') && (Agree(q) ==> Agree(q')) && (CursorOk(q) ==> CursorOk(q')) && (r.Failed? ==> q' == q) &&
      GaveBack(q, c, id, q', r) &&
      forall k | k in q.queue :: k in q'.queue && q'.queue[k].(lockedBy := q.queue[k].lockedBy) == q.queue[k]
  {
    hide Safe, Agree, CursorOk, Unlock, GaveBack;
    UnlockDoes(q, c, id);
    UnlockSafe(q, c, id);
    if Agree(q) { UnlockAgrees(q, c, id); }
    if CursorOk(q) { UnlockCursor(q, c, id); }
    forall k | k in q.queue { UnlockKeepsContent(q, c, id, k); }
    RefusalChangesNothing(q, c, id, 0, 0, []);
  }

  lemma ExpireKeeps(q: State, c: nat, id: nat)
    requires Safe(q)
    ensures var q' := Expire(q, c, id);
      Safe(q') && (Agree(q) ==> Agree(q')) && (CursorOk(q) ==> CursorOk(q')) && Expired(q, c, id, q')
  {
    hide Safe, Agree, CursorOk, Unlock, GaveBack, Expired;
    ExpireDoes(q, c, id);
    UnlockKeeps(q, c, Some(id));
  }

  lemma RequeueKeeps(q: State, c: nat, id: nat, time: nat)
    requires Safe(q)
    ensures var (q', r) := Requeue(q, c, id, time);
      Safe(q') &&
      (Agree(q) && Guarded(q, RequeueOp(c, id, time)) ==> Agree(q') && !r.Panicked?) &&
      (CursorOk(q) && Ahead(q, RequeueOp(c, id, time)) ==> CursorOk(q')) &&
      (Movable(q, c, id) ==> r == Done(()) && Moved(q, q', c, id, time)) &&
      (r.Failed? ==> q' == q) && Requeued(q, c, id, time, q', r)
  {
    var op := RequeueOp(c, id, time);
    assert Guarded(q, op) ==> (id in q.queue ==> FreshId(q) && OwnOrUnlocked(q, c, id));
    assert Ahead(q, op) ==> (id in q.queue ==> AheadId(q));
    hide Safe, Agree, CursorOk, Requeue, Moved, AheadId, FreshId, OwnOrUnlocked, Requeued;
    RequeueDoes(q, c, id, time);
    RequeueSafe(q, c, id, time);
    if Agree(q) && Guarded(q, op) { RequeueAgrees(q, c, id, time); }
    if CursorOk(q) && Ahead(q, op) { RequeueCursor(q, c, id, time); }
    if Movable(q, c, id) { RequeueIsMove(q, c, id, time); }
    RefusalChangesNothing(q, c, None, id, time, []);
  }

  lemma UpdateKeeps(q: State, id: nat, payload: seq<Bytes.byte>)
    requires Safe(q)
    ensures var (q', r) := Update(q, id, payload);
      Safe(q') && (Agree(q) ==> Agree(q')) && (CursorOk(q) ==> CursorOk(q')) && (r.Failed? ==> q' == q) &&
      Updated(q, id, payload, q', r) &&
      forall k | k != id :: (k in q'.queue <==> k in q.queue) && (k in q.queue ==> q'.queue[k] == q.queue[k])
  {
    hide Safe, Agree, CursorOk, Update, Updated;
    UpdateDoes(q, id, payload);
    UpdateSafe(q, id, payload);
    if Agree(q) { UpdateAgrees(q, id, payload); }
    if CursorOk(q) { UpdateCursor(q, id, payload); }
    forall k | k != id
      ensures (k in Update(q, id, payload).0.queue <==> k in q.queue) &&
              (k in q.queue ==> Update(q, id, payload).0.queue[k] == q.queue[k])
    {
      OthersUntouched(q, UpdateOp(id, payload), k);
    }
    RefusalChangesNothing(q, 0, None, id, 0, payload);
  }
}
