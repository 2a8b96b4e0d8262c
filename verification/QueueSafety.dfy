/** What holds in every state a queue can reach, whatever clients do and whichever ids collide. */
module QueueSafety {
  import opened Collections
  import opened Wrappers
  import opened QueueModel

  /** Every live message is in the order; a locked one is in its holder's list; 0 is never an id. */
  ghost predicate Safe(q: State) {
    (forall k | k in q.queue :: k != 0 && k in q.order) &&
    (forall k | k in q.queue && q.queue[k].lockedBy.Some? :: k in Held(q, q.queue[k].lockedBy.value)) &&
    (forall c | c in q.locked :: 0 !in q.locked[c]) &&
    q.next != Some(0)
  }

  lemma InitSafe()
    ensures Safe(EMPTY)
  {
  }

  lemma AfterIn(order: seq<nat>, x: nat)
    ensures After(order, x).Some? ==> After(order, x).value in order
  {
  }

  lemma RemoveZeroesKeeps(order: seq<nat>, k: nat)
    requires k != 0
    ensures k in RemoveZeroes(order) <==> k in order
  {
    var z := LeadingZeros(order);
    if k in order {
      var i :| 0 <= i < |order| && order[i] == k;
      assert z <= i;
      assert order[z..][i - z] == k;
    }
  }

  lemma EnqueueSafe(q: State, op: Op)
    requires Safe(q) && op.EnqueueOp?
    ensures Safe(Apply(q, op))
  {
    var q' := Apply(q, op);
    var id := NewId(q.order);
    assert q'.order[|q.order|] == id;
    forall k | k in q'.queue ensures k in q'.order {
      if k != id { assert k in q.order; }
    }
  }

  lemma LockSafe(q: State, c: nat)
    requires Safe(q)
    ensures Safe(LockToRead(q, c).0)
  {
    var q' := LockToRead(q, c).0;
    if LockRefusal(q).None? {
      var id := q.next.value;
      AfterIn(q.order, id);
      forall k | k in q'.queue ensures k in q'.order { RemoveZeroesKeeps(q.order, k); }
      forall k | k in q'.queue && q'.queue[k].lockedBy.Some?
        ensures k in Held(q', q'.queue[k].lockedBy.value)
      {
        if k == id {
          assert Held(q', c)[|Held(q, c)|] == id;
        }
      }
    }
  }

  lemma RemoveAtIn(s: seq<nat>, i: nat, k: nat)
    requires i < |s|
    ensures k in RemoveAt(s, i) ==> k in s
    ensures k in s && k != s[i] ==> k in RemoveAt(s, i)
  {
    if k in s && k != s[i] {
      var j :| 0 <= j < |s| && s[j] == k;
      assert RemoveAt(s, i)[if j < i then j else j - 1] == k;
    }
  }

  lemma TombstoneIn(order: seq<nat>, i: nat, k: nat)
    requires i < |order| && k != order[i] && k in order
    ensures k in order[i := 0]
  {
    var j :| 0 <= j < |order| && order[j] == k;
    assert order[i := 0][j] == k;
  }

  lemma DeleteSafe(q: State, c: nat, id: nat)
    requires Safe(q) && id in q.queue
    ensures Safe(DeleteById(q, c, id).0)
  {
    var q' := DeleteById(q, c, id).0;
    var (order, next) := Forget(q.order, q.next, id);
    AfterIn(q.order, id);
    var held := Held(q, c);
    var i := Find(held, id);
    forall k | k in q'.queue ensures k in q'.order {
      TombstoneIn(q.order, Find(q.order, id), k);
      RemoveZeroesKeeps(order, k);
    }
    forall k | k in q'.queue && q'.queue[k].lockedBy.Some?
      ensures k in Held(q', q'.queue[k].lockedBy.value)
    {
      if i < |held| { RemoveAtIn(held, i, k); }
    }
    if i < |held| { RemoveAtIn(held, i, 0); }
  }

  lemma AckSafe(q: State, c: nat)
    requires Safe(q)
    ensures Safe(AckFirst(q, c).0)
  {
    var q' := AckFirst(q, c).0;
    if c in q.locked && q.locked[c] != [] {
      var id := q.locked[c][0];
      var i := Find(q.order, id);
      forall k | k in q'.queue ensures k in q'.order {
        if i < |q.order| {
          TombstoneIn(q.order, i, k);
          RemoveZeroesKeeps(q.order[i := 0], k);
        } else {
          RemoveZeroesKeeps(q.order, k);
        }
      }
      forall k | k in q'.queue && q'.queue[k].lockedBy == Some(c)
        ensures k in Held(q', c)
      {
        assert k in q.locked[c] && k != id;
      }
    }
  }

  lemma ReleaseSafe(q: State, c: nat, id: nat)
    requires Safe(q) && id in Held(q, c)
    ensures Safe(Release(q, c, id))
  {
    var q' := Release(q, c, id);
    var held := Held(q, c);
    var i := Find(held, id);
    forall k | k in q'.queue && q'.queue[k].lockedBy.Some?
      ensures k in Held(q', q'.queue[k].lockedBy.value)
    {
      assert k in q.queue && q.queue[k].lockedBy == q'.queue[k].lockedBy && k != id;
      RemoveAtIn(held, i, k);
    }
    RemoveAtIn(held, i, 0);
  }

  lemma DequeueSafe(q: State, c: nat, id: Option<nat>)
    requires Safe(q)
    ensures Safe(Dequeue(q, c, id).0)
  {
    hide Safe, DeleteById, AckFirst;
    if id.Some? && id.value in q.queue { DeleteSafe(q, c, id.value); }
    AckSafe(q, c);
  }

  lemma UnlockSafe(q: State, c: nat, id: Option<nat>)
    requires Safe(q)
    ensures Safe(Unlock(q, c, id).0)
  {
    hide Safe, Release;
    if c in q.locked {
      if id.Some? && id.value in q.locked[c] { ReleaseSafe(q, c, id.value); }
      if q.locked[c] != [] { ReleaseSafe(q, c, q.locked[c][0]); }
    }
  }

  lemma UpdateSafe(q: State, id: nat, payload: seq<Bytes.byte>)
    requires Safe(q)
    ensures Safe(Update(q, id, payload).0)
  {
  }

  lemma RequeueSafe(q: State, c: nat, id: nat, time: nat)
    requires Safe(q)
    ensures Safe(Requeue(q, c, id, time).0)
  {
    if id in q.queue {
      var m := q.queue[id];
      EnqueueSafe(q, EnqueueOp(m.payload, m.publisher, time));
      hide Safe, Dequeue, Enqueue;
      DequeueSafe(Enqueue(q, m.payload, m.publisher, time), c, Some(id));
    }
  }

  /** Every operation, from any client and with any id, keeps `Safe`. */
  lemma ApplySafe(q: State, op: Op)
    requires Safe(q)
    ensures Safe(Apply(q, op))
  {
    hide Safe;
    match op
    case EnqueueOp(_, _, _) => EnqueueSafe(q, op);
    case LockOp(c) => LockSafe(q, c);
    case AckOp(c) => DequeueSafe(q, c, None);
    case DeleteOp(c, id) => DequeueSafe(q, c, Some(id));
    case NackOp(c) => UnlockSafe(q, c, None);
    case ExpireOp(c, id) => UnlockSafe(q, c, Some(id));
    case RequeueOp(c, id, time) => RequeueSafe(q, c, id, time);
    case UpdateOp(id, payload) => UpdateSafe(q, id, payload);
  }

  /** Hence every run: all live messages stay in the order, every locked one in its holder's list,
      and an empty order means an empty queue. */
  lemma {:induction false} EveryRunSafe(q: State, ops: seq<Op>)
    requires Safe(q)
    ensures Safe(Run(q, ops))
    ensures Run(q, ops).order == [] ==> Run(q, ops).queue == map[]
    decreases |ops|
  {
    if ops == [] {
      assert q.order == [] ==> forall k | k in q.queue :: false;
    } else {
      ApplySafe(q, ops[0]);
      EveryRunSafe(Apply(q, ops[0]), ops[1..]);
    }
  }
}
