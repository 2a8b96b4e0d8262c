/** What an operation can change: the messages it is about and the caller's own lock list. */
module QueueFrame {
  import opened Wrappers
  import opened Bytes
  import opened Collections
  import opened QueueModel

  /** The message an acknowledgement or negative acknowledgement without an id is about. */
  function OldestLock(q: State, c: nat): set<nat> {
    if Held(q, c) == [] then {} else {Held(q, c)[0]}
  }

  /** The messages an operation is about. */
  function Touched(q: State, op: Op): set<nat> {
    match op
    case EnqueueOp(_, _, _) => {NewId(q.order)}
    case LockOp(_) => if q.next.Some? then {q.next.value} else {}
    case AckOp(c) => OldestLock(q, c)
    case DeleteOp(c, id) => if id in q.queue then {id} else OldestLock(q, c)
    case NackOp(c) => OldestLock(q, c)
    case ExpireOp(_, id) => {id}
    case RequeueOp(_, id, _) => {id, NewId(q.order)}
    case UpdateOp(id, _) => {id}
  }

  function Caller(op: Op): Option<nat> {
    match op
    case EnqueueOp(_, _, _) => None
    case LockOp(c) => Some(c)
    case AckOp(c) => Some(c)
    case DeleteOp(c, _) => Some(c)
    case NackOp(c) => Some(c)
    case ExpireOp(c, _) => Some(c)
    case RequeueOp(c, _, _) => Some(c)
    case UpdateOp(_, _) => None
  }

  /** Every other message stays as it is, and stays absent if it was. */
  lemma OthersUntouched(q: State, op: Op, k: nat)
    requires k !in Touched(q, op)
    ensures k in Apply(q, op).queue <==> k in q.queue
    ensures k in q.queue ==> Apply(q, op).queue[k] == q.queue[k]
  {
    hide RemoveZeroes, Find, FirstNonzero, After, RemoveAt, NewId;
  }

  /** Every other client's list of locks stays as it is. */
  lemma OtherListsUntouched(q: State, op: Op, d: nat)
    requires Caller(op) != Some(d)
    ensures Held(Apply(q, op), d) == Held(q, d)
  {
    hide RemoveZeroes, Find, FirstNonzero, After, RemoveAt, NewId, Without;
  }

  /** A successful acknowledgement or deletion takes away exactly one message, the one named if it is
      live and else the caller's oldest lock, and reports its payload size. */
  lemma DequeueTakesOne(q: State, c: nat, id: Option<nat>, n: nat)
    requires Dequeue(q, c, id).1 == Done(n)
    ensures var k := if id.Some? && id.value in q.queue then id.value else Held(q, c)[0];
      k in q.queue && n == |q.queue[k].payload| && Dequeue(q, c, id).0.queue == Without(q.queue, k)
  {
    hide RemoveZeroes, Find, FirstNonzero, After, RemoveAt;
  }

  /** Giving a message back, by request or by timer, changes nothing of it but the lock. */
  lemma UnlockKeepsContent(q: State, c: nat, id: Option<nat>, k: nat)
    requires k in q.queue
    ensures var q' := Unlock(q, c, id).0;
      k in q'.queue && q'.queue[k].(lockedBy := q.queue[k].lockedBy) == q.queue[k] && q'.order == q.order
  {
    hide Find, RemoveAt;
  }

  /** A refused operation changes nothing. */
  lemma RefusalChangesNothing(q: State, c: nat, id: Option<nat>, k: nat, time: nat, payload: seq<byte>)
    ensures LockToRead(q, c).1.Failed? ==> LockToRead(q, c).0 == q
    ensures Dequeue(q, c, id).1.Failed? ==> Dequeue(q, c, id).0 == q
    ensures Unlock(q, c, id).1.Failed? ==> Unlock(q, c, id).0 == q
    ensures Requeue(q, c, k, time).1.Failed? ==> Requeue(q, c, k, time).0 == q
    ensures Update(q, k, payload).1.Failed? ==> Update(q, k, payload).0 == q
  {
    hide RemoveZeroes, Find, FirstNonzero, After, RemoveAt, NewId, Without;
  }
}
