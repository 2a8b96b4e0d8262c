/** One broker queue as a value, and each of its operations as a function on it
    (src/net/queue.rs:160-482). The class in `BrokerQueue` implements them in place. */
module QueueModel {
  import opened Collections
  import opened Wrappers
  import opened Bytes

  /** One more than `u128::MAX`. */
  const U128 := 0x1_0000_0000_0000_0000_0000_0000_0000_0000

  datatype Message = Message(payload: seq<byte>, publisher: nat, timestamp: nat, lockedBy: Option<nat>)

  /** `order` holds message ids in arrival order with 0 as a tombstone, `locked` the ids each client
      holds, `next` the cursor of the next delivery. */
  datatype State = State(order: seq<nat>, queue: map<nat, Message>, locked: map<nat, seq<nat>>, next: Option<nat>)

  datatype Error =
    | QueueIsEmpty
    | NoSuchMessageId
    | AlreadyLocked
    | NotLockedByClient
    | NoSuchMessageIdLocked
    | NotInQueue

  /** `Panicked` is a failed `unwrap`; the state is as the statements before it left it. */
  datatype Outcome<+T> = Done(value: T) | Failed(error: Error) | Panicked

  datatype Delivery = Delivery(id: nat, message: Message)

  const EMPTY := State([], map[], map[], None)

  // ---- Helpers ----

  /** Position of the first `x`, or the length. */
  function Find(s: seq<nat>, x: nat): (i: nat)
    ensures i <= |s| && (i < |s| ==> s[i] == x) && forall j | 0 <= j < i :: s[j] != x
    ensures i < |s| <==> x in s
  {
    if s == [] then 0 else if s[0] == x then 0 else 1 + Find(s[1..], x)
  }

  function FirstNonzero(s: seq<nat>): (r: Option<nat>)
    ensures r.Some? ==> r.value in s && r.value != 0
    ensures r.None? ==> forall i | 0 <= i < |s| :: s[i] == 0
  {
    if s == [] then None else if s[0] != 0 then Some(s[0]) else FirstNonzero(s[1..])
  }

  /** Number of tombstones the sequence starts with. */
  function LeadingZeros(s: seq<nat>): (n: nat)
    ensures n <= |s| && forall i | 0 <= i < n :: s[i] == 0
    ensures n < |s| ==> s[n] != 0
  {
    if s == [] || s[0] != 0 then 0 else 1 + LeadingZeros(s[1..])
  }

  /** The ids a client holds. */
  function Held(q: State, client: nat): seq<nat> {
    if client in q.locked then q.locked[client] else []
  }

  /** src/net/queue.rs:184-198: the id the next message gets; u128 wraps around and skips 0. */
  function NewId(order: seq<nat>): nat {
    if order == [] then 1
    else if order[|order| - 1] + 1 >= U128 then 1
    else order[|order| - 1] + 1
  }

  /** src/net/queue.rs:470-482. */
  function RemoveZeroes(order: seq<nat>): seq<nat> {
    if |order| < 10 then order
    else
      var z := LeadingZeros(order);
      if z == |order| then [] else if z >= 9 then order[z..] else order
  }

  /** The element behind the first `x`. */
  function After(order: seq<nat>, x: nat): Option<nat> {
    var i := Find(order, x);
    if i + 1 < |order| then Some(order[i + 1]) else None
  }

  /** A cursor that would rest on a tombstone goes to the first nonzero entry instead. */
  function SkipTombstone(order: seq<nat>, next: Option<nat>): Option<nat> {
    if next == Some(0) then FirstNonzero(order) else next
  }

  // ---- Operations ----

  function Enqueue(q: State, payload: seq<byte>, publisher: nat, time: nat): State {
    var id := NewId(q.order);
    State(q.order + [id], q.queue[id := Message(payload, publisher, time, None)], q.locked,
          if q.next.None? then Some(id) else q.next)
  }

  function LockRefusal(q: State): Option<Error> {
    if q.order == [] || q.next.None? then Some(QueueIsEmpty)
    else if q.next.value !in q.queue then Some(NoSuchMessageId)
    else if q.queue[q.next.value].lockedBy.Some? then Some(AlreadyLocked)
    else None
  }

  function LockToRead(q: State, client: nat): (State, Outcome<Delivery>) {
    var refusal := LockRefusal(q);
    if refusal.Some? then (q, Failed(refusal.value))
    else
      var id := q.next.value;
      var message := q.queue[id].(lockedBy := Some(client));
      var next := SkipTombstone(q.order, After(q.order, id));
      (State(if next.None? then RemoveZeroes(q.order) else q.order,
             q.queue[id := message], q.locked[client := Held(q, client) + [id]], next),
       Done(Delivery(id, message)))
  }

  /** Tombstoning an entry, and moving the cursor off it. */
  function Forget(order: seq<nat>, next: Option<nat>, id: nat): (seq<nat>, Option<nat>) {
    var i := Find(order, id);
    if i == |order| then (order, next)
    else
      var order' := order[i := 0];
      (order', SkipTombstone(order', if next == Some(id) then After(order, id) else next))
  }

  function DeleteById(q: State, client: nat, id: nat): (State, Outcome<nat>)
    requires id in q.queue
  {
    var (order, next) := Forget(q.order, q.next, id);
    var held := Held(q, client);
    var i := Find(held, id);
    (if i < |held| then State(RemoveZeroes(order), Without(q.queue, id), q.locked[client := RemoveAt(held, i)], next)
     else State(order, Without(q.queue, id), q.locked, next),
     Done(|q.queue[id].payload|))
  }

  /** Acknowledging the client's first lock leaves the cursor alone. */
  function AckFirst(q: State, client: nat): (State, Outcome<nat>) {
    if client !in q.locked then (q, Failed(NotLockedByClient))
    else if q.locked[client] == [] then (q, Failed(NoSuchMessageIdLocked))
    else
      var id := q.locked[client][0];
      var i := Find(q.order, id);
      var order := if i < |q.order| then q.order[i := 0] else q.order;
      (State(RemoveZeroes(order), Without(q.queue, id), q.locked[client := q.locked[client][1..]], q.next),
       if id in q.queue then Done(|q.queue[id].payload|) else Panicked)
  }

  /** src/net/queue.rs:256-320: an unknown id falls through to acknowledging the first lock. */
  function Dequeue(q: State, client: nat, id: Option<nat>): (State, Outcome<nat>) {
    if q.order == [] then (q, Failed(QueueIsEmpty))
    else if id.Some? && id.value in q.queue then DeleteById(q, client, id.value)
    else AckFirst(q, client)
  }

  function IsLocked(q: State, client: nat, id: nat): bool {
    id in Held(q, client)
  }

  function Unlocked(m: map<nat, Message>, id: nat): map<nat, Message> {
    if id in m then m[id := m[id].(lockedBy := None)] else m
  }

  function Release(q: State, client: nat, id: nat): State
    requires id in Held(q, client)
  {
    State(q.order, Unlocked(q.queue, id), q.locked[client := RemoveAt(Held(q, client), Find(Held(q, client), id))],
          if q.next.None? || id < q.next.value then Some(id) else q.next)
  }

  function Unlock(q: State, client: nat, id: Option<nat>): (State, Outcome<()>) {
    if q.order == [] then (q, Failed(QueueIsEmpty))
    else if client !in q.locked then (q, Failed(NotLockedByClient))
    else if id.Some? && id.value !in q.locked[client] then (q, Failed(NotLockedByClient))
    else if id.None? && q.locked[client] == [] then (q, Done(()))
    else (Release(q, client, if id.Some? then id.value else q.locked[client][0]), Done(()))
  }

  /** src/net/server.rs:342-353: the timer unlocks a message only when it is still held. */
  function Expire(q: State, client: nat, id: nat): State {
    if IsLocked(q, client, id) then Unlock(q, client, Some(id)).0 else q
  }

  function Requeue(q: State, client: nat, id: nat, time: nat): (State, Outcome<()>) {
    if q.order == [] then (q, Failed(QueueIsEmpty))
    else if id !in q.queue then (q, Failed(NotInQueue))
    else
      var (q', r) := Dequeue(Enqueue(q, q.queue[id].payload, q.queue[id].publisher, time), client, Some(id));
      (q', match r case Done(_) => Done(()) case Failed(e) => Failed(e) case Panicked => Panicked)
  }

  function Update(q: State, id: nat, payload: seq<byte>): (State, Outcome<()>) {
    if q.order == [] then (q, Failed(QueueIsEmpty))
    else if id !in q.queue then (q, Failed(NotInQueue))
    else (q.(queue := q.queue[id := q.queue[id].(payload := payload)]), Done(()))
  }

  // ---- Runs ----

  datatype Op =
    | EnqueueOp(payload: seq<byte>, publisher: nat, time: nat)
    | LockOp(client: nat)
    | AckOp(client: nat)
    | DeleteOp(client: nat, id: nat)
    | NackOp(client: nat)
    | ExpireOp(client: nat, id: nat)
    | RequeueOp(client: nat, id: nat, time: nat)
    | UpdateOp(id: nat, payload: seq<byte>)

  function Apply(q: State, op: Op): State {
    match op
    case EnqueueOp(payload, publisher, time) => Enqueue(q, payload, publisher, time)
    case LockOp(c) => LockToRead(q, c).0
    case AckOp(c) => Dequeue(q, c, None).0
    case DeleteOp(c, id) => Dequeue(q, c, Some(id)).0
    case NackOp(c) => Unlock(q, c, None).0
    case ExpireOp(c, id) => Expire(q, c, id)
    case RequeueOp(c, id, time) => Requeue(q, c, id, time).0
    case UpdateOp(id, payload) => Update(q, id, payload).0
  }

  function Run(q: State, ops: seq<Op>): State
    decreases |ops|
  {
    if ops == [] then q else Run(Apply(q, ops[0]), ops[1..])
  }
}
