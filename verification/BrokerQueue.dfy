/** The queue updated in place (src/net/queue.rs:160-482), against the functions of `QueueModel`. Every
    operation keeps `Safe`, and under its guard the agreement of the structures and the cursor invariant. */
module BrokerQueue {
  import opened Collections
  import opened Wrappers
  import opened Bytes
  import opened QueueModel
  import opened QueueSafety
  import opened QueueAgreement
  import opened QueueCursor
  import opened QueueRequeue
  import opened QueueKeeps
  import opened QueueSpec
  import opened Payloads

  class Queue {
    var order: seq<nat>
    var queue: map<nat, Message>
    var locked: map<nat, seq<nat>>
    var nextId: Option<nat>
    const biggestPayloads: array<nat>
    /** The payload sizes of all scans so far. */
    ghost var scanned: multiset<nat>

    function Abs(): State
      reads this
    {
      State(order, queue, locked, nextId)
    }

    ghost predicate Valid()
      reads this, biggestPayloads
    {
      Safe(Abs()) && TopFive(biggestPayloads[..], scanned + multiset{0, 0, 0, 0, 0})
    }

    constructor ()
      ensures Valid() && Abs() == EMPTY && scanned == multiset{}
    {
      order, queue, locked, nextId := [], map[], map[], None;
      biggestPayloads := new nat[5](_ => 0);
      scanned := multiset{};
      new;
      assert biggestPayloads[..] == [0, 0, 0, 0, 0];
      ZerosAreTop();
      InitSafe();
    }

    /** src/net/queue.rs:183-206. */
    method Enqueue(payload: seq<byte>, publisher: nat, time: nat)
      requires Valid()
      modifies `order, `queue, `nextId
      ensures Valid() && Abs() == QueueModel.Enqueue(old(Abs()), payload, publisher, time)
      ensures Enqueued(old(Abs()), payload, publisher, time, Abs())
      ensures Agree(old(Abs())) ==> (Agree(Abs()) <==> FreshId(old(Abs())))
      ensures CursorOk(old(Abs())) ==> (CursorOk(Abs()) <==> AheadId(old(Abs())))
    {
      hide Safe, TopFive, Agree, CursorOk, AheadId, FreshId, Enqueued;
      EnqueueKeeps(Abs(), payload, publisher, time);
      var id := 1;
      if order != [] {
        id := order[|order| - 1] + 1;
        if id >= U128 { id := 0; }
        if id == 0 { id := 1; }
      }
      if nextId.None? { nextId := Some(id); }
      order := order + [id];
      queue := queue[id := Message(payload, publisher, time, None)];
    }

    /** src/net/queue.rs:470-482. */
    method RemoveZeroes()
      modifies `order
      ensures order == QueueModel.RemoveZeroes(old(order)) && LiveIds(order) == LiveIds(old(order))
      ensures Drains(old(order), order)
    {
      hide LiveIds, Drains;
      LiveDrained(order);
      DrainsIs(order);
      if |order| >= 10 {
        var z := LeadingZeros(order);
        if z < |order| {
          if z >= 9 { order := order[z..]; }
        } else {
          order := [];
        }
      }
    }

    /** src/net/queue.rs:207-255. */
    method LockToRead(client: nat) returns (r: Outcome<Delivery>)
      requires Valid()
      modifies `order, `queue, `locked, `nextId
      ensures Valid() && (Abs(), r) == QueueModel.LockToRead(old(Abs()), client)
      ensures Delivered(old(Abs()), client, Abs(), r)
      ensures Agree(old(Abs())) ==> Agree(Abs())
      ensures CursorOk(old(Abs())) ==> CursorOk(Abs()) && Oldest(old(Abs()), r)
      ensures r.Failed? ==> Abs() == old(Abs())
    {
      hide Safe, TopFive, Agree, CursorOk, QueueModel.RemoveZeroes, Oldest, Delivered;
      LockKeeps(Abs(), client);
      if order == [] || nextId.None? { return Failed(QueueIsEmpty); }
      var id := nextId.value;
      if id !in queue { return Failed(NoSuchMessageId); }
      if queue[id].lockedBy.Some? { return Failed(AlreadyLocked); }
      queue := queue[id := queue[id].(lockedBy := Some(client))];
      var messageIds := if client in locked then locked[client] else [];
      locked := locked[client := messageIds + [id]];
      r := Done(Delivery(id, queue[id]));
      nextId := After(order, id);
      if nextId == Some(0) { nextId := FirstNonzero(order); }
      if nextId.None? { RemoveZeroes(); }
    }

    /** src/net/queue.rs:261-296: the branch for a live message named by id. */
    method DeleteById(client: nat, id: nat) returns (r: Outcome<nat>)
      requires Valid() && id in queue
      modifies `order, `queue, `locked, `nextId
      ensures Valid() && (Abs(), r) == QueueModel.DeleteById(old(Abs()), client, id)
      ensures Deleted(old(Abs()), client, id, Abs(), r)
      ensures Agree(old(Abs())) ==> (Agree(Abs()) <==> OwnOrUnlocked(old(Abs()), client, id))
      ensures CursorOk(old(Abs())) ==> CursorOk(Abs())
    {
      hide Safe, TopFive, Agree, CursorOk, QueueModel.RemoveZeroes, Without, RemoveAt, LiveIds;
      ghost var q := Abs();
      var i := Find(order, id);
      if i < |order| {
        if nextId == Some(order[i]) { nextId := if i + 1 < |order| then Some(order[i + 1]) else None; }
        order := order[i := 0];
        if nextId == Some(0) { nextId := FirstNonzero(order); }
      }
      r := Done(|queue[id].payload|);
      queue := Without(queue, id);
      if client in locked {
        var j := Find(locked[client], id);
        if j < |locked[client]| {
          locked := locked[client := RemoveAt(locked[client], j)];
          RemoveZeroes();
        }
      }
      assert (Abs(), r) == QueueModel.DeleteById(q, client, id);
      hide QueueModel.DeleteById, OwnOrUnlocked, Deleted;
      DeleteKeeps(q, client, id);
    }

    /** src/net/queue.rs:256-320. */
    method Dequeue(client: nat, messageId: Option<nat>) returns (r: Outcome<nat>)
      requires Valid()
      modifies `order, `queue, `locked, `nextId
      ensures Valid() && (Abs(), r) == QueueModel.Dequeue(old(Abs()), client, messageId)
      ensures Dequeued(old(Abs()), client, messageId, Abs(), r)
      ensures Agree(old(Abs())) && (messageId.Some? ==> OwnOrUnlocked(old(Abs()), client, messageId.value)) ==>
        Agree(Abs()) && !r.Panicked?
      ensures CursorOk(old(Abs())) ==> CursorOk(Abs())
      ensures r.Failed? ==> Abs() == old(Abs())
      ensures r.Done? ==> TakesOne(old(Abs()), Abs(), client, messageId, r.value)
      ensures forall d | d != client :: Held(Abs(), d) == Held(old(Abs()), d)
    {
      hide Safe, TopFive, Agree, CursorOk, QueueModel.RemoveZeroes, Without, QueueModel.DeleteById, OwnOrUnlocked,
        TakesOne, Dequeued, Deleted;
      DequeueKeeps(Abs(), client, messageId);
      if order == [] { return Failed(QueueIsEmpty); }
      if messageId.Some? && messageId.value in queue {
        r := DeleteById(client, messageId.value);
        return;
      }
      if client !in locked { return Failed(NotLockedByClient); }
      if locked[client] == [] { return Failed(NoSuchMessageIdLocked); }
      var id := locked[client][0];
      r := if id in queue then Done(|queue[id].payload|) else Panicked;
      queue := Without(queue, id);
      locked := locked[client := locked[client][1..]];
      var i := Find(order, id);
      if i < |order| { order := order[i := 0]; }
      RemoveZeroes();
    }

    /** src/net/queue.rs:321-335. */
    method IsLocked(client: nat, messageId: nat) returns (r: bool)
      ensures r <==> client in locked && messageId in locked[client]
    {
      r := client in locked && messageId in locked[client];
    }

    /** src/net/queue.rs:336-379. */
    method Unlock(client: nat, messageId: Option<nat>) returns (r: Outcome<()>)
      requires Valid()
      modifies `queue, `locked, `nextId
      ensures Valid() && (Abs(), r) == QueueModel.Unlock(old(Abs()), client, messageId)
      ensures GaveBack(old(Abs()), client, messageId, Abs(), r)
      ensures Agree(old(Abs())) ==> Agree(Abs())
      ensures CursorOk(old(Abs())) ==> CursorOk(Abs())
      ensures r.Failed? ==> Abs() == old(Abs())
      ensures forall k | k in old(queue) :: k in queue && queue[k].(lockedBy := old(queue)[k].lockedBy) == old(queue)[k]
    {
      hide Safe, TopFive, Agree, CursorOk, RemoveAt, GaveBack;
      UnlockKeeps(Abs(), client, messageId);
      if order == [] { return Failed(QueueIsEmpty); }
      if client !in locked { return Failed(NotLockedByClient); }
      var ids := locked[client];
      var found := None;
      if messageId.Some? {
        if messageId.value !in ids { return Failed(NotLockedByClient); }
        found := messageId;
      } else if ids != [] {
        found := Some(ids[0]);
      }
      if found.Some? {
        var id := found.value;
        locked := locked[client := RemoveAt(ids, Find(ids, id))];
        if id in queue { queue := queue[id := queue[id].(lockedBy := None)]; }
        if nextId.Some? {
          if id < nextId.value { nextId := Some(id); }
        } else {
          nextId := Some(id);
        }
      }
      r := Done(());
    }

    /** src/net/server.rs:342-353: the timer of a delivery runs out. */
    method AutoFail(client: nat, messageId: nat)
      requires Valid()
      modifies `queue, `locked, `nextId
      ensures Valid() && Abs() == Expire(old(Abs()), client, messageId)
      ensures Expired(old(Abs()), client, messageId, Abs())
      ensures Agree(old(Abs())) ==> Agree(Abs())
      ensures CursorOk(old(Abs())) ==> CursorOk(Abs())
    {
      hide Safe, TopFive, Agree, CursorOk, QueueModel.Unlock, GaveBack, Expired;
      ExpireKeeps(Abs(), client, messageId);
      var held := IsLocked(client, messageId);
      if held { var r := Unlock(client, Some(messageId)); }
    }

    /** src/net/queue.rs:380-400. */
    method Requeue(client: nat, messageId: nat, time: nat) returns (r: Outcome<()>)
      requires Valid()
      modifies `order, `queue, `locked, `nextId
      ensures Valid() && (Abs(), r) == QueueModel.Requeue(old(Abs()), client, messageId, time)
      ensures Requeued(old(Abs()), client, messageId, time, Abs(), r)
      ensures Agree(old(Abs())) && Guarded(old(Abs()), RequeueOp(client, messageId, time)) ==>
        Agree(Abs()) && !r.Panicked?
      ensures CursorOk(old(Abs())) && Ahead(old(Abs()), RequeueOp(client, messageId, time)) ==> CursorOk(Abs())
      ensures Movable(old(Abs()), client, messageId) ==>
        r == Done(()) && Moved(old(Abs()), Abs(), client, messageId, time)
      ensures r.Failed? ==> Abs() == old(Abs())
    {
      hide Safe, TopFive, Agree, CursorOk, Guarded, Ahead, QueueModel.Dequeue, Movable, Moved, Held, TakesOne;
      hide Requeued, Enqueued, Dequeued;
      RequeueKeeps(Abs(), client, messageId, time);
      if order == [] { return Failed(QueueIsEmpty); }
      if messageId !in queue { return Failed(NotInQueue); }
      var message := queue[messageId];
      Enqueue(message.payload, message.publisher, time);
      var removed := Dequeue(client, Some(messageId));
      match removed {
        case Done(_) => r := Done(());
        case Failed(e) => r := Failed(e);
        case Panicked => r := Panicked;
      }
    }

    /** src/net/queue.rs:413-429. */
    method UpdateMessage(messageId: nat, payload: seq<byte>) returns (r: Outcome<()>)
      requires Valid()
      modifies `queue
      ensures Valid() && (Abs(), r) == Update(old(Abs()), messageId, payload)
      ensures Updated(old(Abs()), messageId, payload, Abs(), r)
      ensures Agree(old(Abs())) ==> Agree(Abs())
      ensures CursorOk(old(Abs())) ==> CursorOk(Abs())
      ensures r.Failed? ==> Abs() == old(Abs())
      ensures queue.Keys == old(queue).Keys
    {
      hide Safe, TopFive, Agree, CursorOk, Updated;
      UpdateKeeps(Abs(), messageId, payload);
      if order == [] { return Failed(QueueIsEmpty); }
      if messageId !in queue { return Failed(NotInQueue); }
      queue := queue[messageId := queue[messageId].(payload := payload)];
      r := Done(());
    }

    /** src/net/queue.rs:430-435: the answer is the largest payload of all earlier scans. */
    method GetNextBiggestPayload() returns (r: nat)
      requires Valid()
      modifies this`scanned, biggestPayloads
      ensures Valid() && scanned == old(scanned) + Lengths(queue)
      ensures r == old(biggestPayloads[4]) && (r == 0 || r in old(scanned))
      ensures forall x | x in old(scanned) :: x <= r
      ensures r <= biggestPayloads[4]
    {
      hide TopFive, Lengths;
      TopFacts(biggestPayloads[..], scanned + multiset{0, 0, 0, 0, 0});
      r := biggestPayloads[4];
      assert forall x | x in scanned :: x in scanned + multiset{0, 0, 0, 0, 0};
      TopIsMaximum(biggestPayloads[..], scanned + multiset{0, 0, 0, 0, 0});
      ghost var seen := scanned;
      FindBiggestPayloads();
      assert r in scanned + multiset{0, 0, 0, 0, 0} by { assert scanned == seen + Lengths(queue); }
      TopFacts(biggestPayloads[..], scanned + multiset{0, 0, 0, 0, 0});
      TopIsMaximum(biggestPayloads[..], scanned + multiset{0, 0, 0, 0, 0});
    }

    /** src/net/queue.rs:436-453, for any order of iteration over the messages. */
    method FindBiggestPayloads()
      requires Valid()
      modifies this`scanned, biggestPayloads
      ensures Valid() && scanned == old(scanned) + Lengths(queue)
    {
      hide TopFive, Without;
      var rest := queue;
      while rest != map[]
        invariant Valid() && scanned + Lengths(rest) == old(scanned) + Lengths(queue)
        invariant queue == old(queue)
        decreases |rest.Keys|
      {
        var k :| k in rest;
        LengthsAnyOrder(rest, k);
        RemovedSmaller(rest, k);
        hide Lengths;
        InsertPayload(|rest[k].payload|);
        rest := Without(rest, k);
      }
    }

    static lemma RemovedSmaller(m: map<nat, Message>, k: nat)
      requires k in m
      ensures |Without(m, k).Keys| < |m.Keys|
    {
      assert Without(m, k).Keys == m.Keys - {k};
    }

    static lemma PaddingLast(sizes: multiset<nat>, size: nat)
      ensures sizes + multiset{0, 0, 0, 0, 0} + multiset{size} == sizes + multiset{size} + multiset{0, 0, 0, 0, 0}
    {
    }

    /** The body of the scan for one message. */
    method InsertPayload(size: nat)
      requires Valid()
      modifies this`scanned, biggestPayloads
      ensures Valid() && scanned == old(scanned) + multiset{size}
    {
      hide TopFive, Safe, Lengths;
      ghost var b, all := biggestPayloads[..], scanned + multiset{0, 0, 0, 0, 0};
      TopFacts(b, all);
      PaddingLast(scanned, size);
      var d := 4;
      while d >= 0
        invariant -1 <= d <= 4 && biggestPayloads[..] == b && scanned == old(scanned)
        invariant forall j | d < j < 5 :: size <= b[j]
      {
        if size > biggestPayloads[d] {
          ShiftDown(d);
          biggestPayloads[d] := size;
          ShiftedKeepsTop(b, all, d, size);
          assert biggestPayloads[..] == Shifted(b, d, size);
          scanned := scanned + multiset{size};
          return;
        }
        d := d - 1;
      }
      SkippedKeepsTop(b, all, size);
      scanned := scanned + multiset{size};
    }

    method ShiftDown(d: nat)
      requires d < biggestPayloads.Length
      modifies biggestPayloads
      ensures forall j | 0 <= j < d :: biggestPayloads[j] == old(biggestPayloads[j + 1])
      ensures forall j | d <= j < biggestPayloads.Length :: biggestPayloads[j] == old(biggestPayloads[j])
    {
      var id := 0;
      while id < d
        invariant id <= d
        invariant forall j | 0 <= j < id :: biggestPayloads[j] == old(biggestPayloads[j + 1])
        invariant forall j | id <= j < biggestPayloads.Length :: biggestPayloads[j] == old(biggestPayloads[j])
      {
        biggestPayloads[id] := biggestPayloads[id + 1];
        id := id + 1;
      }
    }
  }
}
