/** The live ids in arrival order, and requeueing as a move of one message to the end. */
module QueueRequeue {
  import opened Collections
  import opened Wrappers
  import opened QueueModel
  import opened QueueSafety
  import opened QueueAgreement
  import opened QueueCursor

  /** The order without its tombstones. */
  function LiveIds(order: seq<nat>): seq<nat> {
    if order == [] then []
    else if order[0] == 0 then LiveIds(order[1..])
    else [order[0]] + LiveIds(order[1..])
  }

  lemma {:induction false} LiveConcat(xs: seq<nat>, ys: seq<nat>)
    ensures LiveIds(xs + ys) == LiveIds(xs) + LiveIds(ys)
  {
    if xs == [] {
      assert xs + ys == ys;
    } else {
      assert (xs + ys)[1..] == xs[1..] + ys;
      LiveConcat(xs[1..], ys);
    }
  }

  lemma {:induction false} LiveZeros(s: seq<nat>)
    requires forall i | 0 <= i < |s| :: s[i] == 0
    ensures LiveIds(s) == []
  {
    if s != [] { LiveZeros(s[1..]); }
  }

  /** Draining tombstones does not touch the live ids. */
  lemma LiveDrained(order: seq<nat>)
    ensures LiveIds(RemoveZeroes(order)) == LiveIds(order)
  {
    var z := LeadingZeros(order);
    assert order == order[..z] + order[z..];
    LiveConcat(order[..z], order[z..]);
    LiveZeros(order[..z]);
    if z == |order| { assert order[z..] == []; }
  }

  lemma {:induction false} LiveFind(s: seq<nat>, id: nat)
    requires id != 0
    ensures id in s <==> id in LiveIds(s)
  {
    if s != [] {
      assert id in s <==> id == s[0] || id in s[1..];
      LiveFind(s[1..], id);
    }
  }

  lemma LiveCons(x: nat, tail: seq<nat>)
    ensures LiveIds([x] + tail) == if x == 0 then LiveIds(tail) else [x] + LiveIds(tail)
  {
    assert ([x] + tail)[1..] == tail;
  }

  lemma FindCons(x: nat, tail: seq<nat>, id: nat)
    ensures Find([x] + tail, id) == if x == id then 0 else 1 + Find(tail, id)
  {
    assert ([x] + tail)[1..] == tail;
  }

  lemma UpdateCons(x: nat, tail: seq<nat>, i: nat)
    requires i < |tail|
    ensures ([x] + tail)[i + 1 := 0] == [x] + tail[i := 0]
    ensures RemoveAt([x] + tail, i + 1) == [x] + RemoveAt(tail, i)
  {
    assert ([x] + tail)[..i + 1] == [x] + tail[..i];
    assert ([x] + tail)[i + 2..] == tail[i + 1..];
  }

  lemma UpdateHead(x: nat, tail: seq<nat>)
    ensures ([x] + tail)[0 := 0] == [0] + tail
    ensures RemoveAt([x] + tail, 0) == tail
  {
    hide LiveIds, Find;
    assert ([x] + tail)[1..] == tail && ([x] + tail)[..0] == [];
  }

  lemma HeadTombstoned(id: nat, tail: seq<nat>)
    requires id != 0
    ensures LiveIds(([id] + tail)[Find([id] + tail, id) := 0]) ==
            RemoveAt(LiveIds([id] + tail), Find(LiveIds([id] + tail), id))
  {
    hide LiveIds, Find, RemoveAt;
    FindCons(id, tail, id);
    LiveCons(id, tail);
    FindCons(id, LiveIds(tail), id);
    UpdateHead(id, tail);
    LiveCons(0, tail);
    UpdateHead(id, LiveIds(tail));
  }

  lemma TailTombstoned(x: nat, tail: seq<nat>, id: nat)
    requires x != id && id in tail && id in LiveIds(tail)
    requires LiveIds(tail[Find(tail, id) := 0]) == RemoveAt(LiveIds(tail), Find(LiveIds(tail), id))
    ensures LiveIds(([x] + tail)[Find([x] + tail, id) := 0]) ==
            RemoveAt(LiveIds([x] + tail), Find(LiveIds([x] + tail), id))
  {
    hide LiveIds, Find, RemoveAt;
    var i := Find(tail, id);
    FindCons(x, tail, id);
    LiveCons(x, tail);
    FindCons(x, LiveIds(tail), id);
    UpdateCons(x, tail, i);
    LiveCons(x, tail[i := 0]);
    UpdateCons(x, LiveIds(tail), Find(LiveIds(tail), id));
  }

  /** Tombstoning an id takes its first occurrence out of the live ids. */
  lemma {:induction false} LiveTombstoned(order: seq<nat>, id: nat)
    requires id != 0 && id in order
    ensures id in LiveIds(order)
    ensures LiveIds(order[Find(order, id) := 0]) == RemoveAt(LiveIds(order), Find(LiveIds(order), id))
  {
    var x, tail := order[0], order[1..];
    assert order == [x] + tail;
    LiveFind(order, id);
    if x == id { HeadTombstoned(id, tail); } else {
      LiveTombstoned(tail, id);
      TailTombstoned(x, tail, id);
    }
  }

  /** A new id that is ahead of all ids is fresh. */
  lemma AheadIsFresh(q: State)
    requires Safe(q) && AheadId(q)
    ensures FreshId(q) && NewId(q.order) !in q.order
  {
    var id := NewId(q.order);
    forall i | 0 <= i < |q.order| ensures q.order[i] != id {}
  }

  lemma MoveOrder(order: seq<nat>, id: nat, newId: nat, order': seq<nat>)
    requires id != 0 && newId != 0 && id in order && newId != id
    requires Tombstoned(order + [newId], order', id)
    ensures id in LiveIds(order)
    ensures LiveIds(order') == RemoveAt(LiveIds(order), Find(LiveIds(order), id)) + [newId]
  {
    var i := Find(order, id);
    assert Find(order + [newId], id) == i by { FindPrefix(order, [newId], id); }
    assert (order + [newId])[i := 0] == order[i := 0] + [newId];
    LiveDrained((order + [newId])[i := 0]);
    LiveConcat(order[i := 0], [newId]);
    assert LiveIds([newId]) == [newId];
    LiveTombstoned(order, id);
  }

  lemma FindPrefix(xs: seq<nat>, ys: seq<nat>, id: nat)
    requires id in xs
    ensures Find(xs + ys, id) == Find(xs, id)
  {
    var i, j := Find(xs, id), Find(xs + ys, id);
    assert (xs + ys)[i] == id;
    assert j < |xs| ==> xs[j] == id;
  }

  /** The conditions under which requeueing is a move. */
  ghost predicate Movable(q: State, c: nat, id: nat) {
    Agree(q) && CursorOk(q) && id in q.queue && AheadId(q) && OwnOrUnlocked(q, c, id)
  }

  /** Message `id` is at the end of the live sequence, under a new id, with its payload and publisher
      and no lock; all other messages and all other locks are as before. */
  ghost predicate Moved(q: State, q': State, c: nat, id: nat, time: nat)
    requires id in q.queue
  {
    var newId, m := NewId(q.order), q.queue[id];
    id in LiveIds(q.order) && newId !in q.queue &&
    LiveIds(q'.order) == RemoveAt(LiveIds(q.order), Find(LiveIds(q.order), id)) + [newId] &&
    q'.queue == Without(q.queue, id)[newId := Message(m.payload, m.publisher, time, None)] &&
    forall d :: Held(q', d) ==
      if d == c && id in Held(q, c) then RemoveAt(Held(q, c), Find(Held(q, c), id)) else Held(q, d)
  }

  /** Requeueing moves a message to the end, and the queue still delivers oldest first. */
  lemma RequeueIsMove(q: State, c: nat, id: nat, time: nat)
    requires Movable(q, c, id)
    ensures var q' := Requeue(q, c, id, time).0;
      Requeue(q, c, id, time).1 == Done(()) && Agree(q') && CursorOk(q') && Moved(q, q', c, id, time)
  {
    var newId, m := NewId(q.order), q.queue[id];
    AheadIsFresh(q);
    LiveInOrder(q, id);
    var q1 := Enqueue(q, m.payload, m.publisher, time);
    EnqueueAgrees(q, m.payload, m.publisher, time);
    LiveInOrder(q1, id);
    DeleteShape(q1, c, id);
    hide Agree, CursorOk, Safe, OrderAgrees, LocksAgree, AheadId, RemoveZeroes, LiveIds, After, DeleteById, RemoveAt,
      Find;
    RequeueAgrees(q, c, id, time);
    RequeueCursor(q, c, id, time);
    var q' := Requeue(q, c, id, time).0;
    assert q' == DeleteById(q1, c, id).0;
    MoveOrder(q.order, id, newId, q'.order);
    LiveFind(q.order, id);
    RemovedInsert(q.queue, id, newId, Message(m.payload, m.publisher, time, None));
  }

  lemma RemovedInsert(queue: map<nat, Message>, id: nat, k: nat, m: Message)
    requires k != id
    ensures Without(queue[k := m], id) == Without(queue, id)[k := m]
  {
  }

  /** What deleting a live message does to each structure. */
  lemma DeleteShape(q: State, c: nat, id: nat)
    requires id in q.queue && Find(q.order, id) < |q.order|
    ensures var q' := DeleteById(q, c, id).0;
      DeleteById(q, c, id).1.Done? && Tombstoned(q.order, q'.order, id) && q'.queue == Without(q.queue, id) &&
      forall d :: Held(q', d) ==
        if d == c && id in Held(q, c) then RemoveAt(Held(q, c), Find(Held(q, c), id)) else Held(q, d)
  {
  }
}
