/** What each operation of the queue does, said of the state before, the state after and the answer only,
    in positions and pieces of the sequences (src/net/queue.rs:183-482). */
module QueueSpec {
  import opened Collections
  import opened Wrappers
  import opened Bytes
  import opened QueueModel

  // ---- Sequences ----

  /** `x` stands at position `i` and nowhere before it. */
  ghost predicate FirstAt(s: seq<nat>, x: nat, i: nat) {
    i < |s| && s[i] == x && forall j | 0 <= j < i :: s[j] != x
  }

  /** `r` is `s` without its first `x`, all other entries in their places. */
  ghost predicate TakenOut(s: seq<nat>, x: nat, r: seq<nat>) {
    exists i: nat :: FirstAt(s, x, i) && r == s[..i] + s[i + 1..]
  }

  ghost predicate ZeroUpTo(s: seq<nat>, n: nat) {
    n <= |s| && forall i | 0 <= i < n :: s[i] == 0
  }

  ghost predicate AllZero(s: seq<nat>) {
    ZeroUpTo(s, |s|)
  }

  /** Ten entries or more that start with nine tombstones lose all leading tombstones; so do ten or more
      tombstones alone. Any other sequence stays. */
  ghost predicate Drains(s: seq<nat>, r: seq<nat>) {
    if |s| >= 10 && AllZero(s) then r == []
    else if |s| >= 10 && ZeroUpTo(s, 9) then
      0 < |r| <= |s| && r == s[|s| - |r|..] && r[0] != 0 && ZeroUpTo(s, |s| - |r|)
    else r == s
  }

  /** `next` is the first live entry, if there is one. */
  ghost predicate FirstLive(s: seq<nat>, next: Option<nat>) {
    if AllZero(s) then next == None
    else exists i :: 0 <= i < |s| && s[i] != 0 && next == Some(s[i]) && ZeroUpTo(s, i)
  }

  /** Where the cursor goes from the first `id` of `order`, when the order has become `after`: to the entry
      behind it, from a tombstone there to the first live entry, and off the end to nowhere. */
  ghost predicate MovesOn(order: seq<nat>, id: nat, after: seq<nat>, next: Option<nat>) {
    if id !in order then next == None
    else
      exists i: nat :: FirstAt(order, id, i) &&
        (if i + 1 == |order| then next == None
         else if order[i + 1] != 0 then next == Some(order[i + 1])
         else FirstLive(after, next))
  }

  /** The first `id` has become a tombstone. */
  ghost predicate Tombstones(order: seq<nat>, id: nat, r: seq<nat>) {
    if id !in order then r == order
    else exists i: nat :: FirstAt(order, id, i) && r == order[..i] + [0] + order[i + 1..]
  }

  // ---- Operations ----

  /** The message goes to the end of the order under one more than the last id, or 1 behind an empty order
      and when u128 is used up; a queue without a cursor gets it there. */
  ghost predicate Enqueued(q: State, payload: seq<byte>, publisher: nat, time: nat, q': State) {
    |q'.order| == |q.order| + 1 && q'.order[..|q.order|] == q.order &&
    var id := q'.order[|q.order|];
    (if q.order != [] && q.order[|q.order| - 1] + 1 < U128 then id == q.order[|q.order| - 1] + 1 else id == 1) &&
    q'.queue == q.queue[id := Message(payload, publisher, time, None)] && q'.locked == q.locked &&
    q'.next == if q.next.None? then Some(id) else q.next
  }

  /** A lock delivers the message under the cursor, or says why not. */
  ghost predicate Delivered(q: State, c: nat, q': State, r: Outcome<Delivery>) {
    if q.order == [] || q.next.None? then r == Failed(QueueIsEmpty) && q' == q
    else if q.next.value !in q.queue then r == Failed(NoSuchMessageId) && q' == q
    else if q.queue[q.next.value].lockedBy.Some? then r == Failed(AlreadyLocked) && q' == q
    else
      var id, m := q.next.value, q.queue[q.next.value];
      var held := Message(m.payload, m.publisher, m.timestamp, Some(c));
      r == Done(Delivery(id, held)) && q'.queue == q.queue[id := held] &&
      q'.locked == q.locked[c := if c in q.locked then q.locked[c] + [id] else [id]] &&
      MovesOn(q.order, id, q.order, q'.next) &&
      if q'.next.Some? then q'.order == q.order else Drains(q.order, q'.order)
  }

  /** Where the cursor stands once `id` is a tombstone in `after`: off the deleted message, and off a
      tombstone; otherwise where it stood. */
  ghost predicate LeavesCursor(order: seq<nat>, next: Option<nat>, id: nat, after: seq<nat>, next': Option<nat>) {
    if next == Some(id) && id in order then MovesOn(order, id, after, next')
    else if next == Some(0) && id in order then FirstLive(after, next')
    else next' == next
  }

  /** A live message named by id goes: out of the map, out of the order, out of the caller's list if it is
      there, and the cursor off it. */
  ghost predicate Deleted(q: State, c: nat, id: nat, q': State, r: Outcome<nat>)
    requires id in q.queue
  {
    r == Done(|q.queue[id].payload|) && q'.queue == q.queue - {id} &&
    exists order :: Tombstones(q.order, id, order) && LeavesCursor(q.order, q.next, id, order, q'.next) &&
      if c in q.locked && id in q.locked[c]
      then q'.locked.Keys == q.locked.Keys && TakenOut(q.locked[c], id, q'.locked[c]) && Drains(order, q'.order) &&
           forall d | d in q.locked && d != c :: q'.locked[d] == q.locked[d]
      else q'.locked == q.locked && q'.order == order
  }

  /** The caller's oldest lock is acknowledged; the cursor stays. */
  ghost predicate Acknowledged(q: State, c: nat, q': State, r: Outcome<nat>) {
    if c !in q.locked then r == Failed(NotLockedByClient) && q' == q
    else if q.locked[c] == [] then r == Failed(NoSuchMessageIdLocked) && q' == q
    else
      var id := q.locked[c][0];
      r == (if id in q.queue then Done(|q.queue[id].payload|) else Panicked) && q'.queue == q.queue - {id} &&
      q'.locked == q.locked[c := q.locked[c][1..]] && q'.next == q.next &&
      exists order :: Tombstones(q.order, id, order) && Drains(order, q'.order)
  }

  /** A live id is deleted; without one, or with an unknown one, the oldest lock is acknowledged. */
  ghost predicate Dequeued(q: State, c: nat, id: Option<nat>, q': State, r: Outcome<nat>) {
    if q.order == [] then r == Failed(QueueIsEmpty) && q' == q
    else if id.Some? && id.value in q.queue then Deleted(q, c, id.value, q', r)
    else Acknowledged(q, c, q', r)
  }

  /** A held message is given back: out of the client's list, which keeps its order, and unlocked; the cursor
      goes back to it if it was beyond. */
  ghost predicate GivenBack(q: State, c: nat, id: nat, q': State)
    requires c in q.locked
  {
    q'.order == q.order && q'.locked.Keys == q.locked.Keys && TakenOut(q.locked[c], id, q'.locked[c]) &&
    (forall d | d in q.locked && d != c :: q'.locked[d] == q.locked[d]) &&
    q'.queue.Keys == q.queue.Keys &&
    (forall k | k in q.queue :: q'.queue[k] ==
      if k == id then Message(q.queue[k].payload, q.queue[k].publisher, q.queue[k].timestamp, None) else q.queue[k]) &&
    q'.next == if q.next.Some? && q.next.value <= id then q.next else Some(id)
  }

  /** Without an id the client's oldest lock is given back, and an empty list is no error. */
  ghost predicate GaveBack(q: State, c: nat, id: Option<nat>, q': State, r: Outcome<()>) {
    if q.order == [] then r == Failed(QueueIsEmpty) && q' == q
    else if c !in q.locked || (id.Some? && id.value !in q.locked[c]) then r == Failed(NotLockedByClient) && q' == q
    else if id.Some? then r == Done(()) && GivenBack(q, c, id.value, q')
    else if q.locked[c] == [] then r == Done(()) && q' == q
    else r == Done(()) && GivenBack(q, c, q.locked[c][0], q') && q'.locked[c] == q.locked[c][1..]
  }

  /** A timer gives back what the client still holds under its id, and does nothing else. */
  ghost predicate Expired(q: State, c: nat, id: nat, q': State) {
    if q.order != [] && c in q.locked && id in q.locked[c] then GivenBack(q, c, id, q') else q' == q
  }

  /** The message gets the new payload and keeps the rest; nothing else changes. */
  ghost predicate Updated(q: State, id: nat, payload: seq<byte>, q': State, r: Outcome<()>) {
    if q.order == [] then r == Failed(QueueIsEmpty) && q' == q
    else if id !in q.queue then r == Failed(NotInQueue) && q' == q
    else
      r == Done(()) && q'.order == q.order && q'.locked == q.locked && q'.next == q.next &&
      q'.queue.Keys == q.queue.Keys &&
      q'.queue[id] == Message(payload, q.queue[id].publisher, q.queue[id].timestamp, q.queue[id].lockedBy) &&
      forall k | k in q.queue && k != id :: q'.queue[k] == q.queue[k]
  }

  /** A requeue is an enqueue of the same content and then a deletion of the old message. */
  ghost predicate Requeued(q: State, c: nat, id: nat, time: nat, q': State, r: Outcome<()>) {
    if q.order == [] then r == Failed(QueueIsEmpty) && q' == q
    else if id !in q.queue then r == Failed(NotInQueue) && q' == q
    else
      r == Done(()) &&
      exists mid :: Enqueued(q, q.queue[id].payload, q.queue[id].publisher, time, mid) && id in mid.queue &&
        Deleted(mid, c, id, q', Done(|mid.queue[id].payload|))
  }

  // ---- The model does that ----

  lemma DrainsIs(s: seq<nat>)
    ensures Drains(s, RemoveZeroes(s))
  {
    var z, r := LeadingZeros(s), RemoveZeroes(s);
    if |s| >= 10 && 9 <= z < |s| { assert r == s[z..] && r[0] == s[z] && |s| - |r| == z; }
  }

  lemma {:induction false} FirstLiveIs(s: seq<nat>)
    ensures FirstLive(s, FirstNonzero(s))
  {
    if s != [] {
      if s[0] != 0 {
        assert ZeroUpTo(s, 0);
      } else {
        FirstLiveIs(s[1..]);
        ZeroTail(s, |s| - 1);
        if !AllZero(s) {
          var tail := s[1..];
          var i :| 0 <= i < |tail| && tail[i] != 0 && FirstNonzero(tail) == Some(tail[i]) && ZeroUpTo(tail, i);
          ZeroTail(s, i);
          assert s[i + 1] == tail[i];
        }
      }
    }
  }

  lemma ZeroTail(s: seq<nat>, n: nat)
    requires s != [] && s[0] == 0 && n < |s|
    ensures ZeroUpTo(s[1..], n) <==> ZeroUpTo(s, n + 1)
  {
    if ZeroUpTo(s[1..], n) {
      forall i | 0 <= i < n + 1
        ensures s[i] == 0
      {
        if i > 0 { assert s[1..][i - 1] == 0; }
      }
    }
  }

  lemma FindIsFirst(s: seq<nat>, x: nat)
    ensures if x in s then FirstAt(s, x, Find(s, x)) else Find(s, x) == |s|
  {
  }

  lemma MovesOnIs(order: seq<nat>, id: nat, after: seq<nat>)
    ensures MovesOn(order, id, after, SkipTombstone(after, After(order, id)))
  {
    FindIsFirst(order, id);
    FirstLiveIs(after);
    hide FirstLive, FirstNonzero, Find;
  }

  lemma TombstonesIs(order: seq<nat>, id: nat)
    ensures Tombstones(order, id, Forget(order, None, id).0)
  {
    FindIsFirst(order, id);
    var i := Find(order, id);
    hide Find;
    if i < |order| { assert order[i := 0] == order[..i] + [0] + order[i + 1..]; }
  }

  lemma TakenOutIs(s: seq<nat>, x: nat)
    requires x in s
    ensures TakenOut(s, x, RemoveAt(s, Find(s, x)))
  {
    FindIsFirst(s, x);
  }

  lemma WithoutIs(m: map<nat, Message>, k: nat)
    ensures Without(m, k) == m - {k}
  {
  }

  lemma EnqueueDoes(q: State, payload: seq<byte>, publisher: nat, time: nat)
    ensures Enqueued(q, payload, publisher, time, Enqueue(q, payload, publisher, time))
  {
  }

  lemma LockDoes(q: State, c: nat)
    ensures Delivered(q, c, LockToRead(q, c).0, LockToRead(q, c).1)
  {
    hide MovesOn, Drains, RemoveZeroes, After, SkipTombstone;
    if LockRefusal(q).None? {
      MovesOnIs(q.order, q.next.value, q.order);
      DrainsIs(q.order);
      assert c !in q.locked ==> Held(q, c) + [q.next.value] == [q.next.value];
    }
  }

  lemma ForgetDoes(order: seq<nat>, next: Option<nat>, id: nat)
    ensures var (after, next') := Forget(order, next, id);
      Tombstones(order, id, after) && LeavesCursor(order, next, id, after, next')
  {
    hide MovesOn, After, FirstLive, FirstNonzero, Tombstones, Find;
    FindIsFirst(order, id);
    TombstonesIs(order, id);
    var after := Forget(order, None, id).0;
    MovesOnIs(order, id, after);
    FirstLiveIs(after);
  }

  lemma DeleteDoes(q: State, c: nat, id: nat)
    requires id in q.queue
    ensures Deleted(q, c, id, DeleteById(q, c, id).0, DeleteById(q, c, id).1)
  {
    hide Forget, LeavesCursor, Drains, RemoveZeroes, Tombstones, TakenOut, RemoveAt, Find, Without, FirstAt;
    ForgetDoes(q.order, q.next, id);
    FindIsFirst(Held(q, c), id);
    DrainsIs(Forget(q.order, q.next, id).0);
    WithoutIs(q.queue, id);
    if id in Held(q, c) {
      FoundIsInside(Held(q, c), id);
      TakenOutIs(Held(q, c), id);
    }
    assert Tombstones(q.order, id, Forget(q.order, q.next, id).0);
  }

  lemma FoundIsInside(s: seq<nat>, x: nat)
    requires x in s
    ensures Find(s, x) < |s|
  {
  }

  lemma AckDoes(q: State, c: nat)
    ensures Acknowledged(q, c, AckFirst(q, c).0, AckFirst(q, c).1)
  {
    if c in q.locked && q.locked[c] != [] {
      var id := q.locked[c][0];
      var order := Forget(q.order, None, id).0;
      TombstonesIs(q.order, id);
      FindIsFirst(q.order, id);
      DrainsIs(order);
      WithoutIs(q.queue, id);
      hide Drains, RemoveZeroes, Tombstones, Find, Without;
      assert Tombstones(q.order, id, order);
    }
  }

  lemma DequeueDoes(q: State, c: nat, id: Option<nat>)
    ensures Dequeued(q, c, id, Dequeue(q, c, id).0, Dequeue(q, c, id).1)
  {
    hide Deleted, Acknowledged, DeleteById, AckFirst;
    if id.Some? && id.value in q.queue { DeleteDoes(q, c, id.value); }
    AckDoes(q, c);
  }

  lemma ReleaseDoes(q: State, c: nat, id: nat)
    requires id in Held(q, c)
    ensures GivenBack(q, c, id, Release(q, c, id))
  {
    TakenOutIs(Held(q, c), id);
    hide TakenOut, Find, RemoveAt;
  }

  lemma UnlockDoes(q: State, c: nat, id: Option<nat>)
    ensures GaveBack(q, c, id, Unlock(q, c, id).0, Unlock(q, c, id).1)
  {
    if c in q.locked {
      if id.Some? && id.value in q.locked[c] { ReleaseDoes(q, c, id.value); }
      if q.locked[c] != [] {
        ReleaseDoes(q, c, q.locked[c][0]);
        assert Find(q.locked[c], q.locked[c][0]) == 0;
        assert RemoveAt(q.locked[c], 0) == q.locked[c][1..];
      }
    }
    hide GivenBack, Find, RemoveAt;
  }

  lemma ExpireDoes(q: State, c: nat, id: nat)
    ensures Expired(q, c, id, Expire(q, c, id))
  {
    if id in Held(q, c) { ReleaseDoes(q, c, id); }
    hide GivenBack, Release;
  }

  lemma UpdateDoes(q: State, id: nat, payload: seq<byte>)
    ensures Updated(q, id, payload, Update(q, id, payload).0, Update(q, id, payload).1)
  {
  }

  lemma RequeueDoes(q: State, c: nat, id: nat, time: nat)
    ensures Requeued(q, c, id, time, Requeue(q, c, id, time).0, Requeue(q, c, id, time).1)
  {
    if id in q.queue {
      var m := q.queue[id];
      var mid := Enqueue(q, m.payload, m.publisher, time);
      EnqueueDoes(q, m.payload, m.publisher, time);
      DeleteDoes(mid, c, id);
      assert mid.order != [] && DeleteById(mid, c, id).1 == Done(|mid.queue[id].payload|);
      hide Deleted, Enqueued, DeleteById;
      if q.order != [] {
        assert Enqueued(q, m.payload, m.publisher, time, mid);
      }
    }
  }

  // ---- One operation after another ----

  /** After a timer or a negative acknowledgement, an acknowledgement takes away the oldest of the locks that
      remain, in the order in which they were taken. */
  lemma AckAfterGivenBack(q: State, c: nat, id: nat, q': State, i: nat)
    requires q.order != [] && c in q.locked && FirstAt(q.locked[c], id, i) && GivenBack(q, c, id, q')
    requires |q.locked[c]| > 1
    ensures var oldest := if i == 0 then q.locked[c][1] else q.locked[c][0];
      Dequeue(q', c, None).0.queue == q'.queue - {oldest} &&
      Dequeue(q', c, None).1 == if oldest in q'.queue then Done(|q'.queue[oldest].payload|) else Panicked
  {
    var j: nat :| FirstAt(q.locked[c], id, j) && q'.locked[c] == q.locked[c][..j] + q.locked[c][j + 1..];
    assert i == j;
    DequeueDoes(q', c, None);
    hide Dequeue;
  }

  /** After an update, the lock that delivers the message delivers the new payload. */
  lemma UpdatedIsDelivered(q: State, id: nat, payload: seq<byte>, c: nat)
    requires q.order != [] && id in q.queue
    ensures var r := LockToRead(Update(q, id, payload).0, c).1;
      r.Done? && r.value.id == id ==> r.value.message.payload == payload
    ensures LockToRead(Update(q, id, payload).0, c).1.Done? <==> LockToRead(q, c).1.Done?
  {
    UpdateDoes(q, id, payload);
    LockDoes(Update(q, id, payload).0, c);
    LockDoes(q, c);
    hide Update, LockToRead, MovesOn, Drains;
  }
}
