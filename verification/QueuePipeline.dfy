/** Disciplined consumption: one consumer acknowledging in order, or stop-and-wait with negative
    acknowledgements and timer expiry. Here the freshness of new ids needs no assumption. */
module QueuePipeline {
  import opened Collections
  import opened Wrappers
  import opened Bytes
  import opened QueueModel
  import opened QueueFifo

  predicate Strict(ids: seq<nat>) {
    (forall i | 0 <= i < |ids| :: ids[i] > 0) && forall i, j | 0 <= i < j < |ids| :: ids[i] < ids[j]
  }

  /** The order is `z` tombstones and then the live ids, ascending. */
  predicate Layout(order: seq<nat>, z: nat, ids: seq<nat>) {
    Strict(ids) && z + |ids| == |order| && order[z..] == ids && forall i | 0 <= i < z :: order[i] == 0
  }

  /** The live messages are `ids`; the first `l` of them are locked by `owner`. */
  ghost predicate Loaded(queue: map<nat, Message>, ids: seq<nat>, l: nat, owner: nat) {
    (forall k | k in queue :: k in ids) &&
    forall i | 0 <= i < |ids| :: ids[i] in queue && queue[ids[i]].lockedBy == if i < l then Some(owner) else None
  }

  /** Only `owner` holds anything, and it holds `held`, in this order. */
  ghost predicate OnlyHolder(q: State, owner: nat, held: seq<nat>) {
    Held(q, owner) == held && forall d | d != owner :: Held(q, d) == []
  }

  function CursorAt(ids: seq<nat>, l: nat): Option<nat> {
    if l < |ids| then Some(ids[l]) else None
  }

  /** A pipeline: the live ids `ids` behind `z` tombstones, the first `l` of them in flight at `owner`
      in this order, the cursor at the first pending one. */
  ghost predicate Pipe(q: State, owner: nat, z: nat, ids: seq<nat>, l: nat) {
    l <= |ids| && Layout(q.order, z, ids) && Loaded(q.queue, ids, l, owner) &&
    OnlyHolder(q, owner, ids[..l]) && q.next == CursorAt(ids, l)
  }

  /** What was sent and what was acknowledged so far. */
  datatype Ledger = Ledger(sent: seq<Content>, acked: seq<Content>)

  function Book(q: State, led: Ledger, op: Op): Ledger {
    match op
    case EnqueueOp(payload, publisher, _) => led.(sent := led.sent + [Content(payload, publisher)])
    case AckOp(c) =>
      if Dequeue(q, c, None).1.Done? && Held(q, c) != []
      then led.(acked := led.acked + [ContentOf(q.queue, Held(q, c)[0])])
      else led
    case _ => led
  }

  function BookRun(q: State, led: Ledger, ops: seq<Op>): Ledger
    decreases |ops|
  {
    if ops == [] then led else BookRun(Apply(q, ops[0]), Book(q, led, ops[0]), ops[1..])
  }

  /** Acknowledged, in-flight and pending messages together are the sent ones, in order. */
  ghost predicate Balanced(q: State, led: Ledger, ids: seq<nat>) {
    led.sent == led.acked + Contents(q.queue, ids)
  }

  /** What a disciplined client may do: u128 does not wrap, nobody locks while another client has
      messages in flight, and a client gives a message back only when it is its only one. */
  ghost predicate Disciplined(q: State, op: Op) {
    match op
    case EnqueueOp(_, _, _) => NoWrap(q)
    case LockOp(c) => forall d | d != c :: Held(q, d) == []
    case AckOp(_) => true
    case NackOp(c) => |Held(q, c)| <= 1
    case ExpireOp(c, _) => |Held(q, c)| <= 1
    case _ => false
  }

  predicate NoWrap(q: State) {
    q.order != [] ==> q.order[|q.order| - 1] + 1 < U128
  }

  ghost predicate DisciplinedRun(q: State, ops: seq<Op>)
    decreases |ops|
  {
    ops != [] ==> Disciplined(q, ops[0]) && DisciplinedRun(Apply(q, ops[0]), ops[1..])
  }

  lemma EmptyPipe()
    ensures Pipe(EMPTY, 0, 0, [], 0) && Balanced(EMPTY, Ledger([], []), [])
  {
  }

  // ---- The order ----

  predicate Above(id: nat, ids: seq<nat>) {
    id > 0 && forall i | 0 <= i < |ids| :: ids[i] < id
  }

  /** A new id is ahead of all live ones. */
  lemma NewIdAhead(order: seq<nat>, z: nat, ids: seq<nat>)
    requires Layout(order, z, ids) && (order != [] ==> order[|order| - 1] + 1 < U128)
    ensures Above(NewId(order), ids) && NewId(order) !in ids
  {
    if ids != [] {
      assert order[|order| - 1] == ids[|ids| - 1];
    }
  }

  lemma LayoutAppend(order: seq<nat>, z: nat, ids: seq<nat>, id: nat)
    requires Layout(order, z, ids) && Above(id, ids)
    ensures Layout(order + [id], z, ids + [id])
  {
  }

  lemma LayoutFind(order: seq<nat>, z: nat, ids: seq<nat>, i: nat)
    requires Layout(order, z, ids) && i < |ids|
    ensures Find(order, ids[i]) == z + i < |order|
    ensures After(order, ids[i]) == CursorAt(ids, i + 1)
    ensures SkipTombstone(order, CursorAt(ids, i + 1)) == CursorAt(ids, i + 1)
  {
    var j := Find(order, ids[i]);
    assert order[z + i] == ids[i];
    assert j >= z ==> j - z < |ids| && ids[j - z] == order[j];
    if i + 1 < |ids| { assert order[z + i + 1] == ids[i + 1]; }
  }

  lemma LayoutStrict(order: seq<nat>, z: nat, ids: seq<nat>)
    requires Layout(order, z, ids)
    ensures Strict(ids)
  {
  }

  lemma LayoutZeros(order: seq<nat>, z: nat, ids: seq<nat>)
    requires Layout(order, z, ids)
    ensures LeadingZeros(order) == z
  {
    var n := LeadingZeros(order);
    if ids != [] { assert order[z] == ids[0]; }
  }

  /** Draining only shortens the row of tombstones. */
  lemma LayoutDrained(order: seq<nat>, z: nat, ids: seq<nat>) returns (z': nat)
    requires Layout(order, z, ids)
    ensures Layout(RemoveZeroes(order), z', ids)
  {
    LayoutZeros(order, z, ids);
    z' := if RemoveZeroes(order) == order then z else 0;
    if ids == [] && RemoveZeroes(order) != order { assert order[z..] == []; }
  }

  lemma LayoutAcked(order: seq<nat>, z: nat, ids: seq<nat>)
    requires Layout(order, z, ids) && ids != []
    ensures Layout(order[z := 0], z + 1, ids[1..])
  {
    assert order[z := 0][z + 1..] == order[z..][1..];
  }

  // ---- The messages ----

  lemma LoadedAppend(queue: map<nat, Message>, ids: seq<nat>, l: nat, owner: nat, id: nat, m: Message)
    requires Loaded(queue, ids, l, owner) && l <= |ids| && id !in ids && m.lockedBy.None?
    ensures id !in queue
    ensures Loaded(queue[id := m], ids + [id], l, owner)
    ensures Contents(queue[id := m], ids + [id]) == Contents(queue, ids) + [Content(m.payload, m.publisher)]
  {
    assert (ids + [id])[|ids|] == id;
    ContentsSame(queue, queue[id := m], ids);
    ContentsAppend(queue[id := m], ids, id);
  }

  lemma LoadedLock(queue: map<nat, Message>, ids: seq<nat>, l: nat, owner: nat, c: nat)
    requires Loaded(queue, ids, l, owner) && Strict(ids) && l < |ids| && (l == 0 || c == owner)
    ensures var id := ids[l]; var queue' := queue[id := queue[id].(lockedBy := Some(c))];
      Loaded(queue', ids, l + 1, c) && Contents(queue', ids) == Contents(queue, ids)
  {
    var id := ids[l];
    ContentsSame(queue, queue[id := queue[id].(lockedBy := Some(c))], ids);
  }

  lemma LoadedAck(queue: map<nat, Message>, ids: seq<nat>, l: nat, owner: nat)
    requires Loaded(queue, ids, l, owner) && Strict(ids) && 0 < l <= |ids|
    ensures Loaded(Without(queue, ids[0]), ids[1..], l - 1, owner)
    ensures Contents(queue, ids) == [ContentOf(queue, ids[0])] + Contents(Without(queue, ids[0]), ids[1..])
  {
    forall k | k in Without(queue, ids[0]) ensures k in ids[1..] { assert k in ids && k != ids[0]; }
    ContentsSame(queue, Without(queue, ids[0]), ids[1..]);
  }

  lemma LoadedUnlock(queue: map<nat, Message>, ids: seq<nat>, owner: nat)
    requires Loaded(queue, ids, 1, owner) && Strict(ids) && ids != []
    ensures Loaded(Unlocked(queue, ids[0]), ids, 0, owner)
    ensures Contents(Unlocked(queue, ids[0]), ids) == Contents(queue, ids)
  {
    ContentsSame(queue, Unlocked(queue, ids[0]), ids);
  }

  // ---- Operations ----

  lemma EnqueuePipe(q: State, owner: nat, z: nat, ids: seq<nat>, l: nat, led: Ledger, payload: seq<byte>,
          publisher: nat, time: nat)
    requires Pipe(q, owner, z, ids, l) && Balanced(q, led, ids) && NoWrap(q)
    ensures NewId(q.order) !in q.queue
    ensures var q', ids' := Enqueue(q, payload, publisher, time), ids + [NewId(q.order)];
      Pipe(q', owner, z, ids', l) && Balanced(q', Book(q, led, EnqueueOp(payload, publisher, time)), ids')
  {
    hide Layout, Loaded, OnlyHolder, Contents, NewId, Above;
    var id := NewId(q.order);
    NewIdAhead(q.order, z, ids);
    LayoutAppend(q.order, z, ids, id);
    LoadedAppend(q.queue, ids, l, owner, id, Message(payload, publisher, time, None));
    assert (ids + [id])[..l] == ids[..l];
    SameHolder(q, Enqueue(q, payload, publisher, time), owner, ids[..l]);
  }

  lemma SameHolder(q: State, q': State, owner: nat, held: seq<nat>)
    requires OnlyHolder(q, owner, held) && q'.locked == q.locked
    ensures OnlyHolder(q', owner, held)
  {
    forall d: nat ensures Held(q', d) == Held(q, d) {}
  }

  lemma HolderUpdate(q: State, q': State, owner: nat, held: seq<nat>, held': seq<nat>)
    requires OnlyHolder(q, owner, held) && q'.locked == q.locked[owner := held']
    ensures OnlyHolder(q', owner, held')
  {
    forall d: nat | d != owner ensures Held(q', d) == Held(q, d) {}
  }

  /** The first client to lock while nothing is in flight becomes the owner. */
  lemma BecomesOwner(q: State, owner: nat, z: nat, ids: seq<nat>, l: nat, c: nat)
    requires Pipe(q, owner, z, ids, l) && forall d | d != c :: Held(q, d) == []
    ensures Pipe(q, c, z, ids, l)
  {
    if owner != c {
      assert ids[..l] == [];
      assert l == 0;
    }
  }

  /** Locking takes the first pending message, and succeeds exactly when there is one. */
  lemma LockPipe(q: State, owner: nat, z: nat, ids: seq<nat>, l: nat, led: Ledger, c: nat) returns (z': nat)
    requires Pipe(q, owner, z, ids, l) && Balanced(q, led, ids) && forall d | d != c :: Held(q, d) == []
    ensures LockToRead(q, c).1.Done? <==> l < |ids|
    ensures var q' := LockToRead(q, c).0;
      Balanced(q', led, ids) && Pipe(q', c, z', ids, if l < |ids| then l + 1 else l)
    ensures l < |ids| ==> LockToRead(q, c).1.value.id == ids[l]
  {
    z' := z;
    BecomesOwner(q, owner, z, ids, l, c);
    if l < |ids| {
      LayoutFind(q.order, z, ids, l);
      PendingIsLive(q.queue, ids, l, c);
      HolderIs(q, c, ids[..l]);
      LockShape(q, c, ids, l);
      hide Pipe, LockToRead, Balanced, Layout, Loaded, RemoveZeroes, Find, After;
      z' := LockTaken(q, LockToRead(q, c).0, c, z, ids, l, led);
    }
  }

  /** What locking the first pending message does to each structure. */
  lemma LockShape(q: State, c: nat, ids: seq<nat>, l: nat)
    requires l < |ids| && q.order != [] && q.next == Some(ids[l]) && ids[l] in q.queue && q.queue[ids[l]].lockedBy.None?
    requires After(q.order, ids[l]) == CursorAt(ids, l + 1) &&
      SkipTombstone(q.order, CursorAt(ids, l + 1)) == CursorAt(ids, l + 1)
    requires Held(q, c) == ids[..l]
    ensures LockToRead(q, c).1.Done? && LockToRead(q, c).1.value.id == ids[l]
    ensures var q' := LockToRead(q, c).0;
      q'.next == CursorAt(ids, l + 1) && q'.order == (if q'.next.None? then RemoveZeroes(q.order) else q.order) &&
      q'.queue == q.queue[ids[l] := q.queue[ids[l]].(lockedBy := Some(c))] &&
      q'.locked == q.locked[c := ids[..l + 1]]
  {
    hide RemoveZeroes, After;
    assert ids[..l + 1] == ids[..l] + [ids[l]];
  }

  lemma LockTaken(q: State, q': State, c: nat, z: nat, ids: seq<nat>, l: nat, led: Ledger) returns (z': nat)
    requires Pipe(q, c, z, ids, l) && Balanced(q, led, ids) && l < |ids| && ids[l] in q.queue
    requires q'.next == CursorAt(ids, l + 1) && q'.order == (if q'.next.None? then RemoveZeroes(q.order) else q.order)
    requires q'.queue == q.queue[ids[l] := q.queue[ids[l]].(lockedBy := Some(c))]
    requires q'.locked == q.locked[c := ids[..l + 1]]
    ensures Pipe(q', c, z', ids, l + 1) && Balanced(q', led, ids)
  {
    hide Layout, Loaded, RemoveZeroes, Strict, Contents, OnlyHolder;
    LayoutStrict(q.order, z, ids);
    LoadedLock(q.queue, ids, l, c, c);
    HolderUpdate(q, q', c, ids[..l], ids[..l + 1]);
    z' := LayoutDrained(q.order, z, ids);
    if q'.next.Some? { z' := z; }
  }

  lemma HolderIs(q: State, owner: nat, held: seq<nat>)
    requires OnlyHolder(q, owner, held)
    ensures Held(q, owner) == held && forall d | d != owner :: Held(q, d) == []
  {
  }

  lemma PendingIsLive(queue: map<nat, Message>, ids: seq<nat>, l: nat, owner: nat)
    requires Loaded(queue, ids, l, owner) && l < |ids|
    ensures ids[l] in queue && queue[ids[l]].lockedBy.None?
  {
  }

  /** Acknowledging moves the oldest in-flight message to the acknowledged ones. */
  lemma AckPipe(q: State, owner: nat, z: nat, ids: seq<nat>, l: nat, led: Ledger, c: nat) returns (z': nat)
    requires Pipe(q, owner, z, ids, l) && Balanced(q, led, ids)
    ensures var q', led' := Dequeue(q, c, None).0, Book(q, led, AckOp(c));
      if c == owner && l > 0 then Pipe(q', owner, z', ids[1..], l - 1) && Balanced(q', led', ids[1..])
      else q' == q && led' == led
  {
    z' := z;
    HolderIs(q, owner, ids[..l]);
    if c == owner && l > 0 {
      LayoutFind(q.order, z, ids, 0);
      assert ids[0] in q.queue;
      AckShape(q, owner, z, ids, l, led);
      hide Pipe, Dequeue, Balanced, Layout, Loaded, RemoveZeroes, Find, Book;
      z' := AckTaken(q, Dequeue(q, c, None).0, owner, z, ids, l, led, Book(q, led, AckOp(c)));
    } else {
      assert Held(q, c) == [];
    }
  }

  /** What acknowledging the oldest in-flight message does to each structure. */
  lemma AckShape(q: State, owner: nat, z: nat, ids: seq<nat>, l: nat, led: Ledger)
    requires 0 < l <= |ids| && Held(q, owner) == ids[..l] && Find(q.order, ids[0]) == z < |q.order| && ids[0] in q.queue
    ensures var q' := Dequeue(q, owner, None).0;
      q' == State(RemoveZeroes(q.order[z := 0]), Without(q.queue, ids[0]), q.locked[owner := ids[..l][1..]], q.next)
    ensures Book(q, led, AckOp(owner)) == led.(acked := led.acked + [ContentOf(q.queue, ids[0])])
  {
    hide RemoveZeroes, Without;
    assert ids[..l][0] == ids[0];
  }

  lemma AckTaken(q: State, q': State, owner: nat, z: nat, ids: seq<nat>, l: nat, led: Ledger, led': Ledger)
          returns (z': nat)
    requires Pipe(q, owner, z, ids, l) && Balanced(q, led, ids) && 0 < l && z < |q.order|
    requires q' == State(RemoveZeroes(q.order[z := 0]), Without(q.queue, ids[0]), q.locked[owner := ids[..l][1..]],
      q.next)
    requires led' == led.(acked := led.acked + [ContentOf(q.queue, ids[0])])
    ensures Pipe(q', owner, z', ids[1..], l - 1) && Balanced(q', led', ids[1..])
  {
    hide Layout, Loaded, RemoveZeroes, Strict, Contents, OnlyHolder, Without, Balanced, ContentOf;
    LayoutStrict(q.order, z, ids);
    LayoutAcked(q.order, z, ids);
    LoadedAck(q.queue, ids, l, owner);
    z' := LayoutDrained(q.order[z := 0], z + 1, ids[1..]);
    assert ids[1..][..l - 1] == ids[..l][1..];
    HolderUpdate(q, q', owner, ids[..l], ids[1..][..l - 1]);
    AckBalanced(q, q', led, led', ids);
  }

  lemma AckBalanced(q: State, q': State, led: Ledger, led': Ledger, ids: seq<nat>)
    requires Balanced(q, led, ids) && ids != []
    requires Contents(q.queue, ids) == [ContentOf(q.queue, ids[0])] + Contents(q'.queue, ids[1..])
    requires led' == led.(acked := led.acked + [ContentOf(q.queue, ids[0])])
    ensures Balanced(q', led', ids[1..])
  {
    hide Contents;
  }

  /** Giving back the only message in flight puts the cursor back on it. */
  lemma ReleasePipe(q: State, owner: nat, z: nat, ids: seq<nat>, led: Ledger)
    requires Pipe(q, owner, z, ids, 1) && Balanced(q, led, ids)
    ensures Held(q, owner) == [ids[0]]
    ensures Pipe(Release(q, owner, ids[0]), owner, z, ids, 0) && Balanced(Release(q, owner, ids[0]), led, ids)
  {
    assert ids[..1] == [ids[0]];
    LoadedUnlock(q.queue, ids, owner);
    HolderIs(q, owner, ids[..1]);
    assert |ids| > 1 ==> ids[0] < ids[1];
    hide Layout, Loaded, Contents, OnlyHolder;
    var q' := Release(q, owner, ids[0]);
    assert RemoveAt([ids[0]], Find([ids[0]], ids[0])) == ids[..0];
    HolderUpdate(q, q', owner, ids[..1], ids[..0]);
  }

  lemma UnlockPipe(q: State, owner: nat, z: nat, ids: seq<nat>, l: nat, led: Ledger, c: nat, id: Option<nat>)
          returns (l': nat)
    requires Pipe(q, owner, z, ids, l) && Balanced(q, led, ids) && |Held(q, c)| <= 1
    ensures Pipe(Unlock(q, c, id).0, owner, z, ids, l') && Balanced(Unlock(q, c, id).0, led, ids)
  {
    hide Layout, Loaded, OnlyHolder, CursorAt, Contents;
    l' := l;
    HolderIs(q, owner, ids[..l]);
    if c == owner && l > 0 {
      assert l == 1;
      ReleasePipe(q, owner, z, ids, led);
      hide Pipe, Balanced, Release;
      if Unlock(q, c, id).1.Done? { l' := 0; }
    } else {
      assert Held(q, c) == [];
    }
  }

  lemma BookQuiet(q: State, led: Ledger, op: Op)
    ensures !op.EnqueueOp? && !op.AckOp? ==> Book(q, led, op) == led
  {
  }

  lemma ApplyPipe(q: State, owner: nat, z: nat, ids: seq<nat>, l: nat, led: Ledger, op: Op)
    returns (owner': nat, z': nat, ids': seq<nat>, l': nat)
    requires Pipe(q, owner, z, ids, l) && Balanced(q, led, ids) && Disciplined(q, op)
    ensures Pipe(Apply(q, op), owner', z', ids', l') && Balanced(Apply(q, op), Book(q, led, op), ids')
    ensures op.EnqueueOp? ==> NewId(q.order) !in q.queue
  {
    hide Layout, Loaded, OnlyHolder, CursorAt;
    assert l <= |ids|;
    BookQuiet(q, led, op);
    hide Pipe, Balanced, NoWrap, Dequeue, Unlock, LockToRead, Enqueue, Book, IsLocked;
    owner', z', ids', l' := owner, z, ids, l;
    match op {
      case EnqueueOp(payload, publisher, time) =>
        EnqueuePipe(q, owner, z, ids, l, led, payload, publisher, time);
        ids' := ids + [NewId(q.order)];
      case LockOp(c) =>
        owner' := c;
        z' := LockPipe(q, owner, z, ids, l, led, c);
        if l < |ids| { l' := l + 1; }
      case AckOp(c) =>
        z' := AckPipe(q, owner, z, ids, l, led, c);
        if c == owner && l > 0 { ids', l' := ids[1..], l - 1; } else { z' := z; }
      case NackOp(c) => l' := UnlockPipe(q, owner, z, ids, l, led, c, None);
      case ExpireOp(c, id) => if IsLocked(q, c, id) { l' := UnlockPipe(q, owner, z, ids, l, led, c, Some(id)); }
    }
  }

  /** In every disciplined run new ids are fresh, and acknowledged, in-flight and pending messages
      together are exactly the sent ones, in the order they were sent. */
  lemma {:induction false} EveryDisciplinedRun(q: State, owner: nat, z: nat, ids: seq<nat>, l: nat, led: Ledger,
          ops: seq<Op>)
    returns (owner': nat, z': nat, ids': seq<nat>, l': nat)
    requires Pipe(q, owner, z, ids, l) && Balanced(q, led, ids) && DisciplinedRun(q, ops)
    ensures Pipe(Run(q, ops), owner', z', ids', l') && Balanced(Run(q, ops), BookRun(q, led, ops), ids')
    ensures forall k | 0 <= k < |ops| && ops[k].EnqueueOp? :: NewId(Run(q, ops[..k]).order) !in Run(q, ops[..k]).queue
    decreases |ops|
  {
    owner', z', ids', l' := owner, z, ids, l;
    if ops != [] {
      var o, y, live, m := ApplyPipe(q, owner, z, ids, l, led, ops[0]);
      hide Pipe, Balanced, Disciplined, Apply, Book;
      owner', z', ids', l' := EveryDisciplinedRun(Apply(q, ops[0]), o, y, live, m, Book(q, led, ops[0]), ops[1..]);
      forall k | 0 <= k < |ops| && ops[k].EnqueueOp?
        ensures NewId(Run(q, ops[..k]).order) !in Run(q, ops[..k]).queue
      {
        if k > 0 { assert ops[..k][1..] == ops[1..][..k - 1]; }
      }
    }
  }

  // ---- Redelivery ----

  /** Two orders that differ in leading tombstones only. */
  predicate SameButTombstones(xs: seq<nat>, ys: seq<nat>) {
    xs[LeadingZeros(xs)..] == ys[LeadingZeros(ys)..]
  }

  /** With nothing in flight, giving back what was just locked, by request or by timer, undoes the
      lock up to leading tombstones, and the next lock by anyone delivers the same message. */
  lemma NackUndoesLock(q: State, owner: nat, z: nat, ids: seq<nat>, c: nat, d: nat)
    requires Pipe(q, owner, z, ids, 0) && ids != []
    ensures LockToRead(q, c).1.Done?
    ensures var q1, id := LockToRead(q, c).0, LockToRead(q, c).1.value.id;
      var q2 := Unlock(q1, c, None).0;
      q2 == Expire(q1, c, id) && q2.queue == q.queue && q2.next == q.next && SameButTombstones(q2.order, q.order) &&
      (forall e :: Held(q2, e) == Held(q, e)) &&
      LockToRead(q2, d).1.Done? && LockToRead(q2, d).1.value.id == id
  {
    var led := Ledger(Contents(q.queue, ids), []);
    assert [] + Contents(q.queue, ids) == led.sent;
    assert forall e :: Held(q, e) == [];
    var z1 := LockPipe(q, owner, z, ids, 0, led, c);
    var q1 := LockToRead(q, c).0;
    assert |q1.order| > 0;
    ReleasePipe(q1, c, z1, ids, led);
    var q2 := Release(q1, c, ids[0]);
    UnlockOnly(q1, c, ids[0]);
    hide Pipe, Release, Unlock, Expire, LockToRead, Balanced, Held;
    Undone(q, q1, q2, owner, c, ids, z, z1);
    NobodyHolds(q2, c, z1, ids);
    NobodyHolds(q, owner, z, ids);
    var z2 := LockPipe(q2, c, z1, ids, 0, led, d);
  }

  lemma NobodyHolds(q: State, owner: nat, z: nat, ids: seq<nat>)
    requires Pipe(q, owner, z, ids, 0)
    ensures forall e :: Held(q, e) == []
  {
    assert ids[..0] == [];
    forall e: nat ensures Held(q, e) == [] {
      if e == owner { assert Held(q, e) == ids[..0]; }
    }
  }

  lemma UnlockOnly(q: State, c: nat, id: nat)
    requires q.order != [] && Held(q, c) == [id]
    ensures Unlock(q, c, None).0 == Release(q, c, id) == Expire(q, c, id)
  {
    hide Release;
  }

  lemma Undone(q: State, q1: State, q2: State, owner: nat, c: nat, ids: seq<nat>, z: nat, z1: nat)
    requires Pipe(q, owner, z, ids, 0) && ids != [] && Pipe(q2, c, z1, ids, 0)
    requires q1 == LockToRead(q, c).0 && q2 == Release(q1, c, ids[0])
    requires LockToRead(q, c).1.Done?
    ensures q2.queue == q.queue && q2.next == q.next && SameButTombstones(q2.order, q.order)
  {
    hide Strict, Loaded, OnlyHolder, RemoveZeroes, Find, After;
    LayoutZeros(q.order, z, ids);
    LayoutZeros(q2.order, z1, ids);
    PendingIsLive(q.queue, ids, 0, owner);
    var id := ids[0];
    assert q.next == q2.next == Some(id);
    assert SameButTombstones(q2.order, q.order);
    assert q1.queue == q.queue[id := q.queue[id].(lockedBy := Some(c))];
    hide Pipe, Loaded, Layout, SameButTombstones;
    assert Unlocked(q.queue[id := q.queue[id].(lockedBy := Some(c))], id) == q.queue;
  }
}
