/** First-in-first-out, exactly-once delivery: any number of producers and consumers that enqueue,
    lock and acknowledge. */
module QueueFifo {
  import opened Collections
  import opened Wrappers
  import opened Bytes
  import opened QueueModel
  import opened QueueAgreement

  /** What a consumer is after: payload and publisher. */
  datatype Content = Content(payload: seq<byte>, publisher: nat)

  function ContentOf(queue: map<nat, Message>, id: nat): Content {
    if id in queue then Content(queue[id].payload, queue[id].publisher) else Content([], 0)
  }

  function Contents(queue: map<nat, Message>, ids: seq<nat>): seq<Content> {
    if ids == [] then [] else [ContentOf(queue, ids[0])] + Contents(queue, ids[1..])
  }

  lemma {:induction false} ContentsSame(m: map<nat, Message>, n: map<nat, Message>, ids: seq<nat>)
    requires forall i | 0 <= i < |ids| :: ContentOf(m, ids[i]) == ContentOf(n, ids[i])
    ensures Contents(m, ids) == Contents(n, ids)
  {
    if ids != [] { ContentsSame(m, n, ids[1..]); }
  }

  lemma {:induction false} ContentsAppend(m: map<nat, Message>, ids: seq<nat>, id: nat)
    ensures Contents(m, ids + [id]) == Contents(m, ids) + [ContentOf(m, id)]
  {
    if ids == [] {
      assert [] + [id] == [id];
    } else {
      assert (ids + [id])[1..] == ids[1..] + [id];
      ContentsAppend(m, ids[1..], id);
    }
  }

  /** What producers sent and consumers were delivered so far. */
  datatype Log = Log(sent: seq<Content>, delivered: seq<Content>)

  function Record(q: State, log: Log, op: Op): Log {
    match op
    case EnqueueOp(payload, publisher, _) => log.(sent := log.sent + [Content(payload, publisher)])
    case LockOp(c) =>
      var r := LockToRead(q, c).1;
      if r.Done?
      then log.(delivered := log.delivered + [Content(r.value.message.payload, r.value.message.publisher)])
      else log
    case _ => log
  }

  function RunLog(q: State, log: Log, ops: seq<Op>): Log
    decreases |ops|
  {
    if ops == [] then log else RunLog(Apply(q, ops[0]), Record(q, log, ops[0]), ops[1..])
  }

  predicate Streaming(op: Op) {
    op.EnqueueOp? || op.LockOp? || op.AckOp?
  }

  /** From position `s` on the order holds exactly the undelivered messages, the cursor at the first;
      before it there are only tombstones and delivered, locked messages. */
  ghost predicate Split(q: State, s: nat) {
    s <= |q.order| &&
    (forall i | s <= i < |q.order| :: q.order[i] in q.queue && q.queue[q.order[i]].lockedBy.None?) &&
    (forall i | 0 <= i < s && q.order[i] != 0 :: q.order[i] in q.queue && q.queue[q.order[i]].lockedBy.Some?) &&
    q.next == if s < |q.order| then Some(q.order[s]) else None
  }

  ghost predicate FifoOk(q: State, log: Log, s: nat) {
    Agree(q) && Split(q, s) && log.sent == log.delivered + Contents(q.queue, q.order[s..])
  }

  /** In an agreeing order a live id stands at one position only. */
  lemma OncePlaced(q: State, i: nat)
    requires OrderAgrees(q) && i < |q.order| && q.order[i] in q.queue
    ensures Find(q.order, q.order[i]) == i
  {
    var id, j := q.order[i], Find(q.order, q.order[i]);
    assert multiset(q.order)[id] == if Live(q, id) then 1 else 0;
    if j < i { TwicePlaced(q.order, j, i); }
  }

  lemma NotZero(q: State)
    requires Agree(q)
    ensures 0 !in q.queue
  {
  }

  lemma TwicePlaced(s: seq<nat>, j: nat, i: nat)
    requires j < i < |s| && s[j] == s[i]
    ensures multiset(s)[s[i]] >= 2
  {
    assert s == s[..i] + [s[i]] + s[i + 1..];
    assert s[..i][j] == s[i];
    InMultiset(s[..i], s[i]);
  }

  /** Draining leading tombstones shifts the split. */
  lemma SplitDrained(q: State, s: nat) returns (s': nat)
    requires Split(q, s) && 0 !in q.queue
    ensures Split(q.(order := RemoveZeroes(q.order)), s')
    ensures RemoveZeroes(q.order)[s'..] == q.order[s..]
  {
    var z := LeadingZeros(q.order);
    assert z <= s;
    s' := s - (|q.order| - |RemoveZeroes(q.order)|);
    assert RemoveZeroes(q.order) == q.order[|q.order| - |RemoveZeroes(q.order)|..];
  }

  lemma EnqueueFifo(q: State, log: Log, s: nat, payload: seq<byte>, publisher: nat, time: nat)
    requires FifoOk(q, log, s) && FreshId(q)
    ensures FifoOk(Enqueue(q, payload, publisher, time), Record(q, log, EnqueueOp(payload, publisher, time)), s)
  {
    hide OrderAgrees, LocksAgree, Contents;
    EnqueueAgrees(q, payload, publisher, time);
    hide Agree;
    var q' := Enqueue(q, payload, publisher, time);
    var id, rest := NewId(q.order), q.order[s..];
    assert q'.order[s..] == rest + [id];
    forall i | 0 <= i < |rest|
      ensures ContentOf(q'.queue, rest[i]) == ContentOf(q.queue, rest[i])
    {
      assert rest[i] == q.order[s + i];
    }
    ContentsSame(q.queue, q'.queue, rest);
    ContentsAppend(q'.queue, rest, id);
  }

  /** A lock delivers the first undelivered message and moves the cursor to the next one. */
  lemma LockShape(q: State, s: nat, c: nat)
    requires Agree(q) && Split(q, s) && s < |q.order|
    ensures var (q', r) := LockToRead(q, c);
      var id := q.order[s];
      id in q.queue && r == Done(Delivery(id, q.queue[id].(lockedBy := Some(c)))) &&
      q'.queue == q.queue[id := q.queue[id].(lockedBy := Some(c))] &&
      q'.next == (if s + 1 < |q.order| then Some(q.order[s + 1]) else None) &&
      q'.order == if q'.next.None? then RemoveZeroes(q.order) else q.order
  {
    OncePlaced(q, s);
    NotZero(q);
    assert s + 1 < |q.order| ==> q.order[s + 1] in q.queue;
    hide Agree, RemoveZeroes, FirstNonzero, Find;
  }

  lemma LockAtEnd(q: State, s: nat, c: nat)
    requires Split(q, s) && s >= |q.order|
    ensures LockToRead(q, c) == (q, Failed(QueueIsEmpty))
  {
  }

  lemma LockFifo(q: State, log: Log, s: nat, c: nat) returns (s': nat)
    requires FifoOk(q, log, s)
    ensures FifoOk(LockToRead(q, c).0, Record(q, log, LockOp(c)), s')
    ensures LockToRead(q, c).1.Done? <==> s < |q.order|
  {
    hide Agree, Split, Contents, RemoveZeroes, LockToRead;
    NotZero(q);
    s' := s;
    LockAgrees(q, c);
    if s < |q.order| {
      LockShape(q, s, c);
      var q' := LockToRead(q, c).0;
      var q1 := q'.(order := q.order);
      LockSplit(q, q1, s, c);
      LockContents(q, q', s, q.order[s]);
      if q'.next.None? { s' := SplitDrained(q1, s + 1); } else { s' := s + 1; }
    } else {
      LockAtEnd(q, s, c);
    }
  }

  lemma LockSplit(q: State, q1: State, s: nat, c: nat)
    requires Agree(q) && Split(q, s) && s < |q.order| && q1.order == q.order
    requires q1.queue == q.queue[q.order[s] := q.queue[q.order[s]].(lockedBy := Some(c))]
    requires q1.next == if s + 1 < |q.order| then Some(q.order[s + 1]) else None
    ensures Split(q1, s + 1)
  {
    forall i | 0 <= i < |q.order| && q.order[i] in q.queue && i != s
      ensures q.order[i] != q.order[s]
    {
      OncePlaced(q, i);
      OncePlaced(q, s);
    }
  }

  lemma LockContents(q: State, q': State, s: nat, id: nat)
    requires s < |q.order| && q.order[s] == id && id in q.queue
    requires exists l :: q'.queue == q.queue[id := q.queue[id].(lockedBy := l)]
    ensures Contents(q.queue, q.order[s..]) == [ContentOf(q.queue, id)] + Contents(q'.queue, q.order[s + 1..])
  {
    assert q.order[s..][1..] == q.order[s + 1..];
    ContentsSame(q.queue, q'.queue, q.order[s + 1..]);
  }

  lemma AckFifo(q: State, log: Log, s: nat, c: nat) returns (s': nat)
    requires FifoOk(q, log, s)
    ensures FifoOk(Dequeue(q, c, None).0, log, s')
  {
    hide OrderAgrees, LocksAgree, Contents, RemoveZeroes;
    s' := s;
    DequeueAgrees(q, c, None);
    if q.order != [] && Held(q, c) != [] {
      var id := Held(q, c)[0];
      FirstHeld(q, c);
      LiveInOrder(q, id);
      NotZero(q);
      var i := Find(q.order, id);
      var q' := Dequeue(q, c, None).0;
      var q1 := q'.(order := q.order[i := 0]);
      assert i < s;
      AckSplit(q, q1, s, id);
      ContentsSame(q.queue, q'.queue, q.order[s..]);
      hide Agree, Split;
      s' := SplitDrained(q1, s);
    }
  }

  lemma AckSplit(q: State, q1: State, s: nat, id: nat)
    requires OrderAgrees(q) && Split(q, s) && id in q.queue && q.queue[id].lockedBy.Some?
    requires Find(q.order, id) < |q.order| && q1.order == q.order[Find(q.order, id) := 0]
    requires q1.queue == Without(q.queue, id) && q1.next == q.next
    ensures Split(q1, s) && q1.order[s..] == q.order[s..]
  {
    var i := Find(q.order, id);
    assert i < s;
    forall j | 0 <= j < |q.order| && j != i && q.order[j] in q.queue
      ensures q.order[j] != id
    {
      OncePlaced(q, j);
    }
  }

  /** Every run of enqueues, locks and acknowledgements in which new ids are fresh delivers every
      message exactly once and in the order sent: what was delivered followed by what is still
      pending is what was sent. */
  lemma {:induction false} EveryStreamIsFifo(q: State, log: Log, s: nat, ops: seq<Op>) returns (s': nat)
    requires FifoOk(q, log, s) && GuardedRun(q, ops)
    requires forall i | 0 <= i < |ops| :: Streaming(ops[i])
    ensures FifoOk(Run(q, ops), RunLog(q, log, ops), s')
    decreases |ops|
  {
    if ops == [] {
      s' := s;
    } else {
      var op := ops[0];
      var s1;
      match op {
        case EnqueueOp(payload, publisher, time) => EnqueueFifo(q, log, s, payload, publisher, time); s1 := s;
        case LockOp(c) => s1 := LockFifo(q, log, s, c);
        case AckOp(c) => s1 := AckFifo(q, log, s, c);
      }
      s' := EveryStreamIsFifo(Apply(q, op), Record(q, log, op), s1, ops[1..]);
    }
  }

  lemma EmptyIsFifo()
    ensures FifoOk(EMPTY, Log([], []), 0)
  {
    InitAgrees();
  }
}
