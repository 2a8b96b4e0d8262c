/** Delivery timers. A timer knows the client and the message id of its delivery and releases whatever
    that client holds under that id when it runs out (src/net/server.rs:334-354). Deliveries are
    numbered here, to say when that is a later delivery than the timer's own. */
module QueueTimers {
  import opened Collections
  import opened Wrappers
  import opened QueueModel
  import opened QueueSafety
  import opened QueueAgreement
  import opened QueueFrame
  import opened QueuePanics

  /** The queue, the number of deliveries so far, and for each id the number of its last delivery. */
  datatype Timed = Timed(q: State, count: nat, last: map<nat, nat>)

  /** The message an operation delivers. */
  function Delivers(q: State, op: Op): Option<nat> {
    match op
    case LockOp(c) => if LockRefusal(q).None? then q.next else None
    case _ => None
  }

  function TimedApply(t: Timed, op: Op): Timed {
    var id := Delivers(t.q, op);
    Timed(Apply(t.q, op), if id.Some? then t.count + 1 else t.count,
          if id.Some? then t.last[id.value := t.count] else t.last)
  }

  function TimedRun(t: Timed, ops: seq<Op>): Timed
    decreases |ops|
  {
    if ops == [] then t else TimedRun(TimedApply(t, ops[0]), ops[1..])
  }

  /** Client `c` holds message `id` from delivery number `s`. */
  predicate HoldsFrom(t: Timed, c: nat, id: nat, s: nat) {
    IsLocked(t.q, c, id) && id in t.last && t.last[id] == s
  }

  /** The timer of delivery `s` of message `id` to client `c` finds the id in the client's list, but the
      message's last delivery is another: a later one to the same client, or one to another client. */
  predicate Misfires(t: Timed, c: nat, id: nat, s: nat) {
    IsLocked(t.q, c, id) && !HoldsFrom(t, c, id, s)
  }

  /** The operations that take the client's only entry of a message out of its list: its own
      acknowledgement, deletion, requeue or negative acknowledgement of it, and a timer for it. */
  predicate Ends(q: State, op: Op, c: nat, id: nat) {
    q.order != [] && multiset(Held(q, c))[id] == 1 &&
    match op
    case AckOp(d) => d == c && Oldest(q, c) == Some(id)
    case DeleteOp(d, k) => d == c && if k in q.queue then k == id else Oldest(q, c) == Some(id)
    case RequeueOp(d, k, _) => d == c && k == id && k in q.queue
    case NackOp(d) => d == c && Oldest(q, c) == Some(id)
    case ExpireOp(d, k) => d == c && k == id
    case _ => false
  }

  lemma DeleteEnds(q: State, c: nat, k: nat, id: nat)
    requires k in q.queue && id in Held(q, c)
    ensures !IsLocked(DeleteById(q, c, k).0, c, id) <==> k == id && multiset(Held(q, c))[id] == 1
  {
    var held := Held(q, c);
    hide RemoveZeroes, Forget, RemoveAt;
    InMultiset(held, id);
    if k in held { RemovedAtIn(held, Find(held, k), id); }
  }

  lemma AckEnds(q: State, c: nat, id: nat)
    requires id in Held(q, c)
    ensures !IsLocked(AckFirst(q, c).0, c, id) <==> Oldest(q, c) == Some(id) && multiset(Held(q, c))[id] == 1
  {
    hide RemoveZeroes;
    InMultiset(Held(q, c), id);
    assert RemoveAt(Held(q, c), 0) == Held(q, c)[1..];
    RemovedAtIn(Held(q, c), 0, id);
  }

  lemma ReleaseEnds(q: State, c: nat, k: nat, id: nat)
    requires k in Held(q, c) && id in Held(q, c)
    ensures !IsLocked(Release(q, c, k), c, id) <==> k == id && multiset(Held(q, c))[id] == 1
  {
    hide RemoveAt;
    InMultiset(Held(q, c), id);
    RemovedAtIn(Held(q, c), Find(Held(q, c), k), id);
  }

  lemma RequeueEnds(q: State, c: nat, k: nat, time: nat, id: nat)
    requires q.order != [] && id in Held(q, c)
    ensures !IsLocked(Requeue(q, c, k, time).0, c, id) <==>
      k in q.queue && k == id && multiset(Held(q, c))[id] == 1
  {
    if k in q.queue {
      var q1 := Enqueue(q, q.queue[k].payload, q.queue[k].publisher, time);
      assert Held(q1, c) == Held(q, c);
      DeleteEnds(q1, c, k, id);
    }
  }

  /** In any state, a hold ends exactly by one of these operations. */
  lemma EndsExactlyWhen(q: State, op: Op, c: nat, id: nat)
    requires IsLocked(q, c, id)
    ensures !IsLocked(Apply(q, op), c, id) <==> Ends(q, op, c, id)
  {
    hide RemoveZeroes, DeleteById, AckFirst, Release, Requeue;
    if Caller(op) != Some(c) {
      OtherListsUntouched(q, op, c);
    } else if q.order == [] {
      EmptyKeepsLists(q, op, c);
    } else {
      match op
      case AckOp(_) => AckEnds(q, c, id);
      case DeleteOp(_, k) => if k in q.queue { DeleteEnds(q, c, k, id); } else { AckEnds(q, c, id); }
      case RequeueOp(_, k, time) => RequeueEnds(q, c, k, time, id);
      case NackOp(_) => ReleaseEnds(q, c, Held(q, c)[0], id);
      case ExpireOp(_, k) => if k in Held(q, c) { ReleaseEnds(q, c, k, id); }
      case LockOp(_) => LockExtends(q, c, id);
      case _ =>
    }
  }

  lemma EmptyKeepsLists(q: State, op: Op, c: nat)
    requires q.order == []
    ensures Held(Apply(q, op), c) == Held(q, c)
  {
    hide RemoveZeroes, DeleteById, AckFirst, Release;
  }

  lemma LockExtends(q: State, c: nat, id: nat)
    ensures IsLocked(LockToRead(q, c).0, c, id) <==> IsLocked(q, c, id) || Delivers(q, LockOp(c)) == Some(id)
  {
    hide RemoveZeroes, After, FirstNonzero;
  }

  /** A hold begins by a delivery to that client only. */
  lemma BeginsByDelivery(q: State, op: Op, c: nat, id: nat)
    requires !IsLocked(q, c, id) && IsLocked(Apply(q, op), c, id)
    ensures Delivers(q, op) == Some(id)
  {
    hide RemoveZeroes, DeleteById, AckFirst, Release, Requeue, LockToRead;
    if Caller(op) != Some(c) {
      OtherListsUntouched(q, op, c);
    } else {
      match op
      case LockOp(_) => LockExtends(q, c, id);
      case AckOp(_) => AckShrinks(q, c, id);
      case DeleteOp(_, k) => if k in q.queue { DeleteShrinks(q, c, k, id); } else { AckShrinks(q, c, id); }
      case RequeueOp(_, k, time) => RequeueShrinks(q, c, k, time, id);
      case NackOp(_) => if Held(q, c) != [] { ReleaseShrinks(q, c, Held(q, c)[0], id); }
      case ExpireOp(_, k) => if k in Held(q, c) { ReleaseShrinks(q, c, k, id); }
      case _ =>
    }
  }

  lemma AckShrinks(q: State, c: nat, id: nat)
    ensures IsLocked(AckFirst(q, c).0, c, id) ==> IsLocked(q, c, id)
  {
    hide RemoveZeroes;
  }

  lemma DeleteShrinks(q: State, c: nat, k: nat, id: nat)
    requires k in q.queue
    ensures IsLocked(DeleteById(q, c, k).0, c, id) ==> IsLocked(q, c, id)
  {
    hide RemoveZeroes, Forget, RemoveAt;
    if k in Held(q, c) { RemoveAtIn(Held(q, c), Find(Held(q, c), k), id); }
  }

  lemma ReleaseShrinks(q: State, c: nat, k: nat, id: nat)
    requires k in Held(q, c)
    ensures IsLocked(Release(q, c, k), c, id) ==> IsLocked(q, c, id)
  {
    hide RemoveAt;
    RemoveAtIn(Held(q, c), Find(Held(q, c), k), id);
  }

  lemma RequeueShrinks(q: State, c: nat, k: nat, time: nat, id: nat)
    ensures IsLocked(Requeue(q, c, k, time).0, c, id) ==> IsLocked(q, c, id)
  {
    if q.order != [] && k in q.queue {
      var q1 := Enqueue(q, q.queue[k].payload, q.queue[k].publisher, time);
      assert Held(q1, c) == Held(q, c);
      DeleteShrinks(q1, c, k, id);
    }
  }

  // ---- Runs ----

  /** Some operation of the run delivers message `id`, to whomever. */
  predicate DeliveredDuring(q: State, ops: seq<Op>, id: nat)
    decreases |ops|
  {
    ops != [] && (Delivers(q, ops[0]) == Some(id) || DeliveredDuring(Apply(q, ops[0]), ops[1..], id))
  }

  /** An id that was delivered again never has delivery `s` as its last one. */
  lemma {:induction false} NeverAgain(t: Timed, ops: seq<Op>, id: nat, s: nat)
    requires s < t.count && id in t.last && t.last[id] != s
    ensures var v := TimedRun(t, ops);
      id in v.last && v.last[id] != s
    decreases |ops|
  {
    hide Apply, Delivers;
    if ops != [] { NeverAgain(TimedApply(t, ops[0]), ops[1..], id, s); }
  }

  lemma {:induction false} LastExactlyWhen(t: Timed, ops: seq<Op>, id: nat, s: nat)
    requires id in t.last && t.last[id] == s && s < t.count
    ensures var v := TimedRun(t, ops);
      id in v.last && (v.last[id] == s <==> !DeliveredDuring(t.q, ops, id))
    decreases |ops|
  {
    hide Apply, Delivers;
    if ops != [] {
      var t' := TimedApply(t, ops[0]);
      if Delivers(t.q, ops[0]) == Some(id) { NeverAgain(t', ops[1..], id, s); }
      else { LastExactlyWhen(t', ops[1..], id, s); }
    }
  }

  /** In any run at all: a timer acts on another delivery than its own exactly if, when it runs out, its
      client's list has the id and the id has been delivered again, to whomever. */
  lemma MisfiresExactlyWhen(t: Timed, ops: seq<Op>, c: nat, id: nat, s: nat)
    requires id in t.last && t.last[id] == s && s < t.count
    ensures var v := TimedRun(t, ops);
      Misfires(v, c, id, s) <==> IsLocked(v.q, c, id) && DeliveredDuring(t.q, ops, id)
  {
    hide TimedRun, DeliveredDuring, IsLocked;
    LastExactlyWhen(t, ops, id, s);
  }

  // ---- Guarded runs ----

  lemma HeldOnce(q: State, c: nat, id: nat)
    requires Agree(q) && id in Held(q, c)
    ensures LockedBy(q, id, c) && multiset(Held(q, c))[id] == 1 && q.order != []
  {
    InMultiset(Held(q, c), id);
    assert multiset(Held(q, c))[id] == if LockedBy(q, id, c) then 1 else 0;
    LiveInOrder(q, id);
  }

  /** A message that is held is not delivered. */
  lemma NotDelivered(q: State, op: Op, c: nat, id: nat)
    requires Agree(q) && IsLocked(q, c, id)
    ensures Delivers(q, op) != Some(id)
  {
    HeldOnce(q, c, id);
  }

  /** Some operation of the run ends a hold of message `id` by client `c`. */
  predicate EndsDuring(q: State, ops: seq<Op>, c: nat, id: nat)
    decreases |ops|
  {
    ops != [] && ((IsLocked(q, c, id) && Ends(q, ops[0], c, id)) || EndsDuring(Apply(q, ops[0]), ops[1..], c, id))
  }

  /** What is not held now and held at the end is delivered in between. */
  lemma {:induction false} HeldIsDelivered(q: State, ops: seq<Op>, c: nat, id: nat)
    requires !IsLocked(q, c, id) && IsLocked(Run(q, ops), c, id)
    ensures DeliveredDuring(q, ops, id)
    decreases |ops|
  {
    hide Apply, IsLocked, Delivers;
    if ops != [] {
      if IsLocked(Apply(q, ops[0]), c, id) { BeginsByDelivery(q, ops[0], c, id); }
      else { HeldIsDelivered(Apply(q, ops[0]), ops[1..], c, id); }
    }
  }

  /** Under the guards a held message is delivered again only after its hold has ended. */
  lemma {:induction false} RedeliveredIffEnded(q: State, ops: seq<Op>, c: nat, id: nat)
    requires Agree(q) && GuardedRun(q, ops) && IsLocked(q, c, id) && IsLocked(Run(q, ops), c, id)
    ensures DeliveredDuring(q, ops, id) <==> EndsDuring(q, ops, c, id)
    decreases |ops|
  {
    hide Apply, Agree, IsLocked, Ends, Guarded, Delivers;
    if ops != [] {
      var q' := Apply(q, ops[0]);
      ApplyAgrees(q, ops[0]);
      EndsExactlyWhen(q, ops[0], c, id);
      NotDelivered(q, ops[0], c, id);
      if IsLocked(q', c, id) { RedeliveredIffEnded(q', ops[1..], c, id); }
      else { HeldIsDelivered(q', ops[1..], c, id); }
    }
  }

  /** So there a timer misfires exactly if its own hold has ended and the client holds the id again. */
  lemma MisfiresAfterEnd(t: Timed, ops: seq<Op>, c: nat, id: nat, s: nat)
    requires Agree(t.q) && GuardedRun(t.q, ops) && HoldsFrom(t, c, id, s) && s < t.count
    ensures var v := TimedRun(t, ops);
      Misfires(v, c, id, s) <==> IsLocked(v.q, c, id) && EndsDuring(t.q, ops, c, id)
  {
    hide Agree, IsLocked, GuardedRun, Misfires, EndsDuring, DeliveredDuring;
    MisfiresExactlyWhen(t, ops, c, id, s);
    TimedIsRun(t, ops);
    if IsLocked(Run(t.q, ops), c, id) { RedeliveredIffEnded(t.q, ops, c, id); }
  }

  lemma {:induction false} TimedIsRun(t: Timed, ops: seq<Op>)
    ensures TimedRun(t, ops).q == Run(t.q, ops)
    decreases |ops|
  {
    if ops != [] { TimedIsRun(TimedApply(t, ops[0]), ops[1..]); }
  }
}
