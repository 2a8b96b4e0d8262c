/** Which operations leave a dead id in a client's list of locks, and so make a later acknowledgement
    fail its `unwrap` (src/net/queue.rs:297-319). */
module QueuePanics {
  import opened Collections
  import opened Wrappers
  import opened QueueModel
  import opened QueueAgreement
  import opened QueueFrame

  /** Client `d` holds an id of a message that is gone. */
  predicate Dead(q: State, d: nat, k: nat) {
    k in Held(q, d) && k !in q.queue
  }

  /** No list holds such an id. */
  ghost predicate Clean(q: State) {
    forall d: nat, k: nat :: !Dead(q, d, k)
  }

  function Oldest(q: State, c: nat): Option<nat> {
    if Held(q, c) == [] then None else Some(Held(q, c)[0])
  }

  /** The message an operation takes away. */
  function Removes(q: State, op: Op): Option<nat> {
    if q.order == [] then None
    else match op
      case AckOp(c) => Oldest(q, c)
      case DeleteOp(c, id) => if id in q.queue then Some(id) else Oldest(q, c)
      case RequeueOp(c, id, _) => if id in q.queue then Some(id) else None
      case _ => None
  }

  /** The message taken away is held by a client whose list does not lose it: by another client than
      the caller, or by the caller a second time. */
  predicate Orphans(q: State, op: Op, d: nat, k: nat) {
    Removes(q, op) == Some(k) && multiset(Held(q, d))[k] > if Caller(op) == Some(d) then 1 else 0
  }

  lemma RemovedAtIn(s: seq<nat>, i: nat, k: nat)
    requires i < |s|
    ensures k in RemoveAt(s, i) <==> multiset(s)[k] > if s[i] == k then 1 else 0
  {
    MultisetRemoveAt(s, i);
    InMultiset(RemoveAt(s, i), k);
  }

  lemma DeleteOrphans(q: State, c: nat, id: nat, d: nat, k: nat)
    requires id in q.queue && !Dead(q, d, k)
    ensures Dead(DeleteById(q, c, id).0, d, k) <==>
      k == id && multiset(Held(q, d))[k] > if c == d then 1 else 0
  {
    var held := Held(q, c);
    hide RemoveZeroes, Forget, RemoveAt;
    InMultiset(Held(q, d), k);
    InMultiset(held, id);
    if id in held { RemovedAtIn(held, Find(held, id), k); }
  }

  lemma AckOrphans(q: State, c: nat, d: nat, k: nat)
    requires !Dead(q, d, k)
    ensures Dead(AckFirst(q, c).0, d, k) <==>
      Held(q, c) != [] && k == Held(q, c)[0] && multiset(Held(q, d))[k] > if c == d then 1 else 0
  {
    hide RemoveZeroes;
    InMultiset(Held(q, d), k);
    if Held(q, c) != [] {
      assert RemoveAt(Held(q, c), 0) == Held(q, c)[1..];
      RemovedAtIn(Held(q, c), 0, k);
    }
  }

  lemma RequeueOrphans(q: State, c: nat, id: nat, time: nat, d: nat, k: nat)
    requires q.order != [] && id in q.queue && !Dead(q, d, k)
    ensures Dead(Requeue(q, c, id, time).0, d, k) <==>
      k == id && multiset(Held(q, d))[k] > if c == d then 1 else 0
  {
    var m := q.queue[id];
    var q1 := Enqueue(q, m.payload, m.publisher, time);
    assert Held(q1, d) == Held(q, d);
    DeleteOrphans(q1, c, id, d, k);
  }

  lemma ReleaseOrphans(q: State, c: nat, id: nat, d: nat, k: nat)
    requires id in Held(q, c) && !Dead(q, d, k)
    ensures !Dead(Release(q, c, id), d, k)
  {
    hide RemoveAt;
    RemovedAtIn(Held(q, c), Find(Held(q, c), id), k);
    InMultiset(Held(q, c), k);
  }

  /** An id becomes dead in a list exactly when its message is taken away and the list is not the one
      that loses it. */
  lemma OrphansExactlyWhen(q: State, op: Op, d: nat, k: nat)
    requires !Dead(q, d, k)
    ensures Dead(Apply(q, op), d, k) <==> Orphans(q, op, d, k)
  {
    hide RemoveZeroes, AckFirst, DeleteById, Release;
    match op
    case AckOp(c) => AckOrphans(q, c, d, k);
    case DeleteOp(c, id) =>
      AckOrphans(q, c, d, k);
      if id in q.queue { DeleteOrphans(q, c, id, d, k); }
    case RequeueOp(c, id, time) => if q.order != [] && id in q.queue { RequeueOrphans(q, c, id, time, d, k); }
    case NackOp(c) => if Held(q, c) != [] { ReleaseOrphans(q, c, Held(q, c)[0], d, k); }
    case ExpireOp(c, id) => if id in Held(q, c) { ReleaseOrphans(q, c, id, d, k); }
    case _ =>
  }

  /** No list keeps what an operation takes away. */
  ghost predicate OrphansNone(q: State, op: Op) {
    forall d: nat, k: nat :: !Orphans(q, op, d, k)
  }

  ghost predicate CleanRun(q: State, ops: seq<Op>)
    decreases |ops|
  {
    Clean(q) && (ops != [] ==> CleanRun(Apply(q, ops[0]), ops[1..]))
  }

  ghost predicate NeverOrphans(q: State, ops: seq<Op>)
    decreases |ops|
  {
    ops != [] ==> OrphansNone(q, ops[0]) && NeverOrphans(Apply(q, ops[0]), ops[1..])
  }

  lemma CleanStep(q: State, op: Op)
    requires Clean(q)
    ensures Clean(Apply(q, op)) <==> OrphansNone(q, op)
  {
    hide Dead, Orphans, Apply;
    forall d: nat, k: nat
      ensures Dead(Apply(q, op), d, k) <==> Orphans(q, op, d, k)
    {
      assert !Dead(q, d, k);
      OrphansExactlyWhen(q, op, d, k);
    }
  }

  /** Where the `unwrap` is: a call fails it exactly when no live message is named and the client's oldest
      lock is on a message that is gone. */
  lemma PanicsExactlyWhen(q: State, c: nat, id: Option<nat>)
    ensures Dequeue(q, c, id).1.Panicked? <==>
      q.order != [] && !(id.Some? && id.value in q.queue) && Held(q, c) != [] && Dead(q, c, Held(q, c)[0])
  {
    hide RemoveZeroes, Forget, RemoveAt;
  }

  lemma CleanNeverPanics(q: State, op: Op)
    requires Clean(q)
    ensures !Panics(q, op)
  {
    match op
    case AckOp(c) => PanicsExactlyWhen(q, c, None);
    case DeleteOp(c, id) => PanicsExactlyWhen(q, c, Some(id));
    case RequeueOp(c, id, time) => RequeueNeverPanics(q, c, id, time);
    case _ =>
  }

  lemma RequeueNeverPanics(q: State, c: nat, id: nat, time: nat)
    ensures !Requeue(q, c, id, time).1.Panicked?
  {
    hide RemoveZeroes, Forget, RemoveAt;
  }

  /** The lists stay free of dead ids exactly as long as no operation takes away what another list
      keeps; and as long as they are, no `unwrap` fails. Nothing is asked of ids. */
  lemma {:induction false} CleanExactlyWhen(q: State, ops: seq<Op>)
    requires Clean(q)
    ensures CleanRun(q, ops) <==> NeverOrphans(q, ops)
    ensures NeverOrphans(q, ops) ==> forall k | 0 <= k < |ops| :: !Panics(Run(q, ops[..k]), ops[k])
    decreases |ops|
  {
    hide Clean, OrphansNone, Apply, Panics;
    if ops != [] {
      CleanStep(q, ops[0]);
      CleanNeverPanics(q, ops[0]);
      if Clean(Apply(q, ops[0])) {
        CleanExactlyWhen(Apply(q, ops[0]), ops[1..]);
        forall k | 0 <= k < |ops| && NeverOrphans(q, ops)
          ensures !Panics(Run(q, ops[..k]), ops[k])
        {
          if k > 0 { assert ops[..k][1..] == ops[1..][..k - 1]; }
        }
      } else {
        assert !CleanRun(Apply(q, ops[0]), ops[1..]);
      }
    }
  }

  /** The two guards rule it out: in an agreeing state a guarded operation orphans nothing. */
  lemma GuardedOrphansNone(q: State, op: Op)
    requires Agree(q) && Guarded(q, op)
    ensures Clean(q) && OrphansNone(q, op)
  {
    AgreeIsClean(q);
    ApplyAgrees(q, op);
    AgreeIsClean(Apply(q, op));
    CleanStep(q, op);
  }

  /** In an agreeing state a deletion by id orphans nothing exactly when its guard holds. */
  lemma DeleteOrphansIff(q: State, c: nat, id: nat)
    requires Agree(q) && id in q.queue
    ensures OrphansNone(q, DeleteOp(c, id)) <==> OwnOrUnlocked(q, c, id)
  {
    if OwnOrUnlocked(q, c, id) {
      GuardedOrphansNone(q, DeleteOp(c, id));
    } else {
      var d := q.queue[id].lockedBy.value;
      LiveInOrder(q, id);
      assert multiset(Held(q, d))[id] == if LockedBy(q, id, d) then 1 else 0;
      assert Orphans(q, DeleteOp(c, id), d, id);
    }
  }

  lemma AgreeIsClean(q: State)
    requires Agree(q)
    ensures Clean(q)
  {
    forall d: nat, k: nat
      ensures !Dead(q, d, k)
    {
      assert multiset(Held(q, d))[k] == if LockedBy(q, k, d) then 1 else 0;
      InMultiset(Held(q, d), k);
    }
  }
}
