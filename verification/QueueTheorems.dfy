/** The queue's guarantees for runs that start with an empty queue. */
module QueueTheorems {
  import opened QueueModel
  import opened QueueSafety
  import opened QueueAgreement
  import opened QueueCursor
  import opened QueueFifo
  import opened QueuePipeline
  import opened QueuePanics
  import opened QueueTimers

  /** Whatever clients do: every live message is in the order, every locked one is in its holder's
      list, 0 is never an id or the cursor, and an empty order means no messages. */
  lemma AlwaysSafe(ops: seq<Op>)
    ensures Safe(Run(EMPTY, ops))
    ensures Run(EMPTY, ops).order == [] ==> Run(EMPTY, ops).queue == map[]
  {
    InitSafe();
    EveryRunSafe(EMPTY, ops);
  }

  /** As long as new ids are fresh and nobody deletes what another client holds: order, messages and
      lock lists agree, no `unwrap` fails, and the number of live messages is what was enqueued less
      what was acknowledged or deleted. */
  lemma GuardedRunsAgree(ops: seq<Op>)
    requires GuardedRun(EMPTY, ops)
    ensures Agree(Run(EMPTY, ops))
    ensures forall k | 0 <= k < |ops| :: !Panics(Run(EMPTY, ops[..k]), ops[k])
    ensures |Run(EMPTY, ops).queue| == Changes(EMPTY, ops)
  {
    InitAgrees();
    EveryGuardedRunAgrees(EMPTY, ops);
    RunCounts(EMPTY, ops);
  }

  /** Whatever the ids: as long as no operation takes away a message some list keeps, no `unwrap` fails,
      and no list ever holds a dead id; the first operation that does leaves one. */
  lemma UnwrapsHold(ops: seq<Op>)
    ensures CleanRun(EMPTY, ops) <==> NeverOrphans(EMPTY, ops)
    ensures NeverOrphans(EMPTY, ops) ==> forall k | 0 <= k < |ops| :: !Panics(Run(EMPTY, ops[..k]), ops[k])
  {
    InitAgrees();
    AgreeIsClean(EMPTY);
    CleanExactlyWhen(EMPTY, ops);
  }

  /** As long as new ids are ahead of all others: a successful lock delivers the oldest unlocked
      message, and "empty" is the truth. */
  lemma OldestFirst(ops: seq<Op>, c: nat, k: nat)
    requires AheadRun(EMPTY, ops)
    ensures var q, r := Run(EMPTY, ops), LockToRead(Run(EMPTY, ops), c).1;
      (r == Failed(QueueIsEmpty) ==> !Waiting(q, k)) &&
      (r.Done? ==> Waiting(q, r.value.id)) &&
      (r.Done? && Waiting(q, k) && k != r.value.id ==> Find(q.order, r.value.id) < Find(q.order, k) < |q.order|)
  {
    InitCursor();
    EveryAheadRunKeeps(EMPTY, ops);
    var q := Run(EMPTY, ops);
    hide CursorOk, LockToRead, Waiting;
    if LockToRead(q, c).1.Done? { DeliversOldest(q, c, k); }
    if LockToRead(q, c).1 == Failed(QueueIsEmpty) { EmptyIsTruthful(q, c); }
  }

  /** Streaming to any number of consumers: delivered, then pending, is what was sent. */
  lemma StreamsAreFifo(ops: seq<Op>) returns (s: nat)
    requires GuardedRun(EMPTY, ops) && forall i | 0 <= i < |ops| :: Streaming(ops[i])
    ensures var q, log := Run(EMPTY, ops), RunLog(EMPTY, Log([], []), ops);
      s <= |q.order| && log.sent == log.delivered + Contents(q.queue, q.order[s..]) &&
      forall i | s <= i < |q.order| :: Waiting(q, q.order[i])
  {
    EmptyIsFifo();
    s := EveryStreamIsFifo(EMPTY, Log([], []), 0, ops);
  }

  /** Disciplined consumption: nothing is assumed of ids but that u128 does not wrap; acknowledged,
      in flight and pending is what was sent, in order. */
  lemma DisciplinedRunsBalance(ops: seq<Op>) returns (owner: nat, z: nat, ids: seq<nat>, l: nat)
    requires DisciplinedRun(EMPTY, ops)
    ensures var q, led := Run(EMPTY, ops), BookRun(EMPTY, Ledger([], []), ops);
      led.sent == led.acked + Contents(q.queue, ids) && l <= |ids| &&
      Held(q, owner) == ids[..l] && (forall k :: k in q.queue <==> k in ids) &&
      (forall i | l <= i < |ids| :: Waiting(q, ids[i])) && q.next == CursorAt(ids, l)
    ensures forall k | 0 <= k < |ops| && ops[k].EnqueueOp? :: FreshId(Run(EMPTY, ops[..k]))
  {
    EmptyPipe();
    owner, z, ids, l := EveryDisciplinedRun(EMPTY, 0, 0, [], 0, Ledger([], []), ops);
  }

  /** The timer of a delivery, in any run from an empty queue: when it runs out it acts on another
      delivery exactly if its client's list has the id and the id has been delivered again, to whomever;
      under the guards, exactly if its own hold has ended and the client holds the id again. */
  lemma TimersMisfire(before: seq<Op>, c: nat, after: seq<Op>)
    requires Delivers(Run(EMPTY, before), LockOp(c)).Some?
    ensures var t := TimedRun(Timed(EMPTY, 0, map[]), before);
      var id, own := Delivers(t.q, LockOp(c)), TimedApply(t, LockOp(c));
      id.Some? &&
      var v := TimedRun(own, after);
      v.q == Run(Apply(Run(EMPTY, before), LockOp(c)), after) &&
      (Misfires(v, c, id.value, t.count) <==> IsLocked(v.q, c, id.value) && DeliveredDuring(own.q, after, id.value)) &&
      (GuardedRun(EMPTY, before) && GuardedRun(own.q, after) ==>
        (Misfires(v, c, id.value, t.count) <==> IsLocked(v.q, c, id.value) && EndsDuring(own.q, after, c, id.value)))
  {
    var t := TimedRun(Timed(EMPTY, 0, map[]), before);
    TimedIsRun(Timed(EMPTY, 0, map[]), before);
    var own := TimedApply(t, LockOp(c));
    var id := Delivers(t.q, LockOp(c)).value;
    LockExtends(t.q, c, id);
    TimedIsRun(own, after);
    hide Agree, LockToRead, Misfires, EndsDuring, DeliveredDuring, GuardedRun, IsLocked;
    MisfiresExactlyWhen(own, after, c, id, t.count);
    if GuardedRun(EMPTY, before) && GuardedRun(own.q, after) {
      InitAgrees();
      EveryGuardedRunAgrees(EMPTY, before);
      LockAgrees(t.q, c);
      MisfiresAfterEnd(own, after, c, id, t.count);
    }
  }
}
