/** The two orders in which the registry's locks are taken: a lookup holds the id map and then asks for the
    name map, CreateQ and DeleteQ the other way round (src/net/server.rs:299-318, 504-546). */
module RegistryDeadlock {
  import opened Collections
  import opened Wrappers
  import opened Registry

  /** A lookup between its two guards. */
  predicate HoldsIds(pc: Pc) {
    pc.GetQueues?
  }

  /** A creation or deletion between its two guards. */
  predicate HoldsNames(pc: Pc) {
    pc.NewNames? || pc.DelNames?
  }

  /** Threads `t` and `u` each hold what the other waits for. */
  predicate Crossed(w: World, t: nat, u: nat) {
    t < |w.pcs| && u < |w.pcs| && HoldsIds(w.pcs[t]) && HoldsNames(w.pcs[u])
  }

  lemma CrossedStep(w: World, t: nat, u: nat, e: Event)
    requires Inv(w) && Crossed(w, t, u) && Step(w, e.t, e.a).Some?
    ensures var v := Step(w, e.t, e.a).value;
      |v.pcs| == |w.pcs| && v.pcs[t] == w.pcs[t] && v.pcs[u] == w.pcs[u] && v.names == w.names && v.queues == w.queues
  {
    if e.t != u { assert Compatible(w.pcs[u], w.pcs[e.t]); }
    hide Inv, Without;
  }

  /** Once that has happened, neither gets any further and no queue is created or deleted any more, whatever
      happens next. */
  lemma {:induction false} CrossedForever(w: World, t: nat, u: nat, events: seq<Event>)
    requires Inv(w) && Crossed(w, t, u) && Exec(w, events).Some?
    ensures var v := Exec(w, events).value;
      Crossed(v, t, u) && v.pcs[t] == w.pcs[t] && v.pcs[u] == w.pcs[u] && v.names == w.names && v.queues == w.queues
    decreases |events|
  {
    hide Inv, Step;
    if events != [] {
      CrossedStep(w, t, u, events[0]);
      StepKeeps(w, events[0].t, events[0].a);
      CrossedForever(Step(w, events[0].t, events[0].a).value, t, u, events[1..]);
    }
  }

  /** A thread that waits for a guard it cannot get while two are crossed, or is one of them. */
  predicate Hopeless(pc: Pc) {
    HoldsIds(pc) || HoldsNames(pc) || pc.NewStart? || pc.DelStart?
  }

  predicate Busy(w: World, t: nat) {
    t < |w.pcs| && !w.pcs[t].Idle?
  }

  ghost predicate Jammed(w: World, drawn: Uuid, queue: QueueRef) {
    forall t: nat | Busy(w, t) :: Advance(w, t, drawn, queue).None?
  }

  ghost predicate AllHopeless(w: World) {
    forall t: nat | Busy(w, t) :: Hopeless(w.pcs[t])
  }

  /** Nobody inside can take a step exactly when two threads are crossed and all others inside wait for a
      guard of the name map. */
  lemma JammedExactlyWhen(w: World, drawn: Uuid, queue: QueueRef, s: nat)
    requires Busy(w, s) && drawn !in w.issued
    ensures Jammed(w, drawn, queue) <==> (exists t: nat, u: nat :: Crossed(w, t, u)) && AllHopeless(w)
  {
    hide Advance;
    if Jammed(w, drawn, queue) { JammedIsCrossed(w, drawn, queue, s); }
    if (exists t: nat, u: nat :: Crossed(w, t, u)) && AllHopeless(w) {
      var t: nat, u: nat :| Crossed(w, t, u);
      CrossedIsJammed(w, t, u, drawn, queue);
    }
  }

  lemma CrossedIsJammed(w: World, t: nat, u: nat, drawn: Uuid, queue: QueueRef)
    requires Crossed(w, t, u) && AllHopeless(w)
    ensures Jammed(w, drawn, queue)
  {
    hide Without;
    assert !NoNamesWriter(w) && !NoQueuesReader(w);
  }

  /** Only a thread that waits for a guard can be without a step. */
  lemma WaitsForGuard(w: World, t: nat, drawn: Uuid, queue: QueueRef)
    requires Busy(w, t) && drawn !in w.issued && Advance(w, t, drawn, queue).None?
    ensures Hopeless(w.pcs[t]) || (w.pcs[t].GetStart? && !NoQueuesWriter(w))
  {
    hide Without;
  }

  lemma JammedIsHopeless(w: World, drawn: Uuid, queue: QueueRef)
    requires drawn !in w.issued && Jammed(w, drawn, queue)
    ensures AllHopeless(w) && NoQueuesWriter(w) && NoNamesReader(w)
  {
    hide Advance;
    forall t: nat | t < |w.pcs|
      ensures !WritesQueues(w.pcs[t]) && !ReadsNames(w.pcs[t])
    {
      if !w.pcs[t].Idle? { WaitsForGuard(w, t, drawn, queue); }
    }
    forall t: nat | Busy(w, t)
      ensures Hopeless(w.pcs[t])
    {
      WaitsForGuard(w, t, drawn, queue);
    }
  }

  lemma NamesOnly(pc: Pc)
    requires WritesNames(pc) && !WritesQueues(pc)
    ensures HoldsNames(pc) || pc.DropNames?
  {
  }

  lemma JammedIsCrossed(w: World, drawn: Uuid, queue: QueueRef, s: nat)
    requires Busy(w, s) && drawn !in w.issued && Jammed(w, drawn, queue)
    ensures AllHopeless(w) && exists t: nat, u: nat :: Crossed(w, t, u)
  {
    JammedIsHopeless(w, drawn, queue);
    hide Without;
    assert Hopeless(w.pcs[s]) && Advance(w, s, drawn, queue).None?;
    assert HoldsNames(w.pcs[s]) || !NoNamesWriter(w);
    var u: nat :| u < |w.pcs| && WritesNames(w.pcs[u]);
    NamesOnly(w.pcs[u]);
    assert Busy(w, u);
    assert !NoQueuesReader(w);
    var t: nat :| t < |w.pcs| && ReadsQueues(w.pcs[t]);
    assert Busy(w, t);
    assert Crossed(w, t, u);
  }

  lemma RunOf(w: World, w1: World, w2: World, e1: Event, e2: Event, rest: seq<Event>)
    requires Step(w, e1.t, e1.a) == Some(w1) && Step(w1, e2.t, e2.a) == Some(w2)
    ensures Exec(w, [e1, e2] + rest) == Exec(w2, rest)
  {
    hide Step;
    assert ([e1, e2] + rest)[1..] == [e2] + rest && ([e2] + rest)[1..] == rest;
  }

  /** From every state with two threads outside and nobody inside, they get there in two steps each. */
  lemma DeadlockReachable(w: World, t: nat, u: nat, name: Name) returns (v: World)
    requires t < |w.pcs| && u < |w.pcs| && t != u && forall s | 0 <= s < |w.pcs| :: w.pcs[s].Idle?
    ensures Exec(w, [Event(t, StartGet(name)), Event(t, Go(0, 0))] +
                    ([Event(u, StartCreate(name)), Event(u, Go(0, 0))] + [])) == Some(v)
    ensures Crossed(v, t, u)
  {
    hide Exec;
    var w1, w2 := Goto(w, t, GetStart(name)), Goto(w, t, GetQueues(name));
    var w3 := Goto(w2, u, NewStart(name));
    v := Goto(w2, u, NewNames(name));
    assert w1.pcs[t := GetQueues(name)] == w2.pcs && w3.pcs[u := NewNames(name)] == v.pcs;
    RunOf(w, w1, w2, Event(t, StartGet(name)), Event(t, Go(0, 0)),
      [Event(u, StartCreate(name)), Event(u, Go(0, 0))] + []);
    RunOf(w2, w3, v, Event(u, StartCreate(name)), Event(u, Go(0, 0)), []);
    NothingMore(v);
  }

  lemma NothingMore(w: World)
    ensures Exec(w, []) == Some(w)
  {
  }
}
