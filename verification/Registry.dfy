/** The queue registry of the server: a map from names to ids and a map from ids to queues, each
    behind its own reader-writer lock, used by any number of concurrent request handlers
    (src/net/server.rs:299-315, 504-546). A thread's guards follow from the point it has reached. */
module Registry {
  import opened Collections
  import opened Wrappers

  type Name = seq<char>
  type Uuid = nat
  type QueueRef = nat

  datatype Result = Found(queue: QueueRef) | QueueNotFound | QueueHashNotFound

  /** What CreateQ or DeleteQ has done and will answer. */
  datatype Outcome = Created(queue: QueueRef) | QueueAlreadyExists | Deleted(hash: Uuid) | QueueDoesNotExist

  /** Whether it was a creation, whether the name was registered when the handler had its guards, and the
      outcome. */
  datatype Ending = Ending(creating: bool, known: bool, outcome: Outcome)

  /** Points of the handlers. `get_queue` runs under a read guard of the id map and briefly takes a
      read guard of the name map; CreateQ and DeleteQ take both write guards, names first, and drop
      them in reverse. */
  datatype Pc =
    | Idle
    | GetStart(name: Name)
    | GetQueues(name: Name)
    | GetBoth(name: Name)
    | GetLookup(name: Name, found: Option<Uuid>)
    | GetDone(name: Name, result: Result)
    | NewStart(name: Name)
    | NewNames(name: Name)
    | NewBoth(name: Name, known: bool)
    | NewNamed(name: Name, hash: Uuid)
    | DelStart(name: Name)
    | DelNames(name: Name)
    | DelBoth(name: Name, known: bool)
    | DelUnnamed(name: Name, hash: Uuid)
    | DropQueues(name: Name, end: Ending)
    | DropNames(name: Name, end: Ending)

  /** `issued` are all ids ever drawn. */
  datatype World = World(names: map<Name, Uuid>, queues: map<Uuid, QueueRef>, issued: set<Uuid>, pcs: seq<Pc>)

  predicate ReadsNames(pc: Pc) { pc.GetBoth? }
  predicate ReadsQueues(pc: Pc) { pc.GetQueues? || pc.GetBoth? || pc.GetLookup? || pc.GetDone? }
  predicate WritesNames(pc: Pc) {
    pc.NewNames? || pc.DelNames? || pc.DropNames? || WritesQueues(pc)
  }
  predicate WritesQueues(pc: Pc) {
    pc.NewBoth? || pc.NewNamed? || pc.DelBoth? || pc.DelUnnamed? || pc.DropQueues?
  }

  datatype Action =
    | StartGet(name: Name)
    | StartCreate(name: Name)
    | StartDelete(name: Name)
    | Go(drawn: Uuid, queue: QueueRef)

  predicate NoNamesWriter(w: World) { forall u | 0 <= u < |w.pcs| :: !WritesNames(w.pcs[u]) }
  predicate NoNamesReader(w: World) { forall u | 0 <= u < |w.pcs| :: !ReadsNames(w.pcs[u]) }
  predicate NoQueuesWriter(w: World) { forall u | 0 <= u < |w.pcs| :: !WritesQueues(w.pcs[u]) }
  predicate NoQueuesReader(w: World) { forall u | 0 <= u < |w.pcs| :: !ReadsQueues(w.pcs[u]) }

  function Goto(w: World, t: nat, pc: Pc): World
    requires t < |w.pcs|
  {
    w.(pcs := w.pcs[t := pc])
  }

  /** What the name map has for a name. */
  function Registered(w: World, name: Name): Option<Uuid> {
    if name in w.names then Some(w.names[name]) else None
  }

  /** What `get_queue` makes of an id. */
  function Answer(queues: map<Uuid, QueueRef>, found: Option<Uuid>): Result {
    if found.None? then QueueHashNotFound
    else if found.value in queues then Found(queues[found.value]) else QueueNotFound
  }

  /** One step of thread `t`; None when it would have to wait. */
  function Step(w: World, t: nat, a: Action): Option<World> {
    if t >= |w.pcs| then None
    else match a
      case StartGet(name) => if w.pcs[t].Idle? then Some(Goto(w, t, GetStart(name))) else None
      case StartCreate(name) => if w.pcs[t].Idle? then Some(Goto(w, t, NewStart(name))) else None
      case StartDelete(name) => if w.pcs[t].Idle? then Some(Goto(w, t, DelStart(name))) else None
      case Go(drawn, queue) => Advance(w, t, drawn, queue)
  }

  function Advance(w: World, t: nat, drawn: Uuid, queue: QueueRef): Option<World>
    requires t < |w.pcs|
  {
    match w.pcs[t]
    case Idle => None
    case GetStart(name) => if NoQueuesWriter(w) then Some(Goto(w, t, GetQueues(name))) else None
    case GetQueues(name) => if NoNamesWriter(w) then Some(Goto(w, t, GetBoth(name))) else None
    case GetBoth(name) => Some(Goto(w, t, GetLookup(name, Registered(w, name))))
    case GetLookup(name, found) => Some(Goto(w, t, GetDone(name, Answer(w.queues, found))))
    case GetDone(_, _) => Some(Goto(w, t, Idle))
    case NewStart(name) => if NoNamesWriter(w) && NoNamesReader(w) then Some(Goto(w, t, NewNames(name))) else None
    case NewNames(name) =>
      if NoQueuesWriter(w) && NoQueuesReader(w) then Some(Goto(w, t, NewBoth(name, name in w.names))) else None
    case NewBoth(name, known) =>
      if name in w.names then Some(Goto(w, t, DropQueues(name, Ending(true, known, QueueAlreadyExists))))
      else if drawn in w.issued then None
      else Some(Goto(w.(names := w.names[name := drawn], issued := w.issued + {drawn}), t, NewNamed(name, drawn)))
    case NewNamed(name, hash) =>
      Some(Goto(w.(queues := w.queues[hash := queue]), t, DropQueues(name, Ending(true, false, Created(queue)))))
    case DelStart(name) => if NoNamesWriter(w) && NoNamesReader(w) then Some(Goto(w, t, DelNames(name))) else None
    case DelNames(name) =>
      if NoQueuesWriter(w) && NoQueuesReader(w) then Some(Goto(w, t, DelBoth(name, name in w.names))) else None
    case DelBoth(name, known) =>
      if name in w.names then Some(Goto(w.(names := Without(w.names, name)), t, DelUnnamed(name, w.names[name])))
      else Some(Goto(w, t, DropQueues(name, Ending(false, known, QueueDoesNotExist))))
    case DelUnnamed(name, hash) =>
      Some(Goto(w.(queues := Without(w.queues, hash)), t, DropQueues(name, Ending(false, true, Deleted(hash)))))
    case DropQueues(name, end) => Some(Goto(w, t, DropNames(name, end)))
    case DropNames(_, _) => Some(Goto(w, t, Idle))
  }

  datatype Event = Event(t: nat, a: Action)

  function Exec(w: World, events: seq<Event>): Option<World>
    decreases |events|
  {
    if events == [] then Some(w)
    else match Step(w, events[0].t, events[0].a)
      case None => None
      case Some(w') => Exec(w', events[1..])
  }

  /** The registry as `run` leaves it before it accepts connections: the configured queues are
      registered, each under its own id. */
  ghost predicate Init(w: World) {
    (forall t | 0 <= t < |w.pcs| :: w.pcs[t].Idle?) && Injective(w.names) && w.queues.Keys <= w.issued &&
    forall n | n in w.names :: w.names[n] in w.queues
  }

  // ---- The invariant ----

  ghost predicate Injective(names: map<Name, Uuid>) {
    forall m, n | m in names && n in names && names[m] == names[n] :: m == n
  }

  /** A thread at `q` may hold its guards while one at `p` holds its own. */
  predicate Compatible(p: Pc, q: Pc) {
    (WritesNames(p) ==> !WritesNames(q) && !ReadsNames(q)) && (WritesQueues(p) ==> !ReadsQueues(q))
  }

  /** A writer excludes every other holder of the same lock. */
  ghost predicate Exclusive(w: World) {
    forall t, u | 0 <= t < |w.pcs| && 0 <= u < |w.pcs| && t != u :: Compatible(w.pcs[t], w.pcs[u])
  }

  /** Some creator has registered this id and not yet its queue. */
  ghost predicate HalfDone(w: World, name: Name) {
    name in w.names && exists t | 0 <= t < |w.pcs| :: w.pcs[t] == NewNamed(name, w.names[name])
  }

  /** The outcome is the one the name called for, and what it says has been brought about. */
  predicate EndingOk(w: World, name: Name, end: Ending) {
    (if end.creating
     then if end.known then end.outcome == QueueAlreadyExists else end.outcome.Created?
     else if end.known then end.outcome.Deleted? else end.outcome == QueueDoesNotExist) &&
    match end.outcome
    case Created(queue) => Answer(w.queues, Registered(w, name)) == Found(queue)
    case QueueAlreadyExists => name in w.names
    case Deleted(hash) => name !in w.names && hash !in w.queues
    case QueueDoesNotExist => name !in w.names
  }

  /** What a thread knows holds now, whatever other threads have done since it found out. */
  predicate PcOk(w: World, pc: Pc) {
    match pc
    case GetLookup(name, found) => found == Registered(w, name) && (found.Some? ==> found.value in w.queues)
    case GetDone(name, result) => result == Answer(w.queues, Registered(w, name)) && result != QueueNotFound
    case NewNamed(name, hash) => Registered(w, name) == Some(hash) && hash !in w.queues
    case DelUnnamed(name, hash) =>
      name !in w.names && hash in w.queues && hash in w.issued && forall n | n in w.names :: w.names[n] != hash
    case NewBoth(name, known) => known <==> name in w.names
    case DelBoth(name, known) => known <==> name in w.names
    case DropQueues(name, end) => EndingOk(w, name, end)
    case DropNames(name, end) => EndingOk(w, name, end)
    case _ => true
  }

  ghost predicate Inv(w: World) {
    Exclusive(w) && Injective(w.names) &&
    (forall n | n in w.names :: w.names[n] in w.issued && (w.names[n] in w.queues || HalfDone(w, n))) &&
    w.queues.Keys <= w.issued &&
    forall t | 0 <= t < |w.pcs| :: PcOk(w, w.pcs[t])
  }

  lemma InitInv(w: World)
    requires Init(w)
    ensures Inv(w)
  {
  }

  /** While nobody holds both write guards, every registered id has a queue. */
  lemma RegisteredHasQueue(w: World)
    requires Inv(w) && NoQueuesWriter(w)
    ensures forall n | n in w.names :: w.names[n] in w.queues
  {
  }

  lemma HalfDoneKept(w: World, w': World, t: nat, n: Name)
    requires t < |w.pcs| && |w'.pcs| == |w.pcs| && (forall u | 0 <= u < |w.pcs| && u != t :: w'.pcs[u] == w.pcs[u])
    requires HalfDone(w, n) && !w.pcs[t].NewNamed? && n in w'.names && w'.names[n] == w.names[n]
    ensures HalfDone(w', n)
  {
    var u :| 0 <= u < |w.pcs| && w.pcs[u] == NewNamed(n, w.names[n]);
    assert w'.pcs[u] == w.pcs[u];
  }

  /** A step that writes no map. */
  lemma QuietKeeps(w: World, t: nat, pc: Pc)
    requires Inv(w) && t < |w.pcs| && PcOk(w, pc) && !w.pcs[t].NewNamed?
    requires Exclusive(Goto(w, t, pc))
    ensures Inv(Goto(w, t, pc))
  {
    var w' := Goto(w, t, pc);
    forall n | n in w'.names ensures w'.names[n] in w'.queues || HalfDone(w', n) {
      if HalfDone(w, n) { HalfDoneKept(w, w', t, n); }
    }
    forall u | 0 <= u < |w'.pcs| ensures PcOk(w', w'.pcs[u]) {
      if u != t { assert PcOk(w, w.pcs[u]); }
    }
  }

  /** Guards only shrink, or are taken when the lock allows it. */
  lemma ExclusiveKept(w: World, t: nat, pc: Pc)
    requires Exclusive(w) && t < |w.pcs|
    requires WritesNames(pc) ==> WritesNames(w.pcs[t]) || (NoNamesWriter(w) && NoNamesReader(w))
    requires WritesQueues(pc) ==> WritesQueues(w.pcs[t]) || NoQueuesReader(w)
    requires ReadsNames(pc) ==> NoNamesWriter(w)
    requires ReadsQueues(pc) ==> ReadsQueues(w.pcs[t]) || NoQueuesWriter(w)
    ensures Exclusive(Goto(w, t, pc))
  {
    var w' := Goto(w, t, pc);
    forall x, y | 0 <= x < |w'.pcs| && 0 <= y < |w'.pcs| && x != y
      ensures Compatible(w'.pcs[x], w'.pcs[y])
    {
      assert Compatible(w.pcs[x], w.pcs[y]);
    }
  }

  /** A thread with both write guards is alone: nobody else is inside a lookup or half-way. */
  lemma WriterAlone(w: World, t: nat)
    requires Exclusive(w) && t < |w.pcs| && WritesQueues(w.pcs[t])
    ensures forall u | 0 <= u < |w.pcs| && u != t ::
      !WritesNames(w.pcs[u]) && !ReadsNames(w.pcs[u]) && !ReadsQueues(w.pcs[u])
  {
    forall u | 0 <= u < |w.pcs| && u != t
      ensures !WritesNames(w.pcs[u]) && !ReadsNames(w.pcs[u]) && !ReadsQueues(w.pcs[u])
    {
      assert Compatible(w.pcs[t], w.pcs[u]);
    }
  }

  lemma CreateKeeps(w: World, t: nat, name: Name, drawn: Uuid)
    requires Inv(w) && t < |w.pcs| && w.pcs[t] == NewBoth(name, false) && name !in w.names && drawn !in w.issued
    ensures Inv(Goto(w.(names := w.names[name := drawn], issued := w.issued + {drawn}), t, NewNamed(name, drawn)))
  {
    var w' := Goto(w.(names := w.names[name := drawn], issued := w.issued + {drawn}), t, NewNamed(name, drawn));
    WriterAlone(w, t);
    ExclusiveKept(w, t, NewNamed(name, drawn));
    assert w'.pcs[t] == NewNamed(name, w'.names[name]);
    forall n | n in w'.names ensures w'.names[n] in w'.queues || HalfDone(w', n) {
      if n != name && HalfDone(w, n) { HalfDoneKept(w, w', t, n); }
    }
    forall u | 0 <= u < |w'.pcs| ensures PcOk(w', w'.pcs[u]) {
      if u != t { assert PcOk(w, w.pcs[u]) && w'.pcs[u] == w.pcs[u]; }
    }
    assert Exclusive(w');
  }

  lemma AddQueueKeeps(w: World, t: nat, name: Name, hash: Uuid, queue: QueueRef)
    requires Inv(w) && t < |w.pcs| && w.pcs[t] == NewNamed(name, hash)
    ensures Inv(Goto(w.(queues := w.queues[hash := queue]), t, DropQueues(name, Ending(true, false, Created(queue)))))
  {
    var w' := Goto(w.(queues := w.queues[hash := queue]), t, DropQueues(name, Ending(true, false, Created(queue))));
    WriterAlone(w, t);
    assert PcOk(w, w.pcs[t]);
    ExclusiveKept(w, t, DropQueues(name, Ending(true, false, Created(queue))));
    forall n | n in w'.names ensures w'.names[n] in w'.queues || HalfDone(w', n) {
      if HalfDone(w, n) {
        var u :| 0 <= u < |w.pcs| && w.pcs[u] == NewNamed(n, w.names[n]);
        assert u == t;
      }
    }
    forall u | 0 <= u < |w'.pcs| ensures PcOk(w', w'.pcs[u]) {
      if u != t { assert PcOk(w, w.pcs[u]) && w'.pcs[u] == w.pcs[u]; }
    }
    assert Exclusive(w');
  }

  lemma UnnameKeeps(w: World, t: nat, name: Name)
    requires Inv(w) && t < |w.pcs| && w.pcs[t] == DelBoth(name, true) && name in w.names
    ensures Inv(Goto(w.(names := Without(w.names, name)), t, DelUnnamed(name, w.names[name])))
  {
    var w' := Goto(w.(names := Without(w.names, name)), t, DelUnnamed(name, w.names[name]));
    WriterAlone(w, t);
    ExclusiveKept(w, t, DelUnnamed(name, w.names[name]));
    forall n | n in w'.names ensures w'.names[n] in w'.queues || HalfDone(w', n) {
      if HalfDone(w, n) { HalfDoneKept(w, w', t, n); }
    }
    forall u | 0 <= u < |w'.pcs| ensures PcOk(w', w'.pcs[u]) {
      if u != t { assert PcOk(w, w.pcs[u]) && w'.pcs[u] == w.pcs[u]; }
    }
    assert Exclusive(w');
  }

  lemma DropQueueKeeps(w: World, t: nat, name: Name, hash: Uuid)
    requires Inv(w) && t < |w.pcs| && w.pcs[t] == DelUnnamed(name, hash)
    ensures Inv(Goto(w.(queues := Without(w.queues, hash)), t, DropQueues(name, Ending(false, true, Deleted(hash)))))
  {
    var w' := Goto(w.(queues := Without(w.queues, hash)), t, DropQueues(name, Ending(false, true, Deleted(hash))));
    WriterAlone(w, t);
    assert PcOk(w, w.pcs[t]);
    ExclusiveKept(w, t, DropQueues(name, Ending(false, true, Deleted(hash))));
    forall n | n in w'.names ensures w'.names[n] in w'.queues || HalfDone(w', n) {
      if HalfDone(w, n) { HalfDoneKept(w, w', t, n); }
    }
    forall u | 0 <= u < |w'.pcs| ensures PcOk(w', w'.pcs[u]) {
      if u != t { assert PcOk(w, w.pcs[u]) && w'.pcs[u] == w.pcs[u]; }
    }
    assert Exclusive(w');
  }

  lemma ReaderExcludes(w: World, t: nat)
    requires Exclusive(w) && t < |w.pcs| && ReadsQueues(w.pcs[t])
    ensures NoQueuesWriter(w)
  {
    forall u | 0 <= u < |w.pcs| ensures !WritesQueues(w.pcs[u]) {
      if u != t { assert Compatible(w.pcs[u], w.pcs[t]); }
    }
  }

  lemma GetKeeps(w: World, t: nat)
    requires Inv(w) && t < |w.pcs| && w.pcs[t].GetBoth?
    ensures Inv(Advance(w, t, 0, 0).value)
  {
    var name := w.pcs[t].name;
    ReaderExcludes(w, t);
    RegisteredHasQueue(w);
    var pc := GetLookup(name, Registered(w, name));
    ExclusiveKept(w, t, pc);
    QuietKeeps(w, t, pc);
  }

  lemma InvExclusive(w: World)
    requires Inv(w)
    ensures Exclusive(w)
  {
  }

  /** A step that writes no map and respects the locks. */
  lemma MoveKeeps(w: World, t: nat, pc: Pc)
    requires Inv(w) && t < |w.pcs| && PcOk(w, pc) && !w.pcs[t].NewNamed?
    requires WritesNames(pc) ==> WritesNames(w.pcs[t]) || (NoNamesWriter(w) && NoNamesReader(w))
    requires WritesQueues(pc) ==> WritesQueues(w.pcs[t]) || NoQueuesReader(w)
    requires ReadsNames(pc) ==> NoNamesWriter(w)
    requires ReadsQueues(pc) ==> ReadsQueues(w.pcs[t]) || NoQueuesWriter(w)
    ensures Inv(Goto(w, t, pc))
  {
    InvExclusive(w);
    hide Inv, PcOk, Exclusive;
    ExclusiveKept(w, t, pc);
    QuietKeeps(w, t, pc);
  }

  /** Taking and dropping guards, and the end of a lookup. */
  lemma GuardsKeep(w: World, t: nat, drawn: Uuid, queue: QueueRef)
    requires Inv(w) && t < |w.pcs| && Advance(w, t, drawn, queue).Some?
    requires !w.pcs[t].GetBoth? && !WritesQueues(w.pcs[t])
    ensures Inv(Advance(w, t, drawn, queue).value)
  {
    assert PcOk(w, w.pcs[t]);
    hide Inv, NoNamesWriter, NoNamesReader, NoQueuesWriter, NoQueuesReader;
    MoveKeeps(w, t, Advance(w, t, drawn, queue).value.pcs[t]);
  }

  lemma AdvanceKeeps(w: World, t: nat, drawn: Uuid, queue: QueueRef)
    requires Inv(w) && t < |w.pcs| && Advance(w, t, drawn, queue).Some?
    ensures Inv(Advance(w, t, drawn, queue).value)
  {
    assert PcOk(w, w.pcs[t]);
    hide Inv, Without, NoNamesWriter, NoNamesReader, NoQueuesWriter, NoQueuesReader;
    match w.pcs[t]
    case GetBoth(_) => GetKeeps(w, t);
    case NewBoth(name, known) =>
      if name in w.names { MoveKeeps(w, t, DropQueues(name, Ending(true, known, QueueAlreadyExists))); }
      else { CreateKeeps(w, t, name, drawn); }
    case NewNamed(name, hash) => AddQueueKeeps(w, t, name, hash, queue);
    case DelBoth(name, known) =>
      if name in w.names { UnnameKeeps(w, t, name); }
      else { MoveKeeps(w, t, DropQueues(name, Ending(false, known, QueueDoesNotExist))); }
    case DelUnnamed(name, hash) => DropQueueKeeps(w, t, name, hash);
    case DropQueues(name, end) => MoveKeeps(w, t, DropNames(name, end));
    case Idle =>
    case _ => GuardsKeep(w, t, drawn, queue);
  }

  lemma StepKeeps(w: World, t: nat, a: Action)
    requires Inv(w) && Step(w, t, a).Some?
    ensures Inv(Step(w, t, a).value)
  {
    InvExclusive(w);
    hide Inv, Exclusive, Advance;
    match a
    case Go(drawn, queue) => AdvanceKeeps(w, t, drawn, queue);
    case StartGet(name) => ExclusiveKept(w, t, GetStart(name)); QuietKeeps(w, t, GetStart(name));
    case StartCreate(name) => ExclusiveKept(w, t, NewStart(name)); QuietKeeps(w, t, NewStart(name));
    case StartDelete(name) => ExclusiveKept(w, t, DelStart(name)); QuietKeeps(w, t, DelStart(name));
  }

  lemma {:induction false} RunKeeps(w: World, events: seq<Event>)
    requires Inv(w) && Exec(w, events).Some?
    ensures Inv(Exec(w, events).value)
    decreases |events|
  {
    if events != [] {
      StepKeeps(w, events[0].t, events[0].a);
      RunKeeps(Step(w, events[0].t, events[0].a).value, events[1..]);
    }
  }

  // ---- What every run from the start of the server guarantees ----

  /** The queue a name leads to. */
  function Resolve(w: World, name: Name): Option<QueueRef> {
    if name in w.names && w.names[name] in w.queues then Some(w.queues[w.names[name]]) else None
  }

  /** In every interleaving of lookups, creations and deletions names map to different ids, every id
      registered has a queue whenever nobody holds both write guards, and no lookup ever answers
      `QueueNotFound`. */
  lemma EveryRunKeeps(w: World, events: seq<Event>)
    requires Init(w) && Exec(w, events).Some?
    ensures var v := Exec(w, events).value;
      Injective(v.names) &&
      (NoQueuesWriter(v) ==> forall n | n in v.names :: Resolve(v, n).Some?) &&
      forall t | 0 <= t < |v.pcs| && v.pcs[t].GetDone? :: v.pcs[t].result != QueueNotFound
  {
    InitInv(w);
    RunKeeps(w, events);
    var v := Exec(w, events).value;
    forall t | 0 <= t < |v.pcs| && v.pcs[t].GetDone?
      ensures v.pcs[t].result != QueueNotFound
    {
      assert PcOk(v, v.pcs[t]);
    }
  }

  /** What a lookup has found stays true until the lookup ends, whatever other threads do in between:
      the id is the one registered now, and the answer is the queue the name leads to now. */
  lemma LookupIsCurrent(w: World, events: seq<Event>, t: nat)
    requires Init(w) && Exec(w, events).Some? && t < |Exec(w, events).value.pcs|
    ensures var v := Exec(w, events).value;
      var pc := v.pcs[t];
      (pc.GetLookup? ==> pc.found == Registered(v, pc.name)) &&
      (pc.GetDone? && pc.name in v.names ==>
        Resolve(v, pc.name).Some? && pc.result == Found(Resolve(v, pc.name).value)) &&
      (pc.GetDone? && pc.name !in v.names ==> pc.result == QueueHashNotFound)
  {
    InitInv(w);
    RunKeeps(w, events);
    var v := Exec(w, events).value;
    assert PcOk(v, v.pcs[t]);
  }

  /** In every run: a creation ends with the name registered before or with a new queue, a deletion with the
      name unknown before or with its queue gone; which of the two, the name map said when the handler had
      its guards. */
  lemma OutcomeIsDecided(w: World, events: seq<Event>, t: nat)
    requires Init(w) && Exec(w, events).Some? && t < |Exec(w, events).value.pcs|
    ensures var v := Exec(w, events).value;
      var pc := v.pcs[t];
      (pc.NewBoth? || pc.DelBoth? ==> (pc.known <==> pc.name in v.names)) &&
      (pc.DropQueues? || pc.DropNames? ==>
        pc.end.creating != (pc.end.outcome.Deleted? || pc.end.outcome.QueueDoesNotExist?) &&
        (pc.end.known <==> pc.end.outcome.QueueAlreadyExists? || pc.end.outcome.Deleted?))
  {
    InitInv(w);
    RunKeeps(w, events);
    var v := Exec(w, events).value;
    assert PcOk(v, v.pcs[t]);
  }

  /** From its first write on, no other thread can interfere with a creation: half-way the name leads
      nowhere; when it is done, and until its last guard is gone, the name leads to the new queue, or,
      where the name was taken, to the queue it has. */
  lemma CreateRegisters(w: World, events: seq<Event>, t: nat)
    requires Init(w) && Exec(w, events).Some? && t < |Exec(w, events).value.pcs|
    ensures var v := Exec(w, events).value;
      var pc := v.pcs[t];
      (pc.NewNamed? ==> Registered(v, pc.name) == Some(pc.hash) && Resolve(v, pc.name) == None) &&
      (pc.DropQueues? || pc.DropNames? ==>
        (pc.end.outcome.Created? ==> Resolve(v, pc.name) == Some(pc.end.outcome.queue)) &&
        (pc.end.outcome.QueueAlreadyExists? ==> Resolve(v, pc.name).Some?))
  {
    InitInv(w);
    RunKeeps(w, events);
    var v := Exec(w, events).value;
    assert PcOk(v, v.pcs[t]);
    if WritesNames(v.pcs[t]) { NamesWriterAlone(v, t); }
  }

  /** Likewise for a deletion: half-way the queue is still there and no name leads to it; when it is
      done, the name is unknown and the queue gone. */
  lemma DeleteUnregisters(w: World, events: seq<Event>, t: nat, name: Name)
    requires Init(w) && Exec(w, events).Some? && t < |Exec(w, events).value.pcs|
    ensures var v := Exec(w, events).value;
      var pc := v.pcs[t];
      (pc.DelUnnamed? ==> pc.name !in v.names && pc.hash in v.queues && Registered(v, name) != Some(pc.hash)) &&
      (pc.DropQueues? || pc.DropNames? ==>
        (pc.end.outcome.Deleted? ==> pc.name !in v.names && pc.end.outcome.hash !in v.queues) &&
        (pc.end.outcome.QueueDoesNotExist? ==> pc.name !in v.names))
  {
    InitInv(w);
    RunKeeps(w, events);
    var v := Exec(w, events).value;
    assert PcOk(v, v.pcs[t]);
  }

  /** A thread with the write guard of the name map is the only one that can be half-way. */
  lemma NamesWriterAlone(w: World, t: nat)
    requires Exclusive(w) && t < |w.pcs| && WritesNames(w.pcs[t])
    ensures forall u | 0 <= u < |w.pcs| && u != t :: !WritesNames(w.pcs[u])
  {
    forall u | 0 <= u < |w.pcs| && u != t
      ensures !WritesNames(w.pcs[u])
    {
      assert Compatible(w.pcs[t], w.pcs[u]);
    }
  }

  // ---- Only the named queue is affected ----

  /** A creator or deleter of this name is about to write. */
  predicate Touches(pc: Pc, name: Name) {
    (pc.NewBoth? || pc.NewNamed? || pc.DelBoth? || pc.DelUnnamed?) && pc.name == name
  }

  /** No step changes what a name leads to but the writes of a creation or deletion of that name. */
  lemma OthersUnaffected(w: World, t: nat, a: Action, name: Name)
    requires Inv(w) && Step(w, t, a).Some? && !Touches(w.pcs[t], name)
    ensures Resolve(Step(w, t, a).value, name) == Resolve(w, name)
  {
    assert PcOk(w, w.pcs[t]);
  }

  predicate NeverTouched(w: World, events: seq<Event>, name: Name)
    decreases |events|
  {
    events != [] && Step(w, events[0].t, events[0].a).Some? ==>
      !Touches(w.pcs[events[0].t], name) && NeverTouched(Step(w, events[0].t, events[0].a).value, events[1..], name)
  }

  /** So a name leads to the same queue throughout any run in which nobody creates or deletes it. */
  lemma {:induction false} NameIsStable(w: World, events: seq<Event>, name: Name)
    requires Inv(w) && Exec(w, events).Some? && NeverTouched(w, events, name)
    ensures Resolve(Exec(w, events).value, name) == Resolve(w, name)
    decreases |events|
  {
    hide Inv, Step, Resolve, Touches;
    if events != [] {
      OthersUnaffected(w, events[0].t, events[0].a, name);
      StepKeeps(w, events[0].t, events[0].a);
      NameIsStable(Step(w, events[0].t, events[0].a).value, events[1..], name);
    }
  }

  // ---- Handlers run to their end ----

  /** A thread has to wait exactly while another holds the lock it needs, in a way that excludes it. */
  lemma WaitsExactlyWhen(w: World, t: nat, drawn: Uuid, queue: QueueRef)
    requires Inv(w) && t < |w.pcs| && !w.pcs[t].Idle? && drawn !in w.issued
    ensures Advance(w, t, drawn, queue).None? <==>
      exists u :: 0 <= u < |w.pcs| && u != t &&
        ((w.pcs[t].GetStart? && WritesQueues(w.pcs[u])) ||
         (w.pcs[t].GetQueues? && WritesNames(w.pcs[u])) ||
         ((w.pcs[t].NewStart? || w.pcs[t].DelStart?) && (WritesNames(w.pcs[u]) || ReadsNames(w.pcs[u]))) ||
         ((w.pcs[t].NewNames? || w.pcs[t].DelNames?) && (WritesQueues(w.pcs[u]) || ReadsQueues(w.pcs[u]))))
  {
    hide Inv, Without;
  }

  /** Nobody but thread `t` is inside. */
  predicate Alone(w: World, t: nat) {
    t < |w.pcs| && forall u | 0 <= u < |w.pcs| && u != t :: w.pcs[u].Idle?
  }

  function Times(e: Event, n: nat): seq<Event> {
    if n == 0 then [] else [e] + Times(e, n - 1)
  }

  /** One step of the thread, from `Goto(w, t, pc)` to `w1`. */
  lemma Takes(w: World, t: nat, pc: Pc, w1: World, drawn: Uuid, queue: QueueRef, n: nat)
    requires t < |w.pcs| && Advance(Goto(w, t, pc), t, drawn, queue) == Some(w1)
    ensures Exec(Goto(w, t, pc), Times(Event(t, Go(drawn, queue)), n + 1)) ==
            Exec(w1, Times(Event(t, Go(drawn, queue)), n))
  {
    hide Advance;
    var e := Event(t, Go(drawn, queue));
    assert ([e] + Times(e, n))[1..] == Times(e, n);
  }

  lemma AloneAt(w: World, t: nat, pc: Pc, next: Pc)
    requires Alone(w, t)
    ensures var v := Goto(w, t, pc);
      Alone(v, t) && v.pcs[t] == pc && Goto(v, t, next) == Goto(w, t, next)
    ensures !WritesNames(pc) ==> NoNamesWriter(Goto(w, t, pc))
    ensures !ReadsNames(pc) ==> NoNamesReader(Goto(w, t, pc))
    ensures !WritesQueues(pc) ==> NoQueuesWriter(Goto(w, t, pc))
    ensures !ReadsQueues(pc) ==> NoQueuesReader(Goto(w, t, pc))
  {
    assert w.pcs[t := pc][t := next] == w.pcs[t := next];
  }

  lemma Starts(w: World, t: nat, a: Action, w1: World, rest: seq<Event>)
    requires Step(w, t, a) == Some(w1)
    ensures Exec(w, [Event(t, a)] + rest) == Exec(w1, rest)
  {
    hide Step;
    assert ([Event(t, a)] + rest)[1..] == rest;
  }

  /** The registry with a queue added. */
  function With(w: World, name: Name, id: Uuid, queue: QueueRef): World {
    World(w.names[name := id], w.queues[id := queue], w.issued + {id}, w.pcs)
  }

  lemma Ends(w: World, t: nat, name: Name, end: Ending, drawn: Uuid, queue: QueueRef)
    requires Alone(w, t)
    ensures Exec(Goto(w, t, DropQueues(name, end)), Times(Event(t, Go(drawn, queue)), 2)) == Some(Goto(w, t, Idle))
  {
    hide Exec, Times;
    AloneAt(w, t, DropQueues(name, end), DropNames(name, end));
    AloneAt(w, t, DropNames(name, end), Idle);
    Takes(w, t, DropQueues(name, end), Goto(w, t, DropNames(name, end)), drawn, queue, 1);
    Takes(w, t, DropNames(name, end), Goto(w, t, Idle), drawn, queue, 0);
    NoMore(Goto(w, t, Idle), Event(t, Go(drawn, queue)));
  }

  lemma NoMore(w: World, e: Event)
    ensures Exec(w, Times(e, 0)) == Some(w)
  {
  }

  /** CreateQ and DeleteQ take their two write guards when nobody else is inside. */
  lemma TakesGuards(w: World, t: nat, name: Name, creating: bool, drawn: Uuid, queue: QueueRef, n: nat)
    requires Alone(w, t) && w.pcs[t].Idle?
    ensures var known := name in w.names;
      var start := if creating then StartCreate(name) else StartDelete(name);
      Exec(w, [Event(t, start)] + Times(Event(t, Go(drawn, queue)), n + 2)) ==
      Exec(Goto(w, t, if creating then NewBoth(name, known) else DelBoth(name, known)),
           Times(Event(t, Go(drawn, queue)), n))
  {
    hide Exec, Times;
    var known := name in w.names;
    var start := if creating then StartCreate(name) else StartDelete(name);
    var p0 := if creating then NewStart(name) else DelStart(name);
    var p1 := if creating then NewNames(name) else DelNames(name);
    var p2 := if creating then NewBoth(name, known) else DelBoth(name, known);
    Starts(w, t, start, Goto(w, t, p0), Times(Event(t, Go(drawn, queue)), n + 2));
    AloneAt(w, t, p0, p1);
    AloneAt(w, t, p1, p2);
    Takes(w, t, p0, Goto(w, t, p1), drawn, queue, n + 1);
    Takes(w, t, p1, Goto(w, t, p2), drawn, queue, n);
  }

  /** A CreateQ nobody interferes with: an unused name leads to the new queue and nothing else changes; a
      registered one leaves everything as it is. */
  lemma CreateAlone(w: World, t: nat, name: Name, drawn: Uuid, queue: QueueRef)
    requires Alone(w, t) && w.pcs[t].Idle? && drawn !in w.issued
    ensures var known := name in w.names;
      var run := [Event(t, StartCreate(name))] + Times(Event(t, Go(drawn, queue)), if known then 5 else 6);
      Exec(w, run) == Some(if known then w else With(w, name, drawn, queue))
    ensures Resolve(With(w, name, drawn, queue), name) == Some(queue)
  {
    hide Exec, Times, NoNamesWriter, NoNamesReader, NoQueuesWriter, NoQueuesReader;
    var known := name in w.names;
    TakesGuards(w, t, name, true, drawn, queue, if known then 3 else 4);
    assert w.pcs[t := Idle] == w.pcs;
    if known {
      var end := Ending(true, true, QueueAlreadyExists);
      AloneAt(w, t, NewBoth(name, true), DropQueues(name, end));
      Takes(w, t, NewBoth(name, true), Goto(w, t, DropQueues(name, end)), drawn, queue, 2);
      Ends(w, t, name, end, drawn, queue);
    } else {
      var half := w.(names := w.names[name := drawn], issued := w.issued + {drawn});
      var done, end := With(w, name, drawn, queue), Ending(true, false, Created(queue));
      AloneAt(w, t, NewBoth(name, false), NewNamed(name, drawn));
      AloneAt(half, t, NewBoth(name, false), NewNamed(name, drawn));
      AloneAt(half, t, NewNamed(name, drawn), DropQueues(name, end));
      Takes(w, t, NewBoth(name, false), Goto(half, t, NewNamed(name, drawn)), drawn, queue, 3);
      Takes(half, t, NewNamed(name, drawn), Goto(done, t, DropQueues(name, end)), drawn, queue, 2);
      Ends(done, t, name, end, drawn, queue);
    }
  }

  /** A DeleteQ nobody interferes with: a registered name is forgotten and its queue goes; an unknown one
      leaves everything as it is. */
  lemma DeleteAlone(w: World, t: nat, name: Name, drawn: Uuid, queue: QueueRef)
    requires Alone(w, t) && w.pcs[t].Idle?
    ensures var known := name in w.names;
      var run := [Event(t, StartDelete(name))] + Times(Event(t, Go(drawn, queue)), if known then 6 else 5);
      Exec(w, run) ==
      Some(if known then w.(names := w.names - {name}, queues := w.queues - {w.names[name]}) else w)
  {
    hide Exec, Times;
    var known := name in w.names;
    TakesGuards(w, t, name, false, drawn, queue, if known then 4 else 3);
    assert w.pcs[t := Idle] == w.pcs;
    if known {
      var hash := w.names[name];
      var half := w.(names := w.names - {name});
      var done, end := half.(queues := w.queues - {hash}), Ending(false, true, Deleted(hash));
      WithoutIs(w.names, name);
      WithoutIs(w.queues, hash);
      hide Without;
      AloneAt(w, t, DelBoth(name, true), DelUnnamed(name, hash));
      AloneAt(half, t, DelUnnamed(name, hash), DropQueues(name, end));
      Takes(w, t, DelBoth(name, true), Goto(half, t, DelUnnamed(name, hash)), drawn, queue, 3);
      Takes(half, t, DelUnnamed(name, hash), Goto(done, t, DropQueues(name, end)), drawn, queue, 2);
      Ends(done, t, name, end, drawn, queue);
    } else {
      var end := Ending(false, false, QueueDoesNotExist);
      AloneAt(w, t, DelBoth(name, false), DropQueues(name, end));
      Takes(w, t, DelBoth(name, false), Goto(w, t, DropQueues(name, end)), drawn, queue, 2);
      Ends(w, t, name, end, drawn, queue);
    }
  }

  lemma WithoutIs<K, V>(m: map<K, V>, k: K)
    ensures Without(m, k) == m - {k}
  {
  }

  /** A lookup nobody interferes with takes its two read guards. */
  lemma TakesReadGuards(w: World, t: nat, name: Name, drawn: Uuid, queue: QueueRef, n: nat)
    requires Alone(w, t) && w.pcs[t].Idle?
    ensures Exec(w, [Event(t, StartGet(name))] + Times(Event(t, Go(drawn, queue)), n + 2)) ==
            Exec(Goto(w, t, GetBoth(name)), Times(Event(t, Go(drawn, queue)), n))
  {
    hide Exec, Times;
    Starts(w, t, StartGet(name), Goto(w, t, GetStart(name)), Times(Event(t, Go(drawn, queue)), n + 2));
    AloneAt(w, t, GetStart(name), GetQueues(name));
    AloneAt(w, t, GetQueues(name), GetBoth(name));
    Takes(w, t, GetStart(name), Goto(w, t, GetQueues(name)), drawn, queue, n + 1);
    Takes(w, t, GetQueues(name), Goto(w, t, GetBoth(name)), drawn, queue, n);
  }

  /** ... and answers the queue the name leads to. */
  lemma LookupAlone(w: World, t: nat, name: Name, drawn: Uuid, queue: QueueRef)
    requires Alone(w, t) && w.pcs[t].Idle?
    ensures var run := [Event(t, StartGet(name))] + Times(Event(t, Go(drawn, queue)), 4);
      var result := if name !in w.names then QueueHashNotFound
                    else if w.names[name] in w.queues then Found(w.queues[w.names[name]]) else QueueNotFound;
      Exec(w, run) == Some(Goto(w, t, GetDone(name, result)))
  {
    hide Exec, Times, NoNamesWriter, NoNamesReader, NoQueuesWriter, NoQueuesReader;
    var found := if name in w.names then Some(w.names[name]) else None;
    var result := if name !in w.names then QueueHashNotFound
                  else if w.names[name] in w.queues then Found(w.queues[w.names[name]]) else QueueNotFound;
    TakesReadGuards(w, t, name, drawn, queue, 2);
    AloneAt(w, t, GetBoth(name), GetLookup(name, found));
    AloneAt(w, t, GetLookup(name, found), GetDone(name, result));
    Takes(w, t, GetBoth(name), Goto(w, t, GetLookup(name, found)), drawn, queue, 1);
    Takes(w, t, GetLookup(name, found), Goto(w, t, GetDone(name, result)), drawn, queue, 0);
    NoMore(Goto(w, t, GetDone(name, result)), Event(t, Go(drawn, queue)));
  }
}
