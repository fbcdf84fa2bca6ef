/**
  The life of an operation from the user task that calls it to the release of that task
  (src/common/OperationManager.hpp, TaskContext.hpp, CompletionManager.hpp and the ends of
  TicketManager.hpp), as interleaved steps of any number of user tasks, the polling task
  and the completion task. The runtime sees only task contexts: a task handle and whether
  the operation is blocking. Running out of memory objects, of ring space or of space in
  the completion queue ends a run.
 */
module Protocol {
  import opened Basics

  const COLL_OBJECTS: nat := 8 * 1000        // Allocator::CollOperationCapacity
  const COLL_QUEUE_SIZE: nat := 32 * 1024    // BoostLockFreeQueue
  const COMPLETION_SIZE: nat := 32 * 1024    // CompletionManager

  /** What the runtime sees of an operation. */
  datatype Ctx = Ctx(task: nat, blocking: bool)

  /** An operation; its identity is its number in the order of acceptance. */
  datatype Op = Op(id: nat, ctx: Ctx)

  datatype Pc =
    | Running
    | Bound(op: Op, coll: bool)                         // events bound, object to come
    | Allocated(op: Op, coll: bool, obj: nat)           // operation built, push to come
    | WillBlock                                         // pushed, alpi_task_block to come
    | Blocked                                           // inside alpi_task_block

  /** `events` is what alpi_task_events_increase and _decrease left; `blocks` and `unblocks`
      count the calls of alpi_task_block and alpi_task_unblock for the task. */
  datatype Task = Task(pc: Pc, events: int, blocks: nat, unblocks: nat)

  datatype CollOp = CollOp(op: Op, obj: nat)

  /** Where an allocated collective object is. */
  datatype Place = AtTask(task: nat) | Queued | Popped

  /** `owners`, `issued` and `released` are history: the task of every accepted operation, and
      the operations issued and released, in order. */
  datatype State = State(
    tasks: seq<Task>,
    p2p: seq<Op>, coll: seq<CollOp>,    // pre-queues
    batch: seq<Op>,                     // popped by the polling task, not issued
    inMpi: seq<Op>,                     // issued, not completed
    done: seq<Op>,                      // completed, release not signalled
    completions: seq<Op>,               // queue of the completion task
    objects: map<nat, Place>,           // collective objects in use
    owners: seq<nat>, issued: seq<nat>, released: seq<nat>)

  datatype Step =
    | Bind(t: nat, blocking: bool, coll: bool)
    | Alloc(t: nat, obj: nat)
    | Push(t: nat)
    | Block(t: nat)
    | Resume(t: nat)
    | PopP2P(i: nat)
    | PopColl(i: nat)
    | Issue
    | Complete(i: nat)
    | FreeBatch
    | Signal(delegate: bool)
    | Consume

  ghost predicate Init(s: State) {
    && (forall t :: 0 <= t < |s.tasks| ==> s.tasks[t] == Task(Running, 0, 0, 0))
    && s.p2p == [] && s.coll == [] && s.batch == [] && s.inMpi == [] && s.done == [] && s.completions == []
    && s.objects == map[] && s.owners == [] && s.issued == [] && s.released == []
  }

  function Without<T>(q: seq<T>, i: nat): (r: seq<T>)
    requires i < |q|
  {
    q[..i] + q[i + 1..]
  }

  function At(s: State, t: nat, pc: Pc): State
    requires t < |s.tasks|
  {
    s.(tasks := s.tasks[t := s.tasks[t].(pc := pc)])
  }

  /** TaskContext::completeEvents(1, true) for one operation. */
  function Released(s: State, o: Op): State
    requires o.ctx.task < |s.tasks|
  {
    var t := s.tasks[o.ctx.task];
    s.(tasks := s.tasks[o.ctx.task := if o.ctx.blocking then t.(unblocks := t.unblocks + 1) else t.(events := t.events - 1)],
       released := s.released + [o.id])
  }

  ghost predicate Next(s: State, s': State, step: Step) {
    match step
    case Bind(t, blocking, coll) =>
      && t < |s.tasks| && s.tasks[t].pc.Running?
      && s' == s.(tasks := s.tasks[t := s.tasks[t].(pc := Bound(Op(|s.owners|, Ctx(t, blocking)), coll),
                                                    events := s.tasks[t].events + if blocking then 0 else 1)],
                  owners := s.owners + [t])
    case Alloc(t, obj) =>
      && t < |s.tasks| && s.tasks[t].pc.Bound?
      && var pc := s.tasks[t].pc;
         && (pc.coll ==> obj < COLL_OBJECTS && obj !in s.objects)
         && s' == At(s, t, Allocated(pc.op, pc.coll, obj))
                  .(objects := if pc.coll then s.objects[obj := AtTask(t)] else s.objects)
    case Push(t) =>
      && t < |s.tasks| && s.tasks[t].pc.Allocated?
      && var pc := s.tasks[t].pc;
         var next := if pc.op.ctx.blocking then WillBlock else Running;
         s' == if pc.coll
               then At(s, t, next).(coll := s.coll + [CollOp(pc.op, pc.obj)], objects := s.objects[pc.obj := Queued])
               else At(s, t, next).(p2p := s.p2p + [pc.op])
    case Block(t) =>
      && t < |s.tasks| && s.tasks[t].pc.WillBlock?
      && s' == s.(tasks := s.tasks[t := s.tasks[t].(pc := Blocked, blocks := s.tasks[t].blocks + 1)])
    case Resume(t) =>
      && t < |s.tasks| && s.tasks[t].pc.Blocked? && s.tasks[t].unblocks >= s.tasks[t].blocks
      && s' == At(s, t, Running)
    case PopP2P(i) =>
      i < |s.p2p| && s' == s.(p2p := Without(s.p2p, i), batch := s.batch + [s.p2p[i]])
    case PopColl(i) =>
      && i < |s.coll|
      && s' == s.(coll := Without(s.coll, i), batch := s.batch + [s.coll[i].op],
                  objects := s.objects[s.coll[i].obj := Popped])
    case Issue =>
      && s.batch != []
      && s' == s.(batch := s.batch[1..], inMpi := s.inMpi + [s.batch[0]], issued := s.issued + [s.batch[0].id])
    case Complete(i) =>
      i < |s.inMpi| && s' == s.(inMpi := Without(s.inMpi, i), done := s.done + [s.inMpi[i]])
    case FreeBatch =>
      s.batch == [] && s' == s.(objects := map o | o in s.objects && s.objects[o] != Popped :: s.objects[o])
    case Signal(delegate) =>
      && s.done != [] && s.done[0].ctx.task < |s.tasks|
      && (delegate ==> |s.completions| < COMPLETION_SIZE)
      && s' == if delegate then s.(done := s.done[1..], completions := s.completions + [s.done[0]])
               else Released(s.(done := s.done[1..]), s.done[0])
    case Consume =>
      && s.completions != [] && s.completions[0].ctx.task < |s.tasks|
      && s' == Released(s.(completions := s.completions[1..]), s.completions[0])
  }

  // -------------------------------------------------------------------- counting

  /** How many operations in q have the property. */
  function Tally(q: seq<Op>, f: Op -> bool): nat {
    if q == [] then 0 else Tally(q[..|q| - 1], f) + if f(q[|q| - 1]) then 1 else 0
  }

  function OfCtx(c: Ctx): Op -> bool {
    (o: Op) => o.ctx == c
  }

  function OfId(id: nat): Op -> bool {
    (o: Op) => o.id == id
  }

  lemma {:induction false} TallyAppend(q: seq<Op>, x: Op, f: Op -> bool)
    ensures Tally(q + [x], f) == Tally(q, f) + if f(x) then 1 else 0
  {
    assert (q + [x])[..|q|] == q;
  }

  lemma {:induction false} TallyConcat(a: seq<Op>, b: seq<Op>, f: Op -> bool)
    ensures Tally(a + b, f) == Tally(a, f) + Tally(b, f)
  {
    if b == [] {
      assert a + b == a;
    } else {
      TallyConcat(a, b[..|b| - 1], f);
      assert (a + b)[..|a + b| - 1] == a + b[..|b| - 1];
    }
  }

  lemma {:induction false} TallyWithout(q: seq<Op>, i: nat, f: Op -> bool)
    requires i < |q|
    ensures Tally(q, f) == Tally(Without(q, i), f) + if f(q[i]) then 1 else 0
  {
    var a, b := q[..i], q[i + 1..];
    assert q == (a + [q[i]]) + b;
    TallyConcat(a + [q[i]], b, f);
    TallyAppend(a, q[i], f);
    TallyConcat(a, b, f);
  }

  lemma {:induction false} TallyHead(q: seq<Op>, f: Op -> bool)
    requires q != []
    ensures Tally(q, f) == Tally(q[1..], f) + if f(q[0]) then 1 else 0
  {
    TallyWithout(q, 0, f);
    assert Without(q, 0) == q[1..];
  }

  lemma {:induction false} TallyHas(q: seq<Op>, i: nat, f: Op -> bool)
    requires i < |q| && f(q[i])
    ensures Tally(q, f) > 0
  {
    TallyWithout(q, i, f);
  }

  function OpsOf(q: seq<CollOp>): seq<Op> {
    if q == [] then [] else OpsOf(q[..|q| - 1]) + [q[|q| - 1].op]
  }

  lemma {:induction false} OpsOfAppend(q: seq<CollOp>, x: CollOp)
    ensures OpsOf(q + [x]) == OpsOf(q) + [x.op]
  {
    assert (q + [x])[..|q|] == q;
  }

  lemma {:induction false} OpsOfConcat(a: seq<CollOp>, b: seq<CollOp>)
    ensures OpsOf(a + b) == OpsOf(a) + OpsOf(b)
  {
    if b == [] {
      assert a + b == a;
    } else {
      OpsOfConcat(a, b[..|b| - 1]);
      assert (a + b)[..|a + b| - 1] == a + b[..|b| - 1];
    }
  }

  lemma {:induction false} OpsOfWithout(q: seq<CollOp>, i: nat)
    requires i < |q|
    ensures OpsOf(q) == OpsOf(q[..i]) + [q[i].op] + OpsOf(q[i + 1..])
    ensures OpsOf(Without(q, i)) == OpsOf(q[..i]) + OpsOf(q[i + 1..])
  {
    var a, b := q[..i], q[i + 1..];
    assert q == (a + [q[i]]) + b;
    OpsOfConcat(a + [q[i]], b);
    OpsOfAppend(a, q[i]);
    OpsOfConcat(a, b);
  }

  lemma {:induction false} TallyOpsWithout(q: seq<CollOp>, i: nat, f: Op -> bool)
    requires i < |q|
    ensures Tally(OpsOf(q), f) == Tally(OpsOf(Without(q, i)), f) + if f(q[i].op) then 1 else 0
  {
    var a, b := OpsOf(q[..i]), OpsOf(q[i + 1..]);
    OpsOfWithout(q, i);
    TallyConcat(a + [q[i].op], b, f);
    TallyAppend(a, q[i].op, f);
    TallyConcat(a, b, f);
  }

  /** The operations issued and not released. */
  function Out(s: State, f: Op -> bool): nat {
    Tally(s.inMpi, f) + Tally(s.done, f) + Tally(s.completions, f)
  }

  /** The operations in the queues and in the hands of the polling and completion tasks. */
  function Stored(s: State, f: Op -> bool): nat {
    Tally(s.p2p, f) + Tally(OpsOf(s.coll), f) + Tally(s.batch, f) + Out(s, f)
  }

  predicate Holding(pc: Pc) {
    pc.Bound? || pc.Allocated?
  }

  // ------------------------------------------------------------------- accounting

  /** The operations that a task has bound but not pushed yet: none or one. */
  function Held(tasks: seq<Task>, c: Ctx): nat {
    if c.task < |tasks| && Holding(tasks[c.task].pc) && tasks[c.task].pc.op.ctx == c then 1 else 0
  }

  function StoredOf(s: State, c: Ctx): nat {
    Stored(s, OfCtx(c))
  }

  /** The operations of one kind that a task has started and that were not released. */
  function InFlight(s: State, c: Ctx): nat {
    Held(s.tasks, c) + StoredOf(s, c)
  }

  /** How a task's block and unblock calls stand, given its blocking operation in flight. */
  ghost predicate TaskOk(t: Task, nonBlocking: nat, blocking: nat) {
    && t.events == nonBlocking
    && match t.pc
       case Running => blocking == 0 && t.unblocks == t.blocks
       case Bound(op, _) => blocking == (if op.ctx.blocking then 1 else 0) && t.unblocks == t.blocks
       case Allocated(op, _, _) => blocking == (if op.ctx.blocking then 1 else 0) && t.unblocks == t.blocks
       case WillBlock => t.unblocks >= t.blocks && blocking + t.unblocks == t.blocks + 1
       case Blocked => t.unblocks + 1 >= t.blocks && blocking + t.unblocks == t.blocks
  }

  ghost predicate Accounted(s: State) {
    && (forall t :: 0 <= t < |s.tasks| ==>
          TaskOk(s.tasks[t], InFlight(s, Ctx(t, false)), InFlight(s, Ctx(t, true))))
    && (forall t :: 0 <= t < |s.tasks| && Holding(s.tasks[t].pc) ==> s.tasks[t].pc.op.ctx.task == t)
    && (forall c :: StoredOf(s, c) > 0 ==> c.task < |s.tasks|)
  }

  /** Collective objects: each is in one place, and those queued are distinct. */
  ghost predicate ObjectsOk(s: State) {
    && (forall o :: o in s.objects ==> o < COLL_OBJECTS)
    && (forall i :: 0 <= i < |s.coll| ==> s.coll[i].obj in s.objects && s.objects[s.coll[i].obj] == Queued)
    && (forall i, j :: 0 <= i < j < |s.coll| ==> s.coll[i].obj != s.coll[j].obj)
    && (forall t :: 0 <= t < |s.tasks| && s.tasks[t].pc.Allocated? && s.tasks[t].pc.coll ==>
          s.tasks[t].pc.obj in s.objects && s.objects[s.tasks[t].pc.obj] == AtTask(t))
  }

  // --------------------------------------------------------------------- identity

  /** A task still holds the operation, bound and not pushed. */
  function HeldId(s: State, id: nat): nat {
    if id < |s.owners| && s.owners[id] < |s.tasks| && Holding(s.tasks[s.owners[id]].pc)
       && s.tasks[s.owners[id]].pc.op.id == id then 1 else 0
  }

  function Occurrences(ids: seq<nat>, id: nat): nat { multiset(ids)[id] }

  /** In how many places the operation is: with its task, in a container, or released. */
  function Places(s: State, id: nat): nat {
    HeldId(s, id) + Stored(s, OfId(id)) + Occurrences(s.released, id)
  }

  /** Every accepted operation is in exactly one place, and it has been issued if and only if
      that place comes after the issue. */
  ghost predicate Identified(s: State) {
    && (forall id: nat {:trigger Places(s, id)} :: Places(s, id) == if id < |s.owners| then 1 else 0)
    && (forall id: nat {:trigger Occurrences(s.issued, id)} :: Occurrences(s.issued, id) == Out(s, OfId(id)) + Occurrences(s.released, id))
    && HoldersOk(s)
  }

  ghost predicate Inv(s: State) {
    Accounted(s) && ObjectsOk(s) && Identified(s) && |s.completions| <= COMPLETION_SIZE
  }

  predicate IsMove(step: Step) {
    step.PopP2P? || step.PopColl? || step.Issue? || step.Complete? || step.FreeBatch? || step == Signal(true)
  }

  /** Handing an operation on from one container to the next keeps the total. */
  lemma {:induction false} Moves(s: State, s': State, step: Step, f: Op -> bool)
    requires Next(s, s', step) && IsMove(step)
    ensures Stored(s', f) == Stored(s, f) && s'.tasks == s.tasks && s'.owners == s.owners && s'.released == s.released
    ensures Out(s', f) == Out(s, f) + if step.Issue? && f(s.batch[0]) then 1 else 0
    ensures s'.issued == s.issued + if step.Issue? then [s.batch[0].id] else []
  {
    if step.PopP2P? || step.PopColl? {
      PopMoves(s, s', step, f);
    } else if step.Issue? {
      IssueMoves(s, s', f);
    } else if step.FreeBatch? {
      SameStored(s, s', f);
    } else {
      OutMoves(s, s', step, f);
    }
  }

  lemma {:induction false} PopMoves(s: State, s': State, step: Step, f: Op -> bool)
    requires Next(s, s', step) && (step.PopP2P? || step.PopColl?)
    ensures Stored(s', f) == Stored(s, f) && Out(s', f) == Out(s, f)
  {
    if step.PopP2P? {
      TallyWithout(s.p2p, step.i, f);
      TallyAppend(s.batch, s.p2p[step.i], f);
    } else {
      TallyOpsWithout(s.coll, step.i, f);
      TallyAppend(s.batch, s.coll[step.i].op, f);
    }
  }

  lemma {:induction false} IssueMoves(s: State, s': State, f: Op -> bool)
    requires Next(s, s', Issue)
    ensures Stored(s', f) == Stored(s, f) && Out(s', f) == Out(s, f) + if f(s.batch[0]) then 1 else 0
  {
    TallyHead(s.batch, f);
    TallyAppend(s.inMpi, s.batch[0], f);
  }

  lemma {:induction false} OutMoves(s: State, s': State, step: Step, f: Op -> bool)
    requires Next(s, s', step) && (step.Complete? || step == Signal(true))
    ensures Stored(s', f) == Stored(s, f) && Out(s', f) == Out(s, f)
  {
    if step.Complete? {
      TallyWithout(s.inMpi, step.i, f);
      TallyAppend(s.done, s.inMpi[step.i], f);
    } else {
      TallyHead(s.done, f);
      TallyAppend(s.completions, s.done[0], f);
    }
  }

  /** A step that touches no container. */
  ghost predicate SameContainers(s: State, s': State) {
    && s'.p2p == s.p2p && s'.coll == s.coll && s'.batch == s.batch && s'.inMpi == s.inMpi
    && s'.done == s.done && s'.completions == s.completions
  }

  lemma {:induction false} SameStored(s: State, s': State, f: Op -> bool)
    requires SameContainers(s, s')
    ensures Stored(s', f) == Stored(s, f) && Out(s', f) == Out(s, f)
  {
  }

  /** A step of task t that leaves the other tasks and their operations alone. */
  lemma {:induction false} OneTask(s: State, s': State, t: nat)
    requires Accounted(s) && t < |s.tasks| == |s'.tasks|
    requires forall u :: 0 <= u < |s.tasks| && u != t ==> s'.tasks[u] == s.tasks[u]
    requires forall c: Ctx :: c.task != t ==> StoredOf(s', c) == StoredOf(s, c)
    requires Holding(s'.tasks[t].pc) ==> s'.tasks[t].pc.op.ctx.task == t
    requires TaskOk(s'.tasks[t], InFlight(s', Ctx(t, false)), InFlight(s', Ctx(t, true)))
    ensures Accounted(s')
  {
    forall u | 0 <= u < |s.tasks|
      ensures TaskOk(s'.tasks[u], InFlight(s', Ctx(u, false)), InFlight(s', Ctx(u, true)))
    {
      if u != t {
        SameFlight(s, s', u, false);
        SameFlight(s, s', u, true);
      }
    }
  }

  lemma {:induction false} SameFlight(s: State, s': State, u: nat, blocking: bool)
    requires u < |s.tasks| == |s'.tasks| && s'.tasks[u] == s.tasks[u] && StoredOf(s', Ctx(u, blocking)) == StoredOf(s, Ctx(u, blocking))
    ensures InFlight(s', Ctx(u, blocking)) == InFlight(s, Ctx(u, blocking))
  {
  }

  lemma {:induction false} PushStored(s: State, s': State, t: nat, f: Op -> bool)
    requires Next(s, s', Push(t))
    ensures Stored(s', f) == Stored(s, f) + if f(s.tasks[t].pc.op) then 1 else 0
    ensures Out(s', f) == Out(s, f)
  {
    var pc := s.tasks[t].pc;
    if pc.coll {
      OpsOfAppend(s.coll, CollOp(pc.op, pc.obj));
      TallyAppend(OpsOf(s.coll), pc.op, f);
    } else {
      TallyAppend(s.p2p, pc.op, f);
    }
  }

  lemma {:induction false} PushAccounted(s: State, s': State, t: nat)
    requires Accounted(s) && Next(s, s', Push(t))
    ensures Accounted(s')
  {
    forall c: Ctx
      ensures StoredOf(s', c) == StoredOf(s, c) + if c == s.tasks[t].pc.op.ctx then 1 else 0
    {
      PushStored(s, s', t, OfCtx(c));
    }
    Pushed(s, s', t);
  }

  /** The operation that task t held is now stored: nothing of it is lost. */
  lemma {:induction false} Pushed(s: State, s': State, t: nat)
    requires Accounted(s) && t < |s.tasks| && s.tasks[t].pc.Allocated?
    requires s'.tasks == At(s, t, if s.tasks[t].pc.op.ctx.blocking then WillBlock else Running).tasks
    requires forall c: Ctx :: StoredOf(s', c) == StoredOf(s, c) + if c == s.tasks[t].pc.op.ctx then 1 else 0
    ensures Accounted(s')
  {
    assert TaskOk(s.tasks[t], InFlight(s, Ctx(t, false)), InFlight(s, Ctx(t, true)));
    PushKeepsFlight(s, s', t, Ctx(t, false));
    PushKeepsFlight(s, s', t, Ctx(t, true));
    OneTask(s, s', t);
  }

  lemma {:induction false} PushKeepsFlight(s: State, s': State, t: nat, c: Ctx)
    requires t < |s.tasks| == |s'.tasks| && Holding(s.tasks[t].pc) && !Holding(s'.tasks[t].pc) && c.task == t
    requires StoredOf(s', c) == StoredOf(s, c) + if c == s.tasks[t].pc.op.ctx then 1 else 0
    ensures InFlight(s', c) == InFlight(s, c)
  {
  }

  /** Task t moves on without touching a container. */
  lemma {:induction false} TaskMoves(s: State, s': State, t: nat)
    requires Accounted(s) && SameContainers(s, s') && t < |s.tasks| == |s'.tasks|
    requires forall u :: 0 <= u < |s.tasks| && u != t ==> s'.tasks[u] == s.tasks[u]
    requires Holding(s'.tasks[t].pc) ==> s'.tasks[t].pc.op.ctx.task == t
    requires TaskOk(s'.tasks[t], Held(s'.tasks, Ctx(t, false)) + StoredOf(s, Ctx(t, false)),
                    Held(s'.tasks, Ctx(t, true)) + StoredOf(s, Ctx(t, true)))
    ensures Accounted(s')
  {
    forall c ensures StoredOf(s', c) == StoredOf(s, c) {
      SameStored(s, s', OfCtx(c));
    }
    OneTask(s, s', t);
  }

  /** The accounts of a task after a step of its own, with n and m operations stored. */
  lemma {:induction false} TaskStep(s: State, s': State, step: Step, n: nat, m: nat)
    requires Next(s, s', step) && (step.Bind? || step.Alloc? || step.Block? || step.Resume?)
    requires var t := step.t; TaskOk(s.tasks[t], Held(s.tasks, Ctx(t, false)) + n, Held(s.tasks, Ctx(t, true)) + m)
    requires Holding(s.tasks[step.t].pc) ==> s.tasks[step.t].pc.op.ctx.task == step.t
    ensures var t := step.t; TaskOk(s'.tasks[t], Held(s'.tasks, Ctx(t, false)) + n, Held(s'.tasks, Ctx(t, true)) + m)
    ensures Holding(s'.tasks[step.t].pc) ==> s'.tasks[step.t].pc.op.ctx.task == step.t
    ensures |s'.tasks| == |s.tasks| && forall u :: 0 <= u < |s.tasks| && u != step.t ==> s'.tasks[u] == s.tasks[u]
  {
  }

  lemma {:induction false} TaskStepAccounted(s: State, s': State, step: Step)
    requires Accounted(s) && Next(s, s', step)
    requires step.Bind? || step.Alloc? || step.Block? || step.Resume?
    ensures Accounted(s')
  {
    var t := step.t;
    var n, m := StoredOf(s, Ctx(t, false)), StoredOf(s, Ctx(t, true));
    assert TaskOk(s.tasks[t], Held(s.tasks, Ctx(t, false)) + n, Held(s.tasks, Ctx(t, true)) + m);
    TaskStep(s, s', step, n, m);
    TaskMoves(s, s', t);
  }

  /** ALPI's conditions on both calls that release a task: there is an event to decrease,
      and an unblock call either answers the block call that the task is in or is the only
      one to precede the block call that it is about to make. */
  lemma {:induction false} ReleaseIsAllowed(s: State, c: Ctx)
    requires Accounted(s) && StoredOf(s, c) > 0
    ensures c.task < |s.tasks|
    ensures !c.blocking ==> s.tasks[c.task].events >= 1
    ensures var t := s.tasks[c.task];
            c.blocking ==> (t.pc.Blocked? && t.unblocks + 1 == t.blocks) || (t.pc.WillBlock? && t.unblocks == t.blocks)
  {
    assert TaskOk(s.tasks[c.task], InFlight(s, Ctx(c.task, false)), InFlight(s, Ctx(c.task, true)));
    assert InFlight(s, c) == Held(s.tasks, c) + StoredOf(s, c);
  }

  /** Releasing an operation that leaves its container. */
  lemma {:induction false} ReleaseAccounted(s: State, mid: State, o: Op)
    requires Accounted(s) && mid.tasks == s.tasks
    requires forall c :: StoredOf(s, c) == StoredOf(mid, c) + if c == o.ctx then 1 else 0
    ensures o.ctx.task < |s.tasks| && Accounted(Released(mid, o))
  {
    var c := o.ctx;
    assert StoredOf(s, c) > 0;
    ReleaseIsAllowed(s, c);
    var s' := Released(mid, o);
    assert forall x :: StoredOf(s', x) == StoredOf(mid, x);
    var t := c.task;
    assert TaskOk(s.tasks[t], InFlight(s, Ctx(t, false)), InFlight(s, Ctx(t, true)));
    assert InFlight(s', Ctx(t, !c.blocking)) == InFlight(s, Ctx(t, !c.blocking));
    assert InFlight(s', c) + 1 == InFlight(s, c);
    OneTask(s, s', t);
  }

  /** The operation that a release takes, and the state without it. */
  function Taken(s: State, step: Step): (r: (Op, State))
    requires (step == Signal(false) && s.done != []) || (step.Consume? && s.completions != [])
  {
    if step.Consume? then (s.completions[0], s.(completions := s.completions[1..]))
    else (s.done[0], s.(done := s.done[1..]))
  }

  lemma {:induction false} TakenStored(s: State, step: Step, f: Op -> bool)
    requires (step == Signal(false) && s.done != []) || (step.Consume? && s.completions != [])
    ensures var (o, mid) := Taken(s, step);
            && Stored(s, f) == Stored(mid, f) + (if f(o) then 1 else 0)
            && Out(s, f) == Out(mid, f) + (if f(o) then 1 else 0)
  {
    if step.Consume? {
      TallyHead(s.completions, f);
    } else {
      TallyHead(s.done, f);
    }
  }

  predicate IsRelease(step: Step) {
    step == Signal(false) || step.Consume?
  }

  lemma {:induction false} NextAccounted(s: State, s': State, step: Step)
    requires Accounted(s) && Next(s, s', step)
    ensures Accounted(s')
  {
    if step.Push? {
      PushAccounted(s, s', step.t);
    } else if step.Bind? || step.Alloc? || step.Block? || step.Resume? {
      TaskStepAccounted(s, s', step);
    } else if IsRelease(step) {
      var (o, mid) := Taken(s, step);
      forall c ensures StoredOf(s, c) == StoredOf(mid, c) + if c == o.ctx then 1 else 0 {
        TakenStored(s, step, OfCtx(c));
      }
      ReleaseAccounted(s, mid, o);
    } else {
      MoveAccounted(s, s', step);
    }
  }

  lemma {:induction false} MoveAccounted(s: State, s': State, step: Step)
    requires Accounted(s) && Next(s, s', step) && IsMove(step)
    ensures Accounted(s')
  {
    forall c ensures StoredOf(s', c) == StoredOf(s, c) {
      Moves(s, s', step, OfCtx(c));
    }
    Moves(s, s', step, OfId(0));
    Kept(s, s');
  }

  lemma {:induction false} Kept(s: State, s': State)
    requires Accounted(s) && s'.tasks == s.tasks && forall c :: StoredOf(s', c) == StoredOf(s, c)
    ensures Accounted(s')
  {
    if |s.tasks| > 0 {
      assert TaskOk(s.tasks[0], InFlight(s, Ctx(0, false)), InFlight(s, Ctx(0, true)));
      OneTask(s, s', 0);
    }
  }

  // ------------------------------------------------------- every operation is one thing

  /** What a step does to the places of the operation id. */
  ghost predicate IdStep(s: State, s': State, id: nat) {
    && Places(s', id) == Places(s, id) + (if |s.owners| <= id < |s'.owners| then 1 else 0)
    && Occurrences(s'.issued, id) + Out(s, OfId(id)) + Occurrences(s.released, id)
       == Occurrences(s.issued, id) + Out(s', OfId(id)) + Occurrences(s'.released, id)
  }

  ghost predicate HoldersOk(s: State) {
    forall t :: 0 <= t < |s.tasks| && Holding(s.tasks[t].pc) ==>
      s.tasks[t].pc.op.id < |s.owners| && s.owners[s.tasks[t].pc.op.id] == t
  }

  lemma {:induction false} OccurrencesMore(ids: seq<nat>, x: nat, id: nat)
    ensures Occurrences(ids + [x], id) == Occurrences(ids, id) + if id == x then 1 else 0
  {
  }

  lemma {:induction false} BindIds(s: State, s': State, step: Step, id: nat)
    requires HoldersOk(s) && Next(s, s', step) && step.Bind?
    ensures HoldersOk(s') && IdStep(s, s', id)
  {
    SameStored(s, s', OfId(id));
  }

  lemma {:induction false} TaskIds(s: State, s': State, step: Step, id: nat)
    requires HoldersOk(s) && Next(s, s', step) && (step.Alloc? || step.Block? || step.Resume?)
    ensures HoldersOk(s') && IdStep(s, s', id)
  {
    SameStored(s, s', OfId(id));
    TaskHolds(s, s', step, id);
  }

  lemma {:induction false} TaskHolds(s: State, s': State, step: Step, id: nat)
    requires HoldersOk(s) && Next(s, s', step) && (step.Alloc? || step.Block? || step.Resume?)
    ensures HoldersOk(s') && HeldId(s', id) == HeldId(s, id)
  {
  }

  lemma {:induction false} PushIds(s: State, s': State, t: nat, id: nat)
    requires HoldersOk(s) && Next(s, s', Push(t))
    ensures HoldersOk(s') && IdStep(s, s', id)
  {
    PushStored(s, s', t, OfId(id));
    PushHolds(s, s', t, id);
  }

  lemma {:induction false} PushHolds(s: State, s': State, t: nat, id: nat)
    requires HoldersOk(s) && Next(s, s', Push(t))
    ensures HoldersOk(s') && HeldId(s', id) == HeldId(s, id) - if s.tasks[t].pc.op.id == id then 1 else 0
  {
  }

  lemma {:induction false} MoveIds(s: State, s': State, step: Step, id: nat)
    requires HoldersOk(s) && Next(s, s', step) && IsMove(step)
    ensures HoldersOk(s') && IdStep(s, s', id)
  {
    Moves(s, s', step, OfId(id));
    SameHolders(s, s', id);
    if step.Issue? {
      OccurrencesMore(s.issued, s.batch[0].id, id);
    } else {
      assert s'.issued == s.issued;
    }
  }

  lemma {:induction false} SameHolders(s: State, s': State, id: nat)
    requires HoldersOk(s) && s'.tasks == s.tasks && s'.owners == s.owners
    ensures HoldersOk(s') && HeldId(s', id) == HeldId(s, id)
  {
  }

  lemma {:induction false} ReleaseIds(s: State, s': State, step: Step, id: nat)
    requires HoldersOk(s) && Next(s, s', step) && IsRelease(step)
    ensures HoldersOk(s') && IdStep(s, s', id)
  {
    var (o, mid) := Taken(s, step);
    TakenStored(s, step, OfId(id));
    OccurrencesMore(s.released, o.id, id);
    SameStored(mid, s', OfId(id));
    ReleaseHolds(s, s', step, id);
  }

  lemma {:induction false} ReleaseHolds(s: State, s': State, step: Step, id: nat)
    requires HoldersOk(s) && Next(s, s', step) && IsRelease(step)
    ensures HoldersOk(s') && HeldId(s', id) == HeldId(s, id)
  {
  }

  lemma {:induction false} NextIds(s: State, s': State, step: Step, id: nat)
    requires HoldersOk(s) && Next(s, s', step)
    ensures HoldersOk(s') && IdStep(s, s', id)
  {
    if step.Bind? {
      BindIds(s, s', step, id);
    } else if step.Push? {
      PushIds(s, s', step.t, id);
    } else if IsMove(step) {
      MoveIds(s, s', step, id);
    } else if IsRelease(step) {
      ReleaseIds(s, s', step, id);
    } else {
      TaskIds(s, s', step, id);
    }
  }

  lemma {:induction false} NextIdentified(s: State, s': State, step: Step)
    requires Identified(s) && Next(s, s', step)
    ensures Identified(s')
  {
    NextIds(s, s', step, 0);
    forall id: nat ensures Places(s', id) == if id < |s'.owners| then 1 else 0 {
      NextIds(s, s', step, id);
      assert Places(s, id) == if id < |s.owners| then 1 else 0;
    }
    forall id: nat ensures Occurrences(s'.issued, id) == Out(s', OfId(id)) + Occurrences(s'.released, id) {
      NextIds(s, s', step, id);
      assert Occurrences(s.issued, id) == Out(s, OfId(id)) + Occurrences(s.released, id);
    }
  }

  lemma {:induction false} NextObjects(s: State, s': State, step: Step)
    requires ObjectsOk(s) && Next(s, s', step)
    ensures ObjectsOk(s')
  {
    if step.Bind? || step.Alloc? || step.Push? || step.Block? || step.Resume? {
      TaskObjects(s, s', step);
    } else {
      QueueObjects(s, s', step);
    }
  }

  lemma {:induction false} TaskObjects(s: State, s': State, step: Step)
    requires ObjectsOk(s) && Next(s, s', step)
    requires step.Bind? || step.Alloc? || step.Push? || step.Block? || step.Resume?
    ensures ObjectsOk(s')
  {
    match step {
      case Bind(t, _, _) =>
      case Alloc(t, obj) =>
      case Push(t) =>
      case Block(t) =>
      case Resume(t) =>
    }
  }

  lemma {:induction false} QueueObjects(s: State, s': State, step: Step)
    requires ObjectsOk(s) && Next(s, s', step)
    requires !(step.Bind? || step.Alloc? || step.Push? || step.Block? || step.Resume?)
    ensures ObjectsOk(s')
  {
    if step.PopColl? || step.FreeBatch? {
    } else {
      assert s'.objects == s.objects && s'.coll == s.coll;
    }
  }

  // ------------------------------------------------------------------ whole runs

  ghost predicate IsRun(states: seq<State>, steps: seq<Step>) {
    && |states| == |steps| + 1
    && Init(states[0])
    && (forall i :: 0 <= i < |steps| ==> Next(states[i], states[i + 1], steps[i]))
  }

  lemma {:induction false} InitInv(s: State)
    requires Init(s)
    ensures Inv(s)
  {
    assert forall c :: StoredOf(s, c) == 0;
    forall id: nat ensures Places(s, id) == 0 && Occurrences(s.issued, id) == 0 && Out(s, OfId(id)) == 0 {
    }
    assert forall t :: 0 <= t < |s.tasks| ==> TaskOk(s.tasks[t], 0, 0);
  }

  lemma {:induction false} RunInv(states: seq<State>, steps: seq<Step>, i: nat)
    requires IsRun(states, steps) && i < |states|
    ensures Inv(states[i])
  {
    var s := ReachedInv(states, steps, i);
  }

  lemma {:induction false} ReachedInv(states: seq<State>, steps: seq<Step>, i: nat) returns (s: State)
    requires IsRun(states, steps) && i < |states|
    ensures s == states[i] && Inv(s)
  {
    if i == 0 {
      s := states[0];
      InitInv(s);
    } else {
      var before := ReachedInv(states, steps, i - 1);
      var step;
      s, step := RunStep(states, steps, i, before);
      NextInv(before, s, step);
    }
  }

  lemma {:induction false} RunStep(states: seq<State>, steps: seq<Step>, i: nat, before: State) returns (s: State, step: Step)
    requires IsRun(states, steps) && 0 < i < |states| && before == states[i - 1]
    ensures s == states[i] && step == steps[i - 1] && Next(before, s, step)
  {
    var j := i - 1;
    assert Next(states[j], states[j + 1], steps[j]);
    s, step := states[i], steps[j];
  }

  lemma {:induction false} NextInv(s: State, s': State, step: Step)
    requires Inv(s) && Next(s, s', step)
    ensures Inv(s')
  {
    NextAccounted(s, s', step);
    NextObjects(s, s', step);
    NextIdentified(s, s', step);
    NextRoom(s, s', step);
  }

  lemma {:induction false} NextRoom(s: State, s': State, step: Step)
    requires |s.completions| <= COMPLETION_SIZE && Next(s, s', step)
    ensures |s'.completions| <= COMPLETION_SIZE
  {
  }

  /** The steps lead from s to s'. */
  ghost predicate Leads(s: State, steps: seq<Step>, s': State)
    decreases |steps|
  {
    if steps == [] then s' == s
    else
      var first, last := steps[..|steps| - 1], steps[|steps| - 1];
      exists mid :: Leads(s, first, mid) && Next(mid, s', last)
  }

  lemma {:induction false} OneStep(s: State, step: Step, s': State)
    ensures Leads(s, [step], s') <==> Next(s, s', step)
  {
    assert [step][..0] == [];
    assert Leads(s, [], s);
  }

  lemma {:induction false} LeadsOn(s: State, steps: seq<Step>, mid: State, step: Step, s': State)
    requires Leads(s, steps, mid) && Leads(mid, [step], s')
    ensures Leads(s, steps + [step], s')
  {
    OneStep(mid, step, s');
    assert (steps + [step])[..|steps|] == steps;
  }

  lemma {:induction false} LeadsAll(s: State, a: seq<Step>, mid: State, b: seq<Step>, s': State)
    requires Leads(s, a, mid) && Leads(mid, b, s')
    ensures Leads(s, a + b, s')
    decreases |b|
  {
    if b == [] {
      assert a + b == a;
    } else {
      var first, last := b[..|b| - 1], b[|b| - 1];
      var t :| Leads(mid, first, t) && Next(t, s', last);
      LeadsAll(s, a, mid, first, t);
      assert (a + b)[..|a + b| - 1] == a + first && (a + b)[|a + b| - 1] == last;
    }
  }

  /** What leads somewhere from the start is a run, so the theorems about runs hold of it. */
  lemma {:induction false} LeadsIsRun(s: State, steps: seq<Step>, s': State) returns (states: seq<State>)
    requires Init(s) && Leads(s, steps, s')
    ensures IsRun(states, steps) && states[|steps|] == s'
    decreases |steps|
  {
    if steps == [] {
      states := [s];
    } else {
      var first, last := steps[..|steps| - 1], steps[|steps| - 1];
      var mid :| Leads(s, first, mid) && Next(mid, s', last);
      var before := LeadsIsRun(s, first, mid);
      states := before + [s'];
      RunOn(before, first, s', last);
      assert first + [last] == steps;
    }
  }

  lemma {:induction false} RunOn(states: seq<State>, steps: seq<Step>, s': State, step: Step)
    requires IsRun(states, steps) && Next(states[|steps|], s', step)
    ensures IsRun(states + [s'], steps + [step])
  {
    var ss, ts := states + [s'], steps + [step];
    forall i | 0 <= i < |ts| ensures Next(ss[i], ss[i + 1], ts[i]) {
      if i < |steps| {
        assert ss[i] == states[i] && ss[i + 1] == states[i + 1] && ts[i] == steps[i];
      }
    }
  }

  lemma {:induction false} OnceIsDistinct(ids: seq<nat>)
    requires forall id: nat {:trigger Occurrences(ids, id)} :: Occurrences(ids, id) <= 1
    ensures Distinct(ids)
  {
    if ids != [] {
      var n := |ids| - 1;
      var x := ids[n];
      assert ids == ids[..n] + [x];
      forall id: nat ensures Occurrences(ids[..n], id) <= 1 {
        OccurrencesMore(ids[..n], x, id);
        assert Occurrences(ids, id) <= 1;
      }
      OnceIsDistinct(ids[..n]);
      OccurrencesMore(ids[..n], x, x);
      assert x !in multiset(ids[..n]);
      forall i | 0 <= i < n ensures ids[i] != x {
        assert ids[i] == ids[..n][i] && ids[i] in multiset(ids[..n]);
      }
    }
  }

  /** In every interleaving each accepted operation is issued at most once and released at most
      once, released only after being issued, and always in exactly one place: with its
      task, in one container, or released. */
  lemma {:induction false} IssuedOnceReleasedOnce(states: seq<State>, steps: seq<Step>, i: nat)
    requires IsRun(states, steps) && i < |states|
    ensures Distinct(states[i].issued) && Distinct(states[i].released)
    ensures forall id :: id in states[i].released ==> id in states[i].issued && id < |states[i].owners|
    ensures forall id: nat {:trigger Places(states[i], id)} :: Places(states[i], id) == if id < |states[i].owners| then 1 else 0
    ensures forall id: nat {:trigger Out(states[i], OfId(id))} ::
              Out(states[i], OfId(id)) == 1 <==> id in states[i].issued && id !in states[i].released
  {
    RunInv(states, steps, i);
    var s := states[i];
    forall id: nat
      ensures Occurrences(s.issued, id) <= 1 && Occurrences(s.released, id) <= Occurrences(s.issued, id)
      ensures Occurrences(s.released, id) > 0 ==> id < |s.owners|
      ensures Occurrences(s.issued, id) == Out(s, OfId(id)) + Occurrences(s.released, id)
    {
      assert Places(s, id) == if id < |s.owners| then 1 else 0;
      assert Occurrences(s.issued, id) == Out(s, OfId(id)) + Occurrences(s.released, id);
    }
    OnceIsDistinct(s.issued);
    OnceIsDistinct(s.released);
    forall id: nat ensures (id in s.issued <==> Occurrences(s.issued, id) > 0) && (id in s.released <==> Occurrences(s.released, id) > 0) {
      assert id in s.issued <==> id in multiset(s.issued);
      assert id in s.released <==> id in multiset(s.released);
    }
  }

  /** In every interleaving the events of a task are exactly its non-blocking operations
      that were not released: never negative, and zero only when nothing of it is left. */
  lemma {:induction false} EventsAreOutstandingOperations(states: seq<State>, steps: seq<Step>, i: nat, t: nat)
    requires IsRun(states, steps) && i < |states| && t < |states[i].tasks|
    ensures states[i].tasks[t].events == InFlight(states[i], Ctx(t, false))
  {
    RunInv(states, steps, i);
    assert TaskOk(states[i].tasks[t], InFlight(states[i], Ctx(t, false)), InFlight(states[i], Ctx(t, true)));
  }

  /** Block and unblock calls of a task match one to one: neither is ever ahead by more
      than one, and a task outside a blocking operation has answered all of its calls. */
  lemma {:induction false} BlocksMatchUnblocks(states: seq<State>, steps: seq<Step>, i: nat, t: nat)
    requires IsRun(states, steps) && i < |states| && t < |states[i].tasks|
    ensures var k := states[i].tasks[t];
            && k.blocks <= k.unblocks + 1 && k.unblocks <= k.blocks + 1
            && (!k.pc.WillBlock? && !k.pc.Blocked? ==> k.unblocks == k.blocks)
  {
    RunInv(states, steps, i);
    assert TaskOk(states[i].tasks[t], InFlight(states[i], Ctx(t, false)), InFlight(states[i], Ctx(t, true)));
  }

  /** A blocked task can go on if and only if its own operation has been released: it never
      returns early and its wake-up is never lost. */
  lemma {:induction false} ResumesIffReleased(states: seq<State>, steps: seq<Step>, i: nat, t: nat)
    requires IsRun(states, steps) && i < |states| && t < |states[i].tasks| && states[i].tasks[t].pc.Blocked?
    ensures (exists s' :: Next(states[i], s', Resume(t))) <==> InFlight(states[i], Ctx(t, true)) == 0
  {
    RunInv(states, steps, i);
    var s := states[i];
    assert TaskOk(s.tasks[t], InFlight(s, Ctx(t, false)), InFlight(s, Ctx(t, true)));
    if InFlight(s, Ctx(t, true)) == 0 {
      assert Next(s, At(s, t, Running), Resume(t));
    }
  }

  /** Whatever context is about to be released in whatever run, releasing it meets ALPI's
      conditions. */
  lemma {:induction false} EveryReleaseIsAllowed(states: seq<State>, steps: seq<Step>, i: nat, o: Op)
    requires IsRun(states, steps) && i < |states|
    requires o in states[i].done || o in states[i].completions
    ensures o.ctx.task < |states[i].tasks|
    ensures !o.ctx.blocking ==> states[i].tasks[o.ctx.task].events >= 1
    ensures o.ctx.blocking ==> states[i].tasks[o.ctx.task].unblocks <= states[i].tasks[o.ctx.task].blocks
  {
    RunInv(states, steps, i);
    var q := if o in states[i].done then states[i].done else states[i].completions;
    var k :| 0 <= k < |q| && q[k] == o;
    TallyHas(q, k, OfCtx(o.ctx));
    assert StoredOf(states[i], o.ctx) > 0;
    ReleaseIsAllowed(states[i], o.ctx);
  }

  lemma {:induction false} DistinctBelow(xs: seq<nat>, n: nat)
    requires forall i :: 0 <= i < |xs| ==> xs[i] < n
    requires forall i, j :: 0 <= i < j < |xs| ==> xs[i] != xs[j]
    ensures |xs| <= n
    decreases n
  {
    if xs != [] {
      assert xs[0] < n;
      if i :| 0 <= i < |xs| && xs[i] == n - 1 {
        DistinctBelow(xs[..i] + xs[i + 1..], n - 1);
      } else {
        DistinctBelow(xs, n - 1);
      }
    }
  }

  /** The pre-queue for collectives is never full: its elements are distinct objects in use
      and there are fewer objects than places. So its push neither fails nor spins. */
  lemma {:induction false} CollectiveQueueNeverFull(states: seq<State>, steps: seq<Step>, i: nat)
    requires IsRun(states, steps) && i < |states|
    ensures |states[i].coll| <= COLL_OBJECTS < COLL_QUEUE_SIZE
  {
    RunInv(states, steps, i);
    var s := states[i];
    var objs := seq(|s.coll|, k requires 0 <= k < |s.coll| => s.coll[k].obj);
    DistinctBelow(objs, COLL_OBJECTS);
  }
}
