/**
  The ticket manager as the polling task of the protocol. A weave is any interleaving of the
  trace of a ticket manager with steps of user tasks and of the completion task: an operation
  arrives in the trace when or after its task has pushed it, an issue is the pop and the issue
  of that operation, a release is its completion and its signal, and giving back objects is one
  more step. Every weave is a run of Protocol, and the polling task is never stuck in it.
 */
module Refinement {
  import opened Basics
  import opened Mpi
  import opened Internals
  import opened World
  import opened PreQueues
  import TM = TicketManager
  import P = Protocol

  function OpOf(d: Catalogue, o: nat): P.Op {
    P.Op(o, P.Ctx(d(o).task, d(o).blocking))
  }

  /** The operation that a release is about, as the released context has it. */
  function OpIn(ctx: TaskContext): P.Op {
    P.Op(ctx.op, P.Ctx(ctx.task, ctx.blocking))
  }

  // --------------------------------------------------------------------------- weaves

  /** Steps of user tasks and of the completion task. */
  predicate IsEnvironment(step: P.Step) {
    step.Bind? || step.Alloc? || step.Push? || step.Block? || step.Resume? || step.Consume?
  }

  predicate IsPolling(step: P.Step, delegate: bool) {
    step.PopP2P? || step.PopColl? || step.Issue? || step.Complete? || step.FreeBatch? || step == P.Signal(delegate)
  }

  /** Task t is about to push operation o. */
  predicate Pushes(d: Catalogue, s: P.State, t: nat, o: nat) {
    && t < |s.tasks| && s.tasks[t].pc.Allocated?
    && s.tasks[t].pc.op == OpOf(d, o) && s.tasks[t].pc.coll == d(o).collective
  }

  /** The step takes operation o from its pre-queue. */
  predicate Pops(d: Catalogue, s: P.State, step: P.Step, o: nat) {
    if d(o).collective then step.PopColl? && step.i < |s.coll| && s.coll[step.i].op == OpOf(d, o)
    else step.PopP2P? && step.i < |s.p2p| && s.p2p[step.i] == OpOf(d, o)
  }

  /** Operation o has been pushed to the pre-queue of its kind and waits there. */
  ghost predicate InQueue(d: Catalogue, s: P.State, o: nat) {
    if d(o).collective then exists i :: 0 <= i < |s.coll| && s.coll[i].op == OpOf(d, o)
    else exists i :: 0 <= i < |s.p2p| && s.p2p[i] == OpOf(d, o)
  }

  /** The steps that an act of the trace stands for. What arrives has been pushed by then. */
  ghost predicate Acts(d: Catalogue, a: Act, delegate: bool, s: P.State, steps: seq<P.Step>, s': P.State) {
    && P.Leads(s, steps, s')
    && match a
       case Arrive(o) => steps == [] && InQueue(d, s, o)
       case Did(e) =>
         match e
         case Issued(o, _) => |steps| == 2 && Pops(d, s, steps[0], o) && steps[1] == P.Issue
         case Signalled(ctx, handed) =>
           && |steps| == 2 && steps[0].Complete? && steps[1] == P.Signal(handed) && handed == delegate
           && steps[0].i < |s.inMpi| && s.inMpi[steps[0].i] == OpIn(ctx)
         case Freed(_) => steps == [P.FreeBatch]
         case Stored(_, _, _) => steps == []
         case Appended(_) => steps == []
  }

  /** A point of a weave: the protocol's state, the steps so far and how far the trace is. */
  datatype Point = Point(s: P.State, steps: seq<P.Step>, i: nat)

  ghost predicate Woven(d: Catalogue, trace: seq<Act>, delegate: bool, a: Point, b: Point) {
    || (b.i == a.i && exists step :: IsEnvironment(step) && P.Leads(a.s, [step], b.s) && b.steps == a.steps + [step])
    || (b.i == a.i + 1 <= |trace| && exists steps :: Acts(d, trace[a.i], delegate, a.s, steps, b.s) && b.steps == a.steps + steps)
  }

  ghost predicate IsWeave(d: Catalogue, trace: seq<Act>, delegate: bool, points: seq<Point>) {
    && |points| > 0 && P.Init(points[0].s) && points[0].steps == [] && points[0].i == 0
    && forall j :: 0 <= j < |points| - 1 ==> Woven(d, trace, delegate, points[j], points[j + 1])
  }

  // ----------------------------------------------------------------------- the mirror

  ghost predicate InMpi(d: Catalogue, s: P.State, o: nat) {
    exists i :: 0 <= i < |s.inMpi| && s.inMpi[i] == OpOf(d, o)
  }

  function Ids(q: seq<P.Op>): seq<nat> {
    if q == [] then [] else Ids(q[..|q| - 1]) + [q[|q| - 1].id]
  }

  /** The operations released or handed over to the completion task, in order. */
  function Gone(s: P.State): seq<nat> {
    s.released + Ids(s.completions)
  }

  ghost predicate AnyPopped(s: P.State) {
    exists x :: x in s.objects && s.objects[x] == P.Popped
  }

  ghost predicate SomeUnfreed(log: seq<Event>) {
    exists o :: Has(log, Issuance, o, |log|) && !Has(log, Freeing, o, |log|)
  }

  /** After the record log and these arrivals: issues and releases are those of the record;
      what is issued and not released is in MPI's hands; what has arrived and is not issued is
      queued; and objects popped are those of operations not given back. */
  ghost predicate Mirrors(d: Catalogue, log: seq<Event>, arrivals: seq<nat>, delegate: bool, s: P.State) {
    && s.batch == [] && s.done == [] && (!delegate ==> s.completions == [])
    && s.issued == IssuedOps(log) && Gone(s) == SignalledOps(log)
    && (forall o {:trigger InMpi(d, s, o)} :: o in IssuedOps(log) && o !in SignalledOps(log) ==> InMpi(d, s, o))
    && (forall o {:trigger InQueue(d, s, o)} :: o in arrivals && o !in IssuedOps(log) ==> InQueue(d, s, o))
    && (AnyPopped(s) ==> SomeUnfreed(log))
  }

  ghost predicate MirrorsAt(d: Catalogue, trace: seq<Act>, i: nat, delegate: bool, s: P.State) {
    i <= |trace| && Mirrors(d, LogOf(trace[..i]), Arrivals(trace[..i]), delegate, s)
  }

  // ------------------------------------------------------------------- the record so far

  lemma {:induction false} HasIsListed(log: seq<Event>, o: nat)
    ensures Has(log, Issuance, o, |log|) <==> o in IssuedOps(log)
    ensures Has(log, Signalling, o, |log|) <==> o in SignalledOps(log)
  {
    if log != [] {
      var n := |log| - 1;
      HasIsListed(log[..n], o);
      HasKept(log[..n], log, Issuance, o, n);
      HasKept(log[..n], log, Signalling, o, n);
      HasLast(log, Issuance, o);
      HasLast(log, Signalling, o);
    }
  }

  lemma {:induction false} HasLast(log: seq<Event>, kind: Kind, o: nat)
    requires log != []
    ensures Has(log, kind, o, |log|) <==> Has(log, kind, o, |log| - 1) || About(log[|log| - 1], kind, o)
  {
  }

  /** What a right record says about its next event e after the events in log. */
  ghost predicate NextIs(d: Catalogue, log: seq<Event>, e: Event) {
    match e
    case Issued(o, _) => o !in IssuedOps(log) && !Has(log, Freeing, o, |log|)
    case Signalled(ctx, _) => ctx.op in IssuedOps(log) && ctx.op !in SignalledOps(log) && OpIn(ctx) == OpOf(d, ctx.op)
    case _ => true
  }

  lemma {:induction false} NextInRecord(d: Catalogue, w: World, n: nat)
    requires LogOk(d, w) && n < |w.log|
    ensures NextIs(d, w.log[..n], w.log[n])
  {
    var log, e := w.log[..n], w.log[n];
    var o := Subject(e);
    assert EventOk(d, w, n);
    forall kind ensures Has(w.log, kind, o, n) <==> Has(log, kind, o, n) {
      HasKept(log, w.log, kind, o, n);
    }
    HasIsListed(log, o);
    NotTwice(w.log, n);
    if e.Issued? {
      NotFreedBefore(d, w, n);
    }
  }

  lemma {:induction false} NotTwice(log: seq<Event>, n: nat)
    requires OnceEach(log) && n < |log|
    ensures !Has(log, KindOf(log[n]), Subject(log[n]), n)
  {
    forall j | 0 <= j < n ensures !About(log[j], KindOf(log[n]), Subject(log[n])) {
      assert !SameKind(log[j], log[n]);
    }
  }

  lemma {:induction false} NotFreedBefore(d: Catalogue, w: World, n: nat)
    requires LogOk(d, w) && n < |w.log| && w.log[n].Issued?
    ensures !Has(w.log, Freeing, w.log[n].op, n)
  {
    NotTwice(w.log, n);
    forall j | 0 <= j < n ensures !About(w.log[j], Freeing, w.log[n].op) {
      assert EventOk(d, w, j);
      assert !Has(w.log, Issuance, w.log[n].op, j);
    }
  }

  /** The events of the first acts are the first events. */
  lemma {:induction false} LogSoFar(trace: seq<Act>, i: nat)
    requires i <= |trace|
    ensures LogOf(trace[..i]) <= LogOf(trace)
    ensures i < |trace| && trace[i].Did? ==>
              |LogOf(trace[..i])| < |LogOf(trace)| && LogOf(trace)[|LogOf(trace[..i])|] == trace[i].event
    decreases |trace| - i
  {
    if i < |trace| {
      LogSoFar(trace, i + 1);
      assert trace[..i + 1] == trace[..i] + [trace[i]];
      TraceMore(trace[..i], trace[i]);
    } else {
      assert trace[..i] == trace;
    }
  }

  lemma {:induction false} NextAct(d: Catalogue, w: World, trace: seq<Act>, i: nat)
    requires LogOk(d, w) && LogOf(trace) == w.log && i < |trace| && trace[i].Did?
    ensures NextIs(d, LogOf(trace[..i]), trace[i].event)
  {
    LogSoFar(trace, i);
    var n := |LogOf(trace[..i])|;
    assert w.log[..n] == LogOf(trace[..i]);
    NextInRecord(d, w, n);
  }

  lemma {:induction false} HandedAsConfigured(d: Catalogue, w: World, trace: seq<Act>, i: nat)
    requires LogOk(d, w) && LogOf(trace) == w.log && i < |trace| && trace[i].Did? && trace[i].event.Signalled?
    ensures trace[i].event.handed == w.delegate
  {
    LogSoFar(trace, i);
    assert EventOk(d, w, |LogOf(trace[..i])|);
  }

  // ------------------------------------------------------------- what the steps do

  lemma {:induction false} TwoSteps(s: P.State, steps: seq<P.Step>, s': P.State) returns (mid: P.State)
    requires |steps| == 2 && P.Leads(s, steps, s')
    ensures P.Next(s, mid, steps[0]) && P.Next(mid, s', steps[1])
  {
    var first, last := steps[..1], steps[1];
    mid :| P.Leads(s, first, mid) && P.Next(mid, s', last);
    assert first == [steps[0]];
    P.OneStep(s, steps[0], mid);
  }

  /** The containers beyond the pre-queues, and the histories. */
  ghost predicate SameBeyond(s: P.State, s': P.State) {
    && s'.batch == s.batch && s'.inMpi == s.inMpi && s'.done == s.done && s'.completions == s.completions
    && s'.issued == s.issued && s'.released == s.released
  }

  lemma {:induction false} PushDoes(d: Catalogue, s: P.State, s': P.State, t: nat, x: nat)
    requires P.Next(s, s', P.Push(t)) && InQueue(d, s, x)
    ensures InQueue(d, s', x)
  {
    if d(x).collective {
      var i :| 0 <= i < |s.coll| && s.coll[i].op == OpOf(d, x);
      assert s'.coll[i] == s.coll[i];
    } else {
      var i :| 0 <= i < |s.p2p| && s.p2p[i] == OpOf(d, x);
      assert s'.p2p[i] == s.p2p[i];
    }
  }

  /** Once a task has pushed an operation, it can arrive. */
  lemma {:induction false} PushArrives(d: Catalogue, s: P.State, s': P.State, t: nat, o: nat, delegate: bool)
    requires P.Next(s, s', P.Push(t)) && Pushes(d, s, t, o)
    ensures Acts(d, Arrive(o), delegate, s', [], s')
  {
    if d(o).collective {
      assert s'.coll[|s.coll|].op == OpOf(d, o);
    } else {
      assert s'.p2p[|s.p2p|] == OpOf(d, o);
    }
  }

  lemma {:induction false} PopDoes(d: Catalogue, s: P.State, mid: P.State, pop: P.Step, o: nat)
    requires P.Next(s, mid, pop) && Pops(d, s, pop, o)
    ensures mid.batch == s.batch + [OpOf(d, o)] && SameBeyond(s.(batch := mid.batch), mid)
    ensures forall x {:trigger InQueue(d, mid, x)} :: x != o && InQueue(d, s, x) ==> InQueue(d, mid, x)
  {
    forall x | x != o && InQueue(d, s, x) ensures InQueue(d, mid, x) {
      StaysQueued(d, s, mid, pop, o, x);
    }
  }

  lemma {:induction false} StaysIn<T>(q: seq<T>, i: nat, j: nat)
    requires i < |q| && j < |q| && j != i
    ensures var k := if j < i then j else j - 1; k < |P.Without(q, i)| && P.Without(q, i)[k] == q[j]
  {
  }

  lemma {:induction false} StaysQueued(d: Catalogue, s: P.State, mid: P.State, pop: P.Step, o: nat, x: nat)
    requires P.Next(s, mid, pop) && Pops(d, s, pop, o) && x != o && InQueue(d, s, x)
    ensures InQueue(d, mid, x)
  {
    if d(x).collective {
      var j :| 0 <= j < |s.coll| && s.coll[j].op == OpOf(d, x);
      if d(o).collective {
        StaysIn(s.coll, pop.i, j);
      } else {
        assert mid.coll[j] == s.coll[j];
      }
    } else {
      var j :| 0 <= j < |s.p2p| && s.p2p[j] == OpOf(d, x);
      if !d(o).collective {
        StaysIn(s.p2p, pop.i, j);
      } else {
        assert mid.p2p[j] == s.p2p[j];
      }
    }
  }

  lemma {:induction false} IssueDoes(d: Catalogue, s: P.State, s': P.State, o: nat)
    requires P.Next(s, s', P.Issue) && s.batch == [OpOf(d, o)]
    ensures s'.batch == [] && s'.inMpi == s.inMpi + [OpOf(d, o)] && s'.issued == s.issued + [o]
    ensures s'.done == s.done && s'.completions == s.completions && s'.released == s.released && s'.objects == s.objects
    ensures s'.p2p == s.p2p && s'.coll == s.coll
  {
  }

  lemma {:induction false} IdsMore(q: seq<P.Op>, x: P.Op)
    ensures Ids(q + [x]) == Ids(q) + [x.id]
  {
    assert (q + [x])[..|q|] == q;
  }

  lemma {:induction false} IdsHead(q: seq<P.Op>)
    requires q != []
    ensures Ids(q) == [q[0].id] + Ids(q[1..])
  {
    var n := |q| - 1;
    if n > 0 {
      IdsHead(q[..n]);
      assert q[..n][1..] == q[1..][..n - 1];
    }
  }

  lemma {:induction false} CompleteDoes(d: Catalogue, s: P.State, mid: P.State, i: nat, o: nat)
    requires P.Next(s, mid, P.Complete(i)) && i < |s.inMpi| && s.inMpi[i] == OpOf(d, o) && s.done == []
    ensures mid.done == [OpOf(d, o)] && SameBeyond(s.(inMpi := mid.inMpi, done := mid.done), mid)
    ensures mid.p2p == s.p2p && mid.coll == s.coll && mid.objects == s.objects
    ensures forall x {:trigger InMpi(d, mid, x)} :: x != o && InMpi(d, s, x) ==> InMpi(d, mid, x)
  {
    forall x | x != o && InMpi(d, s, x) ensures InMpi(d, mid, x) {
      var j :| 0 <= j < |s.inMpi| && s.inMpi[j] == OpOf(d, x);
      assert mid.inMpi[if j < i then j else j - 1] == s.inMpi[j];
    }
  }

  lemma {:induction false} SignalDoes(s: P.State, s': P.State, delegate: bool, o: P.Op)
    requires P.Next(s, s', P.Signal(delegate)) && s.done == [o] && (!delegate ==> s.completions == [])
    ensures s'.done == [] && Gone(s') == Gone(s) + [o.id] && (!delegate ==> s'.completions == [])
    ensures s'.batch == s.batch && s'.inMpi == s.inMpi && s'.issued == s.issued
    ensures s'.p2p == s.p2p && s'.coll == s.coll && s'.objects == s.objects
  {
    IdsMore(s.completions, o);
    assert s.done[1..] == [];
  }

  lemma {:induction false} FreeDoes(s: P.State, s': P.State)
    requires P.Next(s, s', P.FreeBatch)
    ensures SameBeyond(s, s') && s'.p2p == s.p2p && s'.coll == s.coll && !AnyPopped(s')
  {
  }

  lemma {:induction false} EnvironmentDoes(d: Catalogue, s: P.State, s': P.State, step: P.Step)
    requires P.Next(s, s', step) && IsEnvironment(step)
    ensures s'.batch == s.batch && s'.inMpi == s.inMpi && s'.done == s.done && s'.issued == s.issued
    ensures forall x {:trigger InQueue(d, s', x)} :: InQueue(d, s, x) ==> InQueue(d, s', x)
    ensures AnyPopped(s') ==> AnyPopped(s)
    ensures Gone(s') == Gone(s) && (s.completions == [] ==> s'.completions == [])
  {
    if step.Consume? {
      IdsHead(s.completions);
    }
    forall x | InQueue(d, s, x) ensures InQueue(d, s', x) {
      if step.Push? {
        PushDoes(d, s, s', step.t, x);
      } else {
        SameQueues(d, s, s', x);
      }
    }
  }

  // ------------------------------------------------------------- the mirror is kept

  lemma {:induction false} UnfreedMore(log: seq<Event>, e: Event)
    requires SomeUnfreed(log) && !e.Freed?
    ensures SomeUnfreed(log + [e])
  {
    var o :| Has(log, Issuance, o, |log|) && !Has(log, Freeing, o, |log|);
    var log' := log + [e];
    HasKept(log, log', Issuance, o, |log|);
    HasKept(log, log', Freeing, o, |log|);
    HasLast(log', Issuance, o);
    HasLast(log', Freeing, o);
  }

  lemma {:induction false} SameQueues(d: Catalogue, s: P.State, s': P.State, o: nat)
    requires s'.p2p == s.p2p && s'.coll == s.coll
    ensures InQueue(d, s', o) <==> InQueue(d, s, o)
  {
  }

  lemma {:induction false} SameMpi(d: Catalogue, s: P.State, s': P.State, o: nat)
    requires s'.inMpi == s.inMpi
    ensures InMpi(d, s', o) <==> InMpi(d, s, o)
  {
  }

  /** A step that leaves containers and histories alone. */
  lemma {:induction false} Unmoved(d: Catalogue, log: seq<Event>, arrivals: seq<nat>, delegate: bool, s: P.State, s': P.State)
    requires Mirrors(d, log, arrivals, delegate, s)
    requires s'.batch == s.batch && s'.inMpi == s.inMpi && s'.done == s.done && s'.issued == s.issued
    requires forall o {:trigger InQueue(d, s', o)} :: InQueue(d, s, o) ==> InQueue(d, s', o)
    requires AnyPopped(s') ==> AnyPopped(s)
    requires Gone(s') == Gone(s) && (s.completions == [] ==> s'.completions == [])
    ensures Mirrors(d, log, arrivals, delegate, s')
  {
    forall o | o in IssuedOps(log) && o !in SignalledOps(log) ensures InMpi(d, s', o) {
      SameMpi(d, s, s', o);
    }
    forall o | o in arrivals && o !in IssuedOps(log) ensures InQueue(d, s', o) {
      assert InQueue(d, s, o);
    }
  }

  lemma {:induction false} ArriveMirrored(d: Catalogue, log: seq<Event>, arrivals: seq<nat>, delegate: bool, s: P.State, o: nat)
    requires Mirrors(d, log, arrivals, delegate, s) && InQueue(d, s, o)
    ensures Mirrors(d, log, arrivals + [o], delegate, s)
  {
    forall x | x in arrivals + [o] && x !in IssuedOps(log) ensures InQueue(d, s, x) {
      assert x in arrivals || x == o;
    }
  }

  lemma {:induction false} IssueMirrored(d: Catalogue, log: seq<Event>, arrivals: seq<nat>, delegate: bool,
                                         s: P.State, mid: P.State, s': P.State, pop: P.Step, e: Event)
    requires Mirrors(d, log, arrivals, delegate, s) && e.Issued? && NextIs(d, log, e)
    requires P.Next(s, mid, pop) && Pops(d, s, pop, e.op) && P.Next(mid, s', P.Issue)
    ensures Mirrors(d, log + [e], arrivals, delegate, s')
  {
    var o := e.op;
    PopDoes(d, s, mid, pop, o);
    IssueDoes(d, mid, s', o);
    IssuedOpsMore(log, e);
    forall x | x in IssuedOps(log + [e]) && x !in SignalledOps(log + [e]) ensures InMpi(d, s', x) {
      if x == o {
        assert s'.inMpi[|s.inMpi|] == OpOf(d, o);
      } else {
        assert InMpi(d, s, x);
        var i :| 0 <= i < |s.inMpi| && s.inMpi[i] == OpOf(d, x);
        assert s'.inMpi[i] == s.inMpi[i];
      }
    }
    forall x | x in arrivals && x !in IssuedOps(log + [e]) ensures InQueue(d, s', x) {
      assert InQueue(d, s, x) && InQueue(d, mid, x);
      SameQueues(d, mid, s', x);
    }
    NewIsUnfreed(d, log, e);
  }

  lemma {:induction false} NewIsUnfreed(d: Catalogue, log: seq<Event>, e: Event)
    requires e.Issued? && NextIs(d, log, e)
    ensures SomeUnfreed(log + [e])
  {
    var log' := log + [e];
    HasKept(log, log', Freeing, e.op, |log|);
    HasLast(log', Freeing, e.op);
    HasLast(log', Issuance, e.op);
    assert Has(log', Issuance, e.op, |log'|) && !Has(log', Freeing, e.op, |log'|);
  }

  lemma {:induction false} SignalMirrored(d: Catalogue, log: seq<Event>, arrivals: seq<nat>, delegate: bool,
                                          s: P.State, mid: P.State, s': P.State, i: nat, e: Event)
    requires Mirrors(d, log, arrivals, delegate, s) && e.Signalled? && i < |s.inMpi| && s.inMpi[i] == OpOf(d, e.ctx.op)
    requires P.Next(s, mid, P.Complete(i)) && P.Next(mid, s', P.Signal(delegate))
    ensures Mirrors(d, log + [e], arrivals, delegate, s')
  {
    var o := e.ctx.op;
    CompleteDoes(d, s, mid, i, o);
    SignalDoes(mid, s', delegate, OpOf(d, o));
    IssuedOpsMore(log, e);
    forall x | x in IssuedOps(log + [e]) && x !in SignalledOps(log + [e]) ensures InMpi(d, s', x) {
      assert InMpi(d, s, x) && InMpi(d, mid, x);
      SameMpi(d, mid, s', x);
    }
    forall x | x in arrivals && x !in IssuedOps(log + [e]) ensures InQueue(d, s', x) {
      assert InQueue(d, s, x);
      SameQueues(d, s, s', x);
    }
    if AnyPopped(s') {
      UnfreedMore(log, e);
    }
  }

  lemma {:induction false} QuietMirrored(d: Catalogue, log: seq<Event>, arrivals: seq<nat>, delegate: bool, s: P.State, e: Event)
    requires Mirrors(d, log, arrivals, delegate, s) && !e.Issued? && !e.Signalled? && (e.Freed? ==> !AnyPopped(s))
    ensures Mirrors(d, log + [e], arrivals, delegate, s)
  {
    IssuedOpsMore(log, e);
    assert IssuedOps(log) + [] == IssuedOps(log) && SignalledOps(log) + [] == SignalledOps(log);
    if AnyPopped(s) {
      UnfreedMore(log, e);
    }
  }

  lemma {:induction false} FreeMirrored(d: Catalogue, log: seq<Event>, arrivals: seq<nat>, delegate: bool, s: P.State, s': P.State, e: Event)
    requires Mirrors(d, log, arrivals, delegate, s) && e.Freed? && P.Next(s, s', P.FreeBatch)
    ensures Mirrors(d, log + [e], arrivals, delegate, s')
  {
    FreeDoes(s, s');
    forall o ensures InQueue(d, s, o) ==> InQueue(d, s', o) {
      SameQueues(d, s, s', o);
    }
    Unmoved(d, log, arrivals, delegate, s, s');
    QuietMirrored(d, log, arrivals, delegate, s', e);
  }

  lemma {:induction false} EventMirrored(d: Catalogue, log: seq<Event>, arrivals: seq<nat>, delegate: bool,
                                         s: P.State, steps: seq<P.Step>, s': P.State, e: Event)
    requires Mirrors(d, log, arrivals, delegate, s) && NextIs(d, log, e) && Acts(d, Did(e), delegate, s, steps, s')
    ensures Mirrors(d, log + [e], arrivals, delegate, s')
  {
    if e.Issued? {
      var mid := TwoSteps(s, steps, s');
      IssueMirrored(d, log, arrivals, delegate, s, mid, s', steps[0], e);
    } else if e.Signalled? {
      var mid := TwoSteps(s, steps, s');
      SignalMirrored(d, log, arrivals, delegate, s, mid, s', steps[0].i, e);
    } else if e.Freed? {
      P.OneStep(s, P.FreeBatch, s');
      FreeMirrored(d, log, arrivals, delegate, s, s', e);
    } else {
      QuietMirrored(d, log, arrivals, delegate, s, e);
    }
  }

  lemma {:induction false} ActMirrored(d: Catalogue, w: World, trace: seq<Act>, i: nat, i': nat, delegate: bool,
                                       s: P.State, steps: seq<P.Step>, s': P.State)
    requires LogOk(d, w) && LogOf(trace) == w.log && i < |trace| && i' == i + 1
    requires MirrorsAt(d, trace, i, delegate, s) && Acts(d, trace[i], delegate, s, steps, s')
    ensures MirrorsAt(d, trace, i', delegate, s')
  {
    TraceMore(trace[..i], trace[i]);
    assert trace[..i'] == trace[..i] + [trace[i]];
    if trace[i].Did? {
      NextAct(d, w, trace, i);
      EventMirrored(d, LogOf(trace[..i]), Arrivals(trace[..i]), delegate, s, steps, s', trace[i].event);
    } else {
      ArriveMirrored(d, LogOf(trace[..i]), Arrivals(trace[..i]), delegate, s, trace[i].op);
    }
  }

  lemma {:induction false} EnvironmentMirrored(d: Catalogue, trace: seq<Act>, i: nat, delegate: bool, s: P.State, s': P.State, step: P.Step)
    requires MirrorsAt(d, trace, i, delegate, s) && P.Leads(s, [step], s') && IsEnvironment(step)
    ensures MirrorsAt(d, trace, i, delegate, s')
  {
    P.OneStep(s, step, s');
    EnvironmentDoes(d, s, s', step);
    Unmoved(d, LogOf(trace[..i]), Arrivals(trace[..i]), delegate, s, s');
  }

  // ------------------------------------------------------------------ whole weaves

  lemma {:induction false} StartMirrored(d: Catalogue, trace: seq<Act>, delegate: bool, s: P.State)
    requires P.Init(s)
    ensures MirrorsAt(d, trace, 0, delegate, s)
  {
    assert trace[..0] == [];
  }

  lemma {:induction false} WovenKept(d: Catalogue, w: World, trace: seq<Act>, delegate: bool, start: P.State, a: Point, b: Point)
    requires LogOk(d, w) && LogOf(trace) == w.log && Woven(d, trace, delegate, a, b)
    requires P.Leads(start, a.steps, a.s) && MirrorsAt(d, trace, a.i, delegate, a.s)
    ensures P.Leads(start, b.steps, b.s) && MirrorsAt(d, trace, b.i, delegate, b.s)
  {
    if b.i == a.i {
      var step :| IsEnvironment(step) && P.Leads(a.s, [step], b.s) && b.steps == a.steps + [step];
      P.LeadsAll(start, a.steps, a.s, [step], b.s);
      EnvironmentMirrored(d, trace, a.i, delegate, a.s, b.s, step);
    } else {
      var steps :| Acts(d, trace[a.i], delegate, a.s, steps, b.s) && b.steps == a.steps + steps;
      P.LeadsAll(start, a.steps, a.s, steps, b.s);
      ActMirrored(d, w, trace, a.i, b.i, delegate, a.s, steps, b.s);
    }
  }

  lemma {:induction false} WeaveKept(d: Catalogue, w: World, trace: seq<Act>, delegate: bool, points: seq<Point>, j: nat)
    requires LogOk(d, w) && LogOf(trace) == w.log && IsWeave(d, trace, delegate, points) && j < |points|
    ensures P.Leads(points[0].s, points[j].steps, points[j].s) && MirrorsAt(d, trace, points[j].i, delegate, points[j].s)
  {
    if j == 0 {
      StartMirrored(d, trace, delegate, points[0].s);
    } else {
      var k := j - 1;
      WeaveKept(d, w, trace, delegate, points, k);
      assert Woven(d, trace, delegate, points[k], points[k + 1]);
      WovenKept(d, w, trace, delegate, points[0].s, points[k], points[j]);
    }
  }

  /** Every weave of the trace of a ticket manager with user tasks and the completion task is a
      run of the protocol. Its issues and its releases are exactly those of the record, in
      order, and so whatever is proved of runs holds: each operation is issued once and
      released once, events count the outstanding operations, and unblocks match blocks. */
  lemma {:induction false} WeavesAreRuns(d: Catalogue, w: World, v: View, q: Queues, pending: nat, trace: seq<Act>,
                                         delegate: bool, points: seq<Point>, j: nat)
    returns (states: seq<P.State>)
    requires TM.Good(d, w, v, q, pending, trace) && IsWeave(d, trace, delegate, points) && j < |points|
    ensures P.IsRun(states, points[j].steps) && states[|points[j].steps|] == points[j].s && points[j].i <= |trace|
    ensures points[j].s.issued == IssuedOps(LogOf(trace[..points[j].i]))
    ensures points[j].s.released + Ids(points[j].s.completions) == SignalledOps(LogOf(trace[..points[j].i]))
    ensures Distinct(points[j].s.issued) && Distinct(points[j].s.released)
    ensures forall t :: 0 <= t < |points[j].s.tasks| ==>
              points[j].s.tasks[t].events == P.InFlight(points[j].s, P.Ctx(t, false))
    ensures forall t :: 0 <= t < |points[j].s.tasks| ==>
              points[j].s.tasks[t].blocks <= points[j].s.tasks[t].unblocks + 1 <= points[j].s.tasks[t].blocks + 2
  {
    WeaveKept(d, w, trace, delegate, points, j);
    var s, steps := points[j].s, points[j].steps;
    states := P.LeadsIsRun(points[0].s, steps, s);
    P.IssuedOnceReleasedOnce(states, steps, |steps|);
    forall t | 0 <= t < |s.tasks|
      ensures s.tasks[t].events == P.InFlight(s, P.Ctx(t, false))
      ensures s.tasks[t].blocks <= s.tasks[t].unblocks + 1 <= s.tasks[t].blocks + 2
    {
      P.EventsAreOutstandingOperations(states, steps, |steps|, t);
      P.BlocksMatchUnblocks(states, steps, |steps|, t);
    }
  }

  // ---------------------------------------------------------------- never stuck

  lemma {:induction false} ArrivedBeforeIssue(d: Catalogue, trace: seq<Act>, i: nat)
    requires Fifo(d, trace) && i < |trace| && trace[i].Did? && trace[i].event.Issued?
    ensures trace[i].event.op in Arrivals(trace[..i])
  {
    var e := trace[i].event;
    var o, r := e.op, RingOf(d, e.op);
    TraceMore(trace[..i], trace[i]);
    assert trace[..i + 1] == trace[..i] + [trace[i]];
    var log', arrivals := LogOf(trace[..i + 1]), Arrivals(trace[..i]);
    IssuedOpsMore(LogOf(trace[..i]), e);
    OfRingIn(d, IssuedOps(log'), o, r);
    assert FifoAt(d, LogOf(trace[..i + 1]), Arrivals(trace[..i + 1]));
    assert OfRing(d, IssuedOps(log'), r) <= OfRing(d, arrivals, r);
    var k :| 0 <= k < |OfRing(d, IssuedOps(log'), r)| && OfRing(d, IssuedOps(log'), r)[k] == o;
    assert OfRing(d, arrivals, r)[k] == o;
    OfRingIn(d, arrivals, o, r);
  }

  lemma {:induction false} CanPop(d: Catalogue, s: P.State, o: nat) returns (pop: P.Step, mid: P.State)
    requires InQueue(d, s, o)
    ensures Pops(d, s, pop, o) && P.Next(s, mid, pop)
  {
    if d(o).collective {
      var i: nat :| i < |s.coll| && s.coll[i].op == OpOf(d, o);
      pop := P.PopColl(i);
      mid := s.(coll := P.Without(s.coll, i), batch := s.batch + [s.coll[i].op], objects := s.objects[s.coll[i].obj := P.Popped]);
    } else {
      var i: nat :| i < |s.p2p| && s.p2p[i] == OpOf(d, o);
      pop := P.PopP2P(i);
      mid := s.(p2p := P.Without(s.p2p, i), batch := s.batch + [s.p2p[i]]);
    }
  }

  lemma {:induction false} CanIssue(d: Catalogue, s: P.State, e: Event, delegate: bool) returns (steps: seq<P.Step>, s': P.State)
    requires e.Issued? && InQueue(d, s, e.op) && s.batch == []
    ensures Acts(d, Did(e), delegate, s, steps, s')
  {
    var pop, mid := CanPop(d, s, e.op);
    PopDoes(d, s, mid, pop, e.op);
    s' := mid.(batch := mid.batch[1..], inMpi := mid.inMpi + [mid.batch[0]], issued := mid.issued + [mid.batch[0].id]);
    P.OneStep(s, pop, mid);
    P.OneStep(mid, P.Issue, s');
    P.LeadsOn(s, [pop], mid, P.Issue, s');
    steps := [pop] + [P.Issue];
  }

  lemma {:induction false} TaskExists(s: P.State, i: nat)
    requires P.Inv(s) && i < |s.inMpi|
    ensures s.inMpi[i].ctx.task < |s.tasks|
  {
    P.TallyHas(s.inMpi, i, P.OfCtx(s.inMpi[i].ctx));
    assert P.StoredOf(s, s.inMpi[i].ctx) > 0;
  }

  lemma {:induction false} CanSignal(d: Catalogue, s: P.State, i: nat, e: Event, delegate: bool)
    returns (steps: seq<P.Step>, s': P.State)
    requires e.Signalled? && e.handed == delegate && i < |s.inMpi| && s.inMpi[i] == OpIn(e.ctx) && s.inMpi[i].ctx.task < |s.tasks|
    requires s.done == [] && (delegate ==> |s.completions| < P.COMPLETION_SIZE)
    ensures Acts(d, Did(e), delegate, s, steps, s')
  {
    var mid := s.(inMpi := P.Without(s.inMpi, i), done := s.done + [s.inMpi[i]]);
    P.OneStep(s, P.Complete(i), mid);
    s' := if delegate then mid.(done := mid.done[1..], completions := mid.completions + [mid.done[0]])
          else P.Released(mid.(done := mid.done[1..]), mid.done[0]);
    P.OneStep(mid, P.Signal(delegate), s');
    P.LeadsOn(s, [P.Complete(i)], mid, P.Signal(delegate), s');
    steps := [P.Complete(i)] + [P.Signal(delegate)];
  }

  lemma {:induction false} CanFree(d: Catalogue, s: P.State, e: Event, delegate: bool) returns (s': P.State)
    requires e.Freed? && s.batch == []
    ensures Acts(d, Did(e), delegate, s, [P.FreeBatch], s')
  {
    s' := s.(objects := map o | o in s.objects && s.objects[o] != P.Popped :: s.objects[o]);
    P.OneStep(s, P.FreeBatch, s');
  }

  /** The polling task is never stuck in a weave: whatever the user tasks and the completion
      task have done, the steps of the next event of the record are enabled, as long as a
      hand-over finds room. */
  lemma {:induction false} NeverStuck(d: Catalogue, w: World, v: View, q: Queues, pending: nat, trace: seq<Act>,
                                      delegate: bool, points: seq<Point>, j: nat)
    returns (steps: seq<P.Step>, s': P.State)
    requires TM.Good(d, w, v, q, pending, trace) && IsWeave(d, trace, delegate, points) && j < |points|
    requires points[j].i < |trace| && trace[points[j].i].Did? && delegate == w.delegate
    requires trace[points[j].i].event.Signalled? && delegate ==> |points[j].s.completions| < P.COMPLETION_SIZE
    ensures Acts(d, trace[points[j].i], delegate, points[j].s, steps, s')
    ensures Woven(d, trace, delegate, points[j], Point(s', points[j].steps + steps, points[j].i + 1))
  {
    var s, i := points[j].s, points[j].i;
    WeaveKept(d, w, trace, delegate, points, j);
    NextAct(d, w, trace, i);
    var e := trace[i].event;
    if e.Issued? {
      ArrivedBeforeIssue(d, trace, i);
      assert InQueue(d, s, e.op);
      steps, s' := CanIssue(d, s, e, delegate);
    } else if e.Signalled? {
      var states := P.LeadsIsRun(points[0].s, points[j].steps, s);
      P.RunInv(states, points[j].steps, |points[j].steps|);
      assert InMpi(d, s, e.ctx.op);
      var k: nat :| k < |s.inMpi| && s.inMpi[k] == OpOf(d, e.ctx.op);
      TaskExists(s, k);
      HandedAsConfigured(d, w, trace, i);
      steps, s' := CanSignal(d, s, k, e, delegate);
    } else if e.Freed? {
      steps := [P.FreeBatch];
      s' := CanFree(d, s, e, delegate);
    } else {
      steps, s' := [], s;
    }
  }

  /** What the manager does is done by the polling task alone: it accepts nothing, moves no
      user task and consumes nothing. */
  lemma {:induction false} OnlyPolling(d: Catalogue, e: Event, delegate: bool, s: P.State, steps: seq<P.Step>, s': P.State)
    requires Acts(d, Did(e), delegate, s, steps, s')
    ensures forall k :: 0 <= k < |steps| ==> IsPolling(steps[k], delegate)
    ensures s'.owners == s.owners && |s'.tasks| == |s.tasks|
    ensures forall t :: 0 <= t < |s.tasks| ==> s'.tasks[t].pc == s.tasks[t].pc
  {
    if |steps| == 2 {
      var mid := TwoSteps(s, steps, s');
      PollingMovesNoTask(s, mid, steps[0], delegate);
      PollingMovesNoTask(mid, s', steps[1], delegate);
    } else if steps != [] {
      P.OneStep(s, P.FreeBatch, s');
      PollingMovesNoTask(s, s', P.FreeBatch, delegate);
    }
  }

  lemma {:induction false} PollingMovesNoTask(s: P.State, s': P.State, step: P.Step, delegate: bool)
    requires P.Next(s, s', step) && IsPolling(step, delegate)
    ensures s'.owners == s.owners && |s'.tasks| == |s.tasks|
    ensures forall t :: 0 <= t < |s.tasks| ==> s'.tasks[t].pc == s.tasks[t].pc
  {
  }

  /** Where a weave is when it has come to the end of the trace, between two polls: the slots
      in use are in MPI's hands, the waiting operations are queued, nothing is in between, and
      every collective object that was popped has been given back. */
  lemma {:induction false} BetweenPolls(d: Catalogue, w: World, v: View, q: Queues, pending: nat, trace: seq<Act>,
                                        delegate: bool, points: seq<Point>, j: nat)
    requires TM.Good(d, w, v, q, pending, trace) && IsWeave(d, trace, delegate, points) && j < |points|
    requires points[j].i == |trace|
    ensures points[j].s.batch == [] && points[j].s.done == [] && !AnyPopped(points[j].s)
    ensures forall k :: 0 <= k < |v.rows| ==> InMpi(d, points[j].s, Op(v.rows[k]))
    ensures forall k :: 0 <= k < |q.waiting| ==> InQueue(d, points[j].s, q.waiting[k])
  {
    var s := points[j].s;
    WeaveKept(d, w, trace, delegate, points, j);
    assert trace[..|trace|] == trace;
    AllFreed(d, w, v);
    forall k | 0 <= k < |v.rows| ensures InMpi(d, s, Op(v.rows[k])) {
      SlotIsOut(d, w, v, k);
    }
    forall k | 0 <= k < |q.waiting| ensures InQueue(d, s, q.waiting[k]) {
      WaitingIsUnissued(d, w, q, trace, k);
    }
  }

  lemma {:induction false} AllFreed(d: Catalogue, w: World, v: View)
    requires Inv(d, w, v) && Settled(v)
    ensures !SomeUnfreed(w.log)
  {
    forall o | Has(w.log, Issuance, o, |w.log|) ensures Has(w.log, Freeing, o, |w.log|) {
      var j :| 0 <= j < |w.log| && About(w.log[j], Issuance, o);
      assert EventOk(d, w, j);
      assert Placed(w, v, o) && Marked(d, w, o) && Flag(w.ops[o], Freeing);
    }
  }

  lemma {:induction false} SlotIsOut(d: Catalogue, w: World, v: View, k: nat)
    requires Inv(d, w, v) && Settled(v) && k < |v.rows|
    ensures Op(v.rows[k]) in IssuedOps(w.log) && Op(v.rows[k]) !in SignalledOps(w.log)
  {
    var o := Op(v.rows[k]);
    assert Live(d, w, v.rows[k]) && Marked(d, w, o) && Flag(w.ops[o], Issuance);
    NewEvent(d, w, Signalling, o);
    HasIsListed(w.log, o);
  }

  lemma {:induction false} WaitingIsUnissued(d: Catalogue, w: World, q: Queues, trace: seq<Act>, k: nat)
    requires LogOk(d, w) && Traced(d, w, q, trace) && Ops(q) !! w.ops.Keys && k < |q.waiting|
    ensures q.waiting[k] in Arrivals(trace) && q.waiting[k] !in IssuedOps(w.log)
  {
    var o := q.waiting[k];
    assert o in Elems(q.waiting) && o in Elems(Arrivals(trace)) && o !in w.ops;
    NewEvent(d, w, Issuance, o);
    HasIsListed(w.log, o);
  }

  // ------------------------------------------------------------------------ an example

  /** One user task, with a point-to-point operation in a queue or in MPI's hands. */
  function Alone(pc: P.Pc, blocks: nat, unblocks: nat, p2p: seq<P.Op>, inMpi: seq<P.Op>,
                 accepted: nat, issued: seq<nat>, released: seq<nat>): P.State {
    P.State([P.Task(pc, 0, blocks, unblocks)], p2p, [], [], inMpi, [], [], map[], seq(accepted, _ => 0), issued, released)
  }

  lemma {:induction false} EnvironmentWoven(d: Catalogue, trace: seq<Act>, a: Point, step: P.Step, s': P.State)
    requires IsEnvironment(step) && P.Next(a.s, s', step)
    ensures Woven(d, trace, false, a, Point(s', a.steps + [step], a.i))
  {
    P.OneStep(a.s, step, s');
  }

  lemma {:induction false} ActWoven(d: Catalogue, trace: seq<Act>, a: Point, steps: seq<P.Step>, s': P.State)
    requires a.i < |trace| && Acts(d, trace[a.i], false, a.s, steps, s')
    ensures Woven(d, trace, false, a, Point(s', a.steps + steps, a.i + 1))
  {
  }

  lemma {:induction false} WeaveOn(d: Catalogue, trace: seq<Act>, points: seq<Point>, b: Point)
    requires IsWeave(d, trace, false, points) && Woven(d, trace, false, points[|points| - 1], b)
    ensures IsWeave(d, trace, false, points + [b])
  {
    var all := points + [b];
    forall j | 0 <= j < |all| - 1 ensures Woven(d, trace, false, all[j], all[j + 1]) {
      if j < |points| - 1 {
        assert all[j] == points[j] && all[j + 1] == points[j + 1];
      }
    }
  }

  /** One call of a blocking task in a weave, from accepting it to its arrival; o is the number
      of operations that the task has made before. */
  lemma {:induction false} CallWoven(d: Catalogue, trace: seq<Act>, points: seq<Point>, o: nat, before: seq<nat>)
    returns (points': seq<Point>)
    requires IsWeave(d, trace, false, points) && OpOf(d, o) == P.Op(o, P.Ctx(0, true)) && !d(o).collective
    requires var a := points[|points| - 1];
             a.s == Alone(P.Running, o, o, [], [], o, before, before) && a.i < |trace| && trace[a.i] == Arrive(o)
    ensures IsWeave(d, trace, false, points') && |points'| > 0
    ensures var b := points'[|points'| - 1];
            b.i == points[|points| - 1].i + 1 && b.s == Alone(P.WillBlock, o, o, [OpOf(d, o)], [], o + 1, before, before)
  {
    var a := points[|points| - 1];
    var op := OpOf(d, o);
    var s1 := Alone(P.Bound(op, false), o, o, [], [], o + 1, before, before);
    assert seq(o, _ => 0) + [0] == seq(o + 1, _ => 0);
    EnvironmentWoven(d, trace, a, P.Bind(0, true, false), s1);
    var p1 := Point(s1, a.steps + [P.Bind(0, true, false)], a.i);
    WeaveOn(d, trace, points, p1);
    var s2 := Alone(P.Allocated(op, false, 0), o, o, [], [], o + 1, before, before);
    EnvironmentWoven(d, trace, p1, P.Alloc(0, 0), s2);
    var p2 := Point(s2, p1.steps + [P.Alloc(0, 0)], a.i);
    WeaveOn(d, trace, points + [p1], p2);
    points' := PushWoven(d, trace, points + [p1] + [p2], o, before);
  }

  lemma {:induction false} PushWoven(d: Catalogue, trace: seq<Act>, points: seq<Point>, o: nat, before: seq<nat>)
    returns (points': seq<Point>)
    requires IsWeave(d, trace, false, points) && OpOf(d, o) == P.Op(o, P.Ctx(0, true)) && !d(o).collective
    requires var a := points[|points| - 1];
             && a.s == Alone(P.Allocated(OpOf(d, o), false, 0), o, o, [], [], o + 1, before, before)
             && a.i < |trace| && trace[a.i] == Arrive(o)
    ensures IsWeave(d, trace, false, points') && |points'| > 0
    ensures var b := points'[|points'| - 1];
            b.i == points[|points| - 1].i + 1 && b.s == Alone(P.WillBlock, o, o, [OpOf(d, o)], [], o + 1, before, before)
  {
    var a := points[|points| - 1];
    var s := Alone(P.WillBlock, o, o, [OpOf(d, o)], [], o + 1, before, before);
    EnvironmentWoven(d, trace, a, P.Push(0), s);
    var p1 := Point(s, a.steps + [P.Push(0)], a.i);
    WeaveOn(d, trace, points, p1);
    PushArrives(d, a.s, s, 0, o, false);
    ActWoven(d, trace, p1, [], s);
    var p2 := Point(s, p1.steps + [], a.i + 1);
    WeaveOn(d, trace, points + [p1], p2);
    points' := points + [p1] + [p2];
  }

  /** The usual life of a blocking task is a weave: its first operation is issued and released
      in a poll, the task blocks, goes on and pushes the next one, which the same poll may
      issue. */
  lemma {:induction false} BlockingTaskPushesAgain(d: Catalogue, trace: seq<Act>) returns (points: seq<Point>)
    requires forall o :: 0 <= o < 2 ==> OpOf(d, o) == P.Op(o, P.Ctx(0, true)) && !d(o).collective
    requires trace == [Arrive(0), Did(Issued(0, Null)), Did(Signalled(TaskContext(0, true, 0), false)), Did(Freed(0)),
                       Arrive(1), Did(Issued(1, Null))]
    ensures IsWeave(d, trace, false, points) && points[|points| - 1].i == |trace|
    ensures points[|points| - 1].s.issued == [0, 1] && points[|points| - 1].s.released == [0]
  {
    var first := Point(Alone(P.Running, 0, 0, [], [], 0, [], []), [], 0);
    points := CallWoven(d, trace, [first], 0, []);
    points := ReleaseWoven(d, trace, points);
    points := CallWoven(d, trace, points, 1, [0]);
    points := IssueWoven(d, trace, points);
  }

  lemma {:induction false} IssueWoven(d: Catalogue, trace: seq<Act>, points: seq<Point>) returns (points': seq<Point>)
    requires IsWeave(d, trace, false, points) && |trace| == 6 && trace[5] == Did(Issued(1, Null)) && !d(1).collective
    requires points[|points| - 1].i == 5
    requires points[|points| - 1].s == Alone(P.WillBlock, 1, 1, [OpOf(d, 1)], [], 2, [0], [0])
    ensures IsWeave(d, trace, false, points') && points'[|points'| - 1].i == 6
    ensures points'[|points'| - 1].s.issued == [0, 1] && points'[|points'| - 1].s.released == [0]
  {
    var a := points[|points| - 1];
    assert a.s.p2p[0] == OpOf(d, 1);
    var steps, s' := IssueActs(d, a.s, trace[5].event);
    ActWoven(d, trace, a, steps, s');
    var b := Point(s', a.steps + steps, 6);
    WeaveOn(d, trace, points, b);
    points' := points + [b];
  }

  lemma {:induction false} IssueActs(d: Catalogue, s: P.State, e: Event) returns (steps: seq<P.Step>, s': P.State)
    requires e.Issued? && InQueue(d, s, e.op) && s.batch == []
    ensures Acts(d, Did(e), false, s, steps, s') && s'.issued == s.issued + [e.op] && s'.released == s.released
  {
    steps, s' := CanIssue(d, s, e, false);
    var mid := TwoSteps(s, steps, s');
    PopDoes(d, s, mid, steps[0], e.op);
    IssueDoes(d, mid, s', e.op);
  }

  /** The poll issues and releases operation 0, and its task blocks and goes on. */
  lemma {:induction false} ReleaseWoven(d: Catalogue, trace: seq<Act>, points: seq<Point>) returns (points': seq<Point>)
    requires IsWeave(d, trace, false, points) && OpOf(d, 0) == P.Op(0, P.Ctx(0, true)) && !d(0).collective
    requires |trace| >= 4 && trace[1] == Did(Issued(0, Null)) && trace[2] == Did(Signalled(TaskContext(0, true, 0), false)) && trace[3] == Did(Freed(0))
    requires points[|points| - 1].i == 1 && points[|points| - 1].s == Alone(P.WillBlock, 0, 0, [OpOf(d, 0)], [], 1, [], [])
    ensures IsWeave(d, trace, false, points') && |points'| > 0
    ensures points'[|points'| - 1].i == 4 && points'[|points'| - 1].s == Alone(P.Running, 1, 1, [], [], 1, [0], [0])
  {
    var a := points[|points| - 1];
    var s1 := Alone(P.WillBlock, 0, 0, [], [OpOf(d, 0)], 1, [0], []);
    IssueLeads(d, a.s, s1);
    var steps1 := [P.PopP2P(0)] + [P.Issue];
    ActWoven(d, trace, a, steps1, s1);
    var p1 := Point(s1, a.steps + steps1, 2);
    WeaveOn(d, trace, points, p1);
    var s2 := Alone(P.WillBlock, 0, 1, [], [], 1, [0], [0]);
    SignalLeads(d, s1, s2);
    var steps2 := [P.Complete(0)] + [P.Signal(false)];
    ActWoven(d, trace, p1, steps2, s2);
    var p2 := Point(s2, p1.steps + steps2, 3);
    WeaveOn(d, trace, points + [p1], p2);
    points' := ResumeWoven(d, trace, points + [p1] + [p2]);
  }

  lemma {:induction false} IssueLeads(d: Catalogue, s: P.State, s': P.State)
    requires s == Alone(P.WillBlock, 0, 0, [OpOf(d, 0)], [], 1, [], []) && s' == Alone(P.WillBlock, 0, 0, [], [OpOf(d, 0)], 1, [0], [])
    ensures P.Leads(s, [P.PopP2P(0)] + [P.Issue], s')
  {
    var mid := Alone(P.WillBlock, 0, 0, [], [], 1, [], []).(batch := [OpOf(d, 0)]);
    P.OneStep(s, P.PopP2P(0), mid);
    P.OneStep(mid, P.Issue, s');
    P.LeadsOn(s, [P.PopP2P(0)], mid, P.Issue, s');
  }

  lemma {:induction false} SignalLeads(d: Catalogue, s: P.State, s': P.State)
    requires OpOf(d, 0) == P.Op(0, P.Ctx(0, true))
    requires s == Alone(P.WillBlock, 0, 0, [], [OpOf(d, 0)], 1, [0], []) && s' == Alone(P.WillBlock, 0, 1, [], [], 1, [0], [0])
    ensures P.Leads(s, [P.Complete(0)] + [P.Signal(false)], s')
  {
    var mid := Alone(P.WillBlock, 0, 0, [], [], 1, [0], []).(done := [OpOf(d, 0)]);
    P.OneStep(s, P.Complete(0), mid);
    P.OneStep(mid, P.Signal(false), s');
    P.LeadsOn(s, [P.Complete(0)], mid, P.Signal(false), s');
  }

  lemma {:induction false} ResumeWoven(d: Catalogue, trace: seq<Act>, points: seq<Point>) returns (points': seq<Point>)
    requires IsWeave(d, trace, false, points) && |trace| >= 4 && trace[3] == Did(Freed(0))
    requires points[|points| - 1].i == 3 && points[|points| - 1].s == Alone(P.WillBlock, 0, 1, [], [], 1, [0], [0])
    ensures IsWeave(d, trace, false, points') && |points'| > 0
    ensures points'[|points'| - 1].i == 4 && points'[|points'| - 1].s == Alone(P.Running, 1, 1, [], [], 1, [0], [0])
  {
    var a := points[|points| - 1];
    var s1 := Alone(P.Blocked, 1, 1, [], [], 1, [0], [0]);
    EnvironmentWoven(d, trace, a, P.Block(0), s1);
    var p1 := Point(s1, a.steps + [P.Block(0)], 3);
    WeaveOn(d, trace, points, p1);
    var s2 := Alone(P.Running, 1, 1, [], [], 1, [0], [0]);
    EnvironmentWoven(d, trace, p1, P.Resume(0), s2);
    var p2 := Point(s2, p1.steps + [P.Resume(0)], 3);
    WeaveOn(d, trace, points + [p1], p2);
    P.OneStep(s2, P.FreeBatch, s2);
    ActWoven(d, trace, p2, [P.FreeBatch], s2);
    var p3 := Point(s2, p2.steps + [P.FreeBatch], 4);
    WeaveOn(d, trace, points + [p1] + [p2], p3);
    points' := points + [p1] + [p2] + [p3];
  }
}
