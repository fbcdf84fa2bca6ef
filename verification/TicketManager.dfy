/**
  The ticket manager (src/common/TicketManager.hpp): operations leave the pre-queues, are
  issued, and their requests are tested until they complete, within the current capacity.
  The lock is held by the caller of `CheckRequests` all along.
 */
module TicketManager {
  import opened Basics
  import opened Mpi
  import opened Internals
  import opened World
  import opened Completion
  import opened PreQueues
  import Testing
  import Transfer
  import Checking
  import CapacityCtrl

  // ------------------------------------------------------------------- the pre-queues

  /** The state between calls, apart from the arrays: what has been recorded is right, the
      operations issued but not released are exactly the pending ones, none of the queued
      ones has been issued, and the trace tells how it came about. */
  ghost predicate Good(d: Catalogue, w: World, v: View, q: Queues, pending: nat, trace: seq<Act>) {
    && Inv(d, w, v) && Settled(v) && pending == |v.rows|
    && Issues(w.log) - Signals(w.log) == pending
    && DistinctOps(q) && Ops(q) !! w.ops.Keys && Traced(d, w, q, trace)
  }

  /** Some queued operations were issued and some operations were released; no operation
      was lost or added. */
  ghost predicate Advanced(w: World, q: Queues, pending: nat, w': World, q': Queues, pending': nat, issued: nat, released: nat) {
    && Ran(w, w', issued, released) && pending' == pending + issued - released && q'.Size() == q.Size() - issued
    && Ops(q) + w.ops.Keys == Ops(q') + w'.ops.Keys && (q.later == [] ==> q'.later == [])
  }

  lemma AdvancedOn(w: World, q: Queues, p: nat, w1: World, q1: Queues, p1: nat, w2: World, q2: Queues, p2: nat,
                   i1: nat, r1: nat, i2: nat, r2: nat)
    requires Advanced(w, q, p, w1, q1, p1, i1, r1) && Advanced(w1, q1, p1, w2, q2, p2, i2, r2)
    ensures Advanced(w, q, p, w2, q2, p2, i1 + i2, r1 + r2)
  {
    RanOn(w, w1, w2, i1, r1, i2, r2);
  }

  /** Of the releases, so many were of operations that had a slot; without immediate testing the
      others are exactly those with the null request. */
  ghost predicate Counted(untested: bool, w: World, w': World, delayed: nat, atOnce: nat) {
    Delayed(w'.log) == Delayed(w.log) + delayed && (untested ==> NullIssues(w'.log) == NullIssues(w.log) + atOnce)
  }

  lemma CountedOn(untested: bool, w: World, w1: World, w2: World, d1: nat, a1: nat, d2: nat, a2: nat)
    requires Counted(untested, w, w1, d1, a1) && Counted(untested, w1, w2, d2, a2)
    ensures Counted(untested, w, w2, d1 + d2, a1 + a2)
  {
  }

  /** Both: so many operations were issued, and so many released at once and later. */
  ghost predicate Progressed(untested: bool, w: World, q: Queues, pending: nat, w': World, q': Queues, pending': nat,
                             issued: nat, atOnce: nat, delayed: nat) {
    Advanced(w, q, pending, w', q', pending', issued, atOnce + delayed) && Counted(untested, w, w', delayed, atOnce)
  }

  lemma ProgressedOn(untested: bool, w: World, q: Queues, p: nat, w1: World, q1: Queues, p1: nat, w2: World, q2: Queues, p2: nat,
                     i1: nat, a1: nat, d1: nat, i2: nat, a2: nat, d2: nat)
    requires Progressed(untested, w, q, p, w1, q1, p1, i1, a1, d1) && Progressed(untested, w1, q1, p1, w2, q2, p2, i2, a2, d2)
    ensures Progressed(untested, w, q, p, w2, q2, p2, i1 + i2, a1 + a2, d1 + d2)
  {
    AdvancedOn(w, q, p, w1, q1, p1, w2, q2, p2, i1, a1 + d1, i2, a2 + d2);
    CountedOn(untested, w, w1, w2, d1, a1, d2, a2);
  }

  lemma TransferAdvances(d: Catalogue, w: World, q: Queues, pending: nat, batch: seq<nat>, w': World, q': Queues, released: nat)
    requires Ops(q) !! w.ops.Keys && Popped(d, q, q', batch) && Ran(w, w', |batch|, released) && released <= |batch|
    requires w'.ops.Keys == w.ops.Keys + Elems(batch)
    ensures Advanced(w, q, pending, w', q', pending + |batch| - released, |batch|, released)
    ensures Ops(q') !! w'.ops.Keys
  {
  }

  lemma ArriveAdvances(d: Catalogue, collective: bool, w: World, q: Queues, pending: nat, q': Queues)
    requires Arrived(d, collective, q, q')
    ensures Advanced(w, q, pending, w, q', pending, 0, 0)
  {
  }

  /** A check of the requests that completes so many. */
  lemma CheckAdvances(d: Catalogue, w: World, v: View, q: Queues, pending: nat, trace: seq<Act>, w': World, v': View, pending': nat, completed: nat)
    returns (trace': seq<Act>)
    requires Good(d, w, v, q, pending, trace) && Inv(d, w', v') && Settled(v') && pending' == |v'.rows| == pending - completed
    requires Ran(w, w', 0, completed) && w'.ops.Keys == w.ops.Keys
    ensures Good(d, w', v', q, pending', trace') && trace <= trace'
    ensures Advanced(w, q, pending, w', q, pending', 0, completed) && Counted(true, w, w', completed, 0)
  {
    NoIssues(w, w', completed);
    ReleasedLater(d, w, v, w');
    NothingPopped(d, q);
    assert IssuedOps(w.log) + [] == IssuedOps(w.log);
    assert Elems<nat>([]) == {};
    TransferTraced(d, w, q, trace, [], w', q);
    trace' := trace + Dids(w'.log[|w.log|..]);
  }

  lemma NothingPopped(d: Catalogue, q: Queues)
    requires DistinctOps(q)
    ensures Popped(d, q, q, [])
  {
    assert Elems<nat>([]) == {};
    forall r ensures OfRing(d, q.waiting, r) == OfRing(d, [], r) + OfRing(d, q.waiting, r) {
      assert OfRing(d, [], r) == [];
    }
  }

  lemma PoppedUnissued(d: Catalogue, w: World, q: Queues, q': Queues, batch: seq<nat>)
    requires Ops(q) !! w.ops.Keys && Popped(d, q, q', batch)
    ensures forall e :: 0 <= e < |batch| ==> batch[e] !in w.ops
  {
    forall e | 0 <= e < |batch| ensures batch[e] !in w.ops {
      assert batch[e] in Elems(batch);
    }
  }

  /** How operations are transferred. */
  datatype Config = Config(d: Catalogue, immediateTesting: Testing.Approach, delegate: bool)

  /** `limit` is the capacity of the moment: what `transferOperations` asserts about it is
      the precondition here. */
  method TransferBatch(c: Config, arrays: Arrays, w: World, q: Queues, pending: nat, batch: seq<nat>, q': Queues,
                       ghost limit: nat, ghost v: View, ghost trace: seq<Act>)
    returns (w': World, pending': nat, ghost v': View, ghost trace': seq<Act>, ghost released: nat)
    requires arrays.Shape() && arrays.Holds(v.rows) && Good(c.d, w, v, q, pending, trace)
    requires 0 < |batch| <= BATCH && pending + |batch| <= limit <= CAPACITY && Popped(c.d, q, q', batch) && c.delegate == w.delegate
    modifies arrays.requests, arrays.mappings, arrays.tickets
    ensures arrays.Holds(v'.rows) && Good(c.d, w', v', q', pending', trace') && trace <= trace'
    ensures released <= |batch| && Advanced(w, q, pending, w', q', pending', |batch|, released)
    ensures IssuedOps(w'.log) == IssuedOps(w.log) + batch && Counted(c.immediateTesting.None?, w, w', 0, released)
  {
    PoppedUnissued(c.d, w, q, q', batch);
    ghost var tested;
    w', pending', v', released, tested :=
      Transfer.TransferOperations(c.d, c.immediateTesting, c.delegate, arrays, w, pending, batch, v);
    TransferAdvances(c.d, w, q, pending, batch, w', q', released);
    TransferTraced(c.d, w, q, trace, batch, w', q');
    trace' := trace + Dids(w'.log[|w.log|..]);
  }

  ghost predicate OfKind(d: Catalogue, ops: seq<nat>, collective: bool) {
    forall e :: 0 <= e < |ops| ==> d(ops[e]).collective == collective
  }

  /** Pops at most n operations of one kind, with what arrives meanwhile, and transfers them. */
  method TransferKind(c: Config, collective: bool, arrays: Arrays, w: World, q: Queues, pending: nat, n: nat,
                      ghost limit: nat, ghost v: View, ghost trace: seq<Act>)
    returns (count: nat, w': World, q': Queues, pending': nat, ghost v': View, ghost trace': seq<Act>, ghost released: nat,
             ghost ops: seq<nat>)
    requires arrays.Shape() && arrays.Holds(v.rows) && Good(c.d, w, v, q, pending, trace)
    requires pending + n <= limit <= CAPACITY && c.delegate == w.delegate
    modifies arrays.requests, arrays.mappings, arrays.tickets
    ensures arrays.Holds(v'.rows) && Good(c.d, w', v', q', pending', trace') && trace <= trace'
    ensures count <= n && released <= count && Advanced(w, q, pending, w', q', pending', count, released)
    ensures IssuedOps(w'.log) == IssuedOps(w.log) + ops && Counted(c.immediateTesting.None?, w, w', 0, released)
    ensures |ops| == count <= BATCH && OfKind(c.d, ops, collective)
    ensures count < Min(n, BATCH) ==> Empty(c.d, collective, q')
    ensures Empty(c.d, !collective, q) ==> Empty(c.d, !collective, q')
  {
    var q1;
    q1, trace' := ArriveSome(c.d, collective, q, w, trace);
    ArriveAdvances(c.d, collective, w, q, pending, q1);
    var batch, q2 := Pop(c.d, collective, q1, Min(n, BATCH));
    count := |batch|;
    ops := batch;
    if count == 0 {
      return 0, w, q1, pending, v, trace', 0, [];
    }
    w', pending', v', trace', released := TransferBatch(c, arrays, w, q1, pending, batch, q2, limit, v, trace');
    q' := q2;
    AdvancedOn(w, q, pending, w, q1, pending, w', q', pending', 0, 0, count, released);
  }

  /** One round over both queues: a batch of point-to-point operations, then one of collectives. */
  method TransferBoth(c: Config, arrays: Arrays, w: World, q: Queues, pending: nat, n: nat,
                      ghost limit: nat, ghost v: View, ghost trace: seq<Act>)
    returns (np2p: nat, ncoll: nat, w': World, q': Queues, pending': nat, ghost v': View, ghost trace': seq<Act>, ghost released: nat,
             ghost p2p: seq<nat>, ghost coll: seq<nat>)
    requires arrays.Shape() && arrays.Holds(v.rows) && Good(c.d, w, v, q, pending, trace)
    requires pending + n <= limit <= CAPACITY && c.delegate == w.delegate
    modifies arrays.requests, arrays.mappings, arrays.tickets
    ensures arrays.Holds(v'.rows) && Good(c.d, w', v', q', pending', trace') && trace <= trace'
    ensures np2p + ncoll <= n && released <= np2p + ncoll && Advanced(w, q, pending, w', q', pending', np2p + ncoll, released)
    ensures IssuedOps(w'.log) == IssuedOps(w.log) + p2p + coll && Counted(c.immediateTesting.None?, w, w', 0, released)
    ensures |p2p| == np2p <= BATCH && |coll| == ncoll <= BATCH && OfKind(c.d, p2p, false) && OfKind(c.d, coll, true)
    ensures np2p + ncoll == 0 && n > 0 ==> Empty(c.d, false, q') && Empty(c.d, true, q')
  {
    ghost var r1, r2;
    np2p, w', q', pending', v', trace', r1, p2p := TransferKind(c, false, arrays, w, q, pending, n, limit, v, trace);
    ghost var w1, q1, p1 := w', q', pending';
    ncoll, w', q', pending', v', trace', r2, coll :=
      TransferKind(c, true, arrays, w', q', pending', n - np2p, limit, v', trace');
    AdvancedOn(w, q, pending, w1, q1, p1, w', q', pending', np2p, r1, ncoll, r2);
    CountedOn(c.immediateTesting.None?, w, w1, w', 0, r1, 0, r2);
    released := r1 + r2;
  }

  /** `internalCheckOperationQueues`: `navailable` is fixed once, and still no transfer ever
      exceeds the current capacity, `limit`. It ends with nothing more allowed or with both
      queues found empty. */
  method CheckOperationQueues(c: Config, arrays: Arrays, w: World, q: Queues, pending: nat, navailable: nat,
                              ghost limit: nat, ghost v: View, ghost trace: seq<Act>)
    returns (ntotal: nat, w': World, q': Queues, pending': nat, ghost v': View, ghost trace': seq<Act>, ghost released: nat)
    requires arrays.Shape() && arrays.Holds(v.rows) && Good(c.d, w, v, q, pending, trace)
    requires pending + navailable <= limit <= CAPACITY && c.delegate == w.delegate
    modifies arrays.requests, arrays.mappings, arrays.tickets
    ensures arrays.Holds(v'.rows) && Good(c.d, w', v', q', pending', trace') && trace <= trace'
    ensures ntotal <= navailable && released <= ntotal && Advanced(w, q, pending, w', q', pending', ntotal, released)
    ensures Counted(c.immediateTesting.None?, w, w', 0, released)
    ensures ntotal == navailable || (Empty(c.d, false, q') && Empty(c.d, true, q'))
  {
    ntotal, w', q', pending', v', trace', released := 0, w, q, pending, v, trace, 0;
    while true
      invariant arrays.Holds(v'.rows) && Good(c.d, w', v', q', pending', trace') && trace <= trace'
      invariant ntotal <= navailable && released <= ntotal && Advanced(w, q, pending, w', q', pending', ntotal, released)
      invariant Counted(c.immediateTesting.None?, w, w', 0, released)
      decreases navailable - ntotal
    {
      var np2p, ncoll;
      ghost var w1, q1, p1, r, p2p, coll := w', q', pending', 0, [], [];
      np2p, ncoll, w', q', pending', v', trace', r, p2p, coll :=
        TransferBoth(c, arrays, w', q', pending', navailable - ntotal, limit, v', trace');
      AdvancedOn(w, q, pending, w1, q1, p1, w', q', pending', ntotal, released, np2p + ncoll, r);
      CountedOn(c.immediateTesting.None?, w, w1, w', 0, released, 0, r);
      ntotal, released := ntotal + (np2p + ncoll), released + r;
      if !(ntotal < navailable && (np2p > 0 || ncoll > 0)) {
        break;
      }
    }
  }

  /** MPI has finished these requests by now. */
  function Finishing(w: World, finished: set<nat>): World {
    w.(mpi := w.mpi.(finished := finished))
  }

  lemma FinishingKeeps(d: Catalogue, w: World, v: View, finished: set<nat>)
    requires Inv(d, w, v)
    ensures Inv(d, Finishing(w, finished), v)
  {
    ReportKeeps(d, w, v, w.mpi.(finished := finished));
  }

  lemma NothingWaits(d: Catalogue, q: Queues)
    ensures Empty(d, false, q) && Empty(d, true, q) ==> q.waiting == []
  {
    if q.waiting != [] {
      assert !Empty(d, d(q.waiting[0]).collective, q);
    }
  }

  /** If nothing completes and nothing more is pushed, a poll does what CapacityCtrl.Polled
      says: it fills the free room from the pre-queues. */
  lemma PollFillsRoom(d: Catalogue, c: CapacityCtrl.Ctrl, w: World, q: Queues, pending: nat,
                      w': World, q': Queues, pending': nat, popped: nat, now: real)
    requires CapacityCtrl.Ok(c) && pending <= c.capacity && pending' <= c.capacity
    requires Advanced(w, q, pending, w', q', pending', popped, 0) && q.later == []
    requires pending' == c.capacity || (Empty(d, false, q') && Empty(d, true, q'))
    ensures CapacityCtrl.Load(CapacityCtrl.Evaluated(c, CapacityCtrl.Sample(pending', 0, now)), pending', q'.Size())
            == CapacityCtrl.Polled(CapacityCtrl.Load(c, pending, q.Size()), now)
  {
    NothingWaits(d, q');
  }

  /** Where a run of polls started. */
  datatype Start = Start(world: World, queues: Queues, pending: nat, load: CapacityCtrl.Load)

  /** The polls at the times `past` have advanced the start by so many issues and releases;
      if nothing was released and nothing more pushed, they did what PolledAll computes. */
  ghost predicate RunFrom(start: Start, past: seq<real>, w: World, q: Queues, pending: nat, load: CapacityCtrl.Load,
                          popped: nat, released: nat) {
    && Advanced(Finishing(start.world, w.mpi.finished), start.queues, start.pending, w, q, pending, popped, released)
    && (CapacityCtrl.LoadOk(start.load) && start.queues.later == [] && released == 0 ==>
          load == CapacityCtrl.PolledAll(start.load, past))
  }

  lemma RunStarts(start: Start)
    ensures RunFrom(start, [], start.world, start.queues, start.pending, start.load, 0, 0)
  {
    assert Finishing(start.world, start.world.mpi.finished) == start.world;
  }

  /** One more poll of a run. */
  lemma PollsOn(d: Catalogue, start: Start, past: seq<real>, past': seq<real>, w: World, q: Queues, p: nat, c: CapacityCtrl.Ctrl,
                w': World, q': Queues, p': nat, load': CapacityCtrl.Load, i: nat, r: nat, i': nat, r': nat, n: nat, now: real)
    requires CapacityCtrl.Ok(c) && p <= c.capacity && p' <= c.capacity && n <= r' && CapacityCtrl.LoadOk(start.load)
    requires past' == past + [now]
    requires load' == CapacityCtrl.Load(CapacityCtrl.Evaluated(c, CapacityCtrl.Sample(p', n, now)), p', q'.Size())
    requires RunFrom(start, past, w, q, p, CapacityCtrl.Load(c, p, q.Size()), i, r)
    requires Advanced(Finishing(w, w'.mpi.finished), q, p, w', q', p', i', r')
    requires p' == c.capacity || (Empty(d, false, q') && Empty(d, true, q'))
    ensures RunFrom(start, past', w', q', p', load', i + i', r + r')
  {
    var f := w'.mpi.finished;
    AdvancedOn(Finishing(start.world, f), start.queues, start.pending, Finishing(w, f), q, p, w', q', p', i, r, i', r');
    if start.queues.later == [] && r + r' == 0 {
      PollFillsRoom(d, c, Finishing(w, f), q, p, w', q', p', i', now);
      CapacityCtrl.PolledMore(start.load, past, now);
    }
  }

  // ----------------------------------------------------------------------- the class

  class Manager {
    const descr: Catalogue
    const generalTesting: Testing.Approach
    const immediateTesting: Testing.Approach
    const delegate: bool
    const arrays: Arrays
    const ctrl: CapacityCtrl.Controller
    var pending: nat
    var world: World
    var queues: Queues
    ghost var view: View
    ghost var trace: seq<Act>

    /** The slots [0, pending) hold the pending operations, never more than the capacity. */
    ghost predicate Valid()
      reads this, ctrl, arrays.requests, arrays.mappings, arrays.tickets
    {
      && arrays.Shape() && arrays.Holds(view.rows) && Good(descr, world, view, queues, pending, trace)
      && pending <= ctrl.capacity && CapacityCtrl.Ok(ctrl.State()) && !generalTesting.None? && world.delegate == delegate
    }

    constructor (descr: Catalogue, generalTesting: Testing.Approach, immediateTesting: Testing.Approach,
                 delegate: bool, c: CapacityCtrl.Ctrl, later: seq<nat>)
      requires CapacityCtrl.Ok(c) && Distinct(later) && !generalTesting.None?
      ensures Valid() && pending == 0 && world.log == [] && world.ops == map[] && queues == Queues([], later) && trace == []
      ensures ctrl.State() == c
      ensures this.descr == descr && this.delegate == delegate && this.immediateTesting == immediateTesting && fresh(arrays) && fresh(ctrl) && fresh(arrays.requests) && fresh(arrays.statuses)
      ensures fresh(arrays.mappings) && fresh(arrays.tickets) && fresh(arrays.indices)
    {
      this.descr, this.generalTesting, this.immediateTesting, this.delegate := descr, generalTesting, immediateTesting, delegate;
      arrays := new Arrays();
      ctrl := new CapacityCtrl.Controller(c);
      pending, queues, trace := 0, Queues([], later), [];
      world := World(State(0, map[], {}), [], map[], delegate);
      view := View([], {}, {}, {});
    }

    /** `addOperation`: the operation goes to the pre-queue of its kind, behind the others of
        its ring. */
    method AddOperation(o: nat)
      requires Valid() && o !in Ops(queues) && o !in world.ops
      modifies this`queues, this`trace
      ensures Valid() && queues == old(queues).(waiting := old(queues).waiting + [o]) && trace == old(trace) + [Arrive(o)]
    {
      ArriveTraced(descr, world, queues.waiting, queues.later, queues.later, trace, o);
      OneMore(queues.waiting, o);
      queues := queues.(waiting := queues.waiting + [o]);
      trace := trace + [Arrive(o)];
    }

    /** Transfers at most max operations, within the capacity. */
    method InternalCheckOperationQueues(max: nat) returns (ntotal: nat, ghost released: nat)
      requires Valid()
      modifies this, arrays.requests, arrays.mappings, arrays.tickets
      ensures Valid() && released <= ntotal <= Min(ctrl.capacity - old(pending), max) && old(trace) <= trace
      ensures Progressed(immediateTesting.None?, old(world), old(queues), old(pending), world, queues, pending, ntotal, released, 0)
      ensures ntotal == Min(ctrl.capacity - old(pending), max) || (Empty(descr, false, queues) && Empty(descr, true, queues))
    {
      var navailable := Min(ctrl.capacity - pending, max);
      ntotal, world, queues, pending, view, trace, released :=
        CheckOperationQueues(Config(descr, immediateTesting, delegate), arrays, world, queues, pending, navailable,
                             ctrl.capacity, view, trace);
    }

    method InternalCheckRequests() returns (completed: nat)
      requires Valid() && pending > 0
      modifies this, arrays.requests, arrays.indices, arrays.statuses, arrays.mappings, arrays.tickets
      ensures Valid() && queues == old(queues) && old(trace) <= trace
      ensures Progressed(immediateTesting.None?, old(world), old(queues), old(pending), world, queues, pending, 0, 0, completed)
      ensures completed == 0 ==> Unfinished(world, view.rows, 0, pending)
    {
      ghost var w, p, v := world, pending, view;
      world, pending, completed, view :=
        Checking.CheckRequests(generalTesting, delegate, arrays, pending, descr, world, view);
      trace := CheckAdvances(descr, w, v, queues, p, trace, world, view, pending, completed);
    }

    /** The first half of an iteration: the sweep, if there is room. */
    method SweepIfRoom() returns (inserted: nat, ghost atOnce: nat)
      requires Valid()
      modifies this, arrays.requests, arrays.mappings, arrays.tickets
      ensures Valid() && old(trace) <= trace && atOnce <= inserted <= Min(ctrl.capacity - old(pending), 128)
      ensures Progressed(immediateTesting.None?, old(world), old(queues), old(pending), world, queues, pending, inserted, atOnce, 0)
      ensures inserted == Min(ctrl.capacity - old(pending), 128) || (Empty(descr, false, queues) && Empty(descr, true, queues))
    {
      inserted, atOnce := 0, 0;
      if pending < ctrl.capacity {
        inserted, atOnce := InternalCheckOperationQueues(2 * BATCH);
      }
    }

    /** The second half: the check, if something is pending. */
    method CheckIfPending() returns (completed: nat)
      requires Valid()
      modifies this, arrays.requests, arrays.indices, arrays.statuses, arrays.mappings, arrays.tickets
      ensures Valid() && queues == old(queues) && old(trace) <= trace
      ensures Progressed(immediateTesting.None?, old(world), old(queues), old(pending), world, queues, pending, 0, 0, completed)
      ensures completed == 0 ==> Unfinished(world, view.rows, 0, pending)
    {
      completed := 0;
      if pending > 0 {
        completed := InternalCheckRequests();
      }
    }

    /** One iteration of the loop of `checkRequests`. */
    method Round() returns (inserted: nat, completed: nat, ghost atOnce: nat)
      requires Valid()
      modifies this, arrays.requests, arrays.indices, arrays.statuses, arrays.mappings, arrays.tickets
      ensures Valid() && old(trace) <= trace && atOnce <= inserted <= Min(ctrl.capacity - old(pending), 128)
      ensures Progressed(immediateTesting.None?, old(world), old(queues), old(pending), world, queues, pending, inserted, atOnce, completed)
      ensures inserted == Min(ctrl.capacity - old(pending), 128) || (Empty(descr, false, queues) && Empty(descr, true, queues))
      ensures completed == 0 ==> Unfinished(world, view.rows, 0, pending)
    {
      ghost var w, q, p := world, queues, pending;
      inserted, atOnce := SweepIfRoom();
      ghost var w1, q1, p1 := world, queues, pending;
      completed := CheckIfPending();
      ProgressedOn(immediateTesting.None?, w, q, p, w1, q1, p1, world, queues, pending, inserted, atOnce, 0, 0, 0, completed);
    }

    /** One more iteration of a poll that began with w, q and p. */
    method RoundOn(totalCompleted: nat, ghost w: World, ghost q: Queues, ghost p: nat, ghost popped: nat, ghost immediate: nat)
      returns (again: bool, totalCompleted': nat, ghost popped': nat, ghost immediate': nat)
      requires Valid() && (ctrl.capacity == 0 ==> popped == 0)
      requires Progressed(immediateTesting.None?, w, q, p, world, queues, pending, popped, immediate, totalCompleted)
      modifies this, arrays.requests, arrays.indices, arrays.statuses, arrays.mappings, arrays.tickets
      ensures Valid() && old(trace) <= trace && (ctrl.capacity == 0 ==> popped' == 0)
      ensures Progressed(immediateTesting.None?, w, q, p, world, queues, pending, popped', immediate', totalCompleted')
      ensures again ==> queues.Size() < old(queues).Size() || (queues.Size() == old(queues).Size() && pending < old(pending))
      ensures !again ==> Unfinished(world, view.rows, 0, pending)
      ensures !again ==> pending == ctrl.capacity || (Empty(descr, false, queues) && Empty(descr, true, queues))
    {
      ghost var w0, q0, p0 := world, queues, pending;
      var inserted, completed;
      ghost var atOnce;
      inserted, completed, atOnce := Round();
      ProgressedOn(immediateTesting.None?, w, q, p, w0, q0, p0, world, queues, pending,
                   popped, immediate, totalCompleted, inserted, atOnce, completed);
      totalCompleted', popped', immediate' := totalCompleted + completed, popped + inserted, immediate + atOnce;
      again := completed > 0 || inserted > 0;
    }

    /** The loop of `checkRequests`. */
    method Rounds() returns (totalCompleted: nat, ghost popped: nat, ghost immediate: nat)
      requires Valid()
      modifies this, arrays.requests, arrays.indices, arrays.statuses, arrays.mappings, arrays.tickets
      ensures Valid() && old(trace) <= trace && Unfinished(world, view.rows, 0, pending)
      ensures Progressed(immediateTesting.None?, old(world), old(queues), old(pending), world, queues, pending,
                         popped, immediate, totalCompleted)
      ensures ctrl.capacity == 0 ==> popped == 0
      ensures pending == ctrl.capacity || (Empty(descr, false, queues) && Empty(descr, true, queues))
    {
      ghost var w, q, p := world, queues, pending;
      totalCompleted, popped, immediate := 0, 0, 0;
      while true
        invariant Valid() && old(trace) <= trace && (ctrl.capacity == 0 ==> popped == 0)
        invariant Progressed(immediateTesting.None?, w, q, p, world, queues, pending, popped, immediate, totalCompleted)
        decreases queues.Size(), pending
      {
        var again;
        again, totalCompleted, popped, immediate := RoundOn(totalCompleted, w, q, p, popped, immediate);
        if !again {
          break;
        }
      }
    }

    /** One poll, at a time when MPI has finished the requests in `finished`. It terminates,
        with the requests at capacity or both pre-queues found empty, and none of the finished
        requests is left; then the capacity is evaluated. What was popped is pending, was
        released at once or is counted in the result: the result is the number of operations
        released that had got a slot before. */
    method CheckRequests(now: real, finished: set<nat>) returns (totalCompleted: nat, ghost popped: nat, ghost immediate: nat)
      requires Valid()
      modifies this, ctrl, arrays.requests, arrays.indices, arrays.statuses, arrays.mappings, arrays.tickets
      ensures Valid() && old(trace) <= trace
      ensures Advanced(Finishing(old(world), finished), old(queues), old(pending), world, queues, pending,
                       popped, immediate + totalCompleted)
      ensures totalCompleted == Delayed(world.log) - Delayed(old(world.log))
      ensures immediate == AtOnce(world.log) - AtOnce(old(world.log))
      ensures immediateTesting.None? ==> immediate == NullIssues(world.log) - NullIssues(old(world.log))
      ensures world.mpi.finished == finished && Unfinished(world, view.rows, 0, pending)
      ensures pending <= old(ctrl.capacity) && (old(ctrl.capacity) == 0 ==> popped == 0)
      ensures pending == old(ctrl.capacity) || (Empty(descr, false, queues) && Empty(descr, true, queues))
      ensures ctrl.State() == CapacityCtrl.Evaluated(old(ctrl.State()), CapacityCtrl.Sample(pending, totalCompleted, now))
    {
      FinishingKeeps(descr, world, view, finished);
      world := Finishing(world, finished);
      totalCompleted, popped, immediate := Rounds();
      ReleasesSplit(old(world.log));
      ReleasesSplit(world.log);
      ctrl.Evaluate(pending, totalCompleted, now);
    }

    /** What the capacity controller's run theorems speak about. */
    ghost function Load(): CapacityCtrl.Load
      reads this, ctrl
    {
      CapacityCtrl.Load(ctrl.State(), pending, queues.Size())
    }

    /** One poll of a run. */
    method PollOnce(now: real, finished: set<nat>, completed: nat,
                    ghost start: Start, ghost past: seq<real>, ghost past': seq<real>, ghost popped: nat, ghost released: nat)
      returns (completed': nat, ghost popped': nat, ghost released': nat)
      requires Valid() && CapacityCtrl.LoadOk(start.load) && past' == past + [now]
      requires RunFrom(start, past, world, queues, pending, Load(), popped, released)
      requires completed <= released && Delayed(world.log) == Delayed(start.world.log) + completed
      modifies this, ctrl, arrays.requests, arrays.indices, arrays.statuses, arrays.mappings, arrays.tickets
      ensures Valid() && completed' <= released' && Delayed(world.log) == Delayed(start.world.log) + completed'
      ensures RunFrom(start, past', world, queues, pending, Load(), popped', released')
    {
      ghost var w, q, p, c := world, queues, pending, ctrl.State();
      var n;
      ghost var pop, atOnce;
      n, pop, atOnce := CheckRequests(now, finished);
      completed', popped', released' := completed + n, popped + pop, released + (atOnce + n);
      PollsOn(descr, start, past, past', w, q, p, c, world, queues, pending, Load(), popped, released, pop, atOnce + n, n, now);
    }

    /** A run of polls at the given times. As long as nothing completes and nothing more is
        pushed, the run is the one that CapacityCtrl.PolledAll computes. */
    method PollAll(clock: seq<real>, finished: seq<set<nat>>) returns (completed: nat, ghost popped: nat, ghost released: nat)
      requires Valid() && |finished| == |clock|
      modifies this, ctrl, arrays.requests, arrays.indices, arrays.statuses, arrays.mappings, arrays.tickets
      ensures Valid() && CapacityCtrl.LoadOk(old(Load())) && completed <= released
      ensures Delayed(world.log) == Delayed(old(world.log)) + completed
      ensures RunFrom(Start(old(world), old(queues), old(pending), old(Load())), clock,
                      world, queues, pending, Load(), popped, released)
    {
      completed, popped, released := 0, 0, 0;
      ghost var start := Start(world, queues, pending, Load());
      RunStarts(start);
      assert clock[..0] == [] && clock[..|clock|] == clock;
      for i := 0 to |clock|
        invariant Valid() && completed <= released && Delayed(world.log) == Delayed(start.world.log) + completed
        invariant RunFrom(start, clock[..i], world, queues, pending, Load(), popped, released)
      {
        assert clock[..i + 1] == clock[..i] + [clock[i]];
        completed, popped, released :=
          PollOnce(clock[i], finished[i], completed, start, clock[..i], clock[..i + 1], popped, released);
      }
    }

    /** Polling issues everything or fills the maximum: with a positive capacity, two lapses of
        the timeout for each doubling are enough, if nothing completes meanwhile. */
    method PollUntilIssued(clock: seq<real>, finished: seq<set<nat>>, ghost g: nat, ghost last: real)
      returns (completed: nat, ghost released: nat)
      requires Valid() && |finished| == |clock| && queues.later == []
      requires ctrl.capacity >= 1 && CapacityCtrl.Doubled(ctrl.capacity, g) >= ctrl.max
      requires CapacityCtrl.Monotone(clock, last) && (ctrl.saturation && clock != [] ==> ctrl.saturationBegin <= clock[0])
      requires CapacityCtrl.Lapses(clock, last, ctrl.timeout) >= 2 * g + 1
      modifies this, ctrl, arrays.requests, arrays.indices, arrays.statuses, arrays.mappings, arrays.tickets
      ensures Valid() && completed <= released
      ensures released == 0 ==> queues == Queues([], []) || pending == ctrl.capacity == ctrl.max
    {
      CapacityCtrl.IssuedOrAtMaximum(Load(), clock, g, last);
      ghost var popped;
      completed, popped, released := PollAll(clock, finished);
    }
  }

  /** The input on which the interface's promise of a status fails: an operation that wants
      one and that MPI answers with the null request is released without it. */
  method NullRequestLosesStatus(o: nat, task: nat, blocking: bool, address: nat, approach: Testing.Approach, delegate: bool, now: real)
    returns (m: Manager)
    requires !approach.None?
    ensures m.Valid() && m.queues == Queues([], []) && o in m.world.ops && m.descr(o).status == Location(address)
    ensures Has(m.world.log, Signalling, o, |m.world.log|) && !Has(m.world.log, Storage, o, |m.world.log|)
  {
    var d: Catalogue := _ => Operation(task, blocking, false, 0, Location(address), true);
    m := new Manager(d, approach, approach, delegate, CapacityCtrl.Ctrl(128, CAPACITY, 128, 10, false, 0.0), []);
    m.AddOperation(o);
    PollOneNull(m, o, now);
  }

  method PollOneNull(m: Manager, o: nat, now: real)
    requires m.Valid() && m.world.ops == map[] && m.queues == Queues([o], []) && m.pending == 0 && m.ctrl.capacity == 128
    requires m.descr(o).nullRequest && m.descr(o).status.Location? && !m.descr(o).collective
    modifies m, m.ctrl, m.arrays.requests, m.arrays.indices, m.arrays.statuses, m.arrays.mappings, m.arrays.tickets
    ensures m.Valid() && m.queues == Queues([], []) && o in m.world.ops
    ensures Has(m.world.log, Signalling, o, |m.world.log|) && !Has(m.world.log, Storage, o, |m.world.log|)
  {
    ghost var w0, q0 := Finishing(m.world, {}), m.queues;
    var n;
    ghost var popped, immediate;
    n, popped, immediate := m.CheckRequests(now, {});
    OneNull(m.descr, w0, q0, m.world, m.view, m.queues, m.pending, popped, immediate + n, o);
  }

  lemma OneNull(d: Catalogue, w0: World, q0: Queues, w: World, v: View, q: Queues, pending: nat, popped: nat, released: nat, o: nat)
    requires w0.ops == map[] && q0 == Queues([o], []) && Advanced(w0, q0, 0, w, q, pending, popped, released)
    requires Inv(d, w, v) && Settled(v) && d(o).nullRequest && d(o).status.Location? && !d(o).collective
    requires pending == 128 || (Empty(d, false, q) && Empty(d, true, q))
    ensures q == Queues([], []) && o in w.ops
    ensures Has(w.log, Signalling, o, |w.log|) && !Has(w.log, Storage, o, |w.log|)
  {
    NothingWaits(d, q);
    assert o in Elems(q0.waiting);
    assert Ops(q) == {};
    NullIsReleased(d, w, v, o);
    StatusIffRequested(d, w, v, o);
  }
}
