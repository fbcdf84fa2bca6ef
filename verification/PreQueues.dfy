/**
  The pre-queues as the ticket manager sees them, and the trace that weaves the arrival of
  operations with the manager's own record. Point-to-point operations wait in the ring of the
  CPU that pushed them, collective ones in a queue of their own
  (src/common/TicketManager.hpp, `addOperation` and the pops).
 */
module PreQueues {
  import opened Basics
  import opened World

  /** `waiting` are the operations in the pre-queues, in the order of their arrival; `later`
      are those that user tasks will push while the polling task runs, in any order. */
  datatype Queues = Queues(waiting: seq<nat>, later: seq<nat>) {
    function Size(): nat { |waiting| + |later| }
  }

  ghost function Ops(q: Queues): set<nat> {
    Elems(q.waiting) + Elems(q.later)
  }

  ghost predicate DistinctOps(q: Queues) {
    Distinct(q.waiting) && Distinct(q.later) && Elems(q.waiting) !! Elems(q.later)
  }

  datatype Ring = Collectives | Cpu(cpu: nat)

  function RingOf(d: Catalogue, o: nat): Ring {
    if d(o).collective then Collectives else Cpu(d(o).cpu)
  }

  /** The pre-queue of this kind is empty. */
  predicate Empty(d: Catalogue, collective: bool, q: Queues) {
    forall k :: 0 <= k < |q.waiting| ==> d(q.waiting[k]).collective != collective
  }

  /** The operations of one ring, in order. */
  function OfRing(d: Catalogue, s: seq<nat>, r: Ring): seq<nat> {
    if s == [] then []
    else OfRing(d, s[..|s| - 1], r) + if RingOf(d, s[|s| - 1]) == r then [s[|s| - 1]] else []
  }

  lemma {:induction false} OfRingMore(d: Catalogue, s: seq<nat>, x: nat, r: Ring)
    ensures OfRing(d, s + [x], r) == OfRing(d, s, r) + if RingOf(d, x) == r then [x] else []
  {
    assert (s + [x])[..|s|] == s;
  }

  lemma {:induction false} OfRingConcat(d: Catalogue, a: seq<nat>, b: seq<nat>, r: Ring)
    ensures OfRing(d, a + b, r) == OfRing(d, a, r) + OfRing(d, b, r)
  {
    if b == [] {
      assert a + b == a;
    } else {
      var n := |b| - 1;
      OfRingConcat(d, a, b[..n], r);
      assert a + b == (a + b[..n]) + [b[n]];
      OfRingMore(d, a + b[..n], b[n], r);
    }
  }

  lemma {:induction false} OfRingGrows(d: Catalogue, a: seq<nat>, b: seq<nat>, r: Ring)
    requires a <= b
    ensures OfRing(d, a, r) <= OfRing(d, b, r)
  {
    assert b == a + b[|a|..];
    OfRingConcat(d, a, b[|a|..], r);
  }

  lemma {:induction false} OfRingNone(d: Catalogue, s: seq<nat>, r: Ring)
    requires forall k :: 0 <= k < |s| ==> RingOf(d, s[k]) != r
    ensures OfRing(d, s, r) == []
  {
    if s != [] {
      OfRingNone(d, s[..|s| - 1], r);
    }
  }

  // ------------------------------------------------------------------------- popping

  function Without(s: seq<nat>, k: nat): seq<nat>
    requires k < |s|
  {
    s[..k] + s[k + 1..]
  }

  lemma {:induction false} WithoutOne(s: seq<nat>, k: nat)
    requires Distinct(s) && k < |s|
    ensures Distinct(Without(s, k)) && Elems(s) == Elems(Without(s, k)) + {s[k]} && s[k] !in Elems(Without(s, k))
  {
    var t := Without(s, k);
    assert s == s[..k] + [s[k]] + s[k + 1..];
    forall i | 0 <= i < |t| ensures t[i] == s[if i < k then i else i + 1] {
    }
  }

  lemma {:induction false} OneMore(s: seq<nat>, x: nat)
    requires Distinct(s) && x !in Elems(s)
    ensures Distinct(s + [x]) && Elems(s + [x]) == Elems(s) + {x}
  {
    forall i | 0 <= i < |s| ensures s[i] != x {
      assert s[i] in Elems(s);
    }
  }

  /** The batch was taken out of the pre-queues, from the front of each ring. */
  ghost predicate Popped(d: Catalogue, q: Queues, q': Queues, batch: seq<nat>) {
    && q'.later == q.later && DistinctOps(q') && Distinct(batch) && q'.Size() == q.Size() - |batch|
    && Elems(q.waiting) == Elems(batch) + Elems(q'.waiting) && Elems(batch) !! Elems(q'.waiting)
    && Elems(batch) !! Elems(q'.later)
    && forall r :: OfRing(d, q.waiting, r) == OfRing(d, batch, r) + OfRing(d, q'.waiting, r)
  }

  /** Position k is the front of its ring. */
  predicate Front(d: Catalogue, s: seq<nat>, k: nat)
    requires k < |s|
  {
    forall j :: 0 <= j < k ==> RingOf(d, s[j]) != RingOf(d, s[k])
  }

  lemma {:induction false} FrontTaken(d: Catalogue, s: seq<nat>, k: nat, r: Ring)
    requires k < |s| && Front(d, s, k)
    ensures OfRing(d, s, r) == (if RingOf(d, s[k]) == r then [s[k]] else []) + OfRing(d, Without(s, k), r)
  {
    var a, b := s[..k], s[k + 1..];
    assert s == (a + [s[k]]) + b;
    OfRingConcat(d, a + [s[k]], b, r);
    OfRingMore(d, a, s[k], r);
    OfRingConcat(d, a, b, r);
    if RingOf(d, s[k]) == r {
      OfRingNone(d, a, r);
    }
  }

  lemma {:induction false} PoppedMore(d: Catalogue, q: Queues, q': Queues, batch: seq<nat>, k: nat)
    requires Popped(d, q, q', batch) && k < |q'.waiting| && Front(d, q'.waiting, k)
    ensures Popped(d, q, q'.(waiting := Without(q'.waiting, k)), batch + [q'.waiting[k]])
  {
    var x := q'.waiting[k];
    assert x in Elems(q'.waiting);
    WithoutOne(q'.waiting, k);
    OneMore(batch, x);
    forall r ensures OfRing(d, q.waiting, r) == OfRing(d, batch + [x], r) + OfRing(d, Without(q'.waiting, k), r) {
      FrontTaken(d, q'.waiting, k, r);
      OfRingMore(d, batch, x, r);
    }
  }

  /** In a queue that is not empty some ring of the kind has a front. */
  lemma {:induction false} SomeFront(d: Catalogue, collective: bool, s: seq<nat>, n: nat) returns (k: nat)
    requires n < |s| && d(s[n]).collective == collective
    ensures k <= n && d(s[k]).collective == collective && Front(d, s, k)
    decreases n
  {
    if Front(d, s, n) {
      k := n;
    } else {
      var j :| 0 <= j < n && RingOf(d, s[j]) == RingOf(d, s[n]);
      k := SomeFront(d, collective, s, j);
    }
  }

  /** The pop of a pre-queue, as promised by both kinds: as many as wanted, or all, and from
      each ring in the order of arrival. */
  method Pop(d: Catalogue, collective: bool, q: Queues, n: nat) returns (batch: seq<nat>, q': Queues)
    requires DistinctOps(q)
    ensures Popped(d, q, q', batch) && |batch| <= n && (|batch| < n ==> Empty(d, collective, q')) && (batch == [] ==> q' == q)
    ensures Empty(d, !collective, q) ==> Empty(d, !collective, q')
    ensures forall e :: 0 <= e < |batch| ==> d(batch[e]).collective == collective
  {
    batch, q' := [], q;
    while |batch| < n && !Empty(d, collective, q')
      invariant Popped(d, q, q', batch) && |batch| <= n && (batch == [] ==> q' == q)
      invariant Empty(d, !collective, q) ==> Empty(d, !collective, q')
      invariant forall e :: 0 <= e < |batch| ==> d(batch[e]).collective == collective
      decreases |q'.waiting|
    {
      ghost var some: nat :| some < |q'.waiting| && d(q'.waiting[some]).collective == collective;
      ghost var front := SomeFront(d, collective, q'.waiting, some);
      var k: nat :| k < |q'.waiting| && d(q'.waiting[k]).collective == collective && Front(d, q'.waiting, k);
      PoppedMore(d, q, q', batch, k);
      EmptyStill(d, !collective, q', k);
      batch, q' := batch + [q'.waiting[k]], q'.(waiting := Without(q'.waiting, k));
    }
  }

  lemma {:induction false} EmptyStill(d: Catalogue, collective: bool, q: Queues, k: nat)
    requires k < |q.waiting|
    ensures Empty(d, collective, q) ==> Empty(d, collective, q.(waiting := Without(q.waiting, k)))
  {
  }

  // ------------------------------------------------------------------------ the trace

  /** An operation arrives in its pre-queue, or the manager does something. */
  datatype Act = Arrive(op: nat) | Did(event: Event)

  function LogOf(trace: seq<Act>): seq<Event> {
    if trace == [] then []
    else LogOf(trace[..|trace| - 1]) + if trace[|trace| - 1].Did? then [trace[|trace| - 1].event] else []
  }

  function Arrivals(trace: seq<Act>): seq<nat> {
    if trace == [] then []
    else Arrivals(trace[..|trace| - 1]) + if trace[|trace| - 1].Arrive? then [trace[|trace| - 1].op] else []
  }

  lemma {:induction false} TraceMore(trace: seq<Act>, a: Act)
    ensures a.Did? ==> LogOf(trace + [a]) == LogOf(trace) + [a.event] && Arrivals(trace + [a]) == Arrivals(trace)
    ensures a.Arrive? ==> LogOf(trace + [a]) == LogOf(trace) && Arrivals(trace + [a]) == Arrivals(trace) + [a.op]
  {
    assert (trace + [a])[..|trace|] == trace;
  }

  /** What has been issued from a ring is what arrived there first. */
  ghost predicate FifoAt(d: Catalogue, log: seq<Event>, arrivals: seq<nat>) {
    forall r :: OfRing(d, IssuedOps(log), r) <= OfRing(d, arrivals, r)
  }

  /** This holds up to every point of the trace. */
  ghost predicate Fifo(d: Catalogue, trace: seq<Act>) {
    forall i :: 0 <= i <= |trace| ==> FifoAt(d, LogOf(trace[..i]), Arrivals(trace[..i]))
  }

  lemma {:induction false} FifoMore(d: Catalogue, trace: seq<Act>, a: Act, log: seq<Event>, arrivals: seq<nat>)
    requires Fifo(d, trace) && LogOf(trace + [a]) == log && Arrivals(trace + [a]) == arrivals && FifoAt(d, log, arrivals)
    ensures Fifo(d, trace + [a])
  {
    var trace' := trace + [a];
    forall i | 0 <= i <= |trace'| ensures FifoAt(d, LogOf(trace'[..i]), Arrivals(trace'[..i])) {
      if i <= |trace| {
        assert trace'[..i] == trace[..i];
      } else {
        assert trace'[..i] == trace';
      }
    }
  }

  /** In every ring what has arrived was issued or waits, in this order. */
  ghost predicate Balanced(d: Catalogue, log: seq<Event>, waiting: seq<nat>, arrivals: seq<nat>) {
    forall r :: OfRing(d, arrivals, r) == OfRing(d, IssuedOps(log), r) + OfRing(d, waiting, r)
  }

  lemma {:induction false} BalancedIsFifo(d: Catalogue, log: seq<Event>, waiting: seq<nat>, arrivals: seq<nat>)
    requires Balanced(d, log, waiting, arrivals)
    ensures FifoAt(d, log, arrivals)
  {
  }

  lemma {:induction false} BalancedMore(d: Catalogue, log: seq<Event>, waiting: seq<nat>, arrivals: seq<nat>, o: nat)
    requires Balanced(d, log, waiting, arrivals)
    ensures Balanced(d, log, waiting + [o], arrivals + [o])
  {
    forall r ensures OfRing(d, arrivals + [o], r) == OfRing(d, IssuedOps(log), r) + OfRing(d, waiting + [o], r) {
      OfRingMore(d, arrivals, o, r);
      OfRingMore(d, waiting, o, r);
    }
  }

  /** The trace tells the whole story: its events are the record, what has arrived was issued
      or waits, and from each ring in the order of arrival. */
  ghost predicate Traced(d: Catalogue, w: World, q: Queues, trace: seq<Act>) {
    && LogOf(trace) == w.log && Distinct(Arrivals(trace)) && Elems(Arrivals(trace)) == Elems(q.waiting) + w.ops.Keys
    && Balanced(d, w.log, q.waiting, Arrivals(trace)) && Fifo(d, trace)
  }

  function Dids(events: seq<Event>): seq<Act> {
    if events == [] then [] else Dids(events[..|events| - 1]) + [Did(events[|events| - 1])]
  }

  lemma {:induction false} ArriveTraced(d: Catalogue, w: World, waiting: seq<nat>, later: seq<nat>, later': seq<nat>,
                                        trace: seq<Act>, o: nat)
    requires Traced(d, w, Queues(waiting, later), trace) && o !in Elems(waiting) && o !in w.ops
    ensures Traced(d, w, Queues(waiting + [o], later'), trace + [Arrive(o)])
  {
    var arrivals := Arrivals(trace);
    TraceMore(trace, Arrive(o));
    OneMore(arrivals, o);
    BalancedMore(d, w.log, waiting, arrivals, o);
    BalancedIsFifo(d, w.log, waiting + [o], arrivals + [o]);
    FifoMore(d, trace, Arrive(o), w.log, arrivals + [o]);
    ElemsMore(waiting, o);
    TracedFrom(d, w, Queues(waiting + [o], later'), trace + [Arrive(o)], arrivals + [o]);
  }

  lemma {:induction false} ElemsMore(s: seq<nat>, x: nat)
    ensures Elems(s + [x]) == Elems(s) + {x}
  {
  }

  lemma {:induction false} TracedFrom(d: Catalogue, w: World, q: Queues, trace: seq<Act>, arrivals: seq<nat>)
    requires LogOf(trace) == w.log && Arrivals(trace) == arrivals && Distinct(arrivals)
    requires Elems(arrivals) == Elems(q.waiting) + w.ops.Keys && Balanced(d, w.log, q.waiting, arrivals) && Fifo(d, trace)
    ensures Traced(d, w, q, trace)
  {
  }

  /** Some operations of this kind, and no others, have arrived. */
  ghost predicate Arrived(d: Catalogue, collective: bool, q: Queues, q': Queues) {
    && DistinctOps(q') && Ops(q') == Ops(q) && q'.Size() == q.Size() && q.waiting <= q'.waiting
    && (q.later == [] ==> q' == q) && (Empty(d, !collective, q) ==> Empty(d, !collective, q'))
  }

  function Pushed(q: Queues, k: nat): Queues
    requires k < |q.later|
  {
    Queues(q.waiting + [q.later[k]], Without(q.later, k))
  }

  lemma {:induction false} ArrivedMore(d: Catalogue, collective: bool, q: Queues, q': Queues, k: nat)
    requires Arrived(d, collective, q, q') && k < |q'.later| && d(q'.later[k]).collective == collective
    ensures Arrived(d, collective, q, Pushed(q', k)) && q'.later[k] in Ops(q) && q'.later[k] !in Elems(q'.waiting)
  {
    assert q'.later[k] in Elems(q'.later);
    WithoutOne(q'.later, k);
    OneMore(q'.waiting, q'.later[k]);
  }

  /** Any operations of this kind arrive, in any order. */
  method ArriveSome(d: Catalogue, collective: bool, q: Queues, ghost w: World, ghost trace: seq<Act>)
    returns (q': Queues, ghost trace': seq<Act>)
    requires DistinctOps(q) && Ops(q) !! w.ops.Keys && Traced(d, w, q, trace)
    ensures Arrived(d, collective, q, q') && Traced(d, w, q', trace') && trace <= trace'
  {
    q', trace' := q, trace;
    var pushes: int := *;
    while pushes > 0
      invariant Arrived(d, collective, q, q') && Traced(d, w, q', trace') && trace <= trace'
    {
      var k: int := *;
      if 0 <= k < |q'.later| && d(q'.later[k]).collective == collective {
        ArrivedMore(d, collective, q, q', k);
        ArriveTraced(d, w, q'.waiting, q'.later, Without(q'.later, k), trace', q'.later[k]);
        trace' := trace' + [Arrive(q'.later[k])];
        q' := Pushed(q', k);
      }
      pushes := pushes - 1;
    }
  }

  lemma {:induction false} FifoEarlier(d: Catalogue, log: seq<Event>, log': seq<Event>, arrivals: seq<nat>)
    requires FifoAt(d, log', arrivals) && log <= log'
    ensures FifoAt(d, log, arrivals)
  {
    IssuedOpsGrow(log, log');
    forall r ensures OfRing(d, IssuedOps(log), r) <= OfRing(d, arrivals, r) {
      OfRingGrows(d, IssuedOps(log), IssuedOps(log'), r);
    }
  }

  lemma {:induction false} DidsTraced(d: Catalogue, trace: seq<Act>, events: seq<Event>)
    requires Fifo(d, trace) && FifoAt(d, LogOf(trace) + events, Arrivals(trace))
    ensures LogOf(trace + Dids(events)) == LogOf(trace) + events && Arrivals(trace + Dids(events)) == Arrivals(trace)
    ensures Fifo(d, trace + Dids(events))
    decreases |events|
  {
    if events == [] {
      assert LogOf(trace) + events == LogOf(trace) && trace + Dids(events) == trace;
    } else {
      var n := |events| - 1;
      var before, e := events[..n], events[n];
      assert events == before + [e];
      FifoEarlier(d, LogOf(trace) + before, LogOf(trace) + events, Arrivals(trace));
      DidsTraced(d, trace, before);
      var mid, log := trace + Dids(before), LogOf(trace) + events;
      TraceMore(mid, Did(e));
      assert (LogOf(trace) + before) + [e] == log;
      FifoMore(d, mid, Did(e), log, Arrivals(trace));
      assert trace + Dids(events) == mid + [Did(e)] by {
        assert Dids(events) == Dids(before) + [Did(e)];
      }
    }
  }

  /** The manager pops a batch and does something about it, issuing exactly the batch. */
  lemma {:induction false} TransferTraced(d: Catalogue, w: World, q: Queues, trace: seq<Act>, batch: seq<nat>, w': World, q': Queues)
    requires Traced(d, w, q, trace) && Popped(d, q, q', batch) && w.log <= w'.log
    requires IssuedOps(w'.log) == IssuedOps(w.log) + batch && w'.ops.Keys == w.ops.Keys + Elems(batch)
    ensures Traced(d, w', q', trace + Dids(w'.log[|w.log|..]))
  {
    var events, arrivals := w'.log[|w.log|..], Arrivals(trace);
    assert w.log + events == w'.log;
    BalancedTransfer(d, w, q, arrivals, batch, w', q');
    BalancedIsFifo(d, w'.log, q'.waiting, arrivals);
    DidsTraced(d, trace, events);
    TracedFrom(d, w', q', trace + Dids(events), arrivals);
  }

  lemma {:induction false} BalancedTransfer(d: Catalogue, w: World, q: Queues, arrivals: seq<nat>, batch: seq<nat>, w': World, q': Queues)
    requires Balanced(d, w.log, q.waiting, arrivals) && Popped(d, q, q', batch) && IssuedOps(w'.log) == IssuedOps(w.log) + batch
    ensures Balanced(d, w'.log, q'.waiting, arrivals)
  {
    forall r ensures OfRing(d, arrivals, r) == OfRing(d, IssuedOps(w'.log), r) + OfRing(d, q'.waiting, r) {
      OfRingConcat(d, IssuedOps(w.log), batch, r);
    }
  }

  // ----------------------------------------------------------------- the order of issues

  lemma {:induction false} OfRingIn(d: Catalogue, s: seq<nat>, x: nat, r: Ring)
    ensures x in OfRing(d, s, r) <==> x in s && RingOf(d, x) == r
  {
    if s != [] {
      var n := |s| - 1;
      OfRingIn(d, s[..n], x, r);
      assert s == s[..n] + [s[n]];
    }
  }

  lemma {:induction false} OfRingDistinct(d: Catalogue, s: seq<nat>, r: Ring)
    requires Distinct(s)
    ensures Distinct(OfRing(d, s, r))
  {
    if s != [] {
      var n := |s| - 1;
      OfRingDistinct(d, s[..n], r);
      OfRingIn(d, s[..n], s[n], r);
    }
  }

  /** Of two operations that arrived in one ring, the first is issued first. */
  lemma {:induction false} IssuedInOrderOfArrival(d: Catalogue, w: World, q: Queues, trace: seq<Act>, i: nat, j: nat, k: nat)
    requires Traced(d, w, q, trace) && i < j < |Arrivals(trace)| && k <= |trace|
    requires RingOf(d, Arrivals(trace)[i]) == RingOf(d, Arrivals(trace)[j])
    requires Arrivals(trace)[j] in IssuedOps(LogOf(trace[..k]))
    ensures Arrivals(trace)[i] in IssuedOps(LogOf(trace[..k]))
  {
    var all, r := Arrivals(trace), RingOf(d, Arrivals(trace)[i]);
    var issued := OfRing(d, IssuedOps(LogOf(trace[..k])), r);
    OfRingIn(d, IssuedOps(LogOf(trace[..k])), all[j], r);
    OfRingIn(d, IssuedOps(LogOf(trace[..k])), all[i], r);
    ArrivalsGrow(trace, k);
    OfRingGrows(d, Arrivals(trace[..k]), all, r);
    assert issued <= OfRing(d, all, r);
    InFrontOf(d, all, issued, r, i, j);
  }

  lemma {:induction false} ArrivalsGrow(trace: seq<Act>, k: nat)
    requires k <= |trace|
    ensures Arrivals(trace[..k]) <= Arrivals(trace)
    decreases |trace| - k
  {
    if k < |trace| {
      ArrivalsGrow(trace, k + 1);
      TraceMore(trace[..k], trace[k]);
      assert trace[..k + 1] == trace[..k] + [trace[k]];
    } else {
      assert trace[..k] == trace;
    }
  }

  lemma {:induction false} InFrontOf(d: Catalogue, all: seq<nat>, issued: seq<nat>, r: Ring, i: nat, j: nat)
    requires Distinct(all) && i < j < |all| && RingOf(d, all[i]) == r == RingOf(d, all[j])
    requires issued <= OfRing(d, all, r) && all[j] in issued
    ensures all[i] in issued
  {
    var front := OfRing(d, all[..j], r);
    OfRingMore(d, all[..j], all[j], r);
    assert all[..j + 1] == all[..j] + [all[j]];
    OfRingGrows(d, all[..j + 1], all, r);
    OfRingDistinct(d, all, r);
    var m :| 0 <= m < |issued| && issued[m] == all[j];
    assert OfRing(d, all, r)[|front|] == all[j] && m == |front|;
    OfRingIn(d, all[..j], all[i], r);
    assert all[..j][i] == all[i];
    var n :| 0 <= n < |front| && front[n] == all[i];
    assert issued[n] == OfRing(d, all, r)[n] == front[n];
  }
}
