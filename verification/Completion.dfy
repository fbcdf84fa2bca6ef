/**
  Completing operations: the status goes to the user first, then the task is released or its
  context is handed to the completion task (src/common/Ticket.hpp,
  src/common/CompletionManager.hpp and the loops of src/common/TicketManager.hpp that use
  them). A hand-over counts as the release: the completion task performs it once
  for every context.
 */
module Completion {
  import opened Basics
  import opened Mpi
  import opened Internals
  import opened World

  /** How many operations or requests are handled together. */
  const BATCH: nat := 64

  /** MPI has reported the operation with this status and nothing was done about it yet. */
  ghost predicate Completed(w: World, o: nat, st: Status) {
    && o in w.ops && !w.ops[o].stored && w.ops[o].request.Req?
    && w.ops[o].request.id in w.mpi.reported && st == w.mpi.reported[w.ops[o].request.id]
  }

  /** Of the operations in w, only those in ops have changed, and only their marks of a stored
      status and of a release. */
  ghost predicate Unaffected(w: World, w': World, ops: set<nat>) {
    && w'.mpi == w.mpi && w'.ops.Keys == w.ops.Keys && w'.delegate == w.delegate
    && forall x :: x in w.ops ==>
         && w'.ops[x].request == w.ops[x].request && w'.ops[x].appended == w.ops[x].appended
         && (x in ops || w'.ops[x] == w.ops[x])
  }

  /** The tickets of ops are being completed, with statuses sts: t have their status stored
      and s of these are released. */
  ghost predicate Processing(d: Catalogue, w0: World, v0: View, ops: seq<nat>, sts: seq<Status>,
                             w: World, v: View, t: nat, s: nat) {
    Inv(d, w, v) && Done(d, w0, v0, ops, sts, w, v, t, s)
  }

  ghost predicate Done(d: Catalogue, w0: World, v0: View, ops: seq<nat>, sts: seq<Status>,
                       w: World, v: View, t: nat, s: nat) {
    && s <= t <= |ops| == |sts| && Distinct(ops)
    && v == v0.(inflight := v0.inflight - Elems(ops[..s]))
    && Ran(w0, w, 0, s) && Unaffected(w0, w, Elems(ops))
    && (forall c :: s <= c < |ops| ==> ops[c] in v.inflight)
    && (forall c :: s <= c < t ==> Releasable(d, w, ops[c]))
    && (forall c :: t <= c < |ops| ==> Completed(w, ops[c], sts[c]))
  }

  function WithStatus(d: Catalogue, w: World, o: nat, st: Status): World
    requires o in w.ops
  {
    if TicketOf(d, o).IgnoreStatus() then w else Store(w, o, TicketOf(d, o).firstStatus.address, st)
  }

  lemma StoredStatus(d: Catalogue, w: World, o: nat, st: Status)
    requires Completed(w, o, st)
    ensures Unaffected(w, WithStatus(d, w, o, st), {o}) && Releasable(d, WithStatus(d, w, o, st), o)
  {
  }

  lemma StatusKeeps(d: Catalogue, w: World, v: View, o: nat, st: Status)
    requires Inv(d, w, v) && o in v.inflight && Completed(w, o, st)
    ensures Inv(d, WithStatus(d, w, o, st), v) && Ran(w, WithStatus(d, w, o, st), 0, 0)
    ensures Unaffected(w, WithStatus(d, w, o, st), {o}) && Releasable(d, WithStatus(d, w, o, st), o)
  {
    StoredStatus(d, w, o, st);
    if !TicketOf(d, o).IgnoreStatus() {
      StoreKeeps(d, w, v, o, st);
    }
  }

  lemma UnaffectedOn(w: World, w': World, w'': World, ops: seq<nat>, c: nat)
    requires c < |ops| && Unaffected(w, w', Elems(ops)) && Unaffected(w', w'', {ops[c]})
    ensures Unaffected(w, w'', Elems(ops))
  {
    assert ops[c] in Elems(ops);
  }

  lemma StoreDone(d: Catalogue, w0: World, v0: View, ops: seq<nat>, sts: seq<Status>,
                  w: World, v: View, t: nat, s: nat, w': World)
    requires Done(d, w0, v0, ops, sts, w, v, t, s) && t < |ops|
    requires Ran(w, w', 0, 0) && Unaffected(w, w', {ops[t]}) && Releasable(d, w', ops[t])
    ensures Done(d, w0, v0, ops, sts, w', v, t + 1, s)
  {
    RanOn(w0, w, w', 0, s, 0, 0);
    UnaffectedOn(w0, w, w', ops, t);
    forall c | s <= c < |ops| && c != t ensures ops[c] != ops[t] {
    }
  }

  lemma StoreNext(d: Catalogue, w0: World, v0: View, ops: seq<nat>, sts: seq<Status>, w: World, v: View, t: nat, s: nat)
    requires Processing(d, w0, v0, ops, sts, w, v, t, s) && t < |ops|
    ensures Processing(d, w0, v0, ops, sts, WithStatus(d, w, ops[t], sts[t]), v, t + 1, s)
  {
    StatusKeeps(d, w, v, ops[t], sts[t]);
    StoreDone(d, w0, v0, ops, sts, w, v, t, s, WithStatus(d, w, ops[t], sts[t]));
  }

  lemma SignalDone(d: Catalogue, w0: World, v0: View, ops: seq<nat>, sts: seq<Status>,
                   w: World, v: View, t: nat, s: nat, w': World)
    requires Done(d, w0, v0, ops, sts, w, v, t, s) && s < t
    requires Ran(w, w', 0, 1) && Unaffected(w, w', {ops[s]})
    ensures Done(d, w0, v0, ops, sts, w', v.(inflight := v.inflight - {ops[s]}), t, s + 1)
  {
    RanOn(w0, w, w', 0, s, 0, 1);
    UnaffectedOn(w0, w, w', ops, s);
    ElemsNext(ops, s);
    assert v0.inflight - Elems(ops[..s + 1]) == v0.inflight - Elems(ops[..s]) - {ops[s]};
    forall c | s < c < |ops| ensures ops[c] != ops[s] {
    }
  }

  lemma SignalsOnly(w: World, ctx: TaskContext, handed: bool)
    requires ctx.op in w.ops
    ensures Unaffected(w, Signal(w, ctx, handed), {ctx.op})
  {
  }

  lemma SignalNext(d: Catalogue, w0: World, v0: View, ops: seq<nat>, sts: seq<Status>, w: World, v: View, t: nat, s: nat)
    requires Processing(d, w0, v0, ops, sts, w, v, t, s) && s < t
    ensures var v' := v.(inflight := v.inflight - {ops[s]});
            Processing(d, w0, v0, ops, sts, Signal(w, TicketOf(d, ops[s]).ctx, w.delegate), v', t, s + 1)
  {
    SignalKeeps(d, w, v, ops[s]);
    SignalsOnly(w, TicketOf(d, ops[s]).ctx, w.delegate);
    SignalDone(d, w0, v0, ops, sts, w, v, t, s, Signal(w, TicketOf(d, ops[s]).ctx, w.delegate));
  }

  lemma ElemsNext(ops: seq<nat>, s: nat)
    requires s < |ops|
    ensures Elems(ops[..s + 1]) == Elems(ops[..s]) + {ops[s]}
  {
    assert ops[..s + 1] == ops[..s] + [ops[s]];
  }

  /** Ticket::storeStatus for a ticket that does not ignore it. */
  method StoreStatus(d: Catalogue, w: World, ticket: Ticket, local: nat, st: Status) returns (w': World)
    requires ticket.ctx.op in w.ops && ticket == TicketOf(d, ticket.ctx.op) && local == 0
    ensures w' == WithStatus(d, w, ticket.ctx.op, st)
  {
    w' := w;
    if !ticket.IgnoreStatus() {
      w' := Store(w, ticket.ctx.op, ticket.firstStatus.address + local, st);
    }
  }

  /** The first n contexts are those of the operations. */
  ghost predicate Contexts(d: Catalogue, contexts: seq<TaskContext>, ops: seq<nat>, n: nat) {
    n <= |ops| && n <= |contexts| && forall k :: 0 <= k < n ==> contexts[k] == TicketOf(d, ops[k]).ctx
  }

  /** CompletionManager::transfer: every context goes to the completion task, in order. */
  method TransferContexts(ghost d: Catalogue, w: World, contexts: array<TaskContext>, n: nat,
                          ghost w0: World, ghost v0: View, ghost ops: seq<nat>, ghost sts: seq<Status>, ghost v: View)
    returns (w': World, ghost v': View)
    requires Processing(d, w0, v0, ops, sts, w, v, n, 0) && |ops| == n <= contexts.Length && w0.delegate
    requires Contexts(d, contexts[..], ops, n)
    ensures Processing(d, w0, v0, ops, sts, w', v', n, n)
  {
    w', v' := w, v;
    for c := 0 to n
      invariant Processing(d, w0, v0, ops, sts, w', v', n, c)
    {
      SignalNext(d, w0, v0, ops, sts, w', v', n, c);
      v' := v'.(inflight := v'.inflight - {ops[c]});
      assert contexts[c] == contexts[..][c];
      w' := Signal(w', contexts[c], true);
    }
  }
}
