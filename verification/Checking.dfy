/**
  Testing the pending requests, `internalCheckRequests` of src/common/TicketManager.hpp: the
  arrays are tested in slices, completed tickets are processed, and what is left is compacted.
 */
module Checking {
  import opened Basics
  import opened Mpi
  import opened Internals
  import opened World
  import opened Completion
  import Testing

  // -------------------------------------------------------------------- one slice

  ghost function Shifted(idx: seq<int>, offset: nat): (r: seq<int>)
    ensures |r| == |idx| && forall c :: 0 <= c < |idx| ==> r[c] == idx[c] + offset
  {
    seq(|idx|, c requires 0 <= c < |idx| => idx[c] + offset)
  }

  ghost function OpsIn(rows: seq<Row>, idx: seq<int>): (r: seq<nat>)
    requires Ascending(idx, |rows|)
    ensures |r| == |idx| && forall c :: 0 <= c < |idx| ==> r[c] == Op(rows[idx[c]])
  {
    seq(|idx|, c requires 0 <= c < |idx| => Op(rows[idx[c]]))
  }

  /** The rows with the requests rs' in the slots from `from` on. */
  ghost function WithRequests(rows: seq<Row>, from: nat, rs': seq<Request>): (r: seq<Row>)
    requires from + |rs'| <= |rows|
    ensures |r| == |rows|
    ensures forall i :: 0 <= i < |rows| ==>
              r[i] == if from <= i < from + |rs'| then rows[i].(request := rs'[i - from]) else rows[i]
  {
    seq(|rows|, i requires 0 <= i < |rows| =>
      if from <= i < from + |rs'| then rows[i].(request := rs'[i - from]) else rows[i])
  }

  /** The slots idx hold the tickets of the operations ops. */
  ghost predicate Slots(d: Catalogue, rows: seq<Row>, idx: seq<int>, ops: seq<nat>) {
    && Ascending(idx, |rows|) && |ops| == |idx|
    && forall c :: 0 <= c < |idx| ==> rows[idx[c]].ticket == TicketOf(d, ops[c]) && rows[idx[c]].local == 0
  }

  /** No slot from `from` on is a hole. */
  ghost predicate NoHoles(v: View, from: nat) {
    forall i :: from <= i < |v.rows| ==> i !in v.holes
  }

  /** The requests rs of the slots from `from` on were tested with this result. */
  ghost predicate SliceTested(w: World, v: View, from: nat, rs: seq<Request>, m': State, rs': seq<Request>,
                              idx: seq<int>, sts: seq<Status>) {
    && RequestsFrom(v.rows, from, rs) && NoHoles(v, from)
    && AllActive(w.mpi, rs) && Tested(w.mpi, rs, m', rs', idx, sts)
  }

  ghost predicate RequestsFrom(rows: seq<Row>, from: nat, rs: seq<Request>) {
    from + |rs| <= |rows| && forall k :: 0 <= k < |rs| ==> rs[k] == rows[from + k].request
  }

  lemma SliceSame(rows: seq<Row>, from: nat, rs: seq<Request>, rs': seq<Request>, idx: seq<int>, at: seq<int>)
    requires RequestsFrom(rows, from, rs)
    requires Chosen(rs, idx) && rs' == Nulled(rs, idx) && at == Shifted(idx, from)
    ensures SameOutside(rows, WithRequests(rows, from, rs'), at)
  {
    forall i | 0 <= i < |rows| && i !in Elems(at) ensures WithRequests(rows, from, rs')[i] == rows[i] {
      if from <= i < from + |rs| {
        NotShifted(idx, from, i);
        NulledAt(rs, idx, i - from);
      }
    }
  }

  lemma NotShifted(idx: seq<int>, from: nat, i: int)
    requires i !in Elems(Shifted(idx, from))
    ensures i - from !in idx
  {
    forall c | 0 <= c < |idx| ensures idx[c] != i - from {
      assert Shifted(idx, from)[c] in Elems(Shifted(idx, from));
    }
  }

  /** The operations of the completed slots are those whose requests completed. */
  ghost predicate Matches(w: World, ops: seq<nat>, rs: seq<Request>, idx: seq<int>) {
    && Chosen(rs, idx) && |ops| == |idx|
    && forall c :: 0 <= c < |ops| ==> ops[c] in w.ops && w.ops[ops[c]].request == rs[idx[c]] && !w.ops[ops[c]].stored
  }

  lemma SliceOps(d: Catalogue, w: World, v: View, from: nat, rs: seq<Request>, idx: seq<int>, at: seq<int>, ops: seq<nat>)
    requires RowsOk(d, w, v) && RequestsFrom(v.rows, from, rs) && NoHoles(v, from) && Chosen(rs, idx)
    requires at == Shifted(idx, from) && Ascending(at, |v.rows|) && ops == OpsIn(v.rows, at)
    ensures OpsAt(v, at, ops) && Distinct(ops) && Slots(d, v.rows, at, ops) && Matches(w, ops, rs, idx)
  {
    assert OpsAt(v, at, ops);
    DetachedOps(d, w, v, at, ops);
    forall c | 0 <= c < |ops|
      ensures v.rows[at[c]].ticket == TicketOf(d, ops[c]) && v.rows[at[c]].local == 0
      ensures ops[c] in w.ops && w.ops[ops[c]].request == rs[idx[c]] && !w.ops[ops[c]].stored
    {
      assert Live(d, w, v.rows[at[c]]);
    }
  }

  lemma SliceSlots(d: Catalogue, rows: seq<Row>, from: nat, rs': seq<Request>, at: seq<int>, ops: seq<nat>)
    requires from + |rs'| <= |rows| && Slots(d, rows, at, ops)
    ensures Slots(d, WithRequests(rows, from, rs'), at, ops)
  {
  }

  lemma ShiftedAscending(idx: seq<int>, n: nat, from: nat)
    requires Ascending(idx, n)
    ensures Ascending(Shifted(idx, from), from + n)
  {
  }

  /** The completed rows of the slice leave the arrays' charge with their reported statuses. */
  lemma SliceProcessing(d: Catalogue, w: World, v: View, from: nat, rs: seq<Request>, m': State, rs': seq<Request>,
                        idx: seq<int>, sts: seq<Status>, at: seq<int>, ops: seq<nat>)
    requires Inv(d, w, v) && v.inflight == {} && SliceTested(w, v, from, rs, m', rs', idx, sts)
    requires at == Shifted(idx, from) && Ascending(at, |v.rows|) && ops == OpsIn(v.rows, at)
    ensures var w', v' := w.(mpi := m'), Detached(v, WithRequests(v.rows, from, rs'), at, ops);
            Processing(d, w', v', ops, sts, w', v', 0, 0)
  {
    var v' := Detached(v, WithRequests(v.rows, from, rs'), at, ops);
    SliceDetached(d, w, v, from, rs, rs', idx, at, ops);
    SliceReported(d, w, v', rs, m', idx, sts, ops);
    SliceDone(d, w, v', rs, m', idx, sts, ops);
  }

  lemma SliceStarts(d: Catalogue, w: World, v: View, from: nat, rs: seq<Request>, m': State, rs': seq<Request>,
                    idx: seq<int>, sts: seq<Status>, at: seq<int>) returns (ops: seq<nat>)
    requires Inv(d, w, v) && v.inflight == {} && SliceTested(w, v, from, rs, m', rs', idx, sts)
    requires at == Shifted(idx, from)
    ensures Ascending(at, from + |rs|) && (forall c :: 0 <= c < |at| ==> at[c] >= from)
    ensures |ops| == |at| == |idx|
    ensures Slots(d, WithRequests(v.rows, from, rs'), at, ops)
    ensures var w', v' := w.(mpi := m'), Detached(v, WithRequests(v.rows, from, rs'), at, ops);
            Processing(d, w', v', ops, sts, w', v', 0, 0)
  {
    ShiftedAscending(idx, |rs|, from);
    assert Ascending(at, |v.rows|);
    ops := OpsIn(v.rows, at);
    SliceProcessing(d, w, v, from, rs, m', rs', idx, sts, at, ops);
    SliceOps(d, w, v, from, rs, idx, at, ops);
    SliceSlots(d, v.rows, from, rs', at, ops);
  }

  lemma SliceDetached(d: Catalogue, w: World, v: View, from: nat, rs: seq<Request>, rs': seq<Request>, idx: seq<int>,
                      at: seq<int>, ops: seq<nat>)
    requires PlacesOk(d, w, v) && v.inflight == {} && RequestsFrom(v.rows, from, rs) && NoHoles(v, from)
    requires Chosen(rs, idx) && rs' == Nulled(rs, idx)
    requires at == Shifted(idx, from) && Ascending(at, |v.rows|) && ops == OpsIn(v.rows, at)
    ensures var v' := Detached(v, WithRequests(v.rows, from, rs'), at, ops);
            PlacesOk(d, w, v') && v'.inflight == Elems(ops) && Distinct(ops) && Matches(w, ops, rs, idx)
  {
    SliceOps(d, w, v, from, rs, idx, at, ops);
    SliceSame(v.rows, from, rs, rs', idx, at);
    DetachPlaced(d, w, v, WithRequests(v.rows, from, rs'), at, ops);
  }

  lemma SliceReported(d: Catalogue, w: World, v: View, rs: seq<Request>, m': State, idx: seq<int>, sts: seq<Status>, ops: seq<nat>)
    requires Inv(d, w, v) && AllActive(w.mpi, rs) && Chosen(rs, idx) && |idx| == |sts| == |ops| && m' == Reported(w.mpi, rs, idx, sts)
    requires v.inflight == Elems(ops)
    requires Matches(w, ops, rs, idx)
    ensures Inv(d, w.(mpi := m'), v)
  {
    ReportedAt(w.mpi, rs, idx, sts);
    forall id | id in m'.reported && id !in w.mpi.reported ensures InHand(w, v, id) {
      var c :| 0 <= c < |idx| && rs[idx[c]].id == id;
      assert ops[c] in v.inflight;
    }
    ReportKeeps(d, w, v, m');
  }

  lemma SliceDone(d: Catalogue, w: World, v: View, rs: seq<Request>, m': State, idx: seq<int>, sts: seq<Status>, ops: seq<nat>)
    requires AllActive(w.mpi, rs) && Chosen(rs, idx) && |idx| == |sts| == |ops| && m' == Reported(w.mpi, rs, idx, sts)
    requires v.inflight == Elems(ops) && Distinct(ops)
    requires Matches(w, ops, rs, idx)
    ensures Done(d, w.(mpi := m'), v, ops, sts, w.(mpi := m'), v, 0, 0)
  {
    ReportedAt(w.mpi, rs, idx, sts);
    assert ops[..0] == [];
    assert v.inflight - Elems(ops[..0]) == v.inflight;
  }

  function Released(delegate: bool, c: nat): nat {
    if delegate then 0 else c
  }

  /** The first c indices of the slice have their offset, the others not yet. */
  ghost predicate Offset(indices: seq<int>, done: seq<int>, at: seq<int>, checked: nat, c: nat) {
    && c <= |at| && |done| + |at| <= |indices| && indices[..|done| + c] == done + at[..c]
    && forall k :: c <= k < |at| ==> indices[|done| + k] + checked == at[k]
  }

  lemma OffsetNext(indices: seq<int>, done: seq<int>, at: seq<int>, checked: nat, c: nat)
    requires Offset(indices, done, at, checked, c) && c < |at|
    ensures Offset(indices[|done| + c := at[c]], done, at, checked, c + 1)
  {
    assert indices[|done| + c := at[c]][..|done| + c] == indices[..|done| + c];
  }

  method CorrectIndex(indices: array<int>, checked: nat, completed: nat, c: nat, ghost done: seq<int>, ghost at: seq<int>)
    returns (index: int)
    requires c < |at| && |done| == completed && completed + |at| <= indices.Length
    requires Offset(indices[..], done, at, checked, c)
    modifies indices
    ensures index == at[c] && Offset(indices[..], done, at, checked, c + 1)
  {
    OffsetNext(indices[..], done, at, checked, c);
    ghost var before := indices[..];
    indices[completed + c] := indices[completed + c] + checked;
    index := indices[completed + c];
    assert indices[..] == before[completed + c := at[c]];
  }

  /** Completion c of the slice: the index gets the offset of the slice, the ticket of that
      slot gets its status, and its task is released or noted for the completion task. */
  method ProcessEntry(arrays: Arrays, contexts: array<TaskContext>, delegate: bool, checked: nat, completed: nat, c: nat,
                      d: Catalogue, w: World, ghost w0: World, ghost v0: View, ghost ops: seq<nat>, ghost sts: seq<Status>,
                      ghost v: View, ghost done: seq<int>, ghost at: seq<int>)
    returns (w': World, ghost v': View)
    requires arrays.Shape() && arrays.Holds(v0.rows) && Slots(d, v0.rows, at, ops)
    requires c < |at| && |done| == completed && completed + |at| <= CAPACITY && |at| <= contexts.Length == BATCH
    requires contexts as object != arrays.indices && contexts as object != arrays.statuses && contexts as object != arrays.mappings
    requires contexts as object != arrays.requests && contexts as object != arrays.tickets
    requires Offset(arrays.indices[..], done, at, checked, c) && |sts| == |at| && arrays.statuses[..|sts|] == sts
    requires delegate ==> Contexts(d, contexts[..], ops, c)
    requires Processing(d, w0, v0, ops, sts, w, v, c, Released(delegate, c)) && delegate == w0.delegate
    modifies arrays.indices, contexts
    ensures arrays.Holds(v0.rows) && Offset(arrays.indices[..], done, at, checked, c + 1)
    ensures delegate ==> Contexts(d, contexts[..], ops, c + 1)
    ensures Processing(d, w0, v0, ops, sts, w', v', c + 1, Released(delegate, c + 1))
  {
    var index := CorrectIndex(arrays.indices, checked, completed, c, done, at);
    var ticket, local := GetTicket(arrays, index, v0.rows);
    assert ticket == TicketOf(d, ops[c]) && arrays.statuses[..|sts|][c] == arrays.statuses[c];
    w', v' := ProcessTicket(contexts, delegate, c, d, w, ticket, local, arrays.statuses[c], w0, v0, ops, sts, v);
  }

  /** The ticket that the mapping of a slot points to, and the position in it. */
  method GetTicket(arrays: Arrays, index: nat, ghost rows: seq<Row>) returns (ticket: Ticket, local: int)
    requires arrays.Shape() && arrays.Holds(rows) && index < |rows|
    ensures ticket == rows[index].ticket && local == rows[index].local
  {
    local := arrays.mappings[index].localPosition;
    ticket := arrays.tickets[arrays.mappings[index].ticket];
  }

  method ProcessTicket(contexts: array<TaskContext>, delegate: bool, c: nat, d: Catalogue, w: World, ticket: Ticket, local: int,
                       st: Status, ghost w0: World, ghost v0: View, ghost ops: seq<nat>, ghost sts: seq<Status>, ghost v: View)
    returns (w': World, ghost v': View)
    requires c < |ops| == |sts| && c < contexts.Length && ticket == TicketOf(d, ops[c]) && local == 0 && st == sts[c]
    requires delegate ==> Contexts(d, contexts[..], ops, c)
    requires Processing(d, w0, v0, ops, sts, w, v, c, Released(delegate, c)) && delegate == w0.delegate
    modifies contexts
    ensures delegate ==> Contexts(d, contexts[..], ops, c + 1)
    ensures Processing(d, w0, v0, ops, sts, w', v', c + 1, Released(delegate, c + 1))
  {
    StoreNext(d, w0, v0, ops, sts, w, v, c, Released(delegate, c));
    w' := StoreStatus(d, w, ticket, local, st);
    v' := v;
    if delegate {
      contexts[c] := ticket.ctx;
    } else {
      SignalNext(d, w0, v0, ops, sts, w', v', c + 1, c);
      w', v' := Signal(w', ticket.ctx, false), v'.(inflight := v'.inflight - {ops[c]});
    }
  }

  /** All completions of the slice. */
  method ProcessSlice(arrays: Arrays, contexts: array<TaskContext>, delegate: bool, checked: nat, completed: nat, n: nat,
                      d: Catalogue, w: World, ghost v: View, ghost ops: seq<nat>, ghost sts: seq<Status>,
                      ghost done: seq<int>, ghost at: seq<int>)
    returns (w': World, ghost v': View)
    requires arrays.Shape() && arrays.Holds(v.rows) && Slots(d, v.rows, at, ops)
    requires |done| == completed && |at| == n == |sts| && completed + n <= CAPACITY && n <= contexts.Length == BATCH
    requires contexts as object != arrays.indices && contexts as object != arrays.statuses && contexts as object != arrays.mappings
    requires contexts as object != arrays.requests && contexts as object != arrays.tickets
    requires Offset(arrays.indices[..], done, at, checked, 0) && arrays.statuses[..n] == sts
    requires Processing(d, w, v, ops, sts, w, v, 0, 0) && delegate == w.delegate
    modifies arrays.indices, contexts
    ensures arrays.indices[..completed + n] == done + at
    ensures Processing(d, w, v, ops, sts, w', v', n, n)
  {
    w', v' := w, v;
    for c := 0 to n
      invariant Offset(arrays.indices[..], done, at, checked, c) && arrays.statuses[..n] == sts
      invariant arrays.Holds(v.rows) && (delegate ==> Contexts(d, contexts[..], ops, c))
      invariant Processing(d, w, v, ops, sts, w', v', c, Released(delegate, c))
    {
      w', v' := ProcessEntry(arrays, contexts, delegate, checked, completed, c, d, w', w, v, ops, sts, v', done, at);
    }
    assert at[..n] == at && arrays.indices[..][..completed + n] == arrays.indices[..completed + n];
    if delegate && n > 0 {
      w', v' := TransferContexts(d, w', contexts, n, w, v, ops, sts, v');
    }
  }

  // -------------------------------------------------------------------- all slices

  /** The slots below `checked` have been tested and `done` are those that completed. */
  ghost predicate Swept(d: Catalogue, w0: World, w: World, v: View, done: seq<int>, checked: nat) {
    && checked <= |v.rows| && |done| <= checked && Ascending(done, checked) && v.holes == Elems(done)
    && v.inflight == {} && v.held == {}
    && Ran(w0, w, 0, |done|) && w.ops.Keys == w0.ops.Keys
  }

  lemma SweptNoHoles(d: Catalogue, w0: World, w: World, v: View, done: seq<int>, checked: nat)
    requires Swept(d, w0, w, v, done, checked)
    ensures NoHoles(v, checked)
  {
  }

  lemma SweptMore(d: Catalogue, w0: World, w: World, v: View, done: seq<int>, checked: nat, count: nat,
                  rows': seq<Row>, at: seq<int>, ops: seq<nat>, sts: seq<Status>, m': State, w': World, v': View)
    requires Swept(d, w0, w, v, done, checked) && checked + count <= |v.rows| == |rows'|
    requires Ascending(at, checked + count) && |at| <= count && (forall c :: 0 <= c < |at| ==> at[c] >= checked)
    requires |at| == |ops| && m'.finished == w.mpi.finished
    requires Done(d, w.(mpi := m'), Detached(v, rows', at, ops), ops, sts, w', v', |ops|, |ops|)
    ensures Swept(d, w0, w', v', done + at, checked + count) && v'.rows == rows'
  {
    assert ops[..|ops|] == ops;
    assert Elems(done + at) == Elems(done) + Elems(at);
    assert v'.inflight == {};
    assert Ran(w, w', 0, |at|);
    RanOn(w0, w, w', 0, |done|, 0, |at|);
    forall c, e | 0 <= c < e < |done + at| ensures (done + at)[c] < (done + at)[e] {
    }
  }

  /** The rows after a test of some of their requests. */
  lemma HoldsTested(arrays: Arrays, rows: seq<Row>, from: nat, before: seq<Request>, rs': seq<Request>)
    requires arrays.Shape() && |rows| <= CAPACITY == |before| && from + |rs'| <= |rows|
    requires forall i :: 0 <= i < |rows| ==> arrays.mappings[i].ticket == i
    requires forall i :: 0 <= i < |rows| ==> rows[i] == Row(before[i], arrays.tickets[i], arrays.mappings[i].localPosition)
    requires arrays.requests[from..from + |rs'|] == rs'
    requires forall i :: 0 <= i < CAPACITY && !(from <= i < from + |rs'|) ==> arrays.requests[i] == before[i]
    ensures arrays.Holds(WithRequests(rows, from, rs'))
  {
    forall i | 0 <= i < |rows|
      ensures WithRequests(rows, from, rs')[i] == Row(arrays.requests[i], arrays.tickets[i], arrays.mappings[i].localPosition)
    {
      if from <= i < from + |rs'| {
        assert arrays.requests[i] == rs'[i - from];
      }
    }
  }

  lemma OffsetStarts(indices: seq<int>, done: seq<int>, idx: seq<int>, checked: nat)
    requires |done| + |idx| <= |indices| && indices[..|done|] == done && indices[|done|..|done| + |idx|] == idx
    ensures Offset(indices, done, Shifted(idx, checked), checked, 0)
  {
    forall k | 0 <= k < |idx| ensures indices[|done| + k] == idx[k] {
      assert indices[|done|..|done| + |idx|][k] == idx[k];
    }
  }

  /** The test call on slots [checked, checked + count). All their requests are active. */
  method TestSlice(approach: Testing.Approach, arrays: Arrays, checked: nat, count: nat, completed: nat,
                   ghost d: Catalogue, w: World, ghost v: View, ghost done: seq<int>)
    returns (n: nat, m': State, ghost rs: seq<Request>, ghost rs': seq<Request>, ghost idx: seq<int>, ghost sts: seq<Status>)
    requires arrays.Shape() && arrays.Holds(v.rows) && PlacesOk(d, w, v) && NoHoles(v, checked)
    requires 0 < count <= BATCH && checked + count <= |v.rows|
    requires completed == |done| <= checked && arrays.indices[..completed] == done
    modifies arrays.requests, arrays.indices, arrays.statuses
    ensures n <= count == |rs| && |idx| == n == |sts| && (approach.None? ==> n == 0)
    ensures SliceTested(w, v, checked, rs, m', rs', idx, sts)
    ensures n == 0 && !approach.None? ==> NoneFinished(w.mpi, rs)
    ensures arrays.Holds(WithRequests(v.rows, checked, rs'))
    ensures Offset(arrays.indices[..], done, Shifted(idx, checked), checked, 0) && arrays.statuses[..n] == sts
  {
    ghost var before, indices := arrays.requests[..], arrays.indices[..];
    rs := arrays.requests[checked..checked + count];
    assert RequestsFrom(v.rows, checked, rs);
    LiveRequests(d, w, v, checked, checked + count, rs);
    n, m' := Testing.TestRequests(approach, w.mpi, count, arrays.requests, checked, arrays.indices, completed, arrays.statuses);
    rs', idx, sts := arrays.requests[checked..checked + count], arrays.indices[completed..completed + n], arrays.statuses[..n];
    HoldsTested(arrays, v.rows, checked, before, rs');
    assert arrays.indices[..][..completed] == done && arrays.indices[..][completed..completed + n] == idx;
    OffsetStarts(arrays.indices[..], done, idx, checked);
  }

  lemma SliceUnfinished(w: World, rows: seq<Row>, checked: nat, rs: seq<Request>, idx: seq<int>, w': World)
    requires RequestsFrom(rows, checked, rs) && NoneFinished(w.mpi, rs) && Unfinished(w, rows, 0, checked)
    requires idx == [] && Chosen(rs, idx) && w'.mpi.finished == w.mpi.finished
    ensures Unfinished(w', WithRequests(rows, checked, Nulled(rs, idx)), 0, checked + |rs|)
  {
    forall i | checked <= i < checked + |rs| && rows[i].request.Req? ensures rows[i].request.id !in w.mpi.finished {
      assert rs[i - checked] == rows[i].request;
    }
  }

  /** One iteration of the slice loop. */
  method CheckSlice(approach: Testing.Approach, delegate: bool, arrays: Arrays, contexts: array<TaskContext>,
                    checked: nat, count: nat, completed: nat,
                    d: Catalogue, w: World, ghost w0: World, ghost v: View, ghost done: seq<int>)
    returns (w': World, n: nat, ghost v': View, ghost done': seq<int>)
    requires arrays.Shape() && arrays.Holds(v.rows) && Inv(d, w, v) && Swept(d, w0, w, v, done, checked)
    requires 0 < count <= BATCH && checked + count <= |v.rows| && delegate == w0.delegate
    requires completed == |done| && arrays.indices[..completed] == done && contexts.Length == BATCH
    requires contexts as object != arrays.indices && contexts as object != arrays.statuses && contexts as object != arrays.mappings
    requires contexts as object != arrays.requests && contexts as object != arrays.tickets
    modifies arrays.requests, arrays.indices, arrays.statuses, contexts
    ensures completed + n == |done'| <= CAPACITY && arrays.indices[..completed + n] == done'
    ensures arrays.Holds(v'.rows) && |v'.rows| == |v.rows|
    ensures Inv(d, w', v') && Swept(d, w0, w', v', done', checked + count)
    ensures n == 0 && !approach.None? && Unfinished(w, v.rows, 0, checked) ==> Unfinished(w', v'.rows, 0, checked + count)
  {
    var m';
    ghost var rs, rs', idx, sts;
    SweptNoHoles(d, w0, w, v, done, checked);
    n, m', rs, rs', idx, sts := TestSlice(approach, arrays, checked, count, completed, d, w, v, done);
    ghost var at := Shifted(idx, checked);
    ghost var ops := SliceStarts(d, w, v, checked, rs, m', rs', idx, sts, at);
    ghost var v1 := Detached(v, WithRequests(v.rows, checked, rs'), at, ops);
    w', v' := ProcessSlice(arrays, contexts, delegate, checked, completed, n, d, w.(mpi := m'), v1, ops, sts, done, at);
    SweptMore(d, w0, w, v, done, checked, count, v1.rows, at, ops, sts, m', w', v');
    done' := done + at;
    if n == 0 && !approach.None? && Unfinished(w, v.rows, 0, checked) {
      SliceUnfinished(w, v.rows, checked, rs, idx, w');
    }
  }

  /** All slices in turn. */
  method CheckSlices(approach: Testing.Approach, delegate: bool, arrays: Arrays, pending: nat,
                     d: Catalogue, w: World, ghost v: View)
    returns (w': World, completed: nat, ghost v': View, ghost done: seq<int>)
    requires arrays.Shape() && arrays.Holds(v.rows) && Inv(d, w, v) && Settled(v) && pending == |v.rows| > 0 && delegate == w.delegate
    modifies arrays.requests, arrays.indices, arrays.statuses
    ensures completed == |done| <= CAPACITY && arrays.indices[..completed] == done
    ensures arrays.Holds(v'.rows) && |v'.rows| == |v.rows|
    ensures Inv(d, w', v') && Swept(d, w, w', v', done, pending)
    ensures completed == 0 && !approach.None? ==> Unfinished(w', v'.rows, 0, pending)
  {
    var contexts := new TaskContext[BATCH](_ => TaskContext(0, false, 0));
    var checked: nat := 0;
    w', completed, v', done := w, 0, v, [];
    while true
      invariant checked < pending && completed == |done| <= CAPACITY && arrays.indices[..completed] == done
      invariant arrays.Holds(v'.rows) && |v'.rows| == |v.rows|
      invariant Inv(d, w', v') && Swept(d, w, w', v', done, checked)
      invariant completed == 0 && !approach.None? ==> Unfinished(w', v'.rows, 0, checked)
      decreases pending - checked
    {
      var count := if pending - checked < BATCH then pending - checked else BATCH;
      var n;
      w', n, v', done := CheckSlice(approach, delegate, arrays, contexts, checked, count, completed, d, w', w, v', done);
      checked, completed := checked + count, completed + n;
      if checked >= pending {
        break;
      }
    }
  }

  /** After the last slice the holes are filled and nothing else is left to do. */
  lemma CompactKeeps(d: Catalogue, w0: World, w: World, v: View, done: seq<int>, src: seq<int>) returns (v': View)
    requires Inv(d, w, v) && Swept(d, w0, w, v, done, |v.rows|) && IsCompaction(|v.rows|, Elems(done), |v.rows| - |done|, src)
    ensures v' == View(Rearranged(v.rows, src), {}, {}, {}) && Inv(d, w, v')
  {
    v' := v.(rows := Rearranged(v.rows, src), holes := {});
    CompactPlaced(d, w, v, |v.rows| - |done|, src);
  }

  /** `internalCheckRequests`: every completed request has its status stored and its task
      released, once, and the others keep their slots or move down. */
  method CheckRequests(approach: Testing.Approach, delegate: bool, arrays: Arrays, pending: nat,
                       d: Catalogue, w: World, ghost v: View)
    returns (w': World, pending': nat, completed: nat, ghost v': View)
    requires arrays.Shape() && arrays.Holds(v.rows) && Inv(d, w, v) && Settled(v) && pending == |v.rows| > 0 && delegate == w.delegate
    modifies arrays.requests, arrays.indices, arrays.statuses, arrays.mappings, arrays.tickets
    ensures arrays.Holds(v'.rows) && Inv(d, w', v') && Settled(v') && pending' == |v'.rows|
    ensures completed <= pending && pending' == pending - completed
    ensures Ran(w, w', 0, completed) && w'.ops.Keys == w.ops.Keys
    ensures completed == 0 && !approach.None? ==> Unfinished(w', v'.rows, 0, pending')
  {
    ghost var v1, done;
    w', completed, v1, done := CheckSlices(approach, delegate, arrays, pending, d, w, v);
    ghost var src := arrays.Compact(pending, completed, v1.rows);
    v' := CompactKeeps(d, w, w', v1, done, src);
    if completed == 0 {
      assert forall i :: 0 <= i < pending ==> v'.rows[i] == v1.rows[i];
    }
    pending' := pending - completed;
  }
}
