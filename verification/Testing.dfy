/** The ways of testing requests: `internalTestRequests` of src/common/TicketManager.hpp. */
module Testing {
  import opened Mpi

  datatype Approach = Test | TestSome | TestAny | None

  /** The arrays that a test call writes are different ones and large enough. */
  ghost predicate Room(requests: array<Request>, rb: nat, indices: array<int>, ib: nat, statuses: array<Status>, count: nat) {
    && rb + count <= requests.Length && ib + count <= indices.Length && count <= statuses.Length
    && requests as object != indices && requests as object != statuses && indices as object != statuses
  }

  ghost predicate AllReq(rs: seq<Request>) {
    forall k :: 0 <= k < |rs| ==> rs[k].Req?
  }

  /** Records a completion found at position i of the slice. */
  method Record(indices: array<int>, ib: nat, statuses: array<Status>, completed: nat, i: int, st: Status)
    requires ib + completed < indices.Length && completed < statuses.Length && indices as object != statuses
    modifies indices, statuses
    ensures indices[ib..ib + completed + 1] == old(indices[ib..ib + completed]) + [i]
    ensures statuses[..completed + 1] == old(statuses[..completed]) + [st]
    ensures forall k :: 0 <= k < ib ==> indices[k] == old(indices[k])
  {
    statuses[completed] := st;
    indices[ib + completed] := i;
  }

  /** The state of both loops: `completed` results so far, all below `processed`. */
  ghost predicate Progress(m: State, rs: seq<Request>, m': State, rs': seq<Request>,
                           idx: seq<int>, sts: seq<Status>, processed: nat) {
    processed <= |rs| && |idx| <= processed && Ascending(idx, processed) && Tested(m, rs, m', rs', idx, sts)
  }

  lemma ProgressMore(m: State, rs: seq<Request>, m': State, rs': seq<Request>,
                     idx: seq<int>, sts: seq<Status>, processed: nat, i: nat, st: Status)
    requires Progress(m, rs, m', rs', idx, sts, processed) && processed <= i < |rs| && rs[i].Req?
    ensures rs'[i] == rs[i]
    ensures Progress(m, rs, m'.(reported := m'.reported[rs[i].id := st]), rs'[i := Null], idx + [i], sts + [st], i + 1)
  {
    NulledAt(rs, idx, i);
    TestedMore(m, rs, m', rs', idx, sts, i, st);
  }

  lemma ProgressLess(m: State, rs: seq<Request>, m': State, rs': seq<Request>,
                     idx: seq<int>, sts: seq<Status>, processed: nat)
    requires Progress(m, rs, m', rs', idx, sts, processed) && processed < |rs|
    ensures rs'[processed] == rs[processed]
    ensures Progress(m, rs, m', rs', idx, sts, processed + 1)
  {
    NulledAt(rs, idx, processed);
  }

  lemma FinishedSame(m: State, rs: seq<Request>, m': State, rs': seq<Request>, idx: seq<int>, sts: seq<Status>)
    requires Tested(m, rs, m', rs', idx, sts)
    ensures m'.finished == m.finished && (|idx| == 0 ==> rs' == rs)
  {
  }

  /** MPI_Test on every request in turn. */
  method TestEach(m: State, count: nat, requests: array<Request>, rb: nat, indices: array<int>, ib: nat, statuses: array<Status>)
    returns (completed: nat, m': State)
    requires Room(requests, rb, indices, ib, statuses, count) && AllActive(m, requests[rb..rb + count])
    modifies requests, indices, statuses
    ensures completed <= count
    ensures Tested(m, old(requests[rb..rb + count]), m', requests[rb..rb + count],
                   indices[ib..ib + completed], statuses[..completed])
    ensures AllFound(m, old(requests[rb..rb + count]), indices[ib..ib + completed], count)
    ensures forall k :: 0 <= k < requests.Length && !(rb <= k < rb + count) ==> requests[k] == old(requests[k])
    ensures forall k :: 0 <= k < ib ==> indices[k] == old(indices[k])
  {
    ghost var rs := requests[rb..rb + count];
    completed, m' := 0, m;
    TestedNone(m, rs);
    for r := 0 to count
      invariant completed <= r
      invariant Progress(m, rs, m', requests[rb..rb + count], indices[ib..ib + completed], statuses[..completed], r)
      invariant AllFound(m, rs, indices[ib..ib + completed], r)
      invariant forall k :: 0 <= k < requests.Length && !(rb <= k < rb + count) ==> requests[k] == old(requests[k])
      invariant forall k :: 0 <= k < ib ==> indices[k] == old(indices[k])
    {
      completed, m' := TestOne(m, m', r, count, requests, rb, indices, ib, statuses, completed, rs);
    }
  }

  method TestOne(ghost m: State, m0: State, r: nat, count: nat, requests: array<Request>, rb: nat,
                 indices: array<int>, ib: nat, statuses: array<Status>, done: nat, ghost rs: seq<Request>)
    returns (completed: nat, m': State)
    requires Room(requests, rb, indices, ib, statuses, count) && r < count == |rs| && rs[r].Req? && done <= r
    requires Progress(m, rs, m0, requests[rb..rb + count], indices[ib..ib + done], statuses[..done], r)
    requires AllFound(m, rs, indices[ib..ib + done], r)
    modifies requests, indices, statuses
    ensures completed <= r + 1
    ensures Progress(m, rs, m', requests[rb..rb + count], indices[ib..ib + completed], statuses[..completed], r + 1)
    ensures AllFound(m, rs, indices[ib..ib + completed], r + 1)
    ensures forall k :: 0 <= k < requests.Length && !(rb <= k < rb + count) ==> requests[k] == old(requests[k])
    ensures forall k :: 0 <= k < ib ==> indices[k] == old(indices[k])
  {
    ghost var slice, idx, sts := requests[rb..rb + count], indices[ib..ib + done], statuses[..done];
    ProgressLess(m, rs, m0, slice, idx, sts, r);
    FinishedSame(m, rs, m0, slice, idx, sts);
    FoundMore(m, rs, idx, r);
    var flag, st;
    flag, st, m' := TestAt(m0, r, count, requests, rb, slice);
    if flag {
      ProgressMore(m, rs, m0, slice, idx, sts, r, r, st);
      Record(indices, ib, statuses, done, r, st);
      return done + 1, m';
    }
    Overwrite(statuses, done, st);
    assert indices[ib..ib + done] == idx;
    return done, m';
  }

  /** Interface::test on request r of the slice. */
  method TestAt(m: State, r: nat, count: nat, requests: array<Request>, rb: nat, ghost slice: seq<Request>)
    returns (flag: bool, st: Status, m': State)
    requires rb + count <= requests.Length && slice == requests[rb..rb + count] && r < count && slice[r].Req?
    modifies requests
    ensures flag ==> requests[rb..rb + count] == slice[r := Null] && m' == m.(reported := m.reported[slice[r].id := st])
    ensures !flag ==> requests[rb..rb + count] == slice && m' == m && slice[r].id !in m.finished
    ensures forall k :: 0 <= k < requests.Length && !(rb <= k < rb + count) ==> requests[k] == old(requests[k])
  {
    assert requests[rb + r] == slice[r];
    flag, st, m' := Mpi.Test(m, requests, rb + r);
  }

  /** A test without completion leaves an undefined status behind the valid ones. */
  method Overwrite(statuses: array<Status>, done: nat, st: Status)
    requires done < statuses.Length
    modifies statuses
    ensures statuses[..done] == old(statuses[..done])
  {
    statuses[done] := st;
  }

  /** MPI_Testany on what follows the last completion, until nothing more completes. */
  method TestAnyAll(m: State, count: nat, requests: array<Request>, rb: nat, indices: array<int>, ib: nat, statuses: array<Status>)
    returns (completed: nat, m': State)
    requires Room(requests, rb, indices, ib, statuses, count) && AllActive(m, requests[rb..rb + count])
    modifies requests, indices, statuses
    ensures completed <= count
    ensures Tested(m, old(requests[rb..rb + count]), m', requests[rb..rb + count],
                   indices[ib..ib + completed], statuses[..completed])
    ensures completed == 0 && count > 0 ==> NoneFinished(m, old(requests[rb..rb + count]))
    ensures forall k :: 0 <= k < requests.Length && !(rb <= k < rb + count) ==> requests[k] == old(requests[k])
    ensures forall k :: 0 <= k < ib ==> indices[k] == old(indices[k])
  {
    ghost var rs := requests[rb..rb + count];
    completed, m' := 0, m;
    TestedNone(m, rs);
    var cont, processed := true, 0;
    while cont && processed < count
      invariant completed <= processed <= count
      invariant completed == 0 ==> processed == 0 && (!cont ==> NoneFinished(m, rs))
      invariant Progress(m, rs, m', requests[rb..rb + count], indices[ib..ib + completed], statuses[..completed], processed)
      invariant forall k :: 0 <= k < requests.Length && !(rb <= k < rb + count) ==> requests[k] == old(requests[k])
      invariant forall k :: 0 <= k < ib ==> indices[k] == old(indices[k])
      decreases count - processed, cont
    {
      cont, processed, completed, m' :=
        TestAnyOne(m, m', processed, count, requests, rb, indices, ib, statuses, completed, rs);
    }
  }

  method TestAnyOne(ghost m: State, m0: State, start: nat, count: nat, requests: array<Request>, rb: nat,
                    indices: array<int>, ib: nat, statuses: array<Status>, done: nat, ghost rs: seq<Request>)
    returns (cont: bool, processed: nat, completed: nat, m': State)
    requires Room(requests, rb, indices, ib, statuses, count) && start < count == |rs| && AllReq(rs) && done <= start
    requires Progress(m, rs, m0, requests[rb..rb + count], indices[ib..ib + done], statuses[..done], start)
    modifies requests, indices, statuses
    ensures completed <= processed <= count && (if cont then processed > start else processed == start)
    ensures completed == if cont then done + 1 else done
    ensures !cont && start == 0 ==> NoneFinished(m, rs)
    ensures Progress(m, rs, m', requests[rb..rb + count], indices[ib..ib + completed], statuses[..completed], processed)
    ensures forall k :: 0 <= k < requests.Length && !(rb <= k < rb + count) ==> requests[k] == old(requests[k])
    ensures forall k :: 0 <= k < ib ==> indices[k] == old(indices[k])
  {
    ghost var slice, idx, sts := requests[rb..rb + count], indices[ib..ib + done], statuses[..done];
    ProgressLess(m, rs, m0, slice, idx, sts, start);
    var index, st;
    cont, index, st, m' := AnyFrom(m0, start, count, requests, rb, slice);
    if cont {
      ProgressMore(m, rs, m0, slice, idx, sts, start, index, st);
      Record(indices, ib, statuses, done, index, st);
      ghost var slice', idx', sts' := slice[index := Null], idx + [index], sts + [st];
      assert requests[rb..rb + count] == slice' && indices[ib..ib + done + 1] == idx' && statuses[..done + 1] == sts';
      return cont, index + 1, done + 1, m';
    }
    FinishedSame(m, rs, m0, slice, idx, sts);
    Overwrite(statuses, done, st);
    assert indices[ib..ib + done] == idx;
    return cont, start, done, m';
  }

  /** Interface::testany on what follows `start`, with the index counted from the slice. */
  method AnyFrom(m: State, start: nat, count: nat, requests: array<Request>, rb: nat, ghost slice: seq<Request>)
    returns (cont: bool, index: int, st: Status, m': State)
    requires rb + count <= requests.Length && slice == requests[rb..rb + count] && start < count && slice[start].Req?
    modifies requests
    ensures cont ==>
              && start <= index < count && slice[index].Req? && requests[rb..rb + count] == slice[index := Null]
              && m' == m.(reported := m.reported[slice[index].id := st])
    ensures !cont ==> m' == m && requests[rb..rb + count] == slice && (start == 0 ==> NoneFinished(m, slice))
    ensures forall k :: 0 <= k < requests.Length && !(rb <= k < rb + count) ==> requests[k] == old(requests[k])
  {
    var from, n := rb + start, count - start;
    assert requests[from] == slice[start];
    assert requests[from..from + n] == slice[start..];
    var failed;
    failed, cont, index, st, m' := Mpi.Testany(m, requests, from, n);
    assert !failed;
    ghost var rest := requests[from..from + n];
    forall k | 0 <= k < count ensures requests[rb + k] == if k < start then slice[k] else rest[k - start] {
      assert k >= start ==> rest[k - start] == requests[from + (k - start)];
    }
    index := index + start;
  }

  /** MPI_Testany may pass over finished requests: of two that have finished, the call may
      report the second, and the loop then goes on behind it. */
  lemma AnyPassesOver(m: State, st: Status) returns (rs: seq<Request>, m': State, rs': seq<Request>)
    requires m.issued >= 2 && 0 !in m.reported && 1 !in m.reported && 0 in m.finished && 1 in m.finished
    ensures AllActive(m, rs) && |rs| == 2 && AnyAllowed(m, rs, true, 1, st, m', rs')
    ensures Progress(m, rs, m', rs', [1], [st], |rs|)
    ensures Active(m', rs'[0]) && rs'[0].id in m'.finished
  {
    rs := [Req(0), Req(1)];
    m', rs' := m.(reported := m.reported[1 := st]), rs[1 := Null];
    TestedNone(m, rs);
    TestedMore(m, rs, m, rs, [], [], 1, st);
    assert [] + [1] == [1] && [] + [st] == [st];
  }

  /** Whatever the approach, given active requests the call completes some of them in
      ascending order with the status that MPI reports for each, and none of the "unexpected
      output" aborts is reachable. */
  method TestRequests(approach: Approach, m: State, count: nat, requests: array<Request>, rb: nat,
                      indices: array<int>, ib: nat, statuses: array<Status>)
    returns (completed: nat, m': State)
    requires Room(requests, rb, indices, ib, statuses, count) && count > 0 && AllActive(m, requests[rb..rb + count])
    modifies requests, indices, statuses
    ensures completed <= count && (approach.None? ==> completed == 0)
    ensures Tested(m, old(requests[rb..rb + count]), m', requests[rb..rb + count],
                   indices[ib..ib + completed], statuses[..completed])
    ensures approach.Test? || approach.TestSome? ==> AllFound(m, old(requests[rb..rb + count]), indices[ib..ib + completed], count)
    ensures completed == 0 && !approach.None? ==> NoneFinished(m, old(requests[rb..rb + count]))
    ensures forall k :: 0 <= k < requests.Length && !(rb <= k < rb + count) ==> requests[k] == old(requests[k])
    ensures forall k :: 0 <= k < ib ==> indices[k] == old(indices[k])
  {
    if approach == TestSome {
      assert requests[rb..rb + count][0] == requests[rb];
      var failed;
      failed, completed, m' := Mpi.Testsome(m, requests, rb, count, indices, ib, statuses);
      assert !failed;
      if completed == 0 {
        NoneFound(m, old(requests[rb..rb + count]));
      }
    } else if approach == TestAny {
      completed, m' := TestAnyAll(m, count, requests, rb, indices, ib, statuses);
    } else if approach == Test {
      completed, m' := TestEach(m, count, requests, rb, indices, ib, statuses);
      if completed == 0 {
        NoneFound(m, old(requests[rb..rb + count]));
      }
    } else {
      completed, m' := 0, m;
      TestedNone(m, requests[rb..rb + count]);
    }
  }
}
