/**
  MPI as the ticket manager sees it: an oracle that issues requests and decides which of
  them complete, with the contracts of MPI_Test (section 3.7.3 of MPI 3.0) and of
  MPI_Testany and MPI_Testsome (section 3.7.5). The wrappers that abort on unexpected
  output are those of src/common/Interface.hpp. MPI_Testsome is taken to return its
  indices in ascending order.
 */
module Mpi {

  datatype Request = Null | Req(id: nat)

  datatype Status = Status(source: int, tag: int, error: int)

  const EMPTY_STATUS := Status(-1, -1, 0)
  const UNDEFINED: int := -1

  /** Requests 0..issued-1 exist; those in `reported` have completed with that status. A test
      finds those in `finished`, and may find others that have finished since. */
  datatype State = State(issued: nat, reported: map<nat, Status>, finished: set<nat>)

  predicate Active(m: State, r: Request) {
    r.Req? && r.id < m.issued && r.id !in m.reported
  }

  /** The handles of a request array: each is null or names an active request, once. */
  ghost predicate Handles(m: State, rs: seq<Request>) {
    && (forall k :: 0 <= k < |rs| && rs[k].Req? ==> Active(m, rs[k]))
    && (forall j, k :: 0 <= j < k < |rs| && rs[j].Req? ==> rs[j] != rs[k])
  }

  ghost predicate AllActive(m: State, rs: seq<Request>) {
    Handles(m, rs) && forall k :: 0 <= k < |rs| ==> rs[k].Req?
  }

  ghost predicate Ascending(idx: seq<int>, n: int) {
    && (forall c :: 0 <= c < |idx| ==> 0 <= idx[c] < n)
    && (forall c, d :: 0 <= c < d < |idx| ==> idx[c] < idx[d])
  }

  /** The indices name requests of the array. */
  ghost predicate Chosen(rs: seq<Request>, idx: seq<int>) {
    Ascending(idx, |rs|) && forall c :: 0 <= c < |idx| ==> rs[idx[c]].Req?
  }

  ghost predicate NoneFinished(m: State, rs: seq<Request>) {
    forall k :: 0 <= k < |rs| && rs[k].Req? ==> rs[k].id !in m.finished
  }

  /** Every finished request among the first n is chosen. */
  ghost predicate AllFound(m: State, rs: seq<Request>, idx: seq<int>, n: nat) {
    forall k {:trigger Found(idx, k)} :: 0 <= k < n && k < |rs| && rs[k].Req? && rs[k].id in m.finished ==> Found(idx, k)
  }

  ghost predicate Found(idx: seq<int>, k: int) {
    exists c :: 0 <= c < |idx| && idx[c] == k
  }

  lemma FoundMore(m: State, rs: seq<Request>, idx: seq<int>, r: nat)
    requires r < |rs| && AllFound(m, rs, idx, r)
    ensures AllFound(m, rs, idx + [r], r + 1)
    ensures rs[r].Null? || rs[r].id !in m.finished ==> AllFound(m, rs, idx, r + 1)
  {
    assert (idx + [r])[|idx|] == r;
    forall k | 0 <= k < r && rs[k].Req? && rs[k].id in m.finished ensures Found(idx + [r], k) {
      assert Found(idx, k);
      var c :| 0 <= c < |idx| && idx[c] == k;
      assert (idx + [r])[c] == k;
    }
  }

  lemma NoneFound(m: State, rs: seq<Request>)
    requires AllFound(m, rs, [], |rs|)
    ensures NoneFinished(m, rs)
  {
    forall k | 0 <= k < |rs| && rs[k].Req? ensures rs[k].id !in m.finished {
      assert !Found([], k);
    }
  }

  /** Completed handles are set to null. */
  ghost function Nulled(rs: seq<Request>, idx: seq<int>): (r: seq<Request>)
    requires Chosen(rs, idx)
    ensures |r| == |rs|
  {
    if idx == [] then rs
    else
      var n := |idx| - 1;
      Nulled(rs, idx[..n])[idx[n] := Null]
  }

  lemma {:induction false} NulledAt(rs: seq<Request>, idx: seq<int>, k: nat)
    requires Chosen(rs, idx) && k < |rs|
    ensures Nulled(rs, idx)[k] == if k in idx then Null else rs[k]
  {
    if idx != [] {
      var n := |idx| - 1;
      NulledAt(rs, idx[..n], k);
      assert idx == idx[..n] + [idx[n]];
    }
  }

  /** MPI's record after reporting status sts[c] for request rs[idx[c]]. */
  ghost function Reported(m: State, rs: seq<Request>, idx: seq<int>, sts: seq<Status>): (r: State)
    requires Chosen(rs, idx) && |idx| == |sts|
    ensures r.issued == m.issued && r.finished == m.finished
  {
    if idx == [] then m
    else
      var n := |idx| - 1;
      var before := Reported(m, rs, idx[..n], sts[..n]);
      before.(reported := before.reported[rs[idx[n]].id := sts[n]])
  }

  /** What a test call did to the requests rs. */
  ghost predicate Tested(m: State, rs: seq<Request>, m': State, rs': seq<Request>, idx: seq<int>, sts: seq<Status>) {
    && Chosen(rs, idx) && |idx| == |sts|
    && rs' == Nulled(rs, idx) && m' == Reported(m, rs, idx, sts)
  }

  lemma {:induction false} ReportedAt(m: State, rs: seq<Request>, idx: seq<int>, sts: seq<Status>)
    requires Handles(m, rs) && Chosen(rs, idx) && |idx| == |sts|
    ensures var r := Reported(m, rs, idx, sts).reported;
            && (forall id :: id in m.reported ==> id in r && r[id] == m.reported[id])
            && (forall c :: 0 <= c < |idx| ==> rs[idx[c]].id in r && r[rs[idx[c]].id] == sts[c])
            && (forall id :: id in r && id !in m.reported ==> exists c :: 0 <= c < |idx| && rs[idx[c]].id == id)
  {
    if idx != [] {
      var n := |idx| - 1;
      ReportedAt(m, rs, idx[..n], sts[..n]);
      assert forall c :: 0 <= c < n ==> idx[..n][c] == idx[c];
      assert Active(m, rs[idx[n]]);
    }
  }

  /** Requests that a test call did not choose are still as they were. */
  lemma StillActive(m: State, rs: seq<Request>, m': State, rs': seq<Request>, idx: seq<int>, sts: seq<Status>)
    requires Handles(m, rs) && Tested(m, rs, m', rs', idx, sts)
    ensures Handles(m', rs')
    ensures forall r :: Active(m, r) && (forall k :: 0 <= k < |rs| ==> rs[k] != r) ==> Active(m', r)
  {
    ReportedAt(m, rs, idx, sts);
    forall k | 0 <= k < |rs| ensures rs'[k] == if k in idx then Null else rs[k] {
      NulledAt(rs, idx, k);
    }
  }

  lemma TestedNone(m: State, rs: seq<Request>)
    ensures Tested(m, rs, m, rs, [], [])
  {
  }

  /** One more completion at index i, beyond those chosen so far. */
  lemma TestedMore(m: State, rs: seq<Request>, m': State, rs': seq<Request>, idx: seq<int>, sts: seq<Status>, i: int, st: Status)
    requires Tested(m, rs, m', rs', idx, sts)
    requires Ascending(idx, i) && 0 <= i < |rs| && rs[i].Req?
    ensures Tested(m, rs, m'.(reported := m'.reported[rs[i].id := st]), rs'[i := Null], idx + [i], sts + [st])
  {
    assert (idx + [i])[..|idx|] == idx && (sts + [st])[..|sts|] == sts;
    assert Chosen(rs, idx + [i]);
  }

  // ---------------------------------------------------------------------- oracle

  /** A non-blocking operation: some libraries return the null request at once. */
  method NewRequest(m: State, isNull: bool) returns (r: Request, m': State)
    ensures r == Null <==> isNull
    ensures (r == Null && m' == m) || (r == Req(m.issued) && m' == m.(issued := m.issued + 1))
  {
    if isNull {
      r, m' := Null, m;
    } else {
      r, m' := Req(m.issued), m.(issued := m.issued + 1);
    }
  }

  /** MPI_Test on one handle. Without completion the status is undefined. */
  method Test(m: State, requests: array<Request>, k: nat) returns (flag: bool, st: Status, m': State)
    requires k < requests.Length
    modifies requests
    ensures old(requests[k]) == Null ==> flag && st == EMPTY_STATUS && m' == m && requests[..] == old(requests[..])
    ensures old(requests[k]).Req? && flag ==>
              && m' == m.(reported := m.reported[old(requests[k]).id := st])
              && requests[..] == old(requests[..])[k := Null]
    ensures !flag ==> m' == m && requests[..] == old(requests[..]) && old(requests[k]).id !in m.finished
  {
    if requests[k] == Null {
      return true, EMPTY_STATUS, m;
    }
    st := *;
    flag := *;
    flag := flag || requests[k].id in m.finished;
    m' := m;
    if flag {
      m' := m.(reported := m.reported[requests[k].id := st]);
      requests[k] := Null;
    }
  }

  /** What MPI_Testany may answer about the requests rs, some of them active: nothing, if none
      has finished, or any one of them. */
  ghost predicate AnyAllowed(m: State, rs: seq<Request>, flag: bool, index: int, st: Status, m': State, rs': seq<Request>) {
    if flag then
      && 0 <= index < |rs| && rs[index].Req? && rs' == rs[index := Null]
      && m' == m.(reported := m.reported[rs[index].id := st])
    else m' == m && rs' == rs && NoneFinished(m, rs)
  }

  /** Interface::testany over `count` handles from `from` on; `failed` is its abort. */
  method Testany(m: State, requests: array<Request>, from: nat, count: nat)
    returns (failed: bool, flag: bool, index: int, st: Status, m': State)
    requires from + count <= requests.Length
    modifies requests
    ensures failed <==> forall k :: from <= k < from + count ==> old(requests[k]) == Null
    ensures failed ==> m' == m && requests[..] == old(requests[..])
    ensures !failed ==> AnyAllowed(m, old(requests[from..from + count]), flag, index, st, m', requests[from..from + count])
    ensures forall k :: 0 <= k < requests.Length && !(from <= k < from + count) ==> requests[k] == old(requests[k])
  {
    index, flag, st, m', failed := UNDEFINED, true, EMPTY_STATUS, m, true;
    if k :| from <= k < from + count && requests[k].Req? {
      failed, flag, st := false, *, *;
      flag := flag || exists j :: from <= j < from + count && requests[j].Req? && requests[j].id in m.finished;
      if flag {
        index := k - from;
        m' := m.(reported := m.reported[requests[k].id := st]);
        requests[k] := Null;
      }
    }
  }

  /** Any ascending choice of active requests, each with any status. */
  method ChooseSome(m: State, rs: seq<Request>) returns (idx: seq<int>, sts: seq<Status>, m': State)
    ensures Chosen(rs, idx) && |idx| == |sts| <= |rs| && m' == Reported(m, rs, idx, sts)
    ensures AllFound(m, rs, idx, |rs|)
  {
    idx, sts, m' := [], [], m;
    TestedNone(m, rs);
    for r := 0 to |rs|
      invariant |idx| <= r && Ascending(idx, r)
      invariant Chosen(rs, idx) && Tested(m, rs, m', Nulled(rs, idx), idx, sts) && AllFound(m, rs, idx, r)
    {
      FoundMore(m, rs, idx, r);
      if rs[r].Req? {
        var found: bool := *;
        if found || rs[r].id in m.finished {
          var st: Status := *;
          TestedMore(m, rs, m', Nulled(rs, idx), idx, sts, r, st);
          idx, sts, m' := idx + [r], sts + [st], m'.(reported := m'.reported[rs[r].id := st]);
        }
      }
    }
  }

  /** Interface::testsome over `count` handles from `from` on; `failed` is its abort. */
  method Testsome(m: State, requests: array<Request>, from: nat, count: nat,
                  indices: array<int>, at: nat, statuses: array<Status>)
    returns (failed: bool, completed: nat, m': State)
    requires from + count <= requests.Length && at + count <= indices.Length && count <= statuses.Length
    requires requests as object != indices && requests as object != statuses && indices as object != statuses
    modifies requests, indices, statuses
    ensures failed <==> forall k :: from <= k < from + count ==> old(requests[k]) == Null
    ensures completed <= count
    ensures Tested(m, old(requests[from..from + count]), m', requests[from..from + count],
                   indices[at..at + completed], statuses[..completed])
    ensures AllFound(m, old(requests[from..from + count]), indices[at..at + completed], count)
    ensures forall k :: 0 <= k < requests.Length && !(from <= k < from + count) ==> requests[k] == old(requests[k])
    ensures forall k :: 0 <= k < at ==> indices[k] == old(indices[k])
  {
    var rs := requests[from..from + count];
    failed := forall k :: from <= k < from + count ==> requests[k] == Null;
    var idx, sts;
    idx, sts, m' := ChooseSome(m, rs);
    completed := |idx|;
    PutResults(indices, at, statuses, idx, sts);
    SetNull(requests, from, rs, idx);
  }

  method PutResults(indices: array<int>, at: nat, statuses: array<Status>, idx: seq<int>, sts: seq<Status>)
    requires |idx| == |sts| && at + |idx| <= indices.Length && |sts| <= statuses.Length
    requires indices as object != statuses
    modifies indices, statuses
    ensures indices[at..at + |idx|] == idx && statuses[..|sts|] == sts
    ensures forall k :: 0 <= k < at ==> indices[k] == old(indices[k])
  {
    for c := 0 to |idx|
      invariant indices[at..at + c] == idx[..c] && statuses[..c] == sts[..c]
      invariant forall k :: 0 <= k < at ==> indices[k] == old(indices[k])
    {
      indices[at + c] := idx[c];
      statuses[c] := sts[c];
    }
  }

  method SetNull(requests: array<Request>, from: nat, ghost rs: seq<Request>, idx: seq<int>)
    requires from + |rs| <= requests.Length && requests[from..from + |rs|] == rs && Chosen(rs, idx)
    modifies requests
    ensures requests[from..from + |rs|] == Nulled(rs, idx)
    ensures forall k :: 0 <= k < requests.Length && !(from <= k < from + |rs|) ==> requests[k] == old(requests[k])
  {
    for c := 0 to |idx|
      invariant forall k :: 0 <= k < requests.Length && !(from <= k < from + |rs|) ==> requests[k] == old(requests[k])
      invariant Chosen(rs, idx[..c]) && requests[from..from + |rs|] == Nulled(rs, idx[..c])
    {
      assert idx[..c + 1][..c] == idx[..c];
      requests[from + idx[c]] := Null;
    }
    assert idx[..|idx|] == idx;
  }
}
