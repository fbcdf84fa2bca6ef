/**
  The phases of `transferOperations` (src/common/TicketManager.hpp): a batch of operations is
  issued, tested at once, and split into completed and pending ones.
 */
module Transfer {
  import opened Basics
  import opened Mpi
  import opened Internals
  import opened World
  import opened Completion
  import Testing

  // ------------------------------------------------------------------ the partition

  /** Where an entry of the batch is noted: at r in `req2entry` or at c in `complentries`. */
  datatype Where = AsRequest(r: nat) | AsCompleted(c: nat)

  /** Every entry is noted at exactly one place; a negative request entry notes nothing. */
  ghost predicate Split(places: seq<Where>, req2entry: seq<int>, complentries: seq<int>) {
    && (forall e :: 0 <= e < |places| ==>
          match places[e]
          case AsRequest(r) => r < |req2entry| && req2entry[r] == e
          case AsCompleted(c) => c < |complentries| && complentries[c] == e)
    && (forall r :: 0 <= r < |req2entry| && req2entry[r] >= 0 ==>
          req2entry[r] < |places| && places[req2entry[r]] == AsRequest(r))
    && (forall c :: 0 <= c < |complentries| ==>
          0 <= complentries[c] < |places| && places[complentries[c]] == AsCompleted(c))
  }

  lemma SplitRequest(places: seq<Where>, r2e: seq<int>, ce: seq<int>)
    requires Split(places, r2e, ce)
    ensures Split(places + [AsRequest(|r2e|)], r2e + [|places|], ce)
  {
  }

  lemma SplitCompleted(places: seq<Where>, r2e: seq<int>, ce: seq<int>)
    requires Split(places, r2e, ce)
    ensures Split(places + [AsCompleted(|ce|)], r2e, ce + [|places|])
  {
  }

  lemma SplitMoved(places: seq<Where>, r2e: seq<int>, ce: seq<int>, r: nat)
    requires Split(places, r2e, ce) && r < |r2e| && r2e[r] >= 0
    ensures Split(places[r2e[r] := AsCompleted(|ce|)], r2e[r := -1], ce + [r2e[r]])
  {
  }

  ghost predicate NonNegatives(s: seq<int>) {
    forall k :: 0 <= k < |s| ==> s[k] >= 0
  }

  function NonNegative(s: seq<int>): nat {
    if s == [] then 0 else NonNegative(s[..|s| - 1]) + if s[|s| - 1] >= 0 then 1 else 0
  }

  lemma {:induction false} NonNegativeUpdate(s: seq<int>, r: nat)
    requires r < |s| && s[r] >= 0
    ensures NonNegative(s[r := -1]) == NonNegative(s) - 1
  {
    var n := |s| - 1;
    if r == n {
      assert s[r := -1][..n] == s[..n];
    } else {
      assert s[r := -1][..n] == s[..n][r := -1];
      NonNegativeUpdate(s[..n], r);
    }
  }

  lemma {:induction false} NonNegativeAll(s: seq<int>)
    requires NonNegatives(s)
    ensures NonNegative(s) == |s|
  {
    if s != [] {
      NonNegativeAll(s[..|s| - 1]);
    }
  }

  lemma {:induction false} NonNegativeAtMost(s: seq<int>)
    ensures NonNegative(s) <= |s|
  {
    if s != [] {
      NonNegativeAtMost(s[..|s| - 1]);
    }
  }

  lemma NonNegativeNext(s: seq<int>, r: nat)
    requires r < |s|
    ensures NonNegative(s[..r + 1]) == NonNegative(s[..r]) + if s[r] >= 0 then 1 else 0
  {
    assert s[..r + 1][..r] == s[..r];
  }

  // ------------------------------------------------------------------------ issuing

  /** The first n operations of the batch are issued: those with a request wait for it,
      the others have completed. */
  ghost predicate Entries(w: World, v: View, batch: seq<nat>, n: nat, rs: seq<Request>, r2e: seq<int>, ce: seq<int>) {
    && n <= |batch| && |rs| == |r2e|
    && (forall e :: 0 <= e < n ==> batch[e] in v.inflight && batch[e] in w.ops && !w.ops[batch[e]].stored && !w.ops[batch[e]].appended)
    && (forall r :: 0 <= r < |r2e| ==>
          0 <= r2e[r] < n && rs[r] == w.ops[batch[r2e[r]]].request && Active(w.mpi, rs[r]))
    && (forall c :: 0 <= c < |ce| ==> 0 <= ce[c] < n && w.ops[batch[ce[c]]].request == Null)
  }

  /** What the issue loop has done to the world. */
  ghost predicate Issuing(d: Catalogue, w0: World, v0: View, batch: seq<nat>, n: nat, w: World, v: View) {
    && n <= |batch| && Distinct(batch) && Ran(w0, w, n, 0) && IssuedOps(w.log) == IssuedOps(w0.log) + batch[..n]
    && v.rows == v0.rows && v.holes == v0.holes
    && v.inflight == v0.inflight + Elems(batch[..n]) && v.held == v0.held + Elems(batch[..n])
    && w.ops.Keys == w0.ops.Keys + Elems(batch[..n])
    && (forall e :: 0 <= e < |batch| ==> batch[e] !in w0.ops)
  }

  lemma NotYetIssued(d: Catalogue, w0: World, v0: View, batch: seq<nat>, n: nat, w: World, v: View)
    requires Issuing(d, w0, v0, batch, n, w, v) && n < |batch|
    ensures batch[n] !in w.ops
  {
  }

  lemma IssuingNext(d: Catalogue, w0: World, v0: View, batch: seq<nat>, n: nat, w: World, v: View, r: Request, m': State)
    requires Issuing(d, w0, v0, batch, n, w, v) && n < |batch|
    requires Ran(w, Issue(w, batch[n], r, m'), 1, 0)
    ensures Issuing(d, w0, v0, batch, n + 1, Issue(w, batch[n], r, m'),
                    Taken(v, batch[n]))
  {
    RanOn(w0, w, Issue(w, batch[n], r, m'), n, 0, 1, 0);
    ElemsNext(batch, n);
    IssuedOpsMore(w.log, Issued(batch[n], r));
    assert batch[..n + 1] == batch[..n] + [batch[n]];
  }

  lemma EntriesNext(w: World, v: View, batch: seq<nat>, n: nat, rs: seq<Request>, r2e: seq<int>, ce: seq<int>, r: Request, m': State)
    requires Entries(w, v, batch, n, rs, r2e, ce) && n < |batch| && batch[n] !in w.ops
    requires forall id :: id in w.mpi.reported ==> id < w.mpi.issued
    requires (r == Null && m' == w.mpi) || (r == Req(w.mpi.issued) && m' == w.mpi.(issued := w.mpi.issued + 1))
    ensures var w', v' := Issue(w, batch[n], r, m'), Taken(v, batch[n]);
            if r.Req? then Entries(w', v', batch, n + 1, rs + [r], r2e + [n], ce)
            else Entries(w', v', batch, n + 1, rs, r2e, ce + [n])
  {
    var w' := Issue(w, batch[n], r, m');
    forall e | 0 <= e < n ensures w'.ops[batch[e]] == w.ops[batch[e]] {
      assert batch[e] != batch[n];
    }
  }

  /** The state of the issue loop after n entries. */
  ghost predicate IssuedTo(d: Catalogue, w0: World, v0: View, batch: seq<nat>, n: nat, w: World, v: View,
                           rs: seq<Request>, r2e: seq<int>, ce: seq<int>) {
    Inv(d, w, v) && Issuing(d, w0, v0, batch, n, w, v) && Entries(w, v, batch, n, rs, r2e, ce)
  }

  function Taken(v: View, o: nat): View {
    v.(inflight := v.inflight + {o}, held := v.held + {o})
  }

  lemma IssueNext(d: Catalogue, w0: World, v0: View, batch: seq<nat>, n: nat, n': nat, w: World, v: View,
                  rs: seq<Request>, r2e: seq<int>, ce: seq<int>, r: Request, m': State)
    returns (rs': seq<Request>, r2e': seq<int>, ce': seq<int>)
    requires IssuedTo(d, w0, v0, batch, n, w, v, rs, r2e, ce) && n < |batch| && n' == n + 1 && (r == Null <==> d(batch[n]).nullRequest)
    requires (r == Null && m' == w.mpi) || (r == Req(w.mpi.issued) && m' == w.mpi.(issued := w.mpi.issued + 1))
    ensures rs' == rs + (if r != Null then [r] else []) && r2e' == r2e + (if r != Null then [n] else [])
    ensures ce' == ce + if r != Null then [] else [n]
    ensures IssuedTo(d, w0, v0, batch, n', Issue(w, batch[n], r, m'), Taken(v, batch[n]), rs', r2e', ce')
  {
    NotYetIssued(d, w0, v0, batch, n, w, v);
    IssueKeeps(d, w, v, batch[n], r, m');
    IssuingNext(d, w0, v0, batch, n, w, v, r, m');
    EntriesNext(w, v, batch, n, rs, r2e, ce, r, m');
    if r != Null {
      rs', r2e', ce' := rs + [r], r2e + [n], ce;
    } else {
      rs', r2e', ce' := rs, r2e, ce + [n];
    }
  }

  lemma NothingIssued(d: Catalogue, w: World, v: View, batch: seq<nat>)
    requires Inv(d, w, v) && Distinct(batch) && forall e :: 0 <= e < |batch| ==> batch[e] !in w.ops
    ensures IssuedTo(d, w, v, batch, 0, w, v, [], [], []) && Split([], [], [])
  {
    assert batch[..0] == [];
  }

  // ------------------------------------------------------------------------ testing

  lemma BatchActive(w: World, v: View, batch: seq<nat>, rs: seq<Request>, r2e: seq<int>, ce: seq<int>, places: seq<Where>)
    requires Entries(w, v, batch, |batch|, rs, r2e, ce) && Split(places, r2e, ce) && RequestsOk(w) && Distinct(batch)
    ensures AllActive(w.mpi, rs)
  {
    forall j, k | 0 <= j < k < |rs| ensures rs[j] != rs[k] {
      assert r2e[j] != r2e[k];
      assert batch[r2e[j]] != batch[r2e[k]];
    }
  }

  lemma BatchReported(d: Catalogue, w: World, v: View, batch: seq<nat>, rs: seq<Request>, r2e: seq<int>, ce: seq<int>,
                      m': State, rs': seq<Request>, idx: seq<int>, sts: seq<Status>)
    requires Inv(d, w, v) && Entries(w, v, batch, |batch|, rs, r2e, ce) && AllActive(w.mpi, rs)
    requires Tested(w.mpi, rs, m', rs', idx, sts)
    ensures Inv(d, w.(mpi := m'), v)
  {
    ReportedAt(w.mpi, rs, idx, sts);
    forall id | id in m'.reported && id !in w.mpi.reported ensures InHand(w, v, id) {
      var c :| 0 <= c < |idx| && rs[idx[c]].id == id;
      var o := batch[r2e[idx[c]]];
      assert o in v.inflight && w.ops[o].request == Req(id);
    }
    ReportKeeps(d, w, v, m');
  }

  /** The entries that complete, in the order in which `complentries` gets them. */
  ghost function Completing(r2e: seq<int>, ce: seq<int>, idx: seq<int>): (r: seq<int>)
    requires Ascending(idx, |r2e|)
    ensures |r| == |ce| + |idx| && forall c :: 0 <= c < |r| ==> r[c] == if c < |ce| then ce[c] else r2e[idx[c - |ce|]]
  {
    seq(|ce| + |idx|, c requires 0 <= c < |ce| + |idx| => if c < |ce| then ce[c] else r2e[idx[c - |ce|]])
  }

  ghost function OpsOf(batch: seq<nat>, entries: seq<int>): (r: seq<nat>)
    requires forall c :: 0 <= c < |entries| ==> 0 <= entries[c] < |batch|
    ensures |r| == |entries| && forall c :: 0 <= c < |r| ==> r[c] == batch[entries[c]]
  {
    seq(|entries|, c requires 0 <= c < |entries| => batch[entries[c]])
  }

  lemma CompletingDistinct(batch: seq<nat>, r2e: seq<int>, ce: seq<int>, idx: seq<int>, places: seq<Where>)
    requires Split(places, r2e, ce) && |places| == |batch| && Distinct(batch)
    requires Ascending(idx, |r2e|) && NonNegatives(r2e)
    ensures forall c :: 0 <= c < |Completing(r2e, ce, idx)| ==> 0 <= Completing(r2e, ce, idx)[c] < |batch|
    ensures Distinct(OpsOf(batch, Completing(r2e, ce, idx)))
  {
    var es := Completing(r2e, ce, idx);
    forall c | 0 <= c < |es|
      ensures 0 <= es[c] < |batch|
      ensures places[es[c]] == if c < |ce| then AsCompleted(c) else AsRequest(idx[c - |ce|])
    {
    }
    forall b, c | 0 <= b < c < |es| ensures es[b] != es[c] {
      assert places[es[b]] != places[es[c]];
    }
    forall b, c | 0 <= b < c < |es| ensures batch[es[b]] != batch[es[c]] {
    }
  }

  /** After the test, the null requests and the tested ones are ready for completion. */
  lemma ProcessingStarts(d: Catalogue, w: World, v: View, batch: seq<nat>, rs: seq<Request>, r2e: seq<int>, ce: seq<int>,
                         m': State, idx: seq<int>, sts: seq<Status>, ops: seq<nat>, all: seq<Status>)
    requires Entries(w, v, batch, |batch|, rs, r2e, ce) && AllActive(w.mpi, rs)
    requires Chosen(rs, idx) && |idx| == |sts| && m' == Reported(w.mpi, rs, idx, sts)
    requires |ops| == |ce| + |idx| == |all| && Distinct(ops) && all[|ce|..] == sts
    requires NamesEntries(batch, ops, Completing(r2e, ce, idx))
    ensures Done(d, w.(mpi := m'), v, ops, all, w.(mpi := m'), v, |ce|, 0)
  {
    var w' := w.(mpi := m');
    forall c | 0 <= c < |ops|
      ensures ops[c] in v.inflight
      ensures if c < |ce| then Releasable(d, w', ops[c]) else Completed(w', ops[c], all[c])
    {
      if c >= |ce| {
        TestedCompletes(w, v, batch, rs, r2e, ce, m', idx, sts, c - |ce|);
        assert all[c] == all[|ce|..][c - |ce|];
      }
    }
    assert ops[..0] == [];
    assert v.inflight - Elems(ops[..0]) == v.inflight;
  }

  lemma TestedCompletes(w: World, v: View, batch: seq<nat>, rs: seq<Request>, r2e: seq<int>, ce: seq<int>,
                        m': State, idx: seq<int>, sts: seq<Status>, c: nat)
    requires Entries(w, v, batch, |batch|, rs, r2e, ce) && AllActive(w.mpi, rs)
    requires Chosen(rs, idx) && |idx| == |sts| && m' == Reported(w.mpi, rs, idx, sts) && c < |idx|
    ensures Completed(w.(mpi := m'), batch[r2e[idx[c]]], sts[c])
  {
    ReportedAt(w.mpi, rs, idx, sts);
    assert rs[idx[c]] == w.ops[batch[r2e[idx[c]]]].request;
  }

  /** `req2entry` once the tested requests idx are taken out. */
  ghost function Cleared(r2e: seq<int>, idx: seq<int>): (r: seq<int>)
    requires Ascending(idx, |r2e|)
    ensures |r| == |r2e|
  {
    if idx == [] then r2e
    else
      var n := |idx| - 1;
      Cleared(r2e, idx[..n])[idx[n] := -1]
  }

  lemma {:induction false} ClearedAt(r2e: seq<int>, idx: seq<int>, k: nat)
    requires Ascending(idx, |r2e|) && k < |r2e|
    ensures Cleared(r2e, idx)[k] == if k in idx then -1 else r2e[k]
  {
    if idx != [] {
      var n := |idx| - 1;
      ClearedAt(r2e, idx[..n], k);
      assert idx == idx[..n] + [idx[n]];
    }
  }

  lemma {:induction false} ClearedCount(r2e: seq<int>, idx: seq<int>)
    requires Ascending(idx, |r2e|) && NonNegatives(r2e)
    ensures NonNegative(Cleared(r2e, idx)) == |r2e| - |idx|
  {
    if idx == [] {
      NonNegativeAll(r2e);
    } else {
      var n := |idx| - 1;
      ClearedCount(r2e, idx[..n]);
      ClearedAt(r2e, idx[..n], idx[n]);
      NonNegativeUpdate(Cleared(r2e, idx[..n]), idx[n]);
    }
  }

  /** The state of the filter loop: the first c tested requests have joined the completed. */
  ghost predicate Filtered(places: seq<Where>, r2e': seq<int>, ce': seq<int>, r2e: seq<int>, idx: seq<int>, es: seq<int>, c: nat) {
    && c <= |idx| && Ascending(idx, |r2e|) && |es| >= |idx| && Split(places, r2e', ce')
    && r2e' == Cleared(r2e, idx[..c]) && ce' == es[..|es| - |idx| + c]
  }

  lemma FilterStarts(places: seq<Where>, r2e: seq<int>, ce: seq<int>, idx: seq<int>)
    requires Split(places, r2e, ce) && Ascending(idx, |r2e|)
    ensures Filtered(places, r2e, ce, r2e, idx, Completing(r2e, ce, idx), 0)
  {
    assert idx[..0] == [] && Completing(r2e, ce, idx)[..|ce|] == ce;
  }

  /** At the end every completed entry is that of the operation to release. */
  lemma FilterEnds(places: seq<Where>, r2e': seq<int>, ce': seq<int>, r2e: seq<int>, ce: seq<int>, idx: seq<int>)
    requires Ascending(idx, |r2e|)
    requires Filtered(places, r2e', ce', r2e, idx, Completing(r2e, ce, idx), |idx|)
    ensures ce' == Completing(r2e, ce, idx) && r2e' == Cleared(r2e, idx)
  {
    assert idx[..|idx|] == idx;
  }

  lemma FilterNext(places: seq<Where>, r2e': seq<int>, ce': seq<int>, r2e: seq<int>, ce: seq<int>, idx: seq<int>, es: seq<int>, c: nat)
    requires Filtered(places, r2e', ce', r2e, idx, es, c) && c < |idx| && es == Completing(r2e, ce, idx) && NonNegatives(r2e)
    ensures var entry := r2e'[idx[c]];
            && entry == es[|ce| + c] && 0 <= entry < |places|
            && Filtered(places[entry := AsCompleted(|ce'|)], r2e'[idx[c] := -1], ce' + [entry], r2e, idx, es, c + 1)
  {
    ClearedAt(r2e, idx[..c], idx[c]);
    SplitMoved(places, r2e', ce', idx[c]);
    assert idx[..c + 1][..c] == idx[..c];
  }

  /** What issuing and testing a batch gave: the arrays before and after the test, the tested
      requests with their statuses, and what is to be released. */
  datatype Outcome = Outcome(rs: seq<Request>, r2e: seq<int>, ce: seq<int>, rs': seq<Request>, idx: seq<int>, sts: seq<Status>,
                             ops: seq<nat>, all: seq<Status>)

  ghost predicate Planned(batch: seq<nat>, b: Outcome) {
    && Ascending(b.idx, |b.r2e|) && |b.idx| == |b.sts| && NonNegatives(b.r2e)
    && |b.ops| == |b.all| == |b.ce| + |b.idx| && b.all[|b.ce|..] == b.sts
    && NamesEntries(batch, b.ops, Completing(b.r2e, b.ce, b.idx))
  }

  ghost predicate NamesEntries(batch: seq<nat>, ops: seq<nat>, es: seq<int>) {
    |ops| == |es| && forall c :: 0 <= c < |es| ==> 0 <= es[c] < |batch| && ops[c] == batch[es[c]]
  }

  // ---------------------------------------------------------------------- appending

  /** The requests from r on are still to be moved to the general arrays. */
  ghost predicate Moving(w: World, v: View, batch: seq<nat>, places: seq<Where>, rs: seq<Request>, r: nat) {
    && |places| == |batch| && Distinct(batch) && v.holes == {} && v.inflight <= Elems(batch) && v.inflight <= w.ops.Keys
    && (forall e :: 0 <= e < |batch| ==> (batch[e] in v.inflight <==> places[e].AsRequest? && places[e].r >= r))
    && (forall e :: 0 <= e < |batch| && batch[e] in v.inflight ==>
          && places[e].r < |rs| && rs[places[e].r] == w.ops[batch[e]].request
          && Active(w.mpi, w.ops[batch[e]].request) && !w.ops[batch[e]].stored && !w.ops[batch[e]].appended)
  }

  /** An entry is released or still in flight, according to where it is noted. */
  lemma NotedInFlight(batch: seq<nat>, places: seq<Where>, re: seq<int>, co: seq<int>, ops: seq<nat>, inflight: set<nat>, e: nat)
    requires Distinct(batch) && |places| == |batch| && Split(places, re, co) && e < |batch|
    requires NamesEntries(batch, ops, co)
    requires inflight == Elems(batch) - Elems(ops)
    ensures batch[e] in inflight <==> places[e].AsRequest?
  {
    assert batch[e] in Elems(batch);
    if places[e].AsCompleted? {
      assert ops[places[e].c] == batch[e];
    } else {
      forall c | 0 <= c < |ops| ensures ops[c] != batch[e] {
        assert places[co[c]] == AsCompleted(c) && co[c] != e;
      }
    }
  }

  /** What is left of the batch after the completions are released is ready to move. */
  lemma MovingStarts(w: World, v: View, batch: seq<nat>, rs: seq<Request>, r2e: seq<int>, ce: seq<int>,
                     m': State, rs': seq<Request>, idx: seq<int>, sts: seq<Status>,
                     places: seq<Where>, re: seq<int>, co: seq<int>, ops: seq<nat>, w': World, v': View)
    requires Distinct(batch) && |places| == |batch| && Split(places, re, co) && v'.holes == {}
    requires Entries(w, v, batch, |batch|, rs, r2e, ce) && AllActive(w.mpi, rs)
    requires Tested(w.mpi, rs, m', rs', idx, sts) && re == Cleared(r2e, idx)
    requires NamesEntries(batch, ops, co)
    requires v'.inflight == Elems(batch) - Elems(ops) && Unaffected(w.(mpi := m'), w', Elems(ops))
    ensures Moving(w', v', batch, places, rs', 0)
  {
    StillActive(w.mpi, rs, m', rs', idx, sts);
    forall e | 0 <= e < |batch|
      ensures batch[e] in v'.inflight <==> places[e].AsRequest?
      ensures places[e].AsRequest? ==> places[e].r < |rs'| && rs'[places[e].r] == w'.ops[batch[e]].request
      ensures places[e].AsRequest? ==> Active(w'.mpi, w'.ops[batch[e]].request) && !w'.ops[batch[e]].stored && !w'.ops[batch[e]].appended
    {
      NotedInFlight(batch, places, re, co, ops, v'.inflight, e);
      if places[e].AsRequest? {
        var r := places[e].r;
        ClearedAt(r2e, idx, r);
        NulledAt(rs, idx, r);
      }
    }
    assert v'.inflight <= w'.ops.Keys by {
      forall o | o in Elems(batch) ensures o in w'.ops {
      }
    }
  }

  lemma MovedOne(d: Catalogue, w: World, v: View, batch: seq<nat>, places: seq<Where>, rs: seq<Request>, r: nat, r2e: seq<int>, ce: seq<int>)
    requires Moving(w, v, batch, places, rs, r) && Split(places, r2e, ce) && r < |r2e| && 0 <= r2e[r]
    ensures r2e[r] < |batch| && batch[r2e[r]] in v.inflight && r < |rs| && rs[r] == w.ops[batch[r2e[r]]].request
    ensures var o := batch[r2e[r]]; Moving(Append(w, o), InNextSlot(d, w, v, o), batch, places, rs, r + 1)
  {
    var o := batch[r2e[r]];
    forall e | 0 <= e < |batch| && e != r2e[r] ensures batch[e] != o && (places[e].AsRequest? ==> places[e].r != r) {
    }
  }

  lemma MovedKeeps(d: Catalogue, w: World, v: View, batch: seq<nat>, places: seq<Where>, rs: seq<Request>, r: nat, r2e: seq<int>, ce: seq<int>)
    requires Inv(d, w, v) && Moving(w, v, batch, places, rs, r) && Split(places, r2e, ce) && r < |r2e| && 0 <= r2e[r]
    requires r2e[r] < |batch| && batch[r2e[r]] in v.inflight && r < |rs|
    ensures var o := batch[r2e[r]]; Inv(d, Append(w, o), InNextSlot(d, w, v, o)) && Ran(w, Append(w, o), 0, 0)
  {
    AppendKeeps(d, w, v, batch[r2e[r]]);
  }

  lemma MovedNone(w: World, v: View, batch: seq<nat>, places: seq<Where>, rs: seq<Request>, r: nat, r2e: seq<int>, ce: seq<int>)
    requires Moving(w, v, batch, places, rs, r) && Split(places, r2e, ce) && r < |r2e| && r2e[r] < 0
    ensures Moving(w, v, batch, places, rs, r + 1)
  {
  }

  lemma MovedAll(w: World, v: View, batch: seq<nat>, places: seq<Where>, rs: seq<Request>, r2e: seq<int>, ce: seq<int>)
    requires Moving(w, v, batch, places, rs, |r2e|) && Split(places, r2e, ce)
    ensures v.inflight == {}
  {
    forall o | o in Elems(batch) ensures o !in v.inflight {
      var e :| 0 <= e < |batch| && batch[e] == o;
    }
  }

  // ------------------------------------------------------------------------- phases

  /** The first n temporary tickets are those of the operations. */
  ghost predicate Ticketed(d: Catalogue, tickets: seq<Ticket>, batch: seq<nat>, n: nat) {
    n <= |batch| && n <= |tickets| && forall e :: 0 <= e < n ==> tickets[e] == TicketOf(d, batch[e])
  }

  method CreateTicket(d: Catalogue, tickets: array<Ticket>, batch: seq<nat>, e: nat)
    requires Ticketed(d, tickets[..], batch, e) && e < |batch| && e < tickets.Length
    modifies tickets
    ensures Ticketed(d, tickets[..], batch, e + 1)
  {
    tickets[e] := TicketOf(d, batch[e]);
  }

  /** Tickets are built and the operations are issued. */
  method IssueAll(d: Catalogue, w: World, batch: seq<nat>, requests: array<Request>, req2entry: array<int>,
                  complentries: array<int>, tickets: array<Ticket>, ghost v: View)
    returns (w': World, nreqs: nat, ncompl: nat, ghost v': View, ghost places: seq<Where>)
    requires Inv(d, w, v) && |batch| <= BATCH && Distinct(batch) && forall e :: 0 <= e < |batch| ==> batch[e] !in w.ops
    requires requests.Length == req2entry.Length == complentries.Length == tickets.Length == BATCH
    requires req2entry != complentries && requests as object != tickets
    requires requests as object != req2entry && requests as object != complentries
    requires tickets as object != req2entry && tickets as object != complentries
    modifies requests, req2entry, complentries, tickets
    ensures nreqs + ncompl == |batch| == |places|
    ensures NullIssues(w'.log) == NullIssues(w.log) + ncompl
    ensures IssuedTo(d, w, v, batch, |batch|, w', v', requests[..nreqs], req2entry[..nreqs], complentries[..ncompl])
    ensures Split(places, req2entry[..nreqs], complentries[..ncompl])
    ensures Ticketed(d, tickets[..], batch, |batch|)
  {
    w', v', places, nreqs, ncompl := w, v, [], 0, 0;
    NothingIssued(d, w, v, batch);
    assert requests[..0] == [] && req2entry[..0] == [] && complentries[..0] == [];
    for e := 0 to |batch|
      invariant nreqs + ncompl == e == |places| && NullIssues(w'.log) == NullIssues(w.log) + ncompl
      invariant IssuedTo(d, w, v, batch, e, w', v', requests[..nreqs], req2entry[..nreqs], complentries[..ncompl])
      invariant Split(places, req2entry[..nreqs], complentries[..ncompl])
      invariant Ticketed(d, tickets[..], batch, e)
    {
      w', nreqs, ncompl, v', places := IssueOne(d, w', batch, e, e + 1, requests, req2entry, complentries, tickets,
                                                nreqs, ncompl, w, v, v', places);
    }
  }

  method IssueOne(d: Catalogue, w: World, batch: seq<nat>, e: nat, ghost e': nat, requests: array<Request>, req2entry: array<int>,
                  complentries: array<int>, tickets: array<Ticket>, nreqs: nat, ncompl: nat,
                  ghost w0: World, ghost v0: View, ghost v: View, ghost places: seq<Where>)
    returns (w': World, nreqs': nat, ncompl': nat, ghost v': View, ghost places': seq<Where>)
    requires nreqs + ncompl == e == |places| < e' == e + 1 <= |batch| <= BATCH && NullIssues(w.log) == NullIssues(w0.log) + ncompl
    requires requests.Length == req2entry.Length == complentries.Length == tickets.Length == BATCH
    requires req2entry != complentries && requests as object != tickets
    requires requests as object != req2entry && requests as object != complentries
    requires tickets as object != req2entry && tickets as object != complentries
    requires IssuedTo(d, w0, v0, batch, e, w, v, requests[..nreqs], req2entry[..nreqs], complentries[..ncompl])
    requires Split(places, req2entry[..nreqs], complentries[..ncompl]) && Ticketed(d, tickets[..], batch, e)
    modifies requests, req2entry, complentries, tickets
    ensures nreqs' + ncompl' == e' == |places'| && NullIssues(w'.log) == NullIssues(w0.log) + ncompl'
    ensures IssuedTo(d, w0, v0, batch, e', w', v', requests[..nreqs'], req2entry[..nreqs'], complentries[..ncompl'])
    ensures Split(places', req2entry[..nreqs'], complentries[..ncompl']) && Ticketed(d, tickets[..], batch, e')
  {
    ghost var rs, r2e, ce := requests[..nreqs], req2entry[..nreqs], complentries[..ncompl];
    CreateTicket(d, tickets, batch, e);
    ghost var ts := tickets[..];
    var r, m' := NewRequest(w.mpi, d(batch[e]).nullRequest);
    rs, r2e, ce := IssueNext(d, w0, v0, batch, e, e', w, v, rs, r2e, ce, r, m');
    NullIssuesMore(w.log, Issued(batch[e], r));
    w', v' := Issue(w, batch[e], r, m'), Taken(v, batch[e]);
    nreqs', ncompl', places' := NoteEntry(e, r, requests, req2entry, complentries, nreqs, ncompl, places);
    assert tickets[..] == ts && requests[..nreqs'] == rs && req2entry[..nreqs'] == r2e && complentries[..ncompl'] == ce;
  }

  /** Entry e goes to the requests to test or, with a null request, to the completed ones. */
  method NoteEntry(e: nat, r: Request, requests: array<Request>, req2entry: array<int>, complentries: array<int>,
                   nreqs: nat, ncompl: nat, ghost places: seq<Where>)
    returns (nreqs': nat, ncompl': nat, ghost places': seq<Where>)
    requires nreqs + ncompl == e == |places| < BATCH
    requires requests.Length == req2entry.Length == complentries.Length == BATCH
    requires req2entry != complentries && requests as object != req2entry && requests as object != complentries
    requires Split(places, req2entry[..nreqs], complentries[..ncompl])
    modifies requests, req2entry, complentries
    ensures ncompl' == ncompl + (if r == Null then 1 else 0)
    ensures nreqs' + ncompl' == e + 1 == |places'| && Split(places', req2entry[..nreqs'], complentries[..ncompl'])
    ensures requests[..nreqs'] == old(requests[..nreqs]) + if r != Null then [r] else []
    ensures req2entry[..nreqs'] == old(req2entry[..nreqs]) + if r != Null then [e] else []
    ensures complentries[..ncompl'] == old(complentries[..ncompl]) + if r != Null then [] else [e]
  {
    ghost var rs, r2e, ce := requests[..nreqs], req2entry[..nreqs], complentries[..ncompl];
    requests[nreqs] := r;
    if r != Null {
      SplitRequest(places, r2e, ce);
      req2entry[nreqs] := e;
      nreqs', ncompl', places' := nreqs + 1, ncompl, places + [AsRequest(nreqs)];
      assert requests[..nreqs'] == rs + [r] && req2entry[..nreqs'] == r2e + [e] && complentries[..ncompl'] == ce;
    } else {
      SplitCompleted(places, r2e, ce);
      complentries[ncompl] := e;
      nreqs', ncompl', places' := nreqs, ncompl + 1, places + [AsCompleted(ncompl)];
      assert requests[..nreqs'] == rs && req2entry[..nreqs'] == r2e && complentries[..ncompl'] == ce + [e];
    }
  }

  /** MPI_Test and MPI_Testsome find every finished request. MPI_Testany may pass over some. */
  predicate FindsAll(approach: Testing.Approach) {
    approach.Test? || approach.TestSome?
  }

  /** A test that finds nothing, or one that finds everything. */
  predicate SeesAll(approach: Testing.Approach, found: nat) {
    FindsAll(approach) || (found == 0 && !approach.None?)
  }

  lemma NulledNone(rs: seq<Request>, idx: seq<int>)
    requires Chosen(rs, idx) && idx == []
    ensures Nulled(rs, idx) == rs
  {
    forall k | 0 <= k < |rs| ensures Nulled(rs, idx)[k] == rs[k] {
      NulledAt(rs, idx, k);
    }
  }

  lemma NulledUnfinished(m: State, rs: seq<Request>, idx: seq<int>)
    requires Chosen(rs, idx) && AllFound(m, rs, idx, |rs|)
    ensures NoneFinished(m, Nulled(rs, idx))
  {
    forall k | 0 <= k < |rs| && Nulled(rs, idx)[k].Req? ensures Nulled(rs, idx)[k].id !in m.finished {
      NulledAt(rs, idx, k);
      assert !Found(idx, k);
    }
  }

  /** The pending requests are tested once, all together. */
  method TestBatch(approach: Testing.Approach, w: World, nreqs: nat, requests: array<Request>,
                   testcompl2req: array<int>, statuses: array<Status>)
    returns (ntestcompl: nat, m': State)
    requires Testing.Room(requests, 0, testcompl2req, 0, statuses, nreqs) && AllActive(w.mpi, requests[..nreqs])
    modifies requests, testcompl2req, statuses
    ensures ntestcompl <= nreqs && (approach.None? ==> ntestcompl == 0)
    ensures Tested(w.mpi, old(requests[..nreqs]), m', requests[..nreqs], testcompl2req[..ntestcompl], statuses[..ntestcompl])
    ensures SeesAll(approach, ntestcompl) ==> NoneFinished(w.mpi, requests[..nreqs])
  {
    ntestcompl, m' := 0, w.mpi;
    TestedNone(w.mpi, requests[..nreqs]);
    if nreqs > 0 {
      assert requests[0..0 + nreqs] == requests[..nreqs];
      ntestcompl, m' := Testing.TestRequests(approach, w.mpi, nreqs, requests, 0, testcompl2req, 0, statuses);
      assert requests[0..0 + nreqs] == requests[..nreqs];
      assert testcompl2req[0..0 + ntestcompl] == testcompl2req[..ntestcompl];
      if ntestcompl == 0 {
        assert requests[..nreqs] == old(requests[..nreqs]) by {
          NulledNone(old(requests[..nreqs]), testcompl2req[..0]);
        }
      } else if FindsAll(approach) {
        NulledUnfinished(w.mpi, old(requests[..nreqs]), testcompl2req[..ntestcompl]);
      }
    }
  }

  /** The state of the filter loop with what it has stored: what the batch was is in b. */
  ghost predicate Filtering(d: Catalogue, w0: World, v: View, batch: seq<nat>, b: Outcome,
                            w: World, places: seq<Where>, re: seq<int>, co: seq<int>, c: nat) {
    && Planned(batch, b) && |places| == |batch| && c <= |b.idx|
    && Filtered(places, re, co, b.r2e, b.idx, Completing(b.r2e, b.ce, b.idx), c)
    && Processing(d, w0, v, b.ops, b.all, w, v, |b.ce| + c, 0)
  }

  lemma FilterIndex(batch: seq<nat>, b: Outcome, places: seq<Where>, re: seq<int>, co: seq<int>, c: nat)
    requires Planned(batch, b) && |places| == |batch| && c < |b.idx|
    requires Filtered(places, re, co, b.r2e, b.idx, Completing(b.r2e, b.ce, b.idx), c)
    ensures 0 <= b.idx[c] < |re| == |b.r2e| && |co| == |b.ce| + c && 0 <= re[b.idx[c]] < |batch|
    ensures batch[re[b.idx[c]]] == b.ops[|b.ce| + c] && b.sts[c] == b.all[|b.ce| + c]
    ensures var entry := re[b.idx[c]];
            Filtered(places[entry := AsCompleted(|co|)], re[b.idx[c] := -1], co + [entry], b.r2e, b.idx, Completing(b.r2e, b.ce, b.idx), c + 1)
  {
    FilterNext(places, re, co, b.r2e, b.ce, b.idx, Completing(b.r2e, b.ce, b.idx), c);
    assert b.sts[c] == b.all[|b.ce|..][c];
  }

  lemma FilterStep(d: Catalogue, w0: World, v: View, batch: seq<nat>, b: Outcome,
                   w: World, places: seq<Where>, re: seq<int>, co: seq<int>, c: nat)
    requires Filtering(d, w0, v, batch, b, w, places, re, co, c) && c < |b.idx|
    ensures 0 <= b.idx[c] < |re| == |b.r2e| && |co| == |b.ce| + c && 0 <= re[b.idx[c]] < |batch|
    ensures var entry := re[b.idx[c]];
            && batch[entry] in w.ops
            && Filtering(d, w0, v, batch, b, WithStatus(d, w, batch[entry], b.sts[c]), places[entry := AsCompleted(|co|)],
                         re[b.idx[c] := -1], co + [entry], c + 1)
  {
    FilterIndex(batch, b, places, re, co, c);
    FilterStored(d, w0, v, b, w, batch[re[b.idx[c]]], b.sts[c], |b.ce| + c, |b.ce| + (c + 1));
  }

  lemma FilterStored(d: Catalogue, w0: World, v: View, b: Outcome, w: World, o: nat, st: Status, t: nat, t': nat)
    requires t < |b.ops| == |b.all| && o == b.ops[t] && st == b.all[t] && t' == t + 1
    requires Processing(d, w0, v, b.ops, b.all, w, v, t, 0)
    ensures o in w.ops && Processing(d, w0, v, b.ops, b.all, WithStatus(d, w, o, st), v, t', 0)
  {
    StoreNext(d, w0, v, b.ops, b.all, w, v, t, 0);
  }

  /** Statuses of the tested requests are stored and their entries join the completed. */
  method FilterCompleted(d: Catalogue, w: World, ghost batch: seq<nat>, tickets: array<Ticket>, testcompl2req: array<int>,
                         ntestcompl: nat, req2entry: array<int>, nreqs: nat, complentries: array<int>, ncompl0: nat,
                         statuses: array<Status>, ghost v: View, ghost places: seq<Where>, ghost b: Outcome)
    returns (w': World, ncompl: nat, ghost places': seq<Where>, ghost re: seq<int>, ghost co: seq<int>)
    requires nreqs + ncompl0 == |batch| <= BATCH && ntestcompl <= nreqs
    requires req2entry.Length == complentries.Length == tickets.Length == testcompl2req.Length == statuses.Length == BATCH
    requires req2entry != complentries && req2entry != testcompl2req && complentries != testcompl2req
    requires tickets as object != req2entry && tickets as object != complentries
    requires statuses as object != req2entry && statuses as object != complentries
    requires req2entry[..nreqs] == b.r2e && complentries[..ncompl0] == b.ce
    requires ntestcompl == |b.idx| == |b.sts| && testcompl2req[..|b.idx|] == b.idx && statuses[..|b.sts|] == b.sts
    requires Ticketed(d, tickets[..], batch, |batch|)
    requires Filtering(d, w, v, batch, b, w, places, b.r2e, b.ce, 0)
    modifies req2entry, complentries
    ensures ncompl == ncompl0 + ntestcompl
    ensures req2entry[..nreqs] == re && complentries[..ncompl] == co
    ensures Filtering(d, w, v, batch, b, w', places', re, co, |b.idx|)
  {
    w', ncompl, places' := w, ncompl0, places;
    ghost var ts := tickets[..];
    assert Ticketed(d, ts, batch, |batch|);
    re, co := b.r2e, b.ce;
    for c := 0 to ntestcompl
      invariant ncompl == ncompl0 + c
      invariant tickets[..] == ts && testcompl2req[..|b.idx|] == b.idx && statuses[..|b.sts|] == b.sts
      invariant req2entry[..nreqs] == re && complentries[..ncompl] == co
      invariant Filtering(d, w, v, batch, b, w', places', re, co, c)
    {
      w', ncompl, places', re, co := FilterOne(d, w', batch, tickets, testcompl2req, req2entry, nreqs, complentries, ncompl,
                                               statuses, c, c + 1, w, v, places', b, re, co);
    }
  }

  method FilterOne(d: Catalogue, w: World, ghost batch: seq<nat>, tickets: array<Ticket>, testcompl2req: array<int>,
                   req2entry: array<int>, nreqs: nat, complentries: array<int>, ncompl: nat, statuses: array<Status>, c: nat, ghost c': nat,
                   ghost w0: World, ghost v: View, ghost places: seq<Where>, ghost b: Outcome, ghost re: seq<int>, ghost co: seq<int>)
    returns (w': World, ncompl': nat, ghost places': seq<Where>, ghost re': seq<int>, ghost co': seq<int>)
    requires nreqs <= req2entry.Length && ncompl < complentries.Length && req2entry != complentries
    requires c < c' == c + 1 <= |b.idx| <= testcompl2req.Length && |b.sts| <= statuses.Length && |batch| <= tickets.Length
    requires testcompl2req[..|b.idx|] == b.idx && statuses[..|b.sts|] == b.sts
    requires Ticketed(d, tickets[..], batch, |batch|)
    requires req2entry[..nreqs] == re && complentries[..ncompl] == co
    requires Filtering(d, w0, v, batch, b, w, places, re, co, c)
    modifies req2entry, complentries
    ensures ncompl' == ncompl + 1 && req2entry[..nreqs] == re' && complentries[..ncompl'] == co'
    ensures Filtering(d, w0, v, batch, b, w', places', re', co', c')
  {
    FilterStep(d, w0, v, batch, b, w, places, re, co, c);
    var req := testcompl2req[c];
    assert req == testcompl2req[..|b.idx|][c];
    var entry, st := req2entry[req], statuses[c];
    assert entry == req2entry[..nreqs][req] && st == statuses[..|b.sts|][c];
    assert tickets[entry] == tickets[..][entry];
    w' := StoreStatus(d, w, tickets[entry], 0, st);
    places', re', co' := places[entry := AsCompleted(|co|)], re[req := -1], co + [entry];
    MoveEntry(req, entry, req2entry, nreqs, complentries, ncompl);
    ncompl' := ncompl + 1;
  }

  method MoveEntry(req: nat, entry: int, req2entry: array<int>, nreqs: nat, complentries: array<int>, ncompl: nat)
    requires req < nreqs <= req2entry.Length && ncompl < complentries.Length && req2entry != complentries
    modifies req2entry, complentries
    ensures req2entry[..nreqs] == old(req2entry[..nreqs])[req := -1]
    ensures complentries[..ncompl + 1] == old(complentries[..ncompl]) + [entry]
  {
    complentries[ncompl] := entry;
    req2entry[req] := -1;
  }

  /** The context of the c-th completed entry. */
  method ContextAt(ghost d: Catalogue, ghost batch: seq<nat>, tickets: array<Ticket>, complentries: array<int>, c: nat,
                   ghost n: nat, ghost ops: seq<nat>, ghost co: seq<int>)
    returns (ctx: TaskContext)
    requires c < n == |ops| <= complentries.Length && |batch| <= tickets.Length && Ticketed(d, tickets[..], batch, |batch|)
    requires complentries[..n] == co && NamesEntries(batch, ops, co)
    ensures ctx == TicketOf(d, ops[c]).ctx
  {
    var entry := complentries[c];
    assert entry == complentries[..n][c] == co[c];
    ctx := tickets[entry].ctx;
    assert tickets[entry] == tickets[..][entry];
  }

  /** The completed tickets release their tasks, directly or through the completion task. */
  method ReleaseCompleted(delegate: bool, ghost d: Catalogue, w: World, ghost batch: seq<nat>, tickets: array<Ticket>,
                          complentries: array<int>, ncompl: nat, contexts: array<TaskContext>,
                          ghost w0: World, ghost v0: View, ghost ops: seq<nat>, ghost sts: seq<Status>, ghost co: seq<int>)
    returns (w': World, ghost v': View)
    requires |ops| == ncompl <= complentries.Length == contexts.Length == tickets.Length == BATCH && |batch| <= BATCH
    requires tickets as object != contexts && complentries as object != contexts
    requires Ticketed(d, tickets[..], batch, |batch|)
    requires complentries[..ncompl] == co && NamesEntries(batch, ops, co)
    requires Processing(d, w0, v0, ops, sts, w, v0, ncompl, 0) && delegate == w0.delegate
    modifies contexts
    ensures Processing(d, w0, v0, ops, sts, w', v', ncompl, ncompl)
  {
    w', v' := w, v0;
    ghost var signalled := 0;
    for c := 0 to ncompl
      invariant Processing(d, w0, v0, ops, sts, w', v', ncompl, signalled) && signalled == if delegate then 0 else c
      invariant delegate ==> Contexts(d, contexts[..], ops, c)
    {
      var ctx := ContextAt(d, batch, tickets, complentries, c, ncompl, ops, co);
      if delegate {
        contexts[c] := ctx;
      } else {
        SignalNext(d, w0, v0, ops, sts, w', v', ncompl, c);
        w', v', signalled := Signal(w', ctx, false), v'.(inflight := v'.inflight - {ops[c]}), c + 1;
      }
    }
    if delegate && ncompl > 0 {
      w', v' := TransferContexts(d, w', contexts, ncompl, w0, v0, ops, sts, v');
    }
  }

  /** The state of the append loop: of the requests before r those still noted have a slot. */
  ghost predicate AppendedTo(d: Catalogue, w0: World, v0: View, batch: seq<nat>, places: seq<Where>, rs: seq<Request>,
                             r2e: seq<int>, all: bool, w: World, v: View, r: nat) {
    && r <= |r2e| && Inv(d, w, v) && Moving(w, v, batch, places, rs, r)
    && v.held == v0.held && v.holes == v0.holes && w.mpi == w0.mpi && w.ops.Keys == w0.ops.Keys && Ran(w0, w, 0, 0)
    && |v.rows| == |v0.rows| + NonNegative(r2e[..r]) && (all ==> Unfinished(w, v.rows, |v0.rows|, |v.rows|))
  }

  lemma AppendNone(d: Catalogue, w0: World, v0: View, batch: seq<nat>, places: seq<Where>, rs: seq<Request>,
                   r2e: seq<int>, ce: seq<int>, all: bool, w: World, v: View, r: nat)
    requires AppendedTo(d, w0, v0, batch, places, rs, r2e, all, w, v, r) && Split(places, r2e, ce)
    requires r < |r2e| && r2e[r] < 0
    ensures AppendedTo(d, w0, v0, batch, places, rs, r2e, all, w, v, r + 1)
  {
    NonNegativeNext(r2e, r);
    MovedNone(w, v, batch, places, rs, r, r2e, ce);
  }

  lemma AppendNext(d: Catalogue, w0: World, v0: View, batch: seq<nat>, places: seq<Where>, rs: seq<Request>,
                   r2e: seq<int>, ce: seq<int>, all: bool, w: World, v: View, r: nat)
    requires AppendedTo(d, w0, v0, batch, places, rs, r2e, all, w, v, r) && Split(places, r2e, ce)
    requires r < |r2e| && 0 <= r2e[r] && (all ==> NoneFinished(w0.mpi, rs))
    ensures r2e[r] < |batch| && batch[r2e[r]] in w.ops && r < |rs| && rs[r] == w.ops[batch[r2e[r]]].request
    ensures var o := batch[r2e[r]];
            AppendedTo(d, w0, v0, batch, places, rs, r2e, all, Append(w, o), InNextSlot(d, w, v, o), r + 1)
  {
    MovedOne(d, w, v, batch, places, rs, r, r2e, ce);
    MovedKeeps(d, w, v, batch, places, rs, r, r2e, ce);
    var o := batch[r2e[r]];
    RanOn(w0, w, Append(w, o), 0, 0, 0, 0);
    NonNegativeNext(r2e, r);
    UnfinishedMore(w, Append(w, o), v.rows, |v0.rows|, Row(rs[r], TicketOf(d, o), 0));
  }

  lemma UnfinishedMore(w: World, w': World, rows: seq<Row>, from: nat, row: Row)
    requires w'.mpi == w.mpi
    ensures Unfinished(w, rows, from, |rows|) && (row.request.Req? ==> row.request.id !in w.mpi.finished) ==>
              Unfinished(w', rows + [row], from, |rows| + 1)
  {
  }

  /** The entries that are left get a slot in the general arrays. */
  method AppendPending(arrays: Arrays, pending: nat, ghost d: Catalogue, w: World, ghost batch: seq<nat>,
                       tickets: array<Ticket>, req2entry: array<int>, nreqs: nat, requests: array<Request>,
                       ghost ce: seq<int>, ghost places: seq<Where>, ghost v: View, ghost all: bool)
    returns (w': World, pending': nat, ghost v': View)
    requires arrays.Shape() && arrays.Holds(v.rows) && pending == |v.rows|
    requires nreqs <= |batch| <= BATCH == req2entry.Length == requests.Length == tickets.Length
    requires tickets != arrays.tickets && tickets as object != arrays.requests && tickets as object != arrays.mappings
    requires requests != arrays.requests && requests as object != arrays.tickets && requests as object != arrays.mappings
    requires req2entry as object != arrays.requests && req2entry as object != arrays.tickets && req2entry as object != arrays.mappings
    requires pending + nreqs <= CAPACITY
    requires Ticketed(d, tickets[..], batch, |batch|)
    requires Split(places, req2entry[..nreqs], ce) && Inv(d, w, v) && Moving(w, v, batch, places, requests[..nreqs], 0)
    requires all ==> NoneFinished(w.mpi, requests[..nreqs])
    modifies arrays.requests, arrays.mappings, arrays.tickets
    ensures arrays.Holds(v'.rows) && pending' == |v'.rows| == pending + NonNegative(req2entry[..nreqs]) && v'.inflight == {}
    ensures AppendedTo(d, w, v, batch, places, requests[..nreqs], req2entry[..nreqs], all, w', v', nreqs)
  {
    ghost var r2e, rs, ts := req2entry[..nreqs], requests[..nreqs], tickets[..];
    w', pending', v' := w, pending, v;
    assert r2e[..0] == [];
    for r := 0 to nreqs
      invariant req2entry[..nreqs] == r2e && requests[..nreqs] == rs && tickets[..] == ts
      invariant arrays.Holds(v'.rows) && pending' == |v'.rows|
      invariant AppendedTo(d, w, v, batch, places, rs, r2e, all, w', v', r)
    {
      w', pending', v' := AppendEntry(arrays, pending', d, w', batch, tickets, req2entry, nreqs, requests, r,
                                      w, v, ce, places, rs, r2e, v', all);
    }
    assert r2e[..nreqs] == r2e;
    MovedAll(w', v', batch, places, rs, r2e, ce);
  }

  method AppendEntry(arrays: Arrays, pending: nat, ghost d: Catalogue, w: World, ghost batch: seq<nat>, tickets: array<Ticket>,
                     req2entry: array<int>, nreqs: nat, requests: array<Request>, r: nat, ghost w0: World, ghost v0: View,
                     ghost ce: seq<int>, ghost places: seq<Where>, ghost rs: seq<Request>, ghost r2e: seq<int>, ghost v: View, ghost all: bool)
    returns (w': World, pending': nat, ghost v': View)
    requires arrays.Shape() && arrays.Holds(v.rows) && pending == |v.rows| && |v0.rows| + nreqs <= CAPACITY
    requires r < nreqs <= req2entry.Length && nreqs <= requests.Length && |batch| <= tickets.Length
    requires req2entry[..nreqs] == r2e && requests[..nreqs] == rs && Ticketed(d, tickets[..], batch, |batch|)
    requires Split(places, r2e, ce) && (all ==> NoneFinished(w0.mpi, rs))
    requires AppendedTo(d, w0, v0, batch, places, rs, r2e, all, w, v, r)
    modifies arrays.requests, arrays.mappings, arrays.tickets
    ensures arrays.Holds(v'.rows) && pending' == |v'.rows|
    ensures AppendedTo(d, w0, v0, batch, places, rs, r2e, all, w', v', r + 1)
  {
    var entry := req2entry[r];
    assert entry == req2entry[..nreqs][r];
    w', pending', v' := w, pending, v;
    if entry < 0 {
      AppendNone(d, w0, v0, batch, places, rs, r2e, ce, all, w, v, r);
    } else {
      AppendNext(d, w0, v0, batch, places, rs, r2e, ce, all, w, v, r);
      NonNegativeAtMost(r2e[..r]);
      assert requests[r] == requests[..nreqs][r] && tickets[entry] == tickets[..][entry];
      var ticket := tickets[entry];
      arrays.Append(requests[r], ticket, v.rows, pending);
      w', v' := Append(w, ticket.ctx.op), InNextSlot(d, w, v, batch[entry]);
      pending' := pending + 1;
    }
  }

  lemma FreeNext(d: Catalogue, w0: World, w: World, batch: seq<nat>, v: View, e: nat)
    requires e < |batch| && Distinct(batch) && v.inflight == {} && Inv(d, w, v.(held := Elems(batch[e..])))
    requires Ran(w0, w, 0, 0)
    ensures batch[e] in w.ops && Inv(d, Free(w, batch[e]), v.(held := Elems(batch[e + 1..])))
    ensures Ran(w0, Free(w, batch[e]), 0, 0) && Free(w, batch[e]).ops.Keys == w.ops.Keys
  {
    var v' := v.(held := Elems(batch[e..]));
    ElemsRest(batch, e);
    FreeKeeps(d, w, v', batch[e]);
    RanOn(w0, w, Free(w, batch[e]), 0, 0, 0, 0);
    assert v.(held := Elems(batch[e + 1..])) == v'.(held := v'.held - {batch[e]});
  }

  lemma ElemsRest(batch: seq<nat>, e: nat)
    requires e < |batch| && Distinct(batch)
    ensures batch[e] in Elems(batch[e..]) && Elems(batch[e + 1..]) == Elems(batch[e..]) - {batch[e]}
  {
    assert batch[e..] == [batch[e]] + batch[e + 1..];
  }

  /** Every operation object of the batch is given back. */
  method FreeAll(ghost d: Catalogue, w: World, batch: seq<nat>, ghost v: View) returns (w': World)
    requires Inv(d, w, v) && v.inflight == {} && v.held == Elems(batch) && Distinct(batch)
    ensures Inv(d, w', v.(held := {})) && Ran(w, w', 0, 0) && w'.ops.Keys == w.ops.Keys
  {
    w' := w;
    assert batch[0..] == batch && v.(held := Elems(batch)) == v;
    for e := 0 to |batch|
      invariant Inv(d, w', v.(held := Elems(batch[e..])))
      invariant Ran(w, w', 0, 0)
      invariant w'.ops.Keys == w.ops.Keys
    {
      FreeNext(d, w, w', batch, v, e);
      w' := Free(w', batch[e]);
    }
    assert v.(held := Elems(batch[|batch|..])) == v.(held := {});
  }

  // -------------------------------------------------------------- the phases together

  ghost predicate TestedBatch(d: Catalogue, w: World, v: View, batch: seq<nat>, b: Outcome, m': State) {
    && Inv(d, w, v) && Entries(w, v, batch, |batch|, b.rs, b.r2e, b.ce) && AllActive(w.mpi, b.rs)
    && Tested(w.mpi, b.rs, m', b.rs', b.idx, b.sts)
  }

  lemma Plan(d: Catalogue, w: World, v: View, batch: seq<nat>, b: Outcome, m': State, places: seq<Where>) returns (b': Outcome)
    requires TestedBatch(d, w, v, batch, b, m') && Split(places, b.r2e, b.ce) && |places| == |batch| && Distinct(batch)
    ensures b' == b.(ops := b'.ops, all := b'.all) && Planned(batch, b')
    ensures Processing(d, w.(mpi := m'), v, b'.ops, b'.all, w.(mpi := m'), v, |b.ce|, 0)
  {
    CompletingDistinct(batch, b.r2e, b.ce, b.idx, places);
    var ops := OpsOf(batch, Completing(b.r2e, b.ce, b.idx));
    var all := seq(|b.ce|, _ => EMPTY_STATUS) + b.sts;
    b' := b.(ops := ops, all := all);
    ProcessingStarts(d, w, v, batch, b.rs, b.r2e, b.ce, m', b.idx, b.sts, ops, all);
    BatchReported(d, w, v, batch, b.rs, b.r2e, b.ce, m', b.rs', b.idx, b.sts);
  }

  /** Issues and tests the batch. */
  method IssueAndTest(d: Catalogue, approach: Testing.Approach, w: World, batch: seq<nat>,
                      requests: array<Request>, req2entry: array<int>, complentries: array<int>, tickets: array<Ticket>,
                      testcompl2req: array<int>, statuses: array<Status>, ghost v: View)
    returns (w': World, nreqs: nat, ncompl: nat, ntestcompl: nat, ghost w1: World, ghost v': View, ghost places: seq<Where>, ghost b: Outcome)
    requires Inv(d, w, v) && |batch| <= BATCH && Distinct(batch) && forall e :: 0 <= e < |batch| ==> batch[e] !in w.ops
    requires requests.Length == req2entry.Length == complentries.Length == tickets.Length == BATCH
    requires testcompl2req.Length == statuses.Length == BATCH
    requires req2entry != complentries && requests as object != tickets
    requires requests as object != req2entry && requests as object != complentries
    requires tickets as object != req2entry && tickets as object != complentries
    requires {testcompl2req as object, statuses} !! {requests as object, req2entry, complentries, tickets}
    requires testcompl2req as object != statuses
    modifies requests, req2entry, complentries, tickets, testcompl2req, statuses
    ensures nreqs + ncompl == |batch| == |places| && ntestcompl <= nreqs
    ensures Ticketed(d, tickets[..], batch, |batch|)
    ensures requests[..nreqs] == b.rs' && req2entry[..nreqs] == b.r2e && complentries[..ncompl] == b.ce
    ensures ntestcompl == |b.idx| == |b.sts| && testcompl2req[..|b.idx|] == b.idx && statuses[..|b.sts|] == b.sts
    ensures Issuing(d, w, v, batch, |batch|, w1, v') && w' == w1.(mpi := w'.mpi)
    ensures Split(places, b.r2e, b.ce) && TestedBatch(d, w1, v', batch, b, w'.mpi) && Planned(batch, b)
    ensures SeesAll(approach, ntestcompl) ==> NoneFinished(w'.mpi, b.rs')
    ensures NullIssues(w'.log) == NullIssues(w.log) + |b.ce| && (approach.None? ==> ntestcompl == 0)
    ensures Processing(d, w', v', b.ops, b.all, w', v', ncompl, 0)
  {
    w', nreqs, ncompl, v', places := IssueAll(d, w, batch, requests, req2entry, complentries, tickets, v);
    w1 := w';
    ghost var rs, r2e, ce, ts := requests[..nreqs], req2entry[..nreqs], complentries[..ncompl], tickets[..];
    BatchActive(w1, v', batch, rs, r2e, ce, places);
    var m';
    ntestcompl, m' := TestBatch(approach, w', nreqs, requests, testcompl2req, statuses);
    b := Outcome(rs, r2e, ce, requests[..nreqs], testcompl2req[..ntestcompl], statuses[..ntestcompl], [], []);
    assert tickets[..] == ts && req2entry[..nreqs] == r2e && complentries[..ncompl] == ce;
    b := Plan(d, w1, v', batch, b, m', places);
    w' := w'.(mpi := m');
  }

  /** Issues and tests the batch and completes what can be: the first part of the method. */
  method CompleteBatch(d: Catalogue, approach: Testing.Approach, delegate: bool, w: World, batch: seq<nat>,
                       requests: array<Request>, req2entry: array<int>, complentries: array<int>, tickets: array<Ticket>, ghost v: View)
    returns (w': World, nreqs: nat, ncompl: nat, ghost ntest: nat, ghost v': View, ghost places: seq<Where>, ghost co: seq<int>)
    requires Inv(d, w, v) && Settled(v) && |batch| <= BATCH && delegate == w.delegate
    requires Distinct(batch) && forall e :: 0 <= e < |batch| ==> batch[e] !in w.ops
    requires requests.Length == req2entry.Length == complentries.Length == tickets.Length == BATCH
    requires req2entry != complentries && requests as object != tickets
    requires requests as object != req2entry && requests as object != complentries
    requires tickets as object != req2entry && tickets as object != complentries
    modifies requests, req2entry, complentries, tickets
    ensures ncompl <= |batch| && nreqs <= |batch| && Ticketed(d, tickets[..], batch, |batch|)
    ensures Inv(d, w', v') && Left(w, v, batch, w', v', ncompl)
    ensures Moving(w', v', batch, places, requests[..nreqs], 0) && Split(places, req2entry[..nreqs], co)
    ensures NonNegative(req2entry[..nreqs]) == |batch| - ncompl
    ensures SeesAll(approach, ntest) ==> NoneFinished(w'.mpi, requests[..nreqs])
    ensures NullIssues(w'.log) == NullIssues(w.log) + ncompl - ntest && (approach.None? ==> ntest == 0)
  {
    var statuses := new Status[BATCH](_ => EMPTY_STATUS);
    var testcompl2req := new int[BATCH](_ => 0);
    var w2, n0, ntestcompl;
    ghost var w1, v1, p1, b;
    w2, nreqs, n0, ntestcompl, w1, v1, p1, b :=
      IssueAndTest(d, approach, w, batch, requests, req2entry, complentries, tickets, testcompl2req, statuses, v);
    ghost var ts, re := tickets[..], [];
    w', ncompl, v', places, re, co := FilterAndRelease(delegate, d, w2, batch, tickets, testcompl2req, ntestcompl, req2entry, nreqs,
                                                       complentries, n0, statuses, v1, p1, b);
    BatchEnds(d, w, v, w1, v1, batch, b, w2, places, re, co, w', v');
    NoIssues(w2, w', |b.ops|);
    assert tickets[..] == ts && requests[..nreqs] == b.rs';
    ntest := ntestcompl;
  }

  /** The tested requests join the completed entries, and all of these are released. */
  method FilterAndRelease(delegate: bool, d: Catalogue, w: World, ghost batch: seq<nat>, tickets: array<Ticket>,
                          testcompl2req: array<int>, ntestcompl: nat, req2entry: array<int>, nreqs: nat,
                          complentries: array<int>, ncompl0: nat, statuses: array<Status>,
                          ghost v: View, ghost places0: seq<Where>, ghost b: Outcome)
    returns (w': World, ncompl: nat, ghost v': View, ghost places: seq<Where>, ghost re: seq<int>, ghost co: seq<int>)
    requires nreqs + ncompl0 == |batch| == |places0| <= BATCH && ntestcompl <= nreqs
    requires req2entry.Length == complentries.Length == tickets.Length == testcompl2req.Length == statuses.Length == BATCH
    requires req2entry != complentries && req2entry != testcompl2req && complentries != testcompl2req
    requires tickets as object != req2entry && tickets as object != complentries
    requires statuses as object != req2entry && statuses as object != complentries
    requires req2entry[..nreqs] == b.r2e && complentries[..ncompl0] == b.ce
    requires ntestcompl == |b.idx| == |b.sts| && testcompl2req[..|b.idx|] == b.idx && statuses[..|b.sts|] == b.sts
    requires Ticketed(d, tickets[..], batch, |batch|) && Split(places0, b.r2e, b.ce) && Planned(batch, b)
    requires Processing(d, w, v, b.ops, b.all, w, v, ncompl0, 0) && delegate == w.delegate
    modifies req2entry, complentries
    ensures ncompl == |b.ops| && |places| == |batch| && req2entry[..nreqs] == re && Split(places, re, co)
    ensures Ascending(b.idx, |b.r2e|) && re == Cleared(b.r2e, b.idx) && co == Completing(b.r2e, b.ce, b.idx)
    ensures Processing(d, w, v, b.ops, b.all, w', v', |b.ops|, |b.ops|)
  {
    var contexts := new TaskContext[BATCH](_ => TaskContext(0, false, 0));
    ghost var ts := tickets[..];
    FilterStarts(places0, b.r2e, b.ce, b.idx);
    var w1;
    w1, ncompl, places, re, co := FilterCompleted(d, w, batch, tickets, testcompl2req, ntestcompl, req2entry, nreqs,
                                                  complentries, ncompl0, statuses, v, places0, b);
    FilterEnds(places, re, co, b.r2e, b.ce, b.idx);
    assert tickets[..] == ts;
    w', v' := ReleaseCompleted(delegate, d, w1, batch, tickets, complentries, ncompl, contexts, w, v, b.ops, b.all, co);
  }

  /** What the first part leaves behind: everything issued, ncompl operations released. */
  ghost predicate Left(w: World, v: View, batch: seq<nat>, w': World, v': View, ncompl: nat) {
    && Ran(w, w', |batch|, ncompl) && w'.ops.Keys == w.ops.Keys + Elems(batch)
    && IssuedOps(w'.log) == IssuedOps(w.log) + batch
    && v'.rows == v.rows && v'.holes == {} && v'.held == Elems(batch) && Unappended(w', batch)
  }

  /** No operation of the batch has been in a slot. */
  ghost predicate Unappended(w: World, batch: seq<nat>) {
    forall e :: 0 <= e < |batch| ==> batch[e] in w.ops && !w.ops[batch[e]].appended
  }

  lemma BatchEnds(d: Catalogue, w: World, v: View, w1: World, v1: View, batch: seq<nat>, b: Outcome, w2: World,
                  places: seq<Where>, re: seq<int>, co: seq<int>, w': World, v': View)
    requires Settled(v) && Issuing(d, w, v, batch, |batch|, w1, v1) && w2 == w1.(mpi := w2.mpi)
    requires TestedBatch(d, w1, v1, batch, b, w2.mpi) && Planned(batch, b)
    requires Split(places, re, co) && |places| == |batch|
    requires re == Cleared(b.r2e, b.idx) && co == Completing(b.r2e, b.ce, b.idx) && |b.r2e| + |b.ce| == |batch|
    requires Done(d, w2, v1, b.ops, b.all, w', v', |b.ops|, |b.ops|)
    ensures Left(w, v, batch, w', v', |b.ops|)
    ensures Moving(w', v', batch, places, b.rs', 0) && NonNegative(re) == |batch| - |b.ops|
  {
    LeftBehind(d, w, v, w1, v1, batch, b.ops, b.all, w2, w', v');
    MovingStarts(w1, v1, batch, b.rs, b.r2e, b.ce, w2.mpi, b.rs', b.idx, b.sts, places, re, co, b.ops, w', v');
    ClearedCount(b.r2e, b.idx);
  }

  lemma LeftBehind(d: Catalogue, w: World, v: View, w1: World, v1: View, batch: seq<nat>, ops: seq<nat>, all: seq<Status>,
                   w2: World, w': World, v': View)
    requires Settled(v) && Issuing(d, w, v, batch, |batch|, w1, v1) && w2 == w1.(mpi := w2.mpi)
    requires w2.mpi.finished == w1.mpi.finished && Unappended(w1, batch)
    requires Done(d, w2, v1, ops, all, w', v', |ops|, |ops|)
    ensures Left(w, v, batch, w', v', |ops|) && v'.inflight == Elems(batch) - Elems(ops)
  {
    assert batch[..|batch|] == batch && ops[..|ops|] == ops;
    assert Ran(w1, w', 0, |ops|);
    RanOn(w, w1, w', |batch|, 0, 0, |ops|);
    NoIssues(w1, w', |ops|);
    assert v1.inflight == Elems(batch) && v1.held == Elems(batch);
  }

  /** The transfer as a whole; it releases only operations that never had a slot. */
  lemma Transferred(d: Catalogue, w: World, v: View, w1: World, v1: View, batch: seq<nat>, n: nat, w2: World, w': World)
    requires Inv(d, w, v) && Settled(v) && Inv(d, w1, v1) && Left(w, v, batch, w1, v1, n)
    requires Ran(w1, w2, 0, 0) && Ran(w2, w', 0, 0) && w'.ops.Keys == w1.ops.Keys
    ensures Ran(w, w', |batch|, n) && w'.ops.Keys == w.ops.Keys + Elems(batch) && NullIssues(w'.log) == NullIssues(w1.log)
    ensures IssuedOps(w'.log) == IssuedOps(w.log) + batch && Delayed(w'.log) == Delayed(w.log)
  {
    RanOn(w, w1, w2, |batch|, n, 0, 0);
    RanOn(w, w2, w', |batch|, n, 0, 0);
    NoIssues(w1, w2, 0);
    NoIssues(w2, w', 0);
    ReleasedAtOnce(d, w, v, w1, v1, Elems(batch));
    DelayedStill(w1.log, w2.log);
    DelayedStill(w2.log, w'.log);
  }

  /** The objects are given back, and nothing is left in hand. */
  method EndTransfer(ghost d: Catalogue, w2: World, batch: seq<nat>, ghost v2: View,
                     ghost w: World, ghost v: View, ghost w1: World, ghost v1: View, ghost n: nat)
    returns (w': World, ghost v': View)
    requires Inv(d, w, v) && Settled(v) && Inv(d, w1, v1) && Left(w, v, batch, w1, v1, n) && Distinct(batch)
    requires Inv(d, w2, v2) && v2.inflight == {} && v2.held == v1.held && v2.holes == v1.holes
    requires Ran(w1, w2, 0, 0) && w2.ops.Keys == w1.ops.Keys
    ensures v' == View(v2.rows, {}, {}, {}) && Inv(d, w', v') && w'.mpi.finished == w2.mpi.finished
    ensures Ran(w, w', |batch|, n) && w'.ops.Keys == w.ops.Keys + Elems(batch) && NullIssues(w'.log) == NullIssues(w1.log)
    ensures IssuedOps(w'.log) == IssuedOps(w.log) + batch && Delayed(w'.log) == Delayed(w.log)
  {
    w' := FreeAll(d, w2, batch, v2);
    Transferred(d, w, v, w1, v1, batch, n, w2, w');
    v' := v2.(held := {});
  }

  /** `transferOperations`: every operation of the batch is issued once and given back once,
      and it is either released or appended to the arrays with its own request and ticket. */
  method TransferOperations(d: Catalogue, approach: Testing.Approach, delegate: bool, arrays: Arrays,
                            w: World, pending: nat, batch: seq<nat>, ghost v: View)
    returns (w': World, pending': nat, ghost v': View, ghost released: nat, ghost tested: nat)
    requires Inv(d, w, v) && Settled(v) && arrays.Shape() && arrays.Holds(v.rows) && pending == |v.rows|
    requires |batch| <= BATCH && Distinct(batch) && delegate == w.delegate && forall e :: 0 <= e < |batch| ==> batch[e] !in w.ops
    requires pending + |batch| <= CAPACITY
    modifies arrays.requests, arrays.mappings, arrays.tickets
    ensures Inv(d, w', v') && Settled(v') && arrays.Holds(v'.rows) && pending' == |v'.rows|
    ensures released <= |batch| && pending' == pending + |batch| - released
    ensures Ran(w, w', |batch|, released) && w'.ops.Keys == w.ops.Keys + Elems(batch)
    ensures IssuedOps(w'.log) == IssuedOps(w.log) + batch && Delayed(w'.log) == Delayed(w.log)
    ensures NullIssues(w'.log) == NullIssues(w.log) + released - tested && (approach.None? ==> tested == 0)
    ensures SeesAll(approach, tested) ==> Unfinished(w', v'.rows, pending, pending')
  {
    var requests := new Request[BATCH](_ => Null);
    var req2entry := new int[BATCH](_ => 0);
    var complentries := new int[BATCH](_ => 0);
    var tickets := new Ticket[BATCH](_ => Ticket(TaskContext(0, false, 0), StatusIgnore));

    var w1, nreqs, ncompl;
    ghost var v1, places, co;
    w1, nreqs, ncompl, tested, v1, places, co :=
      CompleteBatch(d, approach, delegate, w, batch, requests, req2entry, complentries, tickets, v);
    released := ncompl;
    ghost var r2e := req2entry[..nreqs];
    assert arrays.Holds(v1.rows);
    var w2;
    w2, pending', v' := AppendPending(arrays, pending, d, w1, batch, tickets, req2entry, nreqs, requests, co, places, v1,
                                      SeesAll(approach, tested));
    assert req2entry[..nreqs] == r2e;
    w', v' := EndTransfer(d, w2, batch, v', w, v, w1, v1, ncompl);
  }
}
