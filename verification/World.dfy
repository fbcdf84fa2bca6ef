/**
  What the ticket manager does to its surroundings, as a record of events, and the
  invariant that ties the record to the arrays. It holds at every point of
  src/common/TicketManager.hpp, not only between calls.
 */
module World {
  import opened Basics
  import opened Mpi
  import opened Internals

  /** An operation object as the polling task finds it (src/common/Operation.hpp), the CPU on
      which it was pushed, and MPI's answer to its issue: some libraries return the null
      request at once. */
  datatype Operation = Operation(task: nat, blocking: bool, collective: bool, cpu: nat, status: StatusPtr, nullRequest: bool)

  /** The operations by identity. */
  type Catalogue = nat -> Operation

  datatype Event =
    | Issued(op: nat, request: Request)                  // non-blocking MPI call
    | Stored(op: nat, address: nat, status: Status)      // status written to user memory
    | Appended(op: nat)                                  // request and ticket copied to a slot
    | Signalled(ctx: TaskContext, handed: bool)          // release of the task, or its hand-over
    | Freed(op: nat)                                     // operation object given back

  datatype Kind = Issuance | Storage | Appending | Signalling | Freeing

  /** What has happened to an issued operation. */
  datatype Track = Track(request: Request, stored: bool, appended: bool, signalled: bool, freed: bool)

  /** `delegate` tells whether releases are left to the completion task. */
  datatype World = World(mpi: State, log: seq<Event>, ops: map<nat, Track>, delegate: bool)

  /** Construction of a ticket from an operation (src/common/Ticket.hpp). */
  function TicketOf(d: Catalogue, o: nat): Ticket {
    Ticket(TaskContext(d(o).task, d(o).blocking, o), if d(o).collective then StatusIgnore else d(o).status)
  }

  function New(r: Request): Track {
    Track(r, false, false, false, false)
  }

  // ---------------------------------------------------------------------- the record

  function Subject(e: Event): nat {
    if e.Signalled? then e.ctx.op else e.op
  }

  function KindOf(e: Event): Kind {
    match e
    case Issued(_, _) => Issuance
    case Stored(_, _, _) => Storage
    case Appended(_) => Appending
    case Signalled(_, _) => Signalling
    case Freed(_) => Freeing
  }

  predicate About(e: Event, kind: Kind, o: nat) {
    KindOf(e) == kind && Subject(e) == o
  }

  predicate SameKind(a: Event, b: Event) {
    About(a, KindOf(b), Subject(b))
  }

  /** An event of this kind about o is among the first k. */
  ghost predicate Has(log: seq<Event>, kind: Kind, o: nat, k: nat) {
    exists j :: 0 <= j < k && j < |log| && About(log[j], kind, o)
  }

  predicate Flag(t: Track, kind: Kind) {
    match kind
    case Issuance => true
    case Storage => t.stored
    case Appending => t.appended
    case Signalling => t.signalled
    case Freeing => t.freed
  }

  /** The k-th event is right. Everything about an operation comes after its issue. A stored
      status is the one that MPI reported for the request of that very operation, at the
      place the user gave. A release comes after the completion, and after the status if one
      is wanted. Only a pending operation gets a slot. The object is given back after the
      release or after request and ticket were copied to a slot. */
  ghost predicate EventOk(d: Catalogue, w: World, k: nat)
    requires k < |w.log|
  {
    var e := w.log[k];
    var o := Subject(e);
    && o in w.ops && Flag(w.ops[o], KindOf(e)) && (e.Issued? || Has(w.log, Issuance, o, k))
    && match e
       case Issued(_, r) => w.ops[o].request == r
       case Stored(_, address, status) =>
         && w.ops[o].request.Req? && w.ops[o].request.id in w.mpi.reported
         && status == w.mpi.reported[w.ops[o].request.id]
         && TicketOf(d, o).firstStatus == Location(address)
       case Appended(_) => !Has(w.log, Storage, o, k) && !Has(w.log, Signalling, o, k)
       case Signalled(ctx, handed) =>
         && ctx == TicketOf(d, o).ctx && handed == w.delegate
         && (w.ops[o].request.Req? ==> w.ops[o].request.id in w.mpi.reported)
         && (w.ops[o].request.Req? && !TicketOf(d, o).IgnoreStatus() ==> Has(w.log, Storage, o, k))
       case Freed(_) => Has(w.log, Signalling, o, k) || Has(w.log, Appending, o, k)
  }

  /** Nothing happens twice to an operation. */
  ghost predicate OnceEach(log: seq<Event>) {
    forall j, k :: 0 <= j < k < |log| ==> !SameKind(log[j], log[k])
  }

  /** What is marked has happened. */
  ghost predicate Marked(d: Catalogue, w: World, o: nat)
    requires o in w.ops
  {
    && (w.ops[o].request == Null <==> d(o).nullRequest)
    && forall kind :: Flag(w.ops[o], kind) ==> Has(w.log, kind, o, |w.log|)
  }

  ghost predicate LogOk(d: Catalogue, w: World) {
    && (forall k :: 0 <= k < |w.log| ==> EventOk(d, w, k))
    && OnceEach(w.log)
    && (forall o :: o in w.ops ==> Marked(d, w, o))
  }

  /** The first k events stay the first k events. */
  lemma HasKept(log: seq<Event>, log': seq<Event>, kind: Kind, o: nat, k: nat)
    requires log <= log' && k <= |log|
    ensures Has(log', kind, o, k) <==> Has(log, kind, o, k)
  {
    if Has(log, kind, o, k) {
      var j :| 0 <= j < k && j < |log| && About(log[j], kind, o);
      assert log'[j] == log[j];
    }
    if Has(log', kind, o, k) {
      var j :| 0 <= j < k && j < |log'| && About(log'[j], kind, o);
      assert log[j] == log'[j];
    }
  }

  function Issues(log: seq<Event>): nat {
    if log == [] then 0
    else Issues(log[..|log| - 1]) + if log[|log| - 1].Issued? then 1 else 0
  }

  function Signals(log: seq<Event>): nat {
    if log == [] then 0
    else Signals(log[..|log| - 1]) + if log[|log| - 1].Signalled? then 1 else 0
  }

  /** The operations that the record issues, in order. */
  function IssuedOps(log: seq<Event>): seq<nat> {
    if log == [] then []
    else IssuedOps(log[..|log| - 1]) + if log[|log| - 1].Issued? then [log[|log| - 1].op] else []
  }

  /** The operations that the record releases, in order. */
  function SignalledOps(log: seq<Event>): seq<nat> {
    if log == [] then []
    else SignalledOps(log[..|log| - 1]) + if log[|log| - 1].Signalled? then [log[|log| - 1].ctx.op] else []
  }

  lemma {:induction false} IssuedOpsMore(log: seq<Event>, e: Event)
    ensures IssuedOps(log + [e]) == IssuedOps(log) + if e.Issued? then [e.op] else []
    ensures SignalledOps(log + [e]) == SignalledOps(log) + if e.Signalled? then [e.ctx.op] else []
  {
    assert (log + [e])[..|log|] == log;
  }

  /** A longer record issues more operations, after the others. */
  lemma {:induction false} IssuedOpsGrow(log: seq<Event>, log': seq<Event>)
    requires log <= log'
    ensures IssuedOps(log) <= IssuedOps(log') && |IssuedOps(log')| == |IssuedOps(log)| + Issues(log') - Issues(log)
    decreases |log'|
  {
    if |log| < |log'| {
      var n := |log'| - 1;
      assert log <= log'[..n];
      IssuedOpsGrow(log, log'[..n]);
    } else {
      assert log == log';
    }
  }

  lemma {:induction false} NoIssues(w: World, w': World, signals: int)
    requires Ran(w, w', 0, signals)
    ensures IssuedOps(w'.log) == IssuedOps(w.log) && NullIssues(w'.log) == NullIssues(w.log)
  {
    IssuedOpsGrow(w.log, w'.log);
    NullIssuesGrow(w.log, w'.log);
  }

  /** The run from w to w' has added to the record: so many issues and so many releases. */
  ghost predicate Ran(w: World, w': World, issues: int, signals: int) {
    && w.log <= w'.log && w'.mpi.finished == w.mpi.finished && w'.delegate == w.delegate
    && Issues(w'.log) == Issues(w.log) + issues && Signals(w'.log) == Signals(w.log) + signals
  }

  lemma RanMore(w: World, w': World, e: Event)
    requires w'.log == w.log + [e] && w'.mpi.finished == w.mpi.finished && w'.delegate == w.delegate
    ensures Ran(w, w', if e.Issued? then 1 else 0, if e.Signalled? then 1 else 0)
  {
    assert w'.log[..|w.log|] == w.log;
  }

  lemma RanOn(w: World, w': World, w'': World, i: int, s: int, i': int, s': int)
    requires Ran(w, w', i, s) && Ran(w', w'', i', s')
    ensures Ran(w, w'', i + i', s + s')
  {
  }

  /** How many operations were answered with the null request. */
  function NullIssues(log: seq<Event>): nat {
    if log == [] then 0
    else NullIssues(log[..|log| - 1]) + if log[|log| - 1].Issued? && log[|log| - 1].request == Null then 1 else 0
  }

  lemma {:induction false} NullIssuesMore(log: seq<Event>, e: Event)
    ensures NullIssues(log + [e]) == NullIssues(log) + if e.Issued? && e.request == Null then 1 else 0
  {
    assert (log + [e])[..|log|] == log;
  }

  lemma {:induction false} NullIssuesGrow(log: seq<Event>, log': seq<Event>)
    requires log <= log'
    ensures 0 <= NullIssues(log') - NullIssues(log) <= Issues(log') - Issues(log)
    decreases |log'|
  {
    if |log| < |log'| {
      var n := |log'| - 1;
      assert log <= log'[..n];
      NullIssuesGrow(log, log'[..n]);
    } else {
      assert log == log';
    }
  }

  // ------------------------------------------------ releases at once and releases later

  /** How many operations are released that had got a slot before. */
  ghost function Delayed(log: seq<Event>): nat {
    if log == [] then 0
    else
      var n := |log| - 1;
      Delayed(log[..n]) + if log[n].Signalled? && Has(log, Appending, log[n].ctx.op, n) then 1 else 0
  }

  /** How many operations are released that never had a slot. */
  ghost function AtOnce(log: seq<Event>): nat {
    if log == [] then 0
    else
      var n := |log| - 1;
      AtOnce(log[..n]) + if log[n].Signalled? && !Has(log, Appending, log[n].ctx.op, n) then 1 else 0
  }

  lemma {:induction false} ReleasesSplit(log: seq<Event>)
    ensures Signals(log) == AtOnce(log) + Delayed(log)
  {
    if log != [] {
      ReleasesSplit(log[..|log| - 1]);
    }
  }

  /** If all further releases, or none of them, are of operations that had a slot. */
  lemma {:induction false} DelayedFrom(log: seq<Event>, log': seq<Event>, all: bool)
    requires log <= log'
    requires forall k :: |log| <= k < |log'| && log'[k].Signalled? ==> (Has(log', Appending, log'[k].ctx.op, k) <==> all)
    ensures Delayed(log') - Delayed(log) == if all then Signals(log') - Signals(log) else 0
    decreases |log'|
  {
    if |log| < |log'| {
      var n := |log'| - 1;
      var before := log'[..n];
      assert log <= before;
      forall k | |log| <= k < n && before[k].Signalled? ensures Has(before, Appending, before[k].ctx.op, k) <==> all {
        HasKept(before, log', Appending, before[k].ctx.op, k);
      }
      DelayedFrom(log, before, all);
    } else {
      assert log == log';
    }
  }

  /** Delayed releases are releases. */
  lemma {:induction false} DelayedStill(log: seq<Event>, log': seq<Event>)
    requires log <= log'
    ensures 0 <= Delayed(log') - Delayed(log) <= Signals(log') - Signals(log)
    decreases |log'|
  {
    if |log| < |log'| {
      var n := |log'| - 1;
      assert log <= log'[..n];
      DelayedStill(log, log'[..n]);
    } else {
      assert log == log';
    }
  }

  // ------------------------------------------------------------------------ actions

  function Issue(w: World, o: nat, r: Request, m': State): World {
    w.(mpi := m', log := w.log + [Issued(o, r)], ops := w.ops[o := New(r)])
  }

  function Mark(t: Track, e: Event): Track {
    match e
    case Issued(_, _) => t
    case Stored(_, _, _) => t.(stored := true)
    case Appended(_) => t.(appended := true)
    case Signalled(_, _) => t.(signalled := true)
    case Freed(_) => t.(freed := true)
  }

  /** The event happens to an operation that was issued. */
  function Record(w: World, e: Event): World
    requires Subject(e) in w.ops
  {
    w.(log := w.log + [e], ops := w.ops[Subject(e) := Mark(w.ops[Subject(e)], e)])
  }

  function Store(w: World, o: nat, address: nat, st: Status): World
    requires o in w.ops
  {
    Record(w, Stored(o, address, st))
  }

  function Append(w: World, o: nat): World
    requires o in w.ops
  {
    Record(w, Appended(o))
  }

  /** The task is released by the caller, or its context is handed to the completion task. */
  function Signal(w: World, ctx: TaskContext, handed: bool): World
    requires ctx.op in w.ops
  {
    Record(w, Signalled(ctx, handed))
  }

  function Free(w: World, o: nat): World
    requires o in w.ops
  {
    Record(w, Freed(o))
  }

  /** MPI has reported more completions and taken none back. */
  ghost predicate Extends(m: State, m': State) {
    m'.issued >= m.issued && forall id :: id in m.reported ==> id in m'.reported && m'.reported[id] == m.reported[id]
  }

  ghost predicate Raised(t: Track, t': Track) {
    t'.request == t.request && forall kind :: Flag(t, kind) ==> Flag(t', kind)
  }

  /** w' adds the event e about operation o and only raises marks. */
  ghost predicate Adds(w: World, w': World, e: Event, o: nat) {
    && w'.log == w.log + [e] && Subject(e) == o && o in w'.ops
    && Extends(w.mpi, w'.mpi) && w'.delegate == w.delegate
    && (forall x :: x in w.ops ==> x in w'.ops && Raised(w.ops[x], w'.ops[x]))
    && (forall x :: x in w'.ops && x != o ==> x in w.ops && w'.ops[x] == w.ops[x])
  }

  lemma EventKept(d: Catalogue, w: World, w': World, e: Event, o: nat, k: nat)
    requires Adds(w, w', e, o) && k < |w.log| && EventOk(d, w, k)
    ensures EventOk(d, w', k)
  {
    assert w'.log[k] == w.log[k];
    var x := Subject(w.log[k]);
    forall kind ensures Has(w'.log, kind, x, k) <==> Has(w.log, kind, x, k) {
      HasKept(w.log, w'.log, kind, x, k);
    }
  }

  lemma MarksKept(d: Catalogue, w: World, w': World, x: nat)
    requires x in w.ops && Marked(d, w, x) && w.log <= w'.log && x in w'.ops && w'.ops[x] == w.ops[x]
    ensures Marked(d, w', x)
  {
    forall kind | Flag(w'.ops[x], kind) ensures Has(w'.log, kind, x, |w'.log|) {
      var j :| 0 <= j < |w.log| && About(w.log[j], kind, x);
      assert w'.log[j] == w.log[j];
    }
  }

  /** The mark of the new event. */
  ghost predicate MarkOk(d: Catalogue, w: World, w': World, e: Event, o: nat) {
    && o in w'.ops && Subject(e) == o
    && if e.Issued? then w'.ops[o] == New(e.request) && (e.request == Null <==> d(o).nullRequest)
       else o in w.ops && w'.ops[o] == Mark(w.ops[o], e)
  }

  lemma NewlyMarked(d: Catalogue, w: World, w': World, e: Event, o: nat)
    requires w'.log == w.log + [e] && MarkOk(d, w, w', e, o) && (!e.Issued? ==> Marked(d, w, o))
    ensures Marked(d, w', o)
  {
    assert About(w'.log[|w.log|], KindOf(e), o);
    if !e.Issued? {
      MarksKept(d, w, w'.(ops := w.ops), o);
    }
  }

  /** Appending a right and new event keeps the record right. */
  lemma LogMore(d: Catalogue, w: World, w': World, e: Event, o: nat)
    requires LogOk(d, w) && Adds(w, w', e, o) && MarkOk(d, w, w', e, o)
    requires EventOk(d, w', |w.log|)
    requires forall j :: 0 <= j < |w.log| ==> !SameKind(w.log[j], e)
    ensures LogOk(d, w')
  {
    forall k | 0 <= k < |w'.log| ensures EventOk(d, w', k) {
      if k < |w.log| {
        EventKept(d, w, w', e, o, k);
      }
    }
    forall x | x in w'.ops ensures Marked(d, w', x) {
      if x == o {
        NewlyMarked(d, w, w', e, o);
      } else {
        MarksKept(d, w, w', x);
      }
    }
    OnceMore(w.log, e);
  }

  lemma OnceMore(log: seq<Event>, e: Event)
    requires OnceEach(log) && forall j :: 0 <= j < |log| ==> !SameKind(log[j], e)
    ensures OnceEach(log + [e])
  {
  }

  // ---------------------------------------------------------------- the whole state

  /** Where the operations are. The slots in `holes` have completed and not been refilled;
      the operations in `inflight` are in the hands of the running call; those in `held`
      have not been given back to the allocator. */
  datatype View = View(rows: seq<Row>, holes: set<int>, inflight: set<nat>, held: set<nat>)

  function Op(r: Row): nat { r.ticket.ctx.op }

  /** A slot in use: the request is active, is the one issued for the operation of the
      ticket in that slot, and nothing has been reported to the task yet. */
  ghost predicate Live(d: Catalogue, w: World, r: Row) {
    && Op(r) in w.ops && r.ticket == TicketOf(d, Op(r)) && r.local == 0
    && r.request == w.ops[Op(r)].request && Active(w.mpi, r.request)
    && w.ops[Op(r)].appended && !w.ops[Op(r)].stored && !w.ops[Op(r)].signalled
  }

  ghost predicate RowsOk(d: Catalogue, w: World, v: View) {
    && (forall i :: 0 <= i < |v.rows| && i !in v.holes ==> Live(d, w, v.rows[i]) && Op(v.rows[i]) !in v.inflight)
    && (forall i, j :: 0 <= i < j < |v.rows| && i !in v.holes && j !in v.holes ==> Op(v.rows[i]) != Op(v.rows[j]))
  }

  ghost predicate InRow(v: View, o: nat) {
    exists i :: 0 <= i < |v.rows| && i !in v.holes && Op(v.rows[i]) == o
  }

  /** No operation is lost: an issued one is released, in a slot or being processed. */
  ghost predicate Placed(w: World, v: View, o: nat)
    requires o in w.ops
  {
    && (w.ops[o].signalled || o in v.inflight || InRow(v, o))
    && (o in v.inflight ==> !w.ops[o].signalled)
    && (w.ops[o].freed <==> o !in v.held)
  }

  /** A request belongs to one operation. */
  ghost predicate RequestsOk(w: World) {
    && (forall o :: o in w.ops && w.ops[o].request.Req? ==> w.ops[o].request.id < w.mpi.issued)
    && (forall id :: id in w.mpi.reported ==> id < w.mpi.issued)
    && (forall o, p :: o in w.ops && p in w.ops && o != p && w.ops[o].request.Req? ==> w.ops[o].request != w.ops[p].request)
  }

  ghost predicate PlacesOk(d: Catalogue, w: World, v: View) {
    && RequestsOk(w) && RowsOk(d, w, v)
    && v.inflight <= w.ops.Keys && v.held <= w.ops.Keys
    && forall o :: o in w.ops ==> Placed(w, v, o)
  }

  ghost predicate Inv(d: Catalogue, w: World, v: View) {
    LogOk(d, w) && PlacesOk(d, w, v)
  }

  /** Nothing is being processed: the state between two calls. */
  ghost predicate Settled(v: View) {
    v.holes == {} && v.inflight == {} && v.held == {}
  }

  // ---------------------------------------------------------- what each action keeps

  /** An event that has not happened yet to operation o is a new one. */
  lemma NewEvent(d: Catalogue, w: World, kind: Kind, o: nat)
    requires LogOk(d, w) && (o in w.ops ==> !Flag(w.ops[o], kind))
    ensures !Has(w.log, kind, o, |w.log|)
  {
    forall j | 0 <= j < |w.log| ensures !About(w.log[j], kind, o) {
      assert EventOk(d, w, j);
    }
  }

  /** What an event needs to be right when it is the next one. */
  ghost predicate Due(d: Catalogue, w: World, e: Event) {
    var o := Subject(e);
    && o in w.ops && !e.Issued? && !Flag(w.ops[o], KindOf(e))
    && match e
       case Issued(_, _) => false
       case Stored(_, address, status) =>
         && w.ops[o].request.Req? && w.ops[o].request.id in w.mpi.reported
         && status == w.mpi.reported[w.ops[o].request.id] && TicketOf(d, o).firstStatus == Location(address)
       case Appended(_) => !w.ops[o].stored && !w.ops[o].signalled
       case Signalled(ctx, handed) => ctx == TicketOf(d, o).ctx && handed == w.delegate && Releasable(d, w, o)
       case Freed(_) => w.ops[o].signalled || w.ops[o].appended
  }

  /** The task of the operation may be released. */
  ghost predicate Releasable(d: Catalogue, w: World, o: nat) {
    && o in w.ops
    && (w.ops[o].request.Req? ==>
          w.ops[o].request.id in w.mpi.reported && (TicketOf(d, o).IgnoreStatus() || w.ops[o].stored))
  }

  lemma DueIsOk(d: Catalogue, w: World, e: Event)
    requires LogOk(d, w) && Due(d, w, e)
    ensures EventOk(d, Record(w, e), |w.log|)
  {
    var o, w' := Subject(e), Record(w, e);
    assert Marked(d, w, o);
    forall kind ensures Has(w'.log, kind, o, |w.log|) <==> Flag(w.ops[o], kind) {
      HasKept(w.log, w'.log, kind, o, |w.log|);
      if !Flag(w.ops[o], kind) {
        NewEvent(d, w, kind, o);
      }
    }
  }

  /** Recording an event that is due keeps the record right. */
  lemma Recorded(d: Catalogue, w: World, e: Event)
    requires LogOk(d, w) && Due(d, w, e)
    ensures LogOk(d, Record(w, e)) && Ran(w, Record(w, e), 0, if e.Signalled? then 1 else 0)
  {
    var o, w' := Subject(e), Record(w, e);
    RanMore(w, w', e);
    DueIsOk(d, w, e);
    NewEvent(d, w, KindOf(e), o);
    LogMore(d, w, w', e, o);
  }

  /** What happens to o leaves the place of the other operations as it was. */
  lemma PlacedStill(w: World, v: View, w': World, v': View, x: nat)
    requires v'.rows == v.rows && v'.holes == v.holes && x in w.ops && x in w'.ops && Placed(w, v, x)
    requires w'.ops[x].signalled == w.ops[x].signalled && (x in v'.inflight <==> x in v.inflight)
    requires w'.ops[x].freed <==> x !in v'.held
    ensures Placed(w', v', x)
  {
    if InRow(v, x) {
      var i :| 0 <= i < |v.rows| && i !in v.holes && Op(v.rows[i]) == x;
      assert v'.rows[i] == v.rows[i];
    }
  }

  /** w' differs from w only in operation o, and v' from v only in where o is. */
  ghost predicate OnlyAt(w: World, v: View, w': World, v': View, o: nat) {
    && v'.rows == v.rows && v'.holes == v.holes && o in w'.ops
    && w'.ops.Keys == w.ops.Keys + {o}
    && (forall x :: x in w.ops && x != o ==> w'.ops[x] == w.ops[x])
    && v'.inflight - {o} == v.inflight - {o} && v'.held - {o} == v.held - {o}
  }

  lemma PlacesStill(d: Catalogue, w: World, v: View, w': World, v': View, o: nat)
    requires PlacesOk(d, w, v) && OnlyAt(w, v, w', v', o) && RequestsOk(w')
    requires forall r :: Active(w.mpi, r) ==> Active(w'.mpi, r)
    requires (o in w.ops && o !in v.inflight) ==> w'.ops[o] == w.ops[o].(freed := true) && o !in v'.inflight
    requires o in v.inflight || o !in w.ops ==> Placed(w', v', o)
    requires w'.ops[o].freed <==> o !in v'.held
    ensures PlacesOk(d, w', v')
  {
    forall x | x in w'.ops ensures Placed(w', v', x) {
      if x != o {
        assert x in v'.inflight <==> x in v'.inflight - {o};
        assert x in v.inflight <==> x in v.inflight - {o};
        assert x in v'.held <==> x in v'.held - {o};
        assert x in v.held <==> x in v.held - {o};
      }
      if x != o || (o in w.ops && o !in v.inflight) {
        PlacedStill(w, v, w', v', x);
      }
    }
    RowsStill(d, w, v, w', v', o);
    forall x | x in v'.inflight + v'.held ensures x in w'.ops {
      if x != o {
        assert x in (v'.inflight - {o}) + (v'.held - {o});
      }
    }
  }

  lemma RowsStill(d: Catalogue, w: World, v: View, w': World, v': View, o: nat)
    requires RowsOk(d, w, v) && OnlyAt(w, v, w', v', o)
    requires forall r :: Active(w.mpi, r) ==> Active(w'.mpi, r)
    requires (o in w.ops && o !in v.inflight) ==> w'.ops[o] == w.ops[o].(freed := true) && o !in v'.inflight
    ensures RowsOk(d, w', v')
  {
    forall i | 0 <= i < |v'.rows| && i !in v'.holes ensures Live(d, w', v'.rows[i]) && Op(v'.rows[i]) !in v'.inflight {
      assert Live(d, w, v.rows[i]);
      var x := Op(v.rows[i]);
      if x != o {
        assert x in v'.inflight <==> x in v'.inflight - {o};
        assert x in v.inflight <==> x in v.inflight - {o};
      }
    }
  }

  lemma IssueLogged(d: Catalogue, w: World, o: nat, r: Request, m': State)
    requires LogOk(d, w) && o !in w.ops && Extends(w.mpi, m') && m'.finished == w.mpi.finished
    requires r == Null <==> d(o).nullRequest
    ensures LogOk(d, Issue(w, o, r, m')) && Ran(w, Issue(w, o, r, m'), 1, 0)
  {
    var w' := Issue(w, o, r, m');
    RanMore(w, w', Issued(o, r));
    NewEvent(d, w, Issuance, o);
    LogMore(d, w, w', Issued(o, r), o);
  }

  lemma IssueKeeps(d: Catalogue, w: World, v: View, o: nat, r: Request, m': State)
    requires Inv(d, w, v) && o !in w.ops && (r == Null <==> d(o).nullRequest)
    requires (r == Null && m' == w.mpi) || (r == Req(w.mpi.issued) && m' == w.mpi.(issued := w.mpi.issued + 1))
    ensures Inv(d, Issue(w, o, r, m'), v.(inflight := v.inflight + {o}, held := v.held + {o}))
    ensures Ran(w, Issue(w, o, r, m'), 1, 0)
  {
    IssueLogged(d, w, o, r, m');
    IssuePlaced(d, w, v, o, r, m');
  }

  lemma IssuePlaced(d: Catalogue, w: World, v: View, o: nat, r: Request, m': State)
    requires PlacesOk(d, w, v) && o !in w.ops
    requires (r == Null && m' == w.mpi) || (r == Req(w.mpi.issued) && m' == w.mpi.(issued := w.mpi.issued + 1))
    ensures PlacesOk(d, Issue(w, o, r, m'), v.(inflight := v.inflight + {o}, held := v.held + {o}))
  {
    var w', v' := Issue(w, o, r, m'), v.(inflight := v.inflight + {o}, held := v.held + {o});
    IssueRequests(w, o, r, m');
    assert OnlyAt(w, v, w', v', o);
    PlacesStill(d, w, v, w', v', o);
  }

  lemma IssueRequests(w: World, o: nat, r: Request, m': State)
    requires RequestsOk(w) && o !in w.ops
    requires (r == Null && m' == w.mpi) || (r == Req(w.mpi.issued) && m' == w.mpi.(issued := w.mpi.issued + 1))
    ensures RequestsOk(Issue(w, o, r, m'))
  {
  }

  lemma RequestsStill(w: World, w': World)
    requires RequestsOk(w) && w'.ops.Keys == w.ops.Keys && w'.mpi == w.mpi
    requires forall x :: x in w.ops ==> w'.ops[x].request == w.ops[x].request
    ensures RequestsOk(w')
  {
    forall o, p | o in w'.ops && p in w'.ops && o != p && w'.ops[o].request.Req?
      ensures w'.ops[o].request != w'.ops[p].request
    {
      assert o in w.ops && p in w.ops;
    }
  }

  /** The status of a completed operation goes where its user wants it. */
  lemma StoreKeeps(d: Catalogue, w: World, v: View, o: nat, st: Status)
    requires Inv(d, w, v) && o in v.inflight && !w.ops[o].stored && TicketOf(d, o).firstStatus.Location?
    requires w.ops[o].request.Req? && w.ops[o].request.id in w.mpi.reported && st == w.mpi.reported[w.ops[o].request.id]
    ensures var w' := Store(w, o, TicketOf(d, o).firstStatus.address, st);
            Inv(d, w', v) && Ran(w, w', 0, 0)
  {
    Recorded(d, w, Stored(o, TicketOf(d, o).firstStatus.address, st));
    StorePlaced(d, w, v, o, TicketOf(d, o).firstStatus.address, st);
  }

  lemma StorePlaced(d: Catalogue, w: World, v: View, o: nat, address: nat, st: Status)
    requires PlacesOk(d, w, v) && o in v.inflight
    ensures PlacesOk(d, Store(w, o, address, st), v)
  {
    assert Placed(w, v, o);
    RequestsStill(w, Store(w, o, address, st));
    PlacesStill(d, w, v, Store(w, o, address, st), v, o);
  }

  lemma SignalKeeps(d: Catalogue, w: World, v: View, o: nat)
    requires Inv(d, w, v) && o in v.inflight && Releasable(d, w, o)
    ensures var w' := Signal(w, TicketOf(d, o).ctx, w.delegate);
            Inv(d, w', v.(inflight := v.inflight - {o})) && Ran(w, w', 0, 1)
  {
    assert Placed(w, v, o);
    Recorded(d, w, Signalled(TicketOf(d, o).ctx, w.delegate));
    SignalPlaced(d, w, v, TicketOf(d, o).ctx);
  }

  lemma SignalPlaced(d: Catalogue, w: World, v: View, ctx: TaskContext)
    requires PlacesOk(d, w, v) && ctx.op in v.inflight
    ensures PlacesOk(d, Signal(w, ctx, w.delegate), v.(inflight := v.inflight - {ctx.op}))
  {
    assert Placed(w, v, ctx.op);
    RequestsStill(w, Signal(w, ctx, w.delegate));
    PlacesStill(d, w, v, Signal(w, ctx, w.delegate), v.(inflight := v.inflight - {ctx.op}), ctx.op);
  }

  lemma FreeKeeps(d: Catalogue, w: World, v: View, o: nat)
    requires Inv(d, w, v) && o in v.held && o !in v.inflight
    ensures Inv(d, Free(w, o), v.(held := v.held - {o})) && Ran(w, Free(w, o), 0, 0)
  {
    FreeIsDue(d, w, v, o);
    Recorded(d, w, Freed(o));
    FreePlaced(d, w, v, o);
  }

  lemma FreeIsDue(d: Catalogue, w: World, v: View, o: nat)
    requires PlacesOk(d, w, v) && o in v.held && o !in v.inflight
    ensures o in w.ops && Due(d, w, Freed(o))
  {
    assert Placed(w, v, o);
    if !w.ops[o].signalled {
      var i :| 0 <= i < |v.rows| && i !in v.holes && Op(v.rows[i]) == o;
      assert Live(d, w, v.rows[i]);
    }
  }

  lemma FreePlaced(d: Catalogue, w: World, v: View, o: nat)
    requires PlacesOk(d, w, v) && o in v.held && o !in v.inflight
    ensures PlacesOk(d, Free(w, o), v.(held := v.held - {o}))
  {
    RequestsStill(w, Free(w, o));
    PlacesStill(d, w, v, Free(w, o), v.(held := v.held - {o}), o);
  }

  // ---------------------------------------------------------- completions and moves

  lemma LogExtends(d: Catalogue, w: World, m': State)
    requires LogOk(d, w) && Extends(w.mpi, m')
    ensures LogOk(d, w.(mpi := m'))
  {
    var w' := w.(mpi := m');
    forall k | 0 <= k < |w'.log| ensures EventOk(d, w', k) {
      assert EventOk(d, w, k);
    }
    forall o | o in w'.ops ensures Marked(d, w', o) {
      assert Marked(d, w, o);
    }
  }

  /** The request belongs to an operation that is being processed. */
  ghost predicate InHand(w: World, v: View, id: nat)
    requires v.inflight <= w.ops.Keys
  {
    exists o :: o in v.inflight && w.ops[o].request == Req(id)
  }

  lemma ReportPlaced(d: Catalogue, w: World, v: View, m': State)
    requires PlacesOk(d, w, v) && Extends(w.mpi, m') && m'.issued == w.mpi.issued
    requires forall id {:trigger InHand(w, v, id)} :: id in m'.reported && id !in w.mpi.reported ==> InHand(w, v, id)
    ensures PlacesOk(d, w.(mpi := m'), v)
  {
    var w' := w.(mpi := m');
    forall o | o in w'.ops ensures Placed(w', v, o) {
      assert Placed(w, v, o);
    }
    forall id | id in m'.reported ensures id < m'.issued {
      if id !in w.mpi.reported {
        assert InHand(w, v, id);
      }
    }
    forall i | 0 <= i < |v.rows| && i !in v.holes ensures Live(d, w', v.rows[i]) && Op(v.rows[i]) !in v.inflight {
      assert Live(d, w, v.rows[i]);
      forall o | o in v.inflight ensures w.ops[o].request != v.rows[i].request {
      }
      assert !InHand(w, v, v.rows[i].request.id);
    }
  }

  /** MPI reports completions of requests of operations that are being processed. */
  lemma ReportKeeps(d: Catalogue, w: World, v: View, m': State)
    requires Inv(d, w, v) && Extends(w.mpi, m') && m'.issued == w.mpi.issued
    requires forall id {:trigger InHand(w, v, id)} :: id in m'.reported && id !in w.mpi.reported ==> InHand(w, v, id)
    ensures Inv(d, w.(mpi := m'), v)
  {
    LogExtends(d, w, m');
    ReportPlaced(d, w, v, m');
  }

  /** The operations of the slots idx. */
  ghost predicate OpsAt(v: View, idx: seq<int>, ops: seq<nat>) {
    && Ascending(idx, |v.rows|) && |ops| == |idx|
    && forall c :: 0 <= c < |idx| ==> idx[c] !in v.holes && ops[c] == Op(v.rows[idx[c]])
  }

  ghost predicate SameOutside(rows: seq<Row>, rows': seq<Row>, idx: seq<int>) {
    |rows'| == |rows| && forall i :: 0 <= i < |rows| && i !in Elems(idx) ==> rows'[i] == rows[i]
  }

  function Detached(v: View, rows': seq<Row>, idx: seq<int>, ops: seq<nat>): View {
    View(rows', v.holes + Elems(idx), v.inflight + Elems(ops), v.held)
  }

  lemma DetachedOps(d: Catalogue, w: World, v: View, idx: seq<int>, ops: seq<nat>)
    requires RowsOk(d, w, v) && OpsAt(v, idx, ops)
    ensures Distinct(ops)
    ensures forall c :: 0 <= c < |ops| ==> Live(d, w, v.rows[idx[c]]) && ops[c] in w.ops && ops[c] !in v.inflight
  {
  }

  lemma DetachRows(d: Catalogue, w: World, v: View, rows': seq<Row>, idx: seq<int>, ops: seq<nat>)
    requires RowsOk(d, w, v) && OpsAt(v, idx, ops) && SameOutside(v.rows, rows', idx)
    ensures RowsOk(d, w, Detached(v, rows', idx, ops))
  {
    var v' := Detached(v, rows', idx, ops);
    forall i | 0 <= i < |rows'| && i !in v'.holes ensures Live(d, w, rows'[i]) && Op(rows'[i]) !in v'.inflight {
      assert Live(d, w, v.rows[i]) && rows'[i] == v.rows[i];
      forall c | 0 <= c < |ops| ensures ops[c] != Op(v.rows[i]) {
        assert idx[c] in Elems(idx);
      }
    }
  }

  lemma DetachPlaced(d: Catalogue, w: World, v: View, rows': seq<Row>, idx: seq<int>, ops: seq<nat>)
    requires PlacesOk(d, w, v) && OpsAt(v, idx, ops) && SameOutside(v.rows, rows', idx)
    ensures PlacesOk(d, w, Detached(v, rows', idx, ops))
  {
    var v' := Detached(v, rows', idx, ops);
    DetachedOps(d, w, v, idx, ops);
    DetachRows(d, w, v, rows', idx, ops);
    forall o | o in w.ops ensures Placed(w, v', o) {
      assert Placed(w, v, o);
      if InRow(v, o) && o !in Elems(ops) {
        var i :| 0 <= i < |v.rows| && i !in v.holes && Op(v.rows[i]) == o;
        StaysInRow(v, rows', idx, ops, i);
      }
    }
  }

  lemma StaysInRow(v: View, rows': seq<Row>, idx: seq<int>, ops: seq<nat>, i: nat)
    requires OpsAt(v, idx, ops) && SameOutside(v.rows, rows', idx)
    requires i < |v.rows| && i !in v.holes && Op(v.rows[i]) !in Elems(ops)
    ensures InRow(Detached(v, rows', idx, ops), Op(v.rows[i]))
  {
    forall c | 0 <= c < |idx| ensures idx[c] != i {
      assert ops[c] in Elems(ops);
    }
    assert rows'[i] == v.rows[i];
  }

  /** The operation gets a slot after the others, with its own request and ticket. */
  function InNextSlot(d: Catalogue, w: World, v: View, o: nat): View
    requires o in w.ops
  {
    v.(rows := v.rows + [Row(w.ops[o].request, TicketOf(d, o), 0)], inflight := v.inflight - {o})
  }

  lemma AppendKeeps(d: Catalogue, w: World, v: View, o: nat)
    requires Inv(d, w, v) && v.holes == {} && o in v.inflight && !w.ops[o].stored && !w.ops[o].appended
    requires Active(w.mpi, w.ops[o].request)
    ensures Inv(d, Append(w, o), InNextSlot(d, w, v, o)) && Ran(w, Append(w, o), 0, 0)
  {
    assert Placed(w, v, o);
    Recorded(d, w, Appended(o));
    AppendNoted(d, w, v, o);
    AppendPlaced(d, Append(w, o), v, o);
  }

  lemma AppendNoted(d: Catalogue, w: World, v: View, o: nat)
    requires PlacesOk(d, w, v) && o in v.inflight
    ensures PlacesOk(d, Append(w, o), v)
  {
    assert Placed(w, v, o);
    RequestsStill(w, Append(w, o));
    PlacesStill(d, w, v, Append(w, o), v, o);
  }

  lemma AppendPlaced(d: Catalogue, w: World, v: View, o: nat)
    requires PlacesOk(d, w, v) && v.holes == {} && o in v.inflight && w.ops[o].appended && !w.ops[o].stored
    requires Active(w.mpi, w.ops[o].request)
    ensures PlacesOk(d, w, InNextSlot(d, w, v, o))
  {
    var v' := InNextSlot(d, w, v, o);
    assert Placed(w, v, o);
    AppendRows(d, w, v, o);
    forall x | x in w.ops ensures Placed(w, v', x) {
      assert Placed(w, v, x);
      if x == o {
        assert Op(v'.rows[|v.rows|]) == o;
      } else if InRow(v, x) {
        var i :| 0 <= i < |v.rows| && i !in v.holes && Op(v.rows[i]) == x;
        assert v'.rows[i] == v.rows[i];
      }
    }
  }

  lemma AppendRows(d: Catalogue, w: World, v: View, o: nat)
    requires RowsOk(d, w, v) && v.holes == {} && o in v.inflight && o in w.ops && w.ops[o].appended
    requires !w.ops[o].stored && !w.ops[o].signalled && Active(w.mpi, w.ops[o].request)
    ensures RowsOk(d, w, InNextSlot(d, w, v, o))
  {
    var v' := InNextSlot(d, w, v, o);
    forall i | 0 <= i < |v'.rows| ensures Live(d, w, v'.rows[i]) && Op(v'.rows[i]) !in v'.inflight {
      if i < |v.rows| {
        assert v'.rows[i] == v.rows[i] && Live(d, w, v.rows[i]);
      }
    }
    forall i, j | 0 <= i < j < |v'.rows| ensures Op(v'.rows[i]) != Op(v'.rows[j]) {
      assert v'.rows[i] == v.rows[i];
    }
  }

  lemma CompactRows(d: Catalogue, w: World, v: View, left: nat, src: seq<int>)
    requires RowsOk(d, w, v) && IsCompaction(|v.rows|, v.holes, left, src)
    ensures RowsOk(d, w, v.(rows := Rearranged(v.rows, src), holes := {}))
  {
    forall j | 0 <= j < |src| ensures src[j] !in v.holes {
    }
  }

  /** Compaction keeps every pending operation in exactly one slot. */
  lemma CompactPlaced(d: Catalogue, w: World, v: View, left: nat, src: seq<int>)
    requires PlacesOk(d, w, v) && IsCompaction(|v.rows|, v.holes, left, src)
    ensures PlacesOk(d, w, v.(rows := Rearranged(v.rows, src), holes := {}))
  {
    var v' := v.(rows := Rearranged(v.rows, src), holes := {});
    CompactRows(d, w, v, left, src);
    forall o | o in w.ops ensures Placed(w, v', o) {
      assert Placed(w, v, o);
      if InRow(v, o) {
        var i :| 0 <= i < |v.rows| && i !in v.holes && Op(v.rows[i]) == o;
        assert Occurs(src, i);
        var j :| 0 <= j < |src| && src[j] == i;
        assert v'.rows[j] == v.rows[i];
      }
    }
  }

  /** The requests of slots in use can be handed to a test call. */
  lemma LiveRequests(d: Catalogue, w: World, v: View, from: nat, to: nat, rs: seq<Request>)
    requires PlacesOk(d, w, v) && from <= to <= |v.rows| && |rs| == to - from
    requires forall i :: from <= i < to ==> i !in v.holes
    requires forall k :: 0 <= k < |rs| ==> rs[k] == v.rows[from + k].request
    ensures AllActive(w.mpi, rs)
  {
    forall k | 0 <= k < |rs| ensures Active(w.mpi, rs[k]) {
      assert Live(d, w, v.rows[from + k]);
    }
    forall j, k | 0 <= j < k < |rs| ensures rs[j] != rs[k] {
      assert Live(d, w, v.rows[from + j]) && Live(d, w, v.rows[from + k]);
    }
  }

  /** No request in the slots [from, to) is known to have finished. */
  ghost predicate Unfinished(w: World, rows: seq<Row>, from: nat, to: nat) {
    forall i :: from <= i < to && i < |rows| && rows[i].request.Req? ==> rows[i].request.id !in w.mpi.finished
  }

  // ------------------------------------------------------------------- consequences

  /** When no slot holds a finished request, every operation that has finished is released. */
  lemma FinishedAreReleased(d: Catalogue, w: World, v: View, o: nat)
    requires Inv(d, w, v) && Settled(v) && Unfinished(w, v.rows, 0, |v.rows|)
    requires o in w.ops && w.ops[o].request.Req? && w.ops[o].request.id in w.mpi.finished
    ensures Has(w.log, Signalling, o, |w.log|)
  {
    assert Placed(w, v, o) && Marked(d, w, o);
    forall i | 0 <= i < |v.rows| ensures Op(v.rows[i]) != o {
      assert Live(d, w, v.rows[i]);
    }
  }

  /** A release is that of the task which made the operation, in the mode of the operation:
      a blocking one is unblocked, the events of the others are decreased. It is handed to the
      completion task if and only if there is one. */
  lemma ReleasesItsTask(d: Catalogue, w: World, v: View, k: nat)
    requires Inv(d, w, v) && k < |w.log| && w.log[k].Signalled?
    ensures var ctx := w.log[k].ctx; ctx.op in w.ops && ctx.task == d(ctx.op).task && ctx.blocking == d(ctx.op).blocking
    ensures w.log[k].handed <==> w.delegate
  {
    assert EventOk(d, w, k);
  }

  /** A status is stored only for a point-to-point operation that wants one, where its user
      wants it. */
  lemma StoredWhereWanted(d: Catalogue, w: World, v: View, k: nat)
    requires Inv(d, w, v) && k < |w.log| && w.log[k].Stored?
    ensures var o := w.log[k].op; !d(o).collective && d(o).status == Location(w.log[k].address) && !d(o).nullRequest
  {
    assert EventOk(d, w, k) && Marked(d, w, w.log[k].op);
  }

  /** If all operations issued before keep their slots and the new ones have none, then the
      releases are those of operations that never had a slot. */
  lemma ReleasedAtOnce(d: Catalogue, w: World, v: View, w': World, v': View, batch: set<nat>)
    requires Inv(d, w, v) && Settled(v) && Inv(d, w', v') && w.log <= w'.log
    requires v'.rows == v.rows && v'.holes == {} && w'.ops.Keys == w.ops.Keys + batch
    requires forall o :: o in batch ==> !w'.ops[o].appended
    ensures Delayed(w'.log) == Delayed(w.log)
  {
    forall k | |w.log| <= k < |w'.log| && w'.log[k].Signalled?
      ensures !Has(w'.log, Appending, w'.log[k].ctx.op, k)
    {
      OnlyNewReleased(d, w, v, w', v', k);
      var o := w'.log[k].ctx.op;
      forall j | 0 <= j < k ensures !About(w'.log[j], Appending, o) {
        assert EventOk(d, w', j);
      }
    }
    DelayedFrom(w.log, w'.log, false);
  }

  lemma OnlyNewReleased(d: Catalogue, w: World, v: View, w': World, v': View, k: nat)
    requires Inv(d, w, v) && Settled(v) && Inv(d, w', v') && w.log <= w'.log && v'.rows == v.rows && v'.holes == {}
    requires |w.log| <= k < |w'.log| && w'.log[k].Signalled?
    ensures w'.log[k].ctx.op in w'.ops && w'.log[k].ctx.op !in w.ops
  {
    var o := w'.log[k].ctx.op;
    assert EventOk(d, w', k);
    forall i | 0 <= i < |v.rows| ensures Op(v.rows[i]) != o {
      assert Live(d, w', v'.rows[i]);
    }
    if o in w.ops {
      NotReleasedBefore(d, w, v, w', k);
      assert false;
    }
  }

  /** What is released later was in a slot. */
  lemma NotReleasedBefore(d: Catalogue, w: World, v: View, w': World, k: nat)
    requires Inv(d, w, v) && Settled(v) && LogOk(d, w') && w.log <= w'.log
    requires |w.log| <= k < |w'.log| && w'.log[k].Signalled? && w'.log[k].ctx.op in w.ops
    ensures InRow(v, w'.log[k].ctx.op)
  {
    var o := w'.log[k].ctx.op;
    forall j | 0 <= j < |w.log| ensures !About(w.log[j], Signalling, o) {
      assert w'.log[j] == w.log[j] && !SameKind(w'.log[j], w'.log[k]);
    }
    assert Placed(w, v, o) && Marked(d, w, o) && !Flag(w.ops[o], Signalling);
  }

  /** If no operation is issued, the releases are those of operations that had a slot. */
  lemma ReleasedLater(d: Catalogue, w: World, v: View, w': World)
    requires Inv(d, w, v) && Settled(v) && LogOk(d, w') && w.log <= w'.log && w'.ops.Keys == w.ops.Keys
    ensures Delayed(w'.log) - Delayed(w.log) == Signals(w'.log) - Signals(w.log)
  {
    forall k | |w.log| <= k < |w'.log| && w'.log[k].Signalled?
      ensures Has(w'.log, Appending, w'.log[k].ctx.op, k)
    {
      var o := w'.log[k].ctx.op;
      assert EventOk(d, w', k);
      NotReleasedBefore(d, w, v, w', k);
      var i :| 0 <= i < |v.rows| && i !in v.holes && Op(v.rows[i]) == o;
      assert Live(d, w, v.rows[i]) && Marked(d, w, o) && Flag(w.ops[o], Appending);
      var j :| 0 <= j < |w.log| && About(w.log[j], Appending, o);
      assert w'.log[j] == w.log[j];
    }
    DelayedFrom(w.log, w'.log, true);
  }

  /** A task is released after its status, if it wants one, was stored, and the status is
      the one that MPI reported for the request of that operation. */
  lemma StatusBeforeRelease(d: Catalogue, w: World, v: View, k: nat) returns (j: nat)
    requires Inv(d, w, v) && k < |w.log| && w.log[k].Signalled?
    requires var o := w.log[k].ctx.op; !d(o).nullRequest && d(o).status.Location? && !d(o).collective
    ensures var o := w.log[k].ctx.op;
            && j < k && o in w.ops && w.ops[o].request.Req? && w.ops[o].request.id in w.mpi.reported
            && w.log[j] == Stored(o, d(o).status.address, w.mpi.reported[w.ops[o].request.id])
  {
    var o := w.log[k].ctx.op;
    assert EventOk(d, w, k);
    assert Marked(d, w, o);
    j :| 0 <= j < k && About(w.log[j], Storage, o);
    assert EventOk(d, w, j);
  }

  /** A user who wants a status has got one with the release if and only if MPI answers the
      issue with a request: with the null request the status is never stored. */
  lemma StatusIffRequested(d: Catalogue, w: World, v: View, o: nat)
    requires Inv(d, w, v) && Has(w.log, Signalling, o, |w.log|) && d(o).status.Location? && !d(o).collective
    ensures Has(w.log, Storage, o, |w.log|) <==> !d(o).nullRequest
  {
    var s :| 0 <= s < |w.log| && About(w.log[s], Signalling, o);
    assert EventOk(d, w, s);
    assert Marked(d, w, o);
    if Has(w.log, Storage, o, |w.log|) {
      var k :| 0 <= k < |w.log| && About(w.log[k], Storage, o);
      assert EventOk(d, w, k);
    }
    if !d(o).nullRequest {
      var j := StatusBeforeRelease(d, w, v, s);
      assert About(w.log[j], Storage, o);
    }
  }

  /** Between calls an operation with the null request has been released. */
  lemma NullIsReleased(d: Catalogue, w: World, v: View, o: nat)
    requires Inv(d, w, v) && Settled(v) && o in w.ops && d(o).nullRequest
    ensures Has(w.log, Signalling, o, |w.log|)
  {
    assert Placed(w, v, o) && Marked(d, w, o);
    forall i | 0 <= i < |v.rows| ensures Op(v.rows[i]) != o {
      assert Live(d, w, v.rows[i]);
    }
  }

  /** Between calls, an operation has been issued once and given back once, and it has been
      released once or else is in exactly one slot. */
  lemma NothingLostNothingTwice(d: Catalogue, w: World, v: View, o: nat)
    requires Inv(d, w, v) && Settled(v) && o in w.ops
    ensures Has(w.log, Issuance, o, |w.log|) && Has(w.log, Freeing, o, |w.log|)
    ensures Has(w.log, Signalling, o, |w.log|) <==> !exists i :: 0 <= i < |v.rows| && Op(v.rows[i]) == o
    ensures forall j, k :: 0 <= j < k < |w.log| ==> !SameKind(w.log[j], w.log[k])
    ensures forall i, j :: 0 <= i < |v.rows| && 0 <= j < |v.rows| && Op(v.rows[i]) == Op(v.rows[j]) ==> i == j
  {
    assert Marked(d, w, o) && Placed(w, v, o);
    assert Flag(w.ops[o], Issuance) && Flag(w.ops[o], Freeing);
    if !w.ops[o].signalled {
      NewEvent(d, w, Signalling, o);
    }
    forall i | 0 <= i < |v.rows| && Op(v.rows[i]) == o ensures !w.ops[o].signalled {
      assert Live(d, w, v.rows[i]);
    }
  }

  /** The life of an operation is in order: the issue comes first; a status comes before the
      release; and the object is given back after the release or after request and ticket
      were copied to a slot, so that whatever follows uses the copy. */
  lemma LifeInOrder(d: Catalogue, w: World, v: View, o: nat, i: nat, k: nat)
    requires Inv(d, w, v) && i < k < |w.log| && Subject(w.log[i]) == o && Subject(w.log[k]) == o
    ensures !w.log[k].Issued?
    ensures w.log[k].Stored? ==> !w.log[i].Signalled?
    ensures w.log[k].Appended? ==> w.log[i].Issued?
    ensures w.log[i].Freed? ==> Has(w.log, Appending, o, i) && (w.log[k].Stored? || w.log[k].Signalled?)
    ensures w.log[k].Freed? && !Has(w.log, Appending, o, k) ==> Has(w.log, Signalling, o, k)
  {
    assert EventOk(d, w, i) && EventOk(d, w, k);
    IssueIsFirst(d, w, o, i, k);
    if w.log[k].Stored? {
      StoredNotAfter(d, w, o, i, k);
    }
    if w.log[k].Appended? {
      AppendedEarly(d, w, o, i, k);
    }
    if w.log[i].Freed? {
      AfterFreed(d, w, o, i, k);
    }
  }

  lemma IssueIsFirst(d: Catalogue, w: World, o: nat, i: nat, k: nat)
    requires LogOk(d, w) && i < k < |w.log| && Subject(w.log[i]) == o && Subject(w.log[k]) == o
    ensures !w.log[k].Issued?
  {
    assert EventOk(d, w, i);
    if !w.log[i].Issued? {
      var j :| 0 <= j < i && About(w.log[j], Issuance, o);
      assert !SameKind(w.log[j], w.log[k]);
    } else {
      assert !SameKind(w.log[i], w.log[k]);
    }
  }

  lemma StoredNotAfter(d: Catalogue, w: World, o: nat, i: nat, k: nat)
    requires LogOk(d, w) && i < k < |w.log| && Subject(w.log[i]) == o && About(w.log[k], Storage, o)
    ensures !w.log[i].Signalled?
  {
    assert EventOk(d, w, i) && EventOk(d, w, k);
    forall j | 0 <= j < i ensures !About(w.log[j], Storage, o) {
      assert !SameKind(w.log[j], w.log[k]);
    }
  }

  lemma AppendedEarly(d: Catalogue, w: World, o: nat, i: nat, k: nat)
    requires LogOk(d, w) && i < k < |w.log| && Subject(w.log[i]) == o && About(w.log[k], Appending, o)
    ensures w.log[i].Issued?
  {
    assert EventOk(d, w, i) && EventOk(d, w, k);
    assert !About(w.log[i], Storage, o) && !About(w.log[i], Signalling, o);
    assert !SameKind(w.log[i], w.log[k]);
    if w.log[i].Freed? {
      FreedAfterOne(d, w, o, i, k);
    }
  }

  /** If the object was given back at i and o gets a slot later, it had one before. */
  lemma FreedAfterOne(d: Catalogue, w: World, o: nat, i: nat, k: nat)
    requires LogOk(d, w) && i < k < |w.log| && About(w.log[i], Freeing, o)
    ensures !About(w.log[k], Appending, o)
  {
    assert EventOk(d, w, i) && EventOk(d, w, k);
    if Has(w.log, Signalling, o, i) {
      var j :| 0 <= j < i && About(w.log[j], Signalling, o);
      assert About(w.log[k], Appending, o) ==> !Has(w.log, Signalling, o, k);
    } else {
      var j :| 0 <= j < i && About(w.log[j], Appending, o);
      assert !SameKind(w.log[j], w.log[k]);
    }
  }

  lemma AfterFreed(d: Catalogue, w: World, o: nat, i: nat, k: nat)
    requires LogOk(d, w) && i < k < |w.log| && About(w.log[i], Freeing, o) && Subject(w.log[k]) == o
    ensures Has(w.log, Appending, o, i) && (w.log[k].Stored? || w.log[k].Signalled?)
  {
    assert EventOk(d, w, i);
    IssueIsFirst(d, w, o, i, k);
    FreedAfterOne(d, w, o, i, k);
    assert !SameKind(w.log[i], w.log[k]);
    if Has(w.log, Signalling, o, i) {
      var j :| 0 <= j < i && About(w.log[j], Signalling, o);
      assert !SameKind(w.log[j], w.log[k]);
      if w.log[k].Stored? {
        StoredNotAfter(d, w, o, j, k);
      }
    }
  }
}
