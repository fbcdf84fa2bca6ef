/**
  The parallel arrays of the ticket manager (src/common/TicketManagerInternals.hpp) and the
  "smart replacement" that keeps them compact (src/common/TicketManager.hpp). A pointer
  into the ticket array is the index of the slot it points to.
 */
module Internals {
  import opened Basics
  import opened Mpi
  import CapacityCtrl

  /** The arrays are as long as the largest capacity. */
  const CAPACITY: nat := CapacityCtrl.CAPACITY_LIMIT

  /** `op` is the identity of the operation; only specifications read it. */
  datatype TaskContext = TaskContext(task: nat, blocking: bool, op: nat)

  datatype StatusPtr = StatusIgnore | StatusesIgnore | Location(address: nat)

  datatype Ticket = Ticket(ctx: TaskContext, firstStatus: StatusPtr) {
    predicate IgnoreStatus() {
      firstStatus.StatusIgnore? || firstStatus.StatusesIgnore?
    }
  }

  datatype Mapping = Mapping(ticket: nat, localPosition: int)

  /** What slot i means: its request, the ticket its mapping points to, the position. */
  datatype Row = Row(request: Request, ticket: Ticket, local: int)

  // ------------------------------------------------------------- smart replacement

  ghost function Rearranged(rows: seq<Row>, src: seq<int>): (r: seq<Row>)
    requires forall j :: 0 <= j < |src| ==> 0 <= src[j] < |rows|
    ensures |r| == |src| && forall j :: 0 <= j < |src| ==> r[j] == rows[src[j]]
  {
    seq(|src|, j requires 0 <= j < |src| => rows[src[j]])
  }

  /** src[j] is the old slot of what is in slot j, for the `left` slots in use. Every survivor
      is kept once, a survivor below the new length stays where it is, and a hole is filled
      from above. */
  ghost predicate IsCompaction(n: nat, holes: set<int>, left: nat, src: seq<int>) {
    && |src| == left
    && (forall j :: 0 <= j < left ==> 0 <= src[j] < n && src[j] !in holes)
    && (forall j :: 0 <= j < left && j !in holes ==> src[j] == j)
    && (forall j :: 0 <= j < left && j in holes ==> src[j] >= left)
    && (forall i, j :: 0 <= i < j < left ==> src[i] != src[j])
    && (forall s {:trigger Occurs(src, s)} :: 0 <= s < n && s !in holes ==> Occurs(src, s))
  }

  ghost predicate Occurs(src: seq<int>, s: int) {
    exists j :: 0 <= j < |src| && src[j] == s
  }

  /** The counters of the replacement loop: m holes are filled, the slots above r are done
      with, and of the holes exactly those after index v are among them. */
  ghost predicate Window(n: nat, holes: seq<int>, m: nat, r: int, v: int) {
    && Ascending(holes, n) && m <= |holes| && -1 <= v < |holes| && -1 <= r < n
    && (forall d :: 0 <= d < |holes| ==> (holes[d] > r <==> d > v))
    && n - 1 - r == m + (|holes| - 1 - v)
    && (m > 0 ==> holes[m - 1] <= r)
  }

  /** The moves of the replacement loop: the first m holes were filled with survivors from
      above r, the highest first, every survivor above r was moved, and no other slot was
      written. */
  ghost predicate Filled(n: nat, holes: seq<int>, from: seq<int>, m: nat, r: int) {
    && |from| == n && Ascending(holes, n) && m <= |holes|
    && (forall d :: 0 <= d < m ==> r < from[holes[d]] < n && from[holes[d]] !in holes)
    && (forall d, e :: 0 <= d < e < m ==> from[holes[d]] > from[holes[e]])
    && (forall j {:trigger Among(holes, m, j)} :: 0 <= j < n && from[j] != j ==> Among(holes, m, j))
    && (forall s {:trigger FilledWith(holes, from, m, s)} :: r < s < n && s !in holes ==> FilledWith(holes, from, m, s))
  }

  ghost predicate FilledWith(holes: seq<int>, from: seq<int>, m: nat, s: int)
    requires m <= |holes| && Ascending(holes, |from|)
  {
    exists d :: 0 <= d < m && from[holes[d]] == s
  }

  ghost predicate Among(holes: seq<int>, m: nat, j: int)
    requires m <= |holes|
  {
    exists d :: 0 <= d < m && holes[d] == j
  }

  lemma CompactingStarts(n: nat, holes: seq<int>) returns (from: seq<int>)
    requires Ascending(holes, n)
    ensures Window(n, holes, 0, n - 1, |holes| - 1) && Filled(n, holes, from, 0, n - 1)
    ensures forall j :: 0 <= j < n ==> from[j] == j
  {
    from := seq(n, j => j);
  }

  /** The index into the holes never underflows when it is read. */
  lemma ReverseInRange(n: nat, holes: seq<int>, m: nat, r: int, v: int)
    requires Window(n, holes, m, r, v) && m < |holes| && r > holes[m]
    ensures v >= m
  {
  }

  lemma SkipHole(n: nat, holes: seq<int>, from: seq<int>, m: nat, r: int, v: int)
    requires Window(n, holes, m, r, v) && Filled(n, holes, from, m, r)
    requires m < |holes| && r > holes[m] && v >= 0 && r == holes[v]
    ensures Window(n, holes, m, r - 1, v - 1) && Filled(n, holes, from, m, r - 1)
  {
    assert holes[v] in holes;
  }

  lemma NextSurvivor(n: nat, holes: seq<int>, m: nat, r: int, v: int)
    requires Window(n, holes, m, r, v) && m < |holes| && r > holes[m] && v >= 0 && r != holes[v]
    ensures r !in holes && Window(n, holes, m + 1, r - 1, v)
  {
  }

  lemma FillHole(n: nat, holes: seq<int>, from: seq<int>, m: nat, r: int)
    requires Filled(n, holes, from, m, r) && m < |holes| && holes[m] < r < n && r !in holes
    ensures from[r] == r && Filled(n, holes, from[holes[m] := r], m + 1, r - 1)
  {
    var from' := from[holes[m] := r];
    assert !Among(holes, m, r);
    forall d | 0 <= d < m ensures from'[holes[d]] == from[holes[d]] {
      assert holes[d] < holes[m];
    }
    forall j | 0 <= j < n && from'[j] != j ensures Among(holes, m + 1, j) {
      if j != holes[m] {
        assert Among(holes, m, j);
      }
    }
    forall s | r - 1 < s < n && s !in holes ensures FilledWith(holes, from', m + 1, s) {
      if s == r {
        assert from'[holes[m]] == s;
      } else {
        assert FilledWith(holes, from, m, s);
      }
    }
  }

  /** When no more holes can be filled, exactly the filled ones lie below the new length. */
  lemma WindowEnds(n: nat, holes: seq<int>, m: nat, r: int, v: int)
    requires Window(n, holes, m, r, v) && (m < |holes| ==> r <= holes[m])
    ensures |holes| <= n && (n - |holes| == r + 1 || (n - |holes| == r && r in holes))
    ensures forall d :: 0 <= d < |holes| ==> (holes[d] < n - |holes| <==> d < m)
  {
    if m < |holes| && r == holes[m] {
      assert m <= v;
      if m + 1 < |holes| {
        assert holes[m + 1] > r;
      }
      assert v == m;
    } else {
      assert v == m - 1;
    }
  }

  lemma CompactingEnds(n: nat, holes: seq<int>, from: seq<int>, m: nat, r: int)
    requires Filled(n, holes, from, m, r) && |holes| <= n
    requires forall d :: 0 <= d < |holes| ==> (holes[d] < n - |holes| <==> d < m)
    requires n - |holes| == r + 1 || (n - |holes| == r && r in holes)
    ensures IsCompaction(n, Elems(holes), n - |holes|, from[..n - |holes|])
  {
    var k := n - |holes|;
    var src := from[..k];
    forall j | 0 <= j < k && j in holes ensures src[j] >= k && src[j] < n && src[j] !in holes {
      var d :| 0 <= d < |holes| && holes[d] == j;
      assert r < from[holes[d]];
    }
    forall j | 0 <= j < k && j !in holes ensures src[j] == j {
      assert !Among(holes, m, j);
    }
    CompactingOnce(n, holes, from, m, r);
    CompactingAll(n, holes, from, m, r);
  }

  lemma LoopEnds(n: nat, holes: seq<int>, from: seq<int>, m: nat, r: int, v: int) returns (left: nat, src: seq<int>)
    requires Window(n, holes, m, r, v) && Filled(n, holes, from, m, r) && (m < |holes| ==> r <= holes[m])
    ensures left + |holes| == n && src <= from && IsCompaction(n, Elems(holes), left, src)
  {
    WindowEnds(n, holes, m, r, v);
    left, src := n - |holes|, from[..n - |holes|];
    CompactingEnds(n, holes, from, m, r);
  }

  lemma CompactingOnce(n: nat, holes: seq<int>, from: seq<int>, m: nat, r: int)
    requires Filled(n, holes, from, m, r) && |holes| <= n
    requires forall d :: 0 <= d < |holes| ==> (holes[d] < n - |holes| <==> d < m)
    requires n - |holes| <= r + 1
    ensures forall i, j :: 0 <= i < j < n - |holes| ==> from[i] != from[j]
  {
    forall i, j | 0 <= i < j < n - |holes| ensures from[i] != from[j] {
      if from[i] != i {
        assert Among(holes, m, i);
        if from[j] != j {
          assert Among(holes, m, j);
        }
      } else if from[j] != j {
        assert Among(holes, m, j);
      }
    }
  }

  lemma CompactingAll(n: nat, holes: seq<int>, from: seq<int>, m: nat, r: int)
    requires Filled(n, holes, from, m, r) && |holes| <= n
    requires forall d :: 0 <= d < |holes| ==> (holes[d] < n - |holes| <==> d < m)
    requires n - |holes| == r + 1 || (n - |holes| == r && r in holes)
    ensures forall s :: 0 <= s < n && s !in holes ==> Occurs(from[..n - |holes|], s)
  {
    var k := n - |holes|;
    forall s | 0 <= s < n && s !in holes ensures Occurs(from[..k], s) {
      if s < k {
        assert !Among(holes, m, s);
        assert from[..k][s] == s;
      } else {
        assert FilledWith(holes, from, m, s);
        var d :| 0 <= d < m && from[holes[d]] == s;
        assert from[..k][holes[d]] == s;
      }
    }
  }

  // ------------------------------------------------------------------------ arrays

  class Arrays {
    const requests: array<Request>
    const statuses: array<Status>
    const mappings: array<Mapping>
    const tickets: array<Ticket>
    const indices: array<int>

    ghost predicate Shape() {
      && requests.Length == statuses.Length == mappings.Length == tickets.Length == indices.Length == CAPACITY
      && requests as object != statuses && requests as object != mappings && requests as object != tickets
      && requests as object != indices && statuses as object != mappings && statuses as object != tickets
      && statuses as object != indices && mappings as object != tickets && mappings as object != indices
      && tickets as object != indices
    }

    /** The slots [0, |rows|) hold these rows, each mapped to the ticket in its own slot. */
    ghost predicate Holds(rows: seq<Row>)
      requires Shape()
      reads requests, mappings, tickets
    {
      && |rows| <= CAPACITY
      && forall i :: 0 <= i < |rows| ==>
           mappings[i].ticket == i && rows[i] == Row(requests[i], tickets[i], mappings[i].localPosition)
    }

    constructor ()
      ensures Shape() && Holds([])
      ensures fresh(requests) && fresh(statuses) && fresh(mappings) && fresh(tickets) && fresh(indices)
    {
      requests := new Request[CAPACITY](_ => Null);
      statuses := new Status[CAPACITY](_ => EMPTY_STATUS);
      mappings := new Mapping[CAPACITY](_ => Mapping(0, 0));
      tickets := new Ticket[CAPACITY](_ => Ticket(TaskContext(0, false, 0), StatusIgnore));
      indices := new int[CAPACITY](_ => 0);
    }

    /** Puts a copy of the ticket in the slot; the result stands for its address. */
    method AllocateTicket(position: nat, ticket: Ticket) returns (address: nat)
      requires Shape() && position < CAPACITY
      modifies tickets
      ensures address == position && tickets[..] == old(tickets[..])[position := ticket]
    {
      tickets[position] := ticket;
      address := position;
    }

    method AssociateRequest(position: nat, request: Request, ticket: nat, localPosition: int)
      requires Shape() && position < CAPACITY
      modifies requests, mappings
      ensures requests[..] == old(requests[..])[position := request]
      ensures mappings[..] == old(mappings[..])[position := Mapping(ticket, localPosition)]
    {
      requests[position] := request;
      mappings[position] := Mapping(ticket, localPosition);
    }

    /** Adds a row after the others. */
    method Append(request: Request, ticket: Ticket, ghost rows: seq<Row>, position: nat)
      requires Shape() && Holds(rows) && position == |rows| < CAPACITY
      modifies requests, mappings, tickets
      ensures Holds(rows + [Row(request, ticket, 0)])
    {
      var address := AllocateTicket(position, ticket);
      assert tickets[..][position] == tickets[position];
      AssociateRequest(position, request, address, 0);
      forall i | 0 <= i <= position
        ensures mappings[i].ticket == i
        ensures (rows + [Row(request, ticket, 0)])[i] == Row(requests[i], tickets[i], mappings[i].localPosition)
      {
        assert requests[..][i] == requests[i] && tickets[..][i] == tickets[i] && mappings[..][i] == mappings[i];
      }
    }

    /** Copies a request; a ticket that lives in the slot moves along and the mapping of the
        new slot points to its copy. */
    method MoveRequest(source: nat, destination: nat)
      requires Shape() && source < CAPACITY && destination < CAPACITY && source != destination
      modifies requests, mappings, tickets
      ensures requests[..] == old(requests[..])[destination := old(requests[source])]
      ensures old(mappings[source]).ticket == source ==>
                && tickets[..] == old(tickets[..])[destination := old(tickets[source])]
                && mappings[..] == old(mappings[..])[destination := Mapping(destination, old(mappings[source]).localPosition)]
      ensures old(mappings[source]).ticket != source ==>
                && tickets[..] == old(tickets[..])
                && mappings[..] == old(mappings[..])[destination := old(mappings[source])]
    {
      requests[destination] := requests[source];
      mappings[destination] := mappings[source];
      if mappings[source].ticket == source {
        tickets[destination] := tickets[source];
        mappings[destination] := Mapping(destination, mappings[destination].localPosition);
      }
    }

    method MoveRow(source: nat, destination: nat, ghost rows: seq<Row>)
      requires Shape() && Holds(rows) && destination < source < |rows|
      modifies requests, mappings, tickets
      ensures Holds(rows[destination := rows[source]])
    {
      MoveRequest(source, destination);
      forall i | 0 <= i < |rows|
        ensures mappings[i].ticket == i
        ensures rows[destination := rows[source]][i] == Row(requests[i], tickets[i], mappings[i].localPosition)
      {
        assert requests[..][i] == requests[i] && tickets[..][i] == tickets[i] && mappings[..][i] == mappings[i];
      }
    }

    /** Removes the rows at the completed indices by moving rows from the end down. */
    method Compact(pending: nat, completed: nat, ghost rows: seq<Row>) returns (ghost src: seq<int>)
      requires Shape() && Holds(rows) && |rows| == pending && completed <= pending
      requires Ascending(indices[..completed], pending)
      modifies requests, mappings, tickets
      ensures IsCompaction(pending, Elems(indices[..completed]), pending - completed, src)
      ensures Holds(Rearranged(rows, src))
    {
      ghost var holes := indices[..completed];
      ghost var from := StartPlaced(rows, holes);
      ghost var m: nat := 0;
      var replacement, reverse := pending - 1, completed - 1;
      for c := 0 to completed
        invariant Window(pending, holes, m, replacement, reverse) && indices[..completed] == holes
        invariant Reached(holes, c, m, replacement)
        invariant Placed(rows, holes, from, m, replacement)
      {
        replacement, reverse, from, m := CompactOne(pending, c, replacement, reverse, holes, from, m, rows);
      }
      ghost var left;
      left, src := EndPlaced(pending, rows, holes, from, m, replacement, reverse);
      assert left == pending - completed;
    }

    lemma StartPlaced(rows: seq<Row>, holes: seq<int>) returns (from: seq<int>)
      requires Shape() && Holds(rows) && Ascending(holes, |rows|)
      ensures Window(|rows|, holes, 0, |rows| - 1, |holes| - 1) && Placed(rows, holes, from, 0, |rows| - 1)
    {
      from := CompactingStarts(|rows|, holes);
      assert Rearranged(rows, from) == rows;
    }

    /** The loop is over: what the first slots hold are the survivors. */
    lemma EndPlaced(n: nat, rows: seq<Row>, holes: seq<int>, from: seq<int>, m: nat, r: int, v: int)
      returns (left: nat, src: seq<int>)
      requires Shape() && n == |rows| && Placed(rows, holes, from, m, r)
      requires Window(n, holes, m, r, v) && Reached(holes, |holes|, m, r)
      ensures left + |holes| == n && IsCompaction(n, Elems(holes), left, src) && Holds(Rearranged(rows, src))
    {
      left, src := LoopEnds(n, holes, from, m, r, v);
      FirstSlots(rows, from, src);
    }

    lemma FirstSlots(rows: seq<Row>, from: seq<int>, src: seq<int>)
      requires Shape() && src <= from && (forall j :: 0 <= j < |from| ==> 0 <= from[j] < |rows|) && Holds(Rearranged(rows, from))
      ensures (forall j :: 0 <= j < |src| ==> 0 <= src[j] < |rows|) && Holds(Rearranged(rows, src))
    {
      assert forall j :: 0 <= j < |src| ==> src[j] == from[j];
      var whole := Rearranged(rows, from);
      assert forall i :: 0 <= i < |src| ==> Rearranged(rows, src)[i] == whole[i];
    }

    /** The first c holes have been looked at: all are filled, or no survivor is left above. */
    ghost predicate Reached(holes: seq<int>, c: nat, m: nat, r: int) {
      m == c || (m < c <= |holes| && r <= holes[m])
    }

    /** One iteration: find a survivor above the hole and move it there, if there is one. */
    method CompactOne(pending: nat, c: nat, replacement: int, reverse: int,
                      ghost holes: seq<int>, ghost from: seq<int>, ghost m: nat, ghost rows: seq<Row>)
      returns (r: int, v: int, ghost from': seq<int>, ghost m': nat)
      requires Shape() && |rows| == pending && c < |holes| <= CAPACITY && indices[..|holes|] == holes
      requires Window(pending, holes, m, replacement, reverse) && Placed(rows, holes, from, m, replacement)
      requires Reached(holes, c, m, replacement)
      modifies requests, mappings, tickets
      ensures Window(pending, holes, m', r, v) && Placed(rows, holes, from', m', r)
      ensures Reached(holes, c + 1, m', r)
    {
      var replace;
      replace, r, v := FindReplacement(pending, c, replacement, reverse, holes, from, m, rows);
      from', m' := from, m;
      if replace {
        from' := Replace(c, r, holes, from, rows);
        m', r := m + 1, r - 1;
      }
    }

    /** The arrays hold the rows as the moves so far have placed them. */
    ghost predicate Placed(rows: seq<Row>, holes: seq<int>, from: seq<int>, m: nat, r: int)
      requires Shape()
      reads requests, mappings, tickets
    {
      && Filled(|rows|, holes, from, m, r)
      && (forall j :: 0 <= j < |from| ==> 0 <= from[j] < |rows|)
      && Holds(Rearranged(rows, from))
    }

    /** The inner loop: skip the holes at the end until a survivor above slot indices[c]. */
    method FindReplacement(pending: nat, c: nat, replacement: int, reverse: int,
                           ghost holes: seq<int>, ghost from: seq<int>, ghost m: nat, ghost rows: seq<Row>)
      returns (replace: bool, r: int, v: int)
      requires Shape() && c < |holes| <= CAPACITY && indices[..|holes|] == holes
      requires |rows| == pending
      requires Window(pending, holes, m, replacement, reverse) && Placed(rows, holes, from, m, replacement)
      requires Reached(holes, c, m, replacement)
      ensures Placed(rows, holes, from, m, r)
      ensures replace ==> m == c && holes[c] < r < pending && r !in holes && Window(pending, holes, m + 1, r - 1, v)
      ensures !replace ==> Window(pending, holes, m, r, v) && m <= c && r <= holes[m]
    {
      var current := indices[c];
      assert current == holes[c];
      replace, r, v := false, replacement, reverse;
      while r > current
        invariant Window(pending, holes, m, r, v) && Filled(pending, holes, from, m, r)
        invariant m == c || (m < c && r <= holes[m])
        decreases r
      {
        ReverseInRange(pending, holes, m, r, v);
        assert indices[v] == holes[v];
        if r != indices[v] {
          NextSurvivor(pending, holes, m, r, v);
          replace := true;
          return;
        }
        SkipHole(pending, holes, from, m, r, v);
        r, v := r - 1, v - 1;
      }
    }

    method Replace(c: nat, r: nat, ghost holes: seq<int>, ghost from: seq<int>, ghost rows: seq<Row>)
      returns (ghost from': seq<int>)
      requires Shape() && c < |holes| <= CAPACITY && indices[..|holes|] == holes && r < |rows|
      requires Placed(rows, holes, from, c, r) && holes[c] < r && r !in holes
      modifies requests, mappings, tickets
      ensures Placed(rows, holes, from', c + 1, r - 1)
    {
      var current := indices[c];
      assert current == holes[c];
      FillHole(|rows|, holes, from, c, r);
      ghost var before := Rearranged(rows, from);
      MoveRow(r, current, before);
      from' := from[current := r];
      assert Rearranged(rows, from') == before[current := before[r]];
    }
  }
}
