/**
  The per-CPU pre-queues for point-to-point operations
  (src/common/util/MultiLockFreeQueue.hpp): one ring per CPU, a consumer with cached
  counters and two pop policies. Producers may push before every step of the consumer;
  module Ring covers the accesses within a step. `data` is two-dimensional, row q standing
  for the block that starts at q * capacity.
 */
module MultiQueue {
  import opened Basics
  import Arith
  import opened Ring
  import opened Sums

  /** How many places q comes after q0 in cyclic order. */
  function Turn(q0: nat, q: nat, queues: nat): (d: nat)
    requires q0 < queues && q < queues
    ensures d < queues && Slot(q0, d, queues) == q
  {
    Dist(q0, q, queues)
  }

  /** Shares that drain every queue to the same level: each queue gives min(cached, level),
      or min(cached, level + 1) for the first `extra` queues from q0. */
  ghost predicate WaterFilled(cached: seq<nat>, shares: seq<nat>, q0: nat, level: nat, extra: nat) {
    && |cached| == |shares| && q0 < |cached| && extra < |cached|
    && forall q :: 0 <= q < |cached| ==>
         shares[q] == Min(cached[q], if Turn(q0, q, |cached|) < extra then level + 1 else level)
  }

  /** Fairness: when one queue gives at least two more than another, the other is drained. */
  lemma WaterFillingIsFair(cached: seq<nat>, shares: seq<nat>, q0: nat, level: nat, extra: nat, a: nat, b: nat)
    requires WaterFilled(cached, shares, q0, level, extra) && a < |cached| && b < |cached|
    requires shares[a] > shares[b] + 1
    ensures shares[b] == cached[b]
  {
    assert shares[a] <= level + 1;
  }

  /** The water level is determined: two water-fillings of the same counters that start at
      the same queue and give the same total are the same. */
  lemma WaterFillingIsUnique(cached: seq<nat>, s1: seq<nat>, s2: seq<nat>, q0: nat, l1: nat, e1: nat, l2: nat, e2: nat)
    requires WaterFilled(cached, s1, q0, l1, e1) && WaterFilled(cached, s2, q0, l2, e2)
    requires Sum(s1) == Sum(s2)
    ensures s1 == s2
  {
    if l1 < l2 || (l1 == l2 && e1 <= e2) {
      SameSumSame(s1, s2);
    } else {
      SameSumSame(s2, s1);
    }
  }

  lemma {:induction false} SameSumSame(s: seq<nat>, t: seq<nat>)
    requires |s| == |t| && Sum(s) == Sum(t)
    requires forall i :: 0 <= i < |s| ==> s[i] <= t[i]
    ensures s == t
  {
    if s != [] {
      var m := |s| - 1;
      SumAtMost(s[..m], t[..m]);
      SameSumSame(s[..m], t[..m]);
      assert s == s[..m] + [s[m]] && t == t[..m] + [t[m]];
    }
  }

  /** What the planning loop leaves: the first `done` queues from q0 have promised up to
      level + step elements, the others up to level. */
  ghost predicate Planned(cached: seq<nat>, left: seq<nat>, q0: nat, level: nat, step: nat, done: nat) {
    && |cached| == |left| && q0 < |cached|
    && forall q :: 0 <= q < |cached| ==>
         left[q] == cached[q] - Min(cached[q], if Turn(q0, q, |cached|) < done then level + step else level)
  }

  /** What the queues have promised. */
  ghost function Given(cached: seq<nat>, left: seq<nat>): (shares: seq<nat>)
    requires |cached| == |left|
    ensures |shares| == |cached|
    ensures forall q :: 0 <= q < |cached| && left[q] <= cached[q] ==> shares[q] == cached[q] - left[q]
  {
    seq(|cached|, q requires 0 <= q < |cached| => if left[q] <= cached[q] then cached[q] - left[q] else 0)
  }

  /** The queue `last` places after q0 gives the most, and those behind it give less. */
  ghost predicate LastOfMost(shares: seq<nat>, q0: nat, last: nat) {
    && q0 < |shares| && last < |shares|
    && forall q :: 0 <= q < |shares| ==>
         && shares[q] <= shares[Slot(q0, last, |shares|)]
         && (Turn(q0, q, |shares|) > last ==> shares[q] < shares[Slot(q0, last, |shares|)])
  }

  /** There is only one such place: the shares fix where the next pop starts. */
  lemma LastOfMostIsUnique(shares: seq<nat>, q0: nat, l1: nat, l2: nat)
    requires LastOfMost(shares, q0, l1) && LastOfMost(shares, q0, l2)
    ensures l1 == l2
  {
    var a, b := Slot(q0, l1, |shares|), Slot(q0, l2, |shares|);
    assert Turn(q0, a, |shares|) == l1 && Turn(q0, b, |shares|) == l2;
    assert shares[a] == shares[b];
  }

  /** Of the first `done` queues from q0 the last one has at least `all` elements. */
  ghost predicate LastInFull(cached: seq<nat>, q0: nat, done: nat, all: nat) {
    q0 < |cached| && 0 < done <= |cached| && cached[Slot(q0, done - 1, |cached|)] >= all
  }

  /** A round of the plan after `done` queues, with so many elements missing. A round that asks
      for more than one element each goes through all the queues. */
  ghost predicate InRound(cached: seq<nat>, left: seq<nat>, q0: nat, level: nat, step: nat, done: nat, missing: nat) {
    && Planned(cached, left, q0, level, step, done) && done <= |cached|
    && (step > 1 ==> missing >= Times(step, |cached| - done))
    && (missing == 0 ==> LastInFull(cached, q0, done, level + step))
  }

  /** A round of the plan that ends with the queue before `done` giving all it is asked for. */
  lemma RoundEndsWithMost(cached: seq<nat>, left: seq<nat>, q0: nat, level: nat, step: nat, done: nat)
    requires Planned(cached, left, q0, level, step, done) && LastInFull(cached, q0, done, level + step) && step > 0
    ensures LastOfMost(Given(cached, left), q0, done - 1)
  {
    var z := Slot(q0, done - 1, |cached|);
    assert Turn(q0, z, |cached|) == done - 1;
    assert Given(cached, left)[z] == level + step;
  }

  /** a * b, as b additions of a. */
  function Times(a: nat, b: nat): nat {
    if b == 0 then 0 else Times(a, b - 1) + a
  }

  lemma {:induction false} TimesOne(a: nat, b: nat)
    requires b > 0
    ensures Times(a, b) == Times(a, b - 1) + a
  {
  }

  lemma {:induction false} TimesIsProduct(a: nat, b: nat)
    ensures Times(a, b) == a * b
  {
    if b > 0 {
      TimesIsProduct(a, b - 1);
    }
  }

  lemma RoundFits(total: nat, queues: nat)
    requires total > 0 && queues > 0
    ensures Times(total / queues, queues) <= total && total / queues <= total
  {
    TimesIsProduct(total / queues, queues);
    assert total == total / queues * queues + total % queues;
    if total / queues > 0 {
      Arith.MulAtLeast(queues, total / queues);
    }
  }

  lemma PlanOne(cached: seq<nat>, left: seq<nat>, q0: nat, level: nat, step: nat, done: nat)
    requires Planned(cached, left, q0, level, step, done) && done < |cached|
    ensures var q := Slot(q0, done, |cached|);
            Planned(cached, left[q := left[q] - Min(left[q], step)], q0, level, step, done + 1)
  {
    assert Turn(q0, Slot(q0, done, |cached|), |cached|) == done;
  }

  /** The next queue has what it is asked for only if its counter is that high. */
  lemma AskedInFull(cached: seq<nat>, left: seq<nat>, q0: nat, level: nat, step: nat, done: nat)
    requires Planned(cached, left, q0, level, step, done) && done < |cached| && step > 0
    ensures var q := Slot(q0, done, |cached|); left[q] >= step ==> cached[q] >= level + step
  {
    assert Turn(q0, Slot(q0, done, |cached|), |cached|) == done;
  }

  lemma PlanRound(cached: seq<nat>, left: seq<nat>, q0: nat, level: nat, step: nat)
    requires Planned(cached, left, q0, level, step, |cached|)
    ensures Planned(cached, left, q0, level + step, 1, 0)
  {
  }

  /** A full round takes something while something is left. */
  lemma RoundTakes(cached: seq<nat>, left: seq<nat>, left': seq<nat>, q0: nat, level: nat, step: nat)
    requires Planned(cached, left, q0, level, step, 0) && Planned(cached, left', q0, level, step, |cached|)
    requires step > 0 && Sum(left) > 0
    ensures Sum(left') < Sum(left)
  {
    var i := SumPositive(left);
    SumAtMost(left', left);
    if Sum(left') == Sum(left) {
      SameSumSame(left', left);
    }
  }

  /** The end of a round: the next one starts at the same queue, or else nothing is missing and
      the last queue visited gives the most. */
  lemma RoundEnds(cached: seq<nat>, was: seq<nat>, left: seq<nat>, q0: nat, level: nat, step: nat, visited: nat, missing: nat)
    returns (level': nat, extra: nat, last: nat)
    requires Planned(cached, was, q0, level, step, 0) && InRound(cached, left, q0, level, step, visited, missing)
    requires 0 < visited <= |cached| && (visited == |cached| || missing == 0) && step > 0 && Sum(was) > 0
    ensures Planned(cached, left, q0, level', 1, extra) && extra < |cached| && (missing > 0 ==> extra == 0)
    ensures Slot(q0, extra, |cached|) == Slot(q0, visited, |cached|) && last + 1 == visited
    ensures missing == 0 ==> LastOfMost(Given(cached, left), q0, last)
    ensures visited == |cached| ==> Sum(left) < Sum(was)
  {
    last := visited - 1;
    if missing == 0 {
      RoundEndsWithMost(cached, left, q0, level, step, visited);
    }
    if visited == |cached| {
      level', extra := level + step, 0;
      PlanRound(cached, left, q0, level, step);
      RoundTakes(cached, was, left, q0, level, step);
    } else {
      level', extra := level, visited;
    }
  }

  lemma PlanIsWaterFilled(cached: seq<nat>, left: seq<nat>, shares: seq<nat>, q0: nat, level: nat, extra: nat)
    requires Planned(cached, left, q0, level, 1, extra) && extra < |cached| == |shares|
    requires forall q :: 0 <= q < |cached| ==> shares[q] == cached[q] - left[q]
    ensures WaterFilled(cached, shares, q0, level, extra)
  {
  }

  /** The counters after giving the shares. */
  ghost predicate Spent(cached: seq<nat>, shares: seq<nat>, remaining: seq<nat>) {
    |cached| == |shares| == |remaining| && forall q :: 0 <= q < |cached| ==> remaining[q] + shares[q] == cached[q]
  }

  /** What a pop delivers: from q0 on, in cyclic order, the first shares[q] elements of
      each queue. */
  ghost function Taken<T>(contents: seq<seq<T>>, shares: seq<nat>, q0: nat, j: nat): seq<T>
    requires |contents| == |shares| && q0 < |shares| && j <= |shares|
    requires forall q :: 0 <= q < |shares| ==> shares[q] <= |contents[q]|
  {
    if j == 0 then []
    else
      var q := Slot(q0, j - 1, |shares|);
      Taken(contents, shares, q0, j - 1) + contents[q][..shares[q]]
  }

  ghost function Lengths<T>(contents: seq<seq<T>>): (r: seq<nat>)
    ensures |r| == |contents|
  {
    seq(|contents|, q requires 0 <= q < |contents| => |contents[q]|)
  }

  /** The number of elements in all the queues. */
  ghost function Count<T>(contents: seq<seq<T>>): nat {
    Sum(Lengths(contents))
  }

  /** Producers have only appended. */
  ghost predicate Grown<T>(was: seq<seq<T>>, now: seq<seq<T>>) {
    |was| == |now| && forall q :: 0 <= q < |was| ==> was[q] <= now[q]
  }

  /** The first n elements of queue q were taken, and producers have only appended. */
  ghost predicate TookFrom<T>(was: seq<seq<T>>, now: seq<seq<T>>, q: nat, n: nat) {
    && |was| == |now| && q < |was| && n <= |was[q]| && was[q][n..] <= now[q]
    && forall p :: 0 <= p < |was| && p != q ==> was[p] <= now[p]
  }

  lemma GrownTook<T>(was: seq<seq<T>>, mid: seq<seq<T>>, q: nat, n: nat)
    requires Grown(was, mid) && q < |was| && n <= |was[q]|
    ensures TookFrom(was, mid[q := mid[q][n..]], q, n) && mid[q][..n] == was[q][..n]
  {
    assert forall k :: 0 <= k < |was[q][n..]| ==> was[q][n..][k] == mid[q][n..][k];
  }

  class Queue<T(0)> {
    const capacity: nat
    const queues: nat
    const data: array2<T>
    const head: array<nat>
    const tail: array<nat>
    const remaining: array<nat>
    const available: array<nat>
    var totalRemaining: nat
    var current: nat
    ghost var contents: seq<seq<T>>

    ghost predicate Shape()
    {
      && capacity > 0 && queues > 0
      && data.Length0 == queues && data.Length1 == capacity
      && head.Length == queues && tail.Length == queues
      && remaining.Length == queues && available.Length == queues
      && head != tail && head != remaining && head != available
      && tail != remaining && tail != available && remaining != available
    }

    ghost predicate RingOk(q: nat)
      requires Shape() && q < queues && |contents| == queues
      reads this`contents, data, head, tail, remaining, available
    {
      && head[q] < capacity && tail[q] < capacity
      && |contents[q]| == Dist(tail[q], head[q], capacity)
      && (forall k :: 0 <= k < |contents[q]| ==> data[q, Slot(tail[q], k, capacity)] == contents[q][k])
      && remaining[q] <= |contents[q]|
      && available[q] + |contents[q]| <= capacity - 1
    }

    ghost predicate Rings()
      reads this, data, head, tail, remaining, available
    {
      && Shape() && |contents| == queues && current < queues
      && forall q :: 0 <= q < queues ==> RingOk(q)
    }

    /** The invariant between calls: the cached total is the sum of the cached counters. */
    ghost predicate Valid()
      reads this, data, head, tail, remaining, available
    {
      Rings() && totalRemaining == Sum(remaining[..])
    }

    constructor (capacity: nat, queues: nat, filler: T)
      requires capacity > 0 && queues > 0
      ensures Valid() && this.capacity == capacity && this.queues == queues
      ensures forall q :: 0 <= q < queues ==> contents[q] == []
    {
      this.capacity, this.queues := capacity, queues;
      data := new T[queues, capacity]((_, _) => filler);
      head := new nat[queues](_ => 0);
      tail := new nat[queues](_ => 0);
      remaining := new nat[queues](_ => 0);
      available := new nat[queues](_ => 0);
      totalRemaining, current := 0, 0;
      contents := seq(queues, _ => []);
      new;
      assert Sum(remaining[..]) == 0 by {
        if Sum(remaining[..]) > 0 {
          var i := SumPositive(remaining[..]);
        }
      }
    }

    method GetRemaining(q: nat) returns (n: nat)
      requires Rings() && q < queues
      ensures n == |contents[q]|
    {
      assert RingOk(q);
      var h, t := head[q], tail[q];
      n := if t <= h then h - t else h - t + capacity;
    }

    /** What producers on other CPUs do meanwhile. */
    method Producers()
      requires Rings()
      modifies data, head, available, this`contents
      ensures Rings() && Grown(old(contents), contents)
    {
      var pushes: int := *;
      while pushes > 0
        invariant Rings() && Grown(old(contents), contents)
      {
        var q: int, element: T := *, *;
        if 0 <= q < queues {
          var ok := Push(element, q);
        }
        pushes := pushes - 1;
      }
    }

    /** Each counter is exact at the moment it is read. */
    method UpdateRemaining() returns (total: nat)
      requires Rings()
      modifies remaining, data, head, available, this`contents
      ensures Rings() && Grown(old(contents), contents) && total == Sum(remaining[..])
      ensures forall q :: 0 <= q < queues ==> |old(contents)[q]| <= remaining[q] <= |contents[q]|
    {
      total := 0;
      var q: nat := 0;
      while q < queues
        invariant q <= queues && Rings() && Grown(old(contents), contents) && total == Sum(remaining[..q])
        invariant forall p :: 0 <= p < q ==> |old(contents)[p]| <= remaining[p] <= |contents[p]|
      {
        var val := ReadRemaining(q);
        assert remaining[..q + 1][..q] == remaining[..q];
        total := total + val;
        q := q + 1;
      }
      assert remaining[..queues] == remaining[..];
    }

    method ReadRemaining(q: nat) returns (val: nat)
      requires Rings() && q < queues
      modifies remaining, data, head, available, this`contents
      ensures Rings() && Grown(old(contents), contents)
      ensures remaining[..] == old(remaining[..])[q := val] && val == |contents[q]|
    {
      Producers();
      val := GetRemaining(q);
      label before:
      remaining[q] := val;
      forall p | 0 <= p < queues ensures RingOk(p) {
        assert old@before(RingOk(p));
      }
    }

    /** The two copy loops of unsafePush, up to the end of the block and from its start. */
    method CopyIn(q: nat, h: nat, elems: seq<T>, ghost waiting: seq<T>)
      requires Shape() && q < queues && Stored(q, h, elems, 0) && Rest(q, h, |elems|, waiting)
      modifies data
      ensures Stored(q, h, elems, |elems|) && Rest(q, h, |elems|, waiting)
      ensures forall p, k :: 0 <= p < queues && p != q && 0 <= k < capacity ==> data[p, k] == old(data[p, k])
    {
      var n := |elems|;
      var n0 := Min(n, capacity - h);
      for i := 0 to n0
        invariant Stored(q, h, elems, i) && Rest(q, h, n, waiting)
        invariant forall p, k :: 0 <= p < queues && p != q && 0 <= k < capacity ==> data[p, k] == old(data[p, k])
      {
        assert Slot(h, i, capacity) == h + i;
        data[q, h + i] := elems[i];
      }
      for i := 0 to n - n0
        invariant Stored(q, h, elems, n0 + i) && Rest(q, h, n, waiting)
        invariant forall p, k :: 0 <= p < queues && p != q && 0 <= k < capacity ==> data[p, k] == old(data[p, k])
      {
        assert Slot(h, n0 + i, capacity) == i;
        data[q, i] := elems[n0 + i];
      }
    }

    method UnsafePush(q: nat, elems: seq<T>)
      requires Rings() && q < queues && 0 < |elems| <= available[q]
      modifies data, head, available, this`contents
      ensures Rings()
      ensures contents == old(contents)[q := old(contents)[q] + elems]
    {
      assert RingOk(q);
      var n := |elems|;
      available[q] := available[q] - n;
      var h := head[q];
      CopyIn(q, h, elems, contents[q]);
      Arith.ModOnce(h + n, capacity);
      DistMoves(tail[q], h, capacity, n);
      head[q] := (h + n) % capacity;
      contents := contents[q := contents[q] + elems];
      Appended(q, h, elems, old(contents)[q]);
      forall p | 0 <= p < queues ensures RingOk(p) {
        assert old(RingOk(p));
      }
    }

    /** The first w of elems are in the slots from h on. */
    ghost predicate Stored(q: nat, h: nat, elems: seq<T>, w: nat)
      requires Shape() && q < queues
      reads this, data
    {
      && h < capacity && w <= |elems| < capacity
      && forall j :: 0 <= j < w ==> data[q, Slot(h, j, capacity)] == elems[j]
    }

    /** Filling w slots from h has not touched the elements waiting in ring q. */
    ghost predicate Rest(q: nat, h: nat, w: nat, waiting: seq<T>)
      requires Shape() && q < queues
      reads this, data, tail
    {
      && h < capacity && tail[q] < capacity && w + |waiting| < capacity
      && |waiting| == Dist(tail[q], h, capacity)
      && forall k :: 0 <= k < |waiting| ==> data[q, Slot(tail[q], k, capacity)] == waiting[k]
    }

    lemma Appended(q: nat, h: nat, elems: seq<T>, waiting: seq<T>)
      requires Shape() && q < queues && |contents| == queues
      requires Stored(q, h, elems, |elems|) && Rest(q, h, |elems|, waiting)
      requires contents[q] == waiting + elems
      ensures forall k :: 0 <= k < |contents[q]| ==> data[q, Slot(tail[q], k, capacity)] == contents[q][k]
    {
      forall k | 0 <= k < |contents[q]| ensures data[q, Slot(tail[q], k, capacity)] == contents[q][k] {
        if k >= |waiting| {
          assert Slot(tail[q], k, capacity) == Slot(h, k - |waiting|, capacity);
        }
      }
    }

    // ------------------------------------------------------------------ consumer

    /** The destination of a pop is none of the arrays of the queue. */
    ghost predicate Apart(values: array<T>) {
      && values as object != data && values as object != head && values as object != tail
      && values as object != remaining && values as object != available
    }

    /** The two copy loops of unsafePop. */
    method CopyOut(q: nat, t: nat, values: array<T>, at: nat, n: nat)
      requires Shape() && q < queues && t < capacity && n < capacity
      requires at + n <= values.Length && Apart(values)
      modifies values
      ensures forall j :: 0 <= j < n ==> values[at + j] == data[q, Slot(t, j, capacity)]
      ensures forall j :: 0 <= j < values.Length && !(at <= j < at + n) ==> values[j] == old(values[j])
    {
      var n0 := Min(n, capacity - t);
      for i := 0 to n0
        invariant forall j :: 0 <= j < i ==> values[at + j] == data[q, Slot(t, j, capacity)]
        invariant forall j :: 0 <= j < values.Length && !(at <= j < at + n) ==> values[j] == old(values[j])
      {
        values[at + i] := data[q, t + i];
      }
      for i := 0 to n - n0
        invariant forall j :: 0 <= j < n0 + i ==> values[at + j] == data[q, Slot(t, j, capacity)]
        invariant forall j :: 0 <= j < values.Length && !(at <= j < at + n) ==> values[j] == old(values[j])
      {
        assert Slot(t, n0 + i, capacity) == i;
        values[at + n0 + i] := data[q, i];
      }
    }

    method PopBlock(q: nat, values: array<T>, at: nat, n: nat)
      requires Rings() && q < queues && 0 < n <= remaining[q]
      requires at + n <= values.Length && Apart(values)
      modifies remaining, tail, values, this`contents
      ensures Rings()
      ensures n <= |old(contents)[q]|
      ensures contents == old(contents)[q := old(contents)[q][n..]]
      ensures values[..at + n] == old(values[..at]) + old(contents)[q][..n]
      ensures remaining[..] == old(remaining[..])[q := old(remaining[q]) - n]
    {
      assert RingOk(q);
      remaining[q] := remaining[q] - n;
      var t := tail[q];
      CopyOut(q, t, values, at, n);
      Arith.ModOnce(t + n, capacity);
      DistMoves(t, head[q], capacity, n);
      tail[q] := (t + n) % capacity;
      contents := contents[q := contents[q][n..]];
      forall k | 0 <= k < |contents[q]|
        ensures data[q, Slot(tail[q], k, capacity)] == contents[q][k]
      {
        assert Slot(tail[q], k, capacity) == Slot(t, n + k, capacity);
      }
      forall p | 0 <= p < queues ensures RingOk(p) {
        assert old(RingOk(p));
      }
    }

    /** The pop of n elements that the counters promise, while producers push. */
    method UnsafePop(q: nat, values: array<T>, at: nat, n: nat)
      requires Rings() && q < queues && 0 < n <= remaining[q]
      requires at + n <= values.Length && Apart(values)
      modifies remaining, tail, values, data, head, available, this`contents
      ensures Rings() && n <= |old(contents)[q]| && TookFrom(old(contents), contents, q, n)
      ensures values[..at + n] == old(values[..at]) + old(contents)[q][..n]
      ensures remaining[..] == old(remaining[..])[q := old(remaining[q]) - n]
    {
      assert RingOk(q);
      ghost var was, front := contents, values[..at];
      Producers();
      GrownTook(was, contents, q, n);
      assert values[..at] == front;
      PopBlock(q, values, at, n);
    }

    /** The inner loop of the plan: every queue in turn promises up to `perQueue` more
        elements, until nothing is missing. */
    method Round(left: array<nat>, total: nat, perQueue: nat, ghost cached: seq<nat>, ghost level: nat)
      returns (missing: nat, ghost visited: nat)
      requires left.Length == queues && current < queues && 0 < perQueue <= total <= Sum(left[..])
      requires perQueue > 1 ==> Times(perQueue, queues) <= total
      requires Planned(cached, left[..], current, level, perQueue, 0)
      modifies left, this`current
      ensures 0 < visited <= queues && (visited == queues || missing == 0)
      ensures missing + Sum(old(left[..])) == total + Sum(left[..])
      ensures current == Slot(old(current), visited, queues)
      ensures InRound(cached, left[..], old(current), level, perQueue, visited, missing)
    {
      ghost var sum, q0 := Sum(left[..]), current;
      missing := total;
      var q := 0;
      while missing > 0 && q < queues
        invariant q <= queues && current == Slot(q0, q, queues)
        invariant missing + sum == total + Sum(left[..])
        invariant InRound(cached, left[..], q0, level, perQueue, q, missing)
        decreases queues - q
      {
        missing, q := RoundOne(left, missing, perQueue, cached, q0, level, q);
      }
      visited := q;
    }

    method RoundOne(left: array<nat>, total: nat, perQueue: nat, ghost cached: seq<nat>, ghost q0: nat, ghost level: nat, q: nat)
      returns (missing: nat, q': nat)
      requires left.Length == queues && 0 < total && 0 < perQueue && q0 < queues && q < queues && current == Slot(q0, q, queues)
      requires InRound(cached, left[..], q0, level, perQueue, q, total)
      modifies left, this`current
      ensures missing + Sum(old(left[..])) == total + Sum(left[..])
      ensures q' == q + 1 && current == Slot(q0, q', queues) && InRound(cached, left[..], q0, level, perQueue, q', missing)
    {
      TimesOne(perQueue, queues - q);
      missing := Promise(left, total, perQueue, cached, q0, level, q);
      current := NextQueue(current, q0, q);
      q' := q + 1;
    }

    /** One step in cyclic order from the queue that is j places after q0. */
    method NextQueue(q: nat, ghost q0: nat, ghost j: nat) returns (next: nat)
      requires q0 < queues && j < queues && q == Slot(q0, j, queues)
      ensures next == Slot(q0, j + 1, queues)
    {
      SlotIsMod(q, 1, queues);
      next := (q + 1) % queues;
    }

    /** One iteration of the outer loop of the plan. */
    method Sweep(left: array<nat>, total: nat, ghost cached: seq<nat>, ghost level: nat)
      returns (missing: nat, ghost level': nat, ghost extra: nat, ghost last: nat)
      requires left.Length == queues && current < queues
      requires 0 < total <= Sum(left[..])
      requires Planned(cached, left[..], current, level, 1, 0)
      modifies left, this`current
      ensures missing < total && missing + Sum(old(left[..])) == total + Sum(left[..])
      ensures extra < queues && current == Slot(old(current), extra, queues) && (missing > 0 ==> extra == 0)
      ensures Planned(cached, left[..], old(current), level', 1, extra)
      ensures last < queues && current == Slot(old(current), last + 1, queues)
      ensures missing == 0 ==> LastOfMost(Given(cached, left[..]), old(current), last)
    {
      ghost var was, q0 := left[..], current;
      var perQueue := if total / queues >= 1 then total / queues else 1;
      RoundFits(total, queues);
      ghost var visited;
      missing, visited := Round(left, total, perQueue, cached, level);
      level', extra, last := RoundEnds(cached, was, left[..], q0, level, perQueue, visited, missing);
    }

    /** The body of the planning loop for the current queue, the one `done` places after q0. */
    method Promise(left: array<nat>, total: nat, perQueue: nat,
                   ghost cached: seq<nat>, ghost q0: nat, ghost level: nat, ghost done: nat)
      returns (missing: nat)
      requires left.Length == queues && 0 < perQueue <= total
      requires q0 < queues && done < queues && current == Slot(q0, done, queues)
      requires Planned(cached, left[..], q0, level, perQueue, done)
      modifies left
      ensures Planned(cached, left[..], q0, level, perQueue, done + 1)
      ensures missing + Sum(old(left[..])) == total + Sum(left[..])
      ensures total - perQueue <= missing <= total
      ensures missing == 0 ==> cached[current] >= level + perQueue
    {
      PlanOne(cached, left[..], q0, level, perQueue, done);
      AskedInFull(cached, left[..], q0, level, perQueue, done);
      var avail := Min(left[current], perQueue);
      SumUpdate(left[..], current, left[current] - avail);
      ghost var was := left[..];
      missing := total;
      if avail > 0 {
        left[current] := left[current] - avail;
        missing := missing - avail;
      }
      assert left[..] == was[current := was[current] - avail];
    }

    /** The planning phase of cyclicRoundRobinPop: what stays in each queue when n elements
        are taken. */
    method PlanShares(n: nat) returns (left: array<nat>, ghost level: nat, ghost extra: nat, ghost last: nat)
      requires Rings() && 0 < n <= Sum(remaining[..])
      modifies this`current
      ensures fresh(left) && left.Length == queues
      ensures Sum(left[..]) + n == Sum(remaining[..])
      ensures extra < queues && current == Slot(old(current), extra, queues)
      ensures Planned(remaining[..], left[..], old(current), level, 1, extra)
      ensures LastOfMost(Given(remaining[..], left[..]), old(current), last) && current == Slot(old(current), last + 1, queues)
    {
      left := new nat[queues];
      for q := 0 to queues
        invariant current == old(current)
        invariant forall x :: 0 <= x < q ==> left[x] == remaining[x]
      {
        left[q] := remaining[q];
      }
      ghost var cached := remaining[..];
      assert left[..] == cached;
      level, extra, last := 0, 0, 0;
      var missing: nat := n;
      assert Slot(current, 0, queues) == current;
      while missing > 0
        invariant remaining[..] == cached && missing + Sum(cached) == n + Sum(left[..])
        invariant extra < queues && current == Slot(old(current), extra, queues) && (missing > 0 ==> extra == 0)
        invariant Planned(cached, left[..], old(current), level, 1, extra)
        invariant missing == 0 ==> LastOfMost(Given(cached, left[..]), old(current), last)
        invariant missing == 0 ==> current == Slot(old(current), last + 1, queues)
      {
        missing, level, extra, last := Sweep(left, missing, cached, level);
      }
    }

    /** The second phase of cyclicRoundRobinPop: pop the planned share of every queue. */
    method TakeShares(values: array<T>, n: nat, left: array<nat>, q0: nat, ghost shares: seq<nat>)
      returns (ghost j: nat)
      requires Rings() && q0 < queues && left.Length == queues == |shares|
      requires n <= values.Length && Apart(values)
      requires left != remaining && left != tail && left != head && left != available && left as object != values
      requires left as object != data
      requires Taking([], contents, contents, left[..], remaining[..], shares, q0, 0)
      requires CyclicRest(shares, q0, 0) == n
      modifies remaining, tail, values, data, head, available, this`contents
      ensures Rings()
      ensures Taking(values[..n], old(contents), contents, old(left[..]), remaining[..], shares, q0, j)
      ensures CyclicRest(shares, q0, j) == 0
    {
      ghost var was, kept := contents, left[..];
      var q, i: nat := q0, 0;
      j := 0;
      while i < n
        invariant Rings() && left[..] == kept
        invariant j <= queues && q == Slot(q0, j, queues) && i + CyclicRest(shares, q0, j) == n
        invariant Taking(values[..i], was, contents, kept, remaining[..], shares, q0, j)
        decreases queues - j
      {
        i, q := TakeOne(values, i, n, left, q, q0, j, was, kept, shares);
        j := j + 1;
      }
    }

    /** The body of the second phase for queue q. */
    method TakeOne(values: array<T>, i: nat, n: nat, left: array<nat>, q: nat, ghost q0: nat, ghost j: nat,
                   ghost was: seq<seq<T>>, ghost kept: seq<nat>, ghost shares: seq<nat>) returns (i': nat, q': nat)
      requires Rings() && q0 < queues && left.Length == queues == |shares| && j <= queues
      requires left[..] == kept
      requires Apart(values) && left != remaining && left != tail && left != head && left != available
      requires left as object != values && left as object != data
      requires q == Slot(q0, j, queues) && i < n == i + CyclicRest(shares, q0, j) && n <= values.Length
      requires Taking(values[..i], was, contents, kept, remaining[..], shares, q0, j)
      modifies remaining, tail, values, data, head, available, this`contents
      ensures Rings() && j < queues
      ensures q' == Slot(q0, j + 1, queues) && i' + CyclicRest(shares, q0, j + 1) == n
      ensures Taking(values[..i'], was, contents, kept, remaining[..], shares, q0, j + 1)
    {
      ghost var out, before, rem := values[..i], contents, remaining[..];
      TakingAt(out, was, before, kept, rem, shares, q0, j);
      assert left[q] == left[..][q];
      i' := i;
      var share := remaining[q] - left[q];
      if share > 0 {
        UnsafePop(q, values, i, share);
        i' := i + share;
        PopOne(out, was, before, contents, kept, rem, shares, q0, j);
      } else {
        SkipOne(out, was, before, kept, rem, shares, q0, j);
      }
      q' := NextQueue(q, q0, j);
    }

    lemma NothingPopped(left: seq<nat>, shares: seq<nat>, q0: nat)
      requires Rings() && q0 < queues && |left| == queues == |shares|
      requires forall q :: 0 <= q < queues ==> remaining[q] == left[q] + shares[q]
      ensures Taking([], contents, contents, left, remaining[..], shares, q0, 0)
    {
      forall q | 0 <= q < queues ensures shares[q] <= |contents[q]| {
        assert RingOk(q);
      }
    }

    lemma CachedAtMostCount()
      requires Rings()
      ensures Sum(remaining[..]) <= Count(contents)
    {
      forall q | 0 <= q < queues ensures remaining[..][q] <= Lengths(contents)[q] {
        assert RingOk(q);
      }
      SumAtMost(remaining[..], Lengths(contents));
    }

    /** The first lines of both pop policies: refresh the counters when they promise less
        than n, and cut n to what they then promise. */
    method Refresh(n: nat) returns (m: nat)
      requires Valid()
      modifies remaining, data, head, available, this`totalRemaining, this`contents
      ensures Valid() && Grown(old(contents), contents) && current == old(current)
      ensures m == Min(n, totalRemaining) && Min(n, Count(old(contents))) <= m <= Count(contents)
      ensures Read(old(contents), old(remaining[..]), old(totalRemaining) < n, contents, remaining[..])
    {
      m := n;
      if totalRemaining < n {
        totalRemaining := UpdateRemaining();
        m := Min(n, totalRemaining);
        CountedBetween(old(contents));
      } else {
        CachedAtMostCount();
      }
    }

    lemma CountedBetween(was: seq<seq<T>>)
      requires Rings() && |was| == queues
      requires forall q :: 0 <= q < queues ==> |was[q]| <= remaining[q] <= |contents[q]|
      ensures Count(was) <= Sum(remaining[..]) <= Count(contents)
    {
      SumAtMost(Lengths(was), remaining[..]);
      SumAtMost(remaining[..], Lengths(contents));
    }

    /** The plan, and what it gives. */
    method PlanFairly(n: nat) returns (left: array<nat>, ghost shares: seq<nat>, ghost level: nat, ghost extra: nat, ghost last: nat)
      requires Rings() && 0 < n <= Sum(remaining[..])
      modifies this`current
      ensures Rings() && fresh(left) && left.Length == queues == |shares|
      ensures Sum(shares) == n && WaterFilled(remaining[..], shares, old(current), level, extra)
      ensures LastOfMost(shares, old(current), last) && current == Slot(old(current), last + 1, queues)
      ensures Taking([], contents, contents, left[..], remaining[..], shares, old(current), 0)
      ensures Spent(remaining[..], shares, left[..])
      ensures CyclicRest(shares, old(current), 0) == n && Sum(left[..]) + n == Sum(remaining[..])
    {
      ghost var q0 := current;
      left, level, extra, last := PlanShares(n);
      forall q | 0 <= q < queues ensures RingOk(q) {
        assert old(RingOk(q));
      }
      shares := SharesOf(remaining[..], left[..], q0, level, extra);
      FullTurn(shares, q0);
      NothingPopped(left[..], shares, q0);
    }

    /** Plan and take n elements that the counters promise. */
    method FairPop(values: array<T>, n: nat) returns (ghost shares: seq<nat>, ghost level: nat, ghost extra: nat, ghost last: nat)
      requires Valid() && 0 < n <= totalRemaining && n <= values.Length && Apart(values)
      modifies remaining, tail, values, data, head, available, this`current, this`totalRemaining, this`contents
      ensures Valid()
      ensures Sum(shares) == n && WaterFilled(old(remaining[..]), shares, old(current), level, extra)
      ensures Popped(old(contents), contents, shares, old(current), queues)
      ensures values[..n] == Taken(old(contents), shares, old(current), queues)
      ensures LastOfMost(shares, old(current), last) && current == Slot(old(current), last + 1, queues)
      ensures Spent(old(remaining[..]), shares, remaining[..])
    {
      var queue0 := current;
      var left;
      left, shares, level, extra, last := PlanFairly(n);
      totalRemaining := totalRemaining - n;
      ghost var was, kept := contents, left[..];
      ghost var j := TakeShares(values, n, left, queue0, shares);
      TakingIsDone(values[..n], was, contents, kept, remaining[..], shares, queue0, j);
    }

    /** Pops min(n, refreshed total) elements with fair shares, while producers push: the
        shares water-fill the cached counters from the current queue on, every queue loses
        exactly its share from its front, and they are delivered queue by queue in that
        order. The next pop starts behind the last queue that gave the most. `at` is what the
        queues held when the counters had been read. */
    method CyclicRoundRobinPop(values: array<T>, n: nat)
      returns (got: nat, ghost at: seq<seq<T>>, ghost cached: seq<nat>, ghost shares: seq<nat>, ghost level: nat, ghost extra: nat,
               ghost last: nat)
      requires Valid() && n <= values.Length && Apart(values)
      modifies remaining, tail, values, data, head, available, this`current, this`totalRemaining, this`contents
      ensures Valid() && Grown(old(contents), at)
      ensures Read(old(contents), old(remaining[..]), old(totalRemaining) < n, at, cached)
      ensures got == Min(n, Sum(cached)) && Min(n, Count(old(contents))) <= got <= Count(at)
      ensures Sum(shares) == got && WaterFilled(cached, shares, old(current), level, extra)
      ensures Popped(at, contents, shares, old(current), queues)
      ensures values[..got] == Taken(at, shares, old(current), queues)
      ensures Spent(cached, shares, remaining[..]) && (got == 0 ==> current == old(current))
      ensures got > 0 ==> LastOfMost(shares, old(current), last) && current == Slot(old(current), last + 1, queues)
    {
      got := Refresh(n);
      at, cached := contents, remaining[..];
      if got == 0 {
        level, extra, last := 0, 0, 0;
        shares := NothingTaken(cached, current);
      } else {
        shares, level, extra, last := FairPop(values, got);
      }
    }

    lemma NothingTaken(cached: seq<nat>, q0: nat) returns (shares: seq<nat>)
      requires Rings() && |cached| == queues && q0 < queues
      ensures Sum(shares) == 0 && WaterFilled(cached, shares, q0, 0, 0) && Spent(cached, shares, cached)
      ensures Popped(contents, contents, shares, q0, queues) && Taken(contents, shares, q0, queues) == []
    {
      shares := seq(queues, _ => 0);
      if Sum(shares) > 0 {
        var i := SumPositive(shares);
      }
      FullTurn(shares, q0);
      RestIsEmpty(contents, shares, q0, 0);
    }

    /** Take n elements that the counters promise, queue after queue. */
    method DrainPop(values: array<T>, n: nat) returns (ghost j: nat, ghost k: nat)
      requires Rings() && n <= Sum(remaining[..]) && n <= values.Length && Apart(values)
      modifies remaining, tail, values, data, head, available, this`current, this`contents
      ensures Rings() && j < queues && current == Slot(old(current), j, queues)
      ensures Draining(values[..n], n, old(contents), contents, old(remaining[..]), remaining[..], old(current), j, k)
      ensures if n == 0 then j == 0 else k > 0
    {
      ghost var q0, was, cached := current, contents, remaining[..];
      ghost var out, rem := values[..0], cached;
      j, k := 0, 0;
      NothingDrained(n);
      var i: nat := 0;
      while i < n
        invariant Rings() && i <= n && j < queues && current == Slot(q0, j, queues)
        invariant values[..i] == out && remaining[..] == rem
        invariant Draining(out, n, was, contents, cached, rem, q0, j, k) && (i == n ==> if n == 0 then j == 0 else k > 0)
        decreases n - i, queues - j
      {
        var share := Min(remaining[current], n - i);
        i, j, k, out, rem := DrainStep(values, i, n, share, out, rem, was, cached, q0, j, k);
      }
    }

    /** One iteration: go to the next queue, or take what the current one promises. */
    method DrainStep(values: array<T>, i: nat, n: nat, share: nat, ghost out: seq<T>, ghost rem: seq<nat>,
                     ghost was: seq<seq<T>>, ghost cached: seq<nat>, ghost q0: nat, ghost j: nat, ghost k: nat)
      returns (i': nat, ghost j': nat, ghost k': nat, ghost out': seq<T>, ghost rem': seq<nat>)
      requires Rings() && Apart(values) && i < n <= values.Length && values[..i] == out && remaining[..] == rem
      requires q0 < queues && j < queues && current == Slot(q0, j, queues) && share == Min(remaining[current], n - i)
      requires Draining(out, n, was, contents, cached, rem, q0, j, k)
      modifies remaining, tail, values, data, head, available, this`current, this`contents
      ensures Rings() && j' < queues && current == Slot(q0, j', queues)
      ensures i' <= n && ((i' > i && k' > 0) || (i' == i && j' > j)) && values[..i'] == out' && remaining[..] == rem'
      ensures Draining(out', n, was, contents, cached, rem', q0, j', k')
    {
      if share == 0 {
        i', k', out', rem' := i, 0, out, rem;
        j' := DrainNext(n, out, rem, was, cached, q0, j, k);
        assert values[..i] == out && remaining[..] == rem;
      } else {
        i', j', k' := i + share, j, share;
        out', rem' := DrainTake(values, i, i', n, share, out, rem, was, cached, q0, j, k);
      }
    }

    method DrainNext(n: nat, ghost out: seq<T>, ghost rem: seq<nat>,
                     ghost was: seq<seq<T>>, ghost cached: seq<nat>, ghost q0: nat, ghost j: nat, ghost k: nat)
      returns (ghost j': nat)
      requires Rings() && |out| < n && remaining[..] == rem
      requires q0 < queues && j < queues && current == Slot(q0, j, queues) && remaining[current] == 0
      requires Draining(out, n, was, contents, cached, rem, q0, j, k)
      modifies this`current
      ensures Rings() && j < j' < queues && current == Slot(q0, j', queues)
      ensures Draining(out, n, was, contents, cached, rem, q0, j', 0)
    {
      j' := NextDrained(out, n, was, contents, cached, rem, q0, j, k);
      current := NextQueue(current, q0, j);
      forall p | 0 <= p < queues ensures RingOk(p) {
        assert old(RingOk(p));
      }
    }

    method DrainTake(values: array<T>, i: nat, i': nat, n: nat, share: nat, ghost out: seq<T>, ghost rem: seq<nat>,
                     ghost was: seq<seq<T>>, ghost cached: seq<nat>, ghost q0: nat, ghost j: nat, ghost k: nat)
      returns (ghost out': seq<T>, ghost rem': seq<nat>)
      requires Rings() && Apart(values) && i + share == i' <= n <= values.Length && values[..i] == out && remaining[..] == rem
      requires q0 < queues && j < queues && current == Slot(q0, j, queues)
      requires 0 < share == Min(remaining[current], n - i)
      requires Draining(out, n, was, contents, cached, rem, q0, j, k)
      modifies remaining, tail, values, data, head, available, this`contents
      ensures Rings() && values[..i'] == out' && remaining[..] == rem'
      ensures Draining(out', n, was, contents, cached, rem', q0, j, share)
    {
      ghost var before := contents;
      UnsafePop(current, values, i, share);
      out', rem' := out + before[current][..share], rem[current := rem[current] - share];
      MoreDrained(out, n, was, before, contents, cached, rem, q0, j, k, share);
    }

    /** Pops min(n, refreshed total) elements, draining one queue before going on to the next:
        whole cached queues from the current one on, then k elements of one more, where the
        next pop starts. `at` is what the queues held when the counters had been read. */
    method BlockRoundRobinPop(values: array<T>, n: nat)
      returns (got: nat, ghost at: seq<seq<T>>, ghost cached: seq<nat>, ghost j: nat, ghost k: nat)
      requires Valid() && n <= values.Length && Apart(values)
      modifies remaining, tail, values, data, head, available, this`current, this`totalRemaining, this`contents
      ensures Valid() && Grown(old(contents), at)
      ensures Read(old(contents), old(remaining[..]), old(totalRemaining) < n, at, cached)
      ensures got == Min(n, Sum(cached)) && Min(n, Count(old(contents))) <= got <= Count(at)
      ensures Draining(values[..got], got, at, contents, cached, remaining[..], old(current), j, k)
      ensures current == Slot(old(current), j, queues) && if got == 0 then j == 0 else k > 0
    {
      got := Refresh(n);
      at, cached := contents, remaining[..];
      totalRemaining := totalRemaining - got;
      j, k := DrainPop(values, got);
    }

    lemma NothingDrained(n: nat)
      requires Rings() && n <= Sum(remaining[..])
      ensures Slot(current, 0, queues) == current
      ensures Draining([], n, contents, contents, remaining[..], remaining[..], current, 0, 0)
    {
      FullTurn(remaining[..], current);
      forall q | 0 <= q < queues ensures remaining[q] <= |contents[q]| && contents[q] == contents[q][0..] {
        assert RingOk(q);
      }
    }

    /** The producer side. It fails exactly when the ring of the CPU is full. */
    method Push(element: T, q: nat) returns (ok: bool)
      requires Rings() && q < queues
      modifies data, head, available, this`contents
      ensures Rings() && (old(Valid()) ==> Valid())
      ensures ok <==> |old(contents)[q]| < capacity - 1
      ensures contents == if ok then old(contents)[q := old(contents)[q] + [element]] else old(contents)
    {
      assert RingOk(q);
      if available[q] == 0 {
        var occupied := GetRemaining(q);
        available[q] := capacity - (occupied + 1);
        forall p | 0 <= p < queues ensures RingOk(p) {
          assert old(RingOk(p));
        }
        if available[q] == 0 {
          return false;
        }
      }
      UnsafePush(q, [element]);
      return true;
    }

    /** "Empty" means that nothing waited when it was called; otherwise something waits. */
    method Empty() returns (none: bool)
      requires Valid()
      modifies remaining, data, head, available, this`totalRemaining, this`contents
      ensures Valid() && Grown(old(contents), contents)
      ensures none ==> Count(old(contents)) == 0
      ensures !none ==> Count(contents) > 0
    {
      CachedAtMostCount();
      if totalRemaining != 0 {
        return false;
      }
      totalRemaining := UpdateRemaining();
      CountedBetween(old(contents));
      none := totalRemaining == 0;
    }
  }

  /** The counters are as they were or, refreshed, each lies between what its queue held
      before and what it held when all had been read. */
  ghost predicate Read<T>(was: seq<seq<T>>, cached: seq<nat>, refreshed: bool, at: seq<seq<T>>, cached': seq<nat>) {
    && |was| == |at| == |cached'|
    && if !refreshed then cached' == cached
       else forall q :: 0 <= q < |was| ==> |was[q]| <= cached'[q] <= |at[q]|
  }

  /** How much a block pop has taken of the queue q: all that was cached for the first j
      queues from q0, k of the next one. */
  function Gone(cached: seq<nat>, q0: nat, j: nat, k: nat, q: nat): nat
    requires q0 < |cached| && q < |cached|
  {
    var d := Turn(q0, q, |cached|);
    if d < j then cached[q] else if d == j then k else 0
  }

  ghost predicate Drained<T>(was: seq<seq<T>>, now: seq<seq<T>>, cached: seq<nat>, q0: nat, j: nat, k: nat) {
    && |was| == |now| == |cached| && q0 < |cached| && j < |cached| && k <= cached[Slot(q0, j, |cached|)]
    && (forall q :: 0 <= q < |cached| ==> cached[q] <= |was[q]|)
    && (forall q {:trigger Gone(cached, q0, j, k, q)} :: 0 <= q < |cached| ==>
          Gone(cached, q0, j, k, q) <= cached[q] && was[q][Gone(cached, q0, j, k, q)..] <= now[q])
  }

  ghost predicate Lowered(cached: seq<nat>, remaining: seq<nat>, q0: nat, j: nat, k: nat) {
    && |cached| == |remaining| && q0 < |cached|
    && forall q {:trigger Gone(cached, q0, j, k, q)} :: 0 <= q < |cached| ==>
         remaining[q] == cached[q] - Gone(cached, q0, j, k, q)
  }

  ghost function DrainOrder<T>(was: seq<seq<T>>, cached: seq<nat>, q0: nat, j: nat, k: nat): seq<T>
    requires |was| == |cached| && q0 < |cached| && j < |cached|
    requires forall q :: 0 <= q < |cached| ==> cached[q] <= |was[q]|
    requires k <= cached[Slot(q0, j, |cached|)]
  {
    Taken(was, cached, q0, j) + was[Slot(q0, j, |cached|)][..k]
  }

  /** The loop of the block pop: what has been delivered and what is still promised. */
  ghost predicate Draining<T>(out: seq<T>, n: nat, was: seq<seq<T>>, now: seq<seq<T>>,
                              cached: seq<nat>, remaining: seq<nat>, q0: nat, j: nat, k: nat) {
    && Drained(was, now, cached, q0, j, k) && Lowered(cached, remaining, q0, j, k)
    && |out| + Sum(remaining) == Sum(cached)
    && |out| <= n <= Sum(cached) && |out| + CyclicRest(cached, q0, j) == Sum(cached) + k
    && out == DrainOrder(was, cached, q0, j, k)
    && (|out| == n || k == 0 || k == cached[Slot(q0, j, |cached|)])
  }

  lemma GoneNext(cached: seq<nat>, q0: nat, j: nat, q: nat)
    requires q0 < |cached| && q < |cached| && j + 1 < |cached|
    ensures Gone(cached, q0, j, cached[Slot(q0, j, |cached|)], q) == Gone(cached, q0, j + 1, 0, q)
  {
  }

  lemma NextDrained<T>(out: seq<T>, n: nat, was: seq<seq<T>>, now: seq<seq<T>>,
                       cached: seq<nat>, remaining: seq<nat>, q0: nat, j: nat, k: nat)
    returns (j': nat)
    requires Draining(out, n, was, now, cached, remaining, q0, j, k)
    requires |out| < n && remaining[Slot(q0, j, |cached|)] == 0
    ensures j + 1 == j' < |cached| && Draining(out, n, was, now, cached, remaining, q0, j', 0)
  {
    j' := j + 1;
    var q := Slot(q0, j, |cached|);
    assert k == cached[q] by {
      assert Turn(q0, q, |cached|) == j;
      assert Gone(cached, q0, j, k, q) == k;
    }
    assert CyclicRest(cached, q0, j) == cached[q] + CyclicRest(cached, q0, j + 1);
    forall x | 0 <= x < |cached|
      ensures Gone(cached, q0, j + 1, 0, x) <= cached[x] && was[x][Gone(cached, q0, j + 1, 0, x)..] <= now[x]
      ensures remaining[x] == cached[x] - Gone(cached, q0, j + 1, 0, x)
    {
      GoneNext(cached, q0, j, x);
      assert Gone(cached, q0, j, k, x) <= cached[x];
    }
    NextOrder(was, cached, q0, j);
  }

  lemma NextOrder<T>(was: seq<seq<T>>, cached: seq<nat>, q0: nat, j: nat)
    requires |was| == |cached| && q0 < |cached| && j + 1 < |cached|
    requires forall q :: 0 <= q < |cached| ==> cached[q] <= |was[q]|
    ensures DrainOrder(was, cached, q0, j + 1, 0) == DrainOrder(was, cached, q0, j, cached[Slot(q0, j, |cached|)])
  {
    assert was[Slot(q0, j + 1, |cached|)][..0] == [];
  }

  lemma GoneOne(cached: seq<nat>, q0: nat, j: nat, share: nat, q: nat)
    requires q0 < |cached| && q < |cached| && j < |cached|
    ensures Gone(cached, q0, j, share, q) == if q == Slot(q0, j, |cached|) then share else Gone(cached, q0, j, 0, q)
    ensures Gone(cached, q0, j, 0, Slot(q0, j, |cached|)) == 0
  {
    assert Turn(q0, Slot(q0, j, |cached|), |cached|) == j;
  }

  lemma DrainShare<T>(was: seq<seq<T>>, now: seq<seq<T>>, now': seq<seq<T>>, cached: seq<nat>, q0: nat, j: nat, share: nat)
    requires Drained(was, now, cached, q0, j, 0) && share <= cached[Slot(q0, j, |cached|)]
    requires TookFrom(now, now', Slot(q0, j, |cached|), share)
    ensures Drained(was, now', cached, q0, j, share)
    ensures var q := Slot(q0, j, |cached|); now[q][..share] == was[q][..share]
  {
    var q := Slot(q0, j, |cached|);
    GoneOne(cached, q0, j, share, q);
    assert was[q][0..] == was[q];
    forall x | 0 <= x < |cached|
      ensures Gone(cached, q0, j, share, x) <= cached[x]
      ensures was[x][Gone(cached, q0, j, share, x)..] <= now'[x]
    {
      GoneOne(cached, q0, j, share, x);
      if x == q {
        PrefixRest(was[q], now[q], share);
      }
    }
  }

  lemma PrefixRest<T>(a: seq<T>, b: seq<T>, n: nat)
    requires a <= b && n <= |a|
    ensures a[n..] <= b[n..]
  {
  }

  lemma LowerShare(cached: seq<nat>, remaining: seq<nat>, q0: nat, j: nat, share: nat)
    requires Lowered(cached, remaining, q0, j, 0) && j < |cached| && share <= cached[Slot(q0, j, |cached|)]
    ensures var q := Slot(q0, j, |cached|);
            remaining[q] == cached[q] && Lowered(cached, remaining[q := cached[q] - share], q0, j, share)
  {
    var q := Slot(q0, j, |cached|);
    forall x | 0 <= x < |cached|
      ensures remaining[q := cached[q] - share][x] == cached[x] - Gone(cached, q0, j, share, x)
    {
      GoneOne(cached, q0, j, share, x);
    }
    GoneOne(cached, q0, j, share, q);
  }

  /** While the current queue promises something, nothing of it has been taken. */
  lemma NothingTakenYet<T>(out: seq<T>, n: nat, was: seq<seq<T>>, now: seq<seq<T>>,
                           cached: seq<nat>, remaining: seq<nat>, q0: nat, j: nat, k: nat)
    requires Draining(out, n, was, now, cached, remaining, q0, j, k)
    requires |out| < n && remaining[Slot(q0, j, |cached|)] > 0
    ensures k == 0 && out == Taken(was, cached, q0, j) && remaining[Slot(q0, j, |cached|)] == cached[Slot(q0, j, |cached|)]
  {
    var q := Slot(q0, j, |cached|);
    assert Turn(q0, q, |cached|) == j;
    assert Gone(cached, q0, j, k, q) == k;
    assert remaining[q] == cached[q] - k;
    assert was[q][..0] == [];
  }

  lemma MoreDrained<T>(out: seq<T>, n: nat, was: seq<seq<T>>, now: seq<seq<T>>, now': seq<seq<T>>,
                       cached: seq<nat>, remaining: seq<nat>, q0: nat, j: nat, k: nat, share: nat)
    requires Draining(out, n, was, now, cached, remaining, q0, j, k)
    requires 0 < share && |out| + share <= n && share <= remaining[Slot(q0, j, |cached|)]
    requires share == remaining[Slot(q0, j, |cached|)] || |out| + share == n
    requires TookFrom(now, now', Slot(q0, j, |cached|), share)
    ensures var q := Slot(q0, j, |cached|);
            Draining(out + now[q][..share], n, was, now', cached, remaining[q := remaining[q] - share], q0, j, share)
  {
    NothingTakenYet(out, n, was, now, cached, remaining, q0, j, k);
    SumUpdate(remaining, Slot(q0, j, |cached|), remaining[Slot(q0, j, |cached|)] - share);
    LowerShare(cached, remaining, q0, j, share);
    DrainShare(was, now, now', cached, q0, j, share);
  }

  lemma SharesOf(cached: seq<nat>, left: seq<nat>, q0: nat, level: nat, extra: nat) returns (shares: seq<nat>)
    requires Planned(cached, left, q0, level, 1, extra) && extra < |cached|
    ensures shares == Given(cached, left) && forall q :: 0 <= q < |cached| ==> cached[q] == left[q] + shares[q]
    ensures Sum(cached) == Sum(left) + Sum(shares) && WaterFilled(cached, shares, q0, level, extra)
  {
    shares := Given(cached, left);
    SumDifference(cached, left, shares);
    PlanIsWaterFilled(cached, left, shares, q0, level, extra);
  }

  /** The first j queues from q0 have lost exactly their share; producers only append. */
  ghost predicate Popped<T>(was: seq<seq<T>>, now: seq<seq<T>>, shares: seq<nat>, q0: nat, j: nat) {
    && |was| == |now| == |shares| && q0 < |shares|
    && (forall q :: 0 <= q < |shares| ==> shares[q] <= |was[q]|)
    && (forall q {:trigger Turn(q0, q, |shares|)} :: 0 <= q < |shares| ==>
          (if Turn(q0, q, |shares|) < j then was[q][shares[q]..] else was[q]) <= now[q])
  }

  ghost predicate Reduced(left: seq<nat>, remaining: seq<nat>, shares: seq<nat>, q0: nat, j: nat) {
    && |left| == |remaining| == |shares| && q0 < |shares|
    && (forall q {:trigger Turn(q0, q, |shares|)} :: 0 <= q < |shares| ==>
          remaining[q] == left[q] + if Turn(q0, q, |shares|) < j then 0 else shares[q])
  }

  /** The loop of the second phase: what has been delivered and what is left. */
  ghost predicate Taking<T>(out: seq<T>, was: seq<seq<T>>, now: seq<seq<T>>, left: seq<nat>, remaining: seq<nat>,
                            shares: seq<nat>, q0: nat, j: nat) {
    && Popped(was, now, shares, q0, j) && Reduced(left, remaining, shares, q0, j) && j <= |shares|
    && out == Taken(was, shares, q0, j)
  }

  lemma TakingAt<T>(out: seq<T>, was: seq<seq<T>>, now: seq<seq<T>>, left: seq<nat>, remaining: seq<nat>,
                    shares: seq<nat>, q0: nat, j: nat)
    requires Taking(out, was, now, left, remaining, shares, q0, j) && j < |shares|
    ensures var q := Slot(q0, j, |shares|); was[q] <= now[q] && remaining[q] == left[q] + shares[q]
  {
    assert Turn(q0, Slot(q0, j, |shares|), |shares|) == j;
  }

  lemma PopOne<T>(out: seq<T>, was: seq<seq<T>>, now: seq<seq<T>>, now': seq<seq<T>>, left: seq<nat>, remaining: seq<nat>,
                  shares: seq<nat>, q0: nat, j: nat)
    requires Taking(out, was, now, left, remaining, shares, q0, j) && j < |shares|
    requires TookFrom(now, now', Slot(q0, j, |shares|), shares[Slot(q0, j, |shares|)])
    ensures var q := Slot(q0, j, |shares|);
            Taking(out + now[q][..shares[q]], was, now', left, remaining[q := left[q]], shares, q0, j + 1)
  {
    var q := Slot(q0, j, |shares|);
    assert Turn(q0, q, |shares|) == j;
    PrefixRest(was[q], now[q], shares[q]);
    assert now[q][..shares[q]] == was[q][..shares[q]];
  }

  lemma SkipOne<T>(out: seq<T>, was: seq<seq<T>>, now: seq<seq<T>>, left: seq<nat>, remaining: seq<nat>,
                   shares: seq<nat>, q0: nat, j: nat)
    requires Taking(out, was, now, left, remaining, shares, q0, j) && j < |shares|
    requires shares[Slot(q0, j, |shares|)] == 0
    ensures Taking(out, was, now, left, remaining, shares, q0, j + 1)
  {
    var q := Slot(q0, j, |shares|);
    assert Turn(q0, q, |shares|) == j;
    assert was[q][..0] == [] && was[q][0..] == was[q];
  }

  lemma TakingIsDone<T>(out: seq<T>, was: seq<seq<T>>, now: seq<seq<T>>, left: seq<nat>, remaining: seq<nat>,
                        shares: seq<nat>, q0: nat, j: nat)
    requires Taking(out, was, now, left, remaining, shares, q0, j) && CyclicRest(shares, q0, j) == 0
    ensures Popped(was, now, shares, q0, |shares|) && remaining == left && out == Taken(was, shares, q0, |shares|)
  {
    RestIsEmpty(was, shares, q0, j);
    forall q | 0 <= q < |shares| ensures remaining[q] == left[q] {
      assert Turn(q0, q, |shares|) < |shares|;
    }
  }

  /** Once the first j queues have given everything, the others have nothing to give. */
  lemma {:induction false} RestIsEmpty<T>(contents: seq<seq<T>>, shares: seq<nat>, q0: nat, j: nat)
    requires |contents| == |shares| && q0 < |shares| && j <= |shares|
    requires forall q :: 0 <= q < |shares| ==> shares[q] <= |contents[q]|
    requires CyclicRest(shares, q0, j) == 0
    ensures Taken(contents, shares, q0, j) == Taken(contents, shares, q0, |shares|)
    ensures forall q :: 0 <= q < |shares| && Turn(q0, q, |shares|) >= j ==> shares[q] == 0
    decreases |shares| - j
  {
    if j < |shares| {
      var x := Slot(q0, j, |shares|);
      assert shares[x] == 0;
      assert contents[x][..0] == [];
      RestIsEmpty(contents, shares, q0, j + 1);
      forall q | 0 <= q < |shares| && Turn(q0, q, |shares|) >= j ensures shares[q] == 0 {
        if Turn(q0, q, |shares|) == j {
          assert q == x;
        }
      }
    }
  }
}
