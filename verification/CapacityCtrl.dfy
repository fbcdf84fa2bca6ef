/**
  The controller of how many requests may be in flight
  (src/common/TicketManagerCapacityCtrl.hpp). The clock is an input of `Evaluate`.
 */
module CapacityCtrl {
  import opened Basics

  const CAPACITY_LIMIT: nat := 32 * 1024

  datatype Ctrl = Ctrl(min: nat, max: nat, capacity: nat, timeout: nat, saturation: bool, begin: real)

  /** What one call of `evaluate` is given. */
  datatype Sample = Sample(pending: nat, completed: nat, now: real)

  ghost predicate Ok(c: Ctrl) {
    c.min <= c.capacity <= c.max <= CAPACITY_LIMIT
  }

  /** The constructor: `policy` is the parsed TAMPI_CAPACITY; None is the abort on min > max. */
  function Configured(policy: Option<(nat, nat)>, timeout: Option<nat>): (c: Option<Ctrl>)
    ensures c.None? <==> policy.Some? && policy.value.0 > policy.value.1
    ensures c.Some? ==> Ok(c.value) && c.value.capacity == c.value.min && !c.value.saturation
    ensures c.Some? ==> (c.value.min == 0 <==> policy.Some? && policy.value.0 == 0)
    ensures c.Some? && policy.Some? ==> c.value.min == Min(policy.value.0, 32768) && c.value.max == Min(policy.value.1, 32768)
    ensures policy.None? ==> c.value.min == 128 && c.value.max == 32768
    ensures c.Some? ==> c.value.timeout == if timeout.Some? then timeout.value else 10
  {
    var t := if timeout.Some? then timeout.value else 10;
    match policy
    case None => Some(Ctrl(128, CAPACITY_LIMIT, 128, t, false, 0.0))
    case Some((min, max)) =>
      if min > max then None
      else
        var lo := Min(min, CAPACITY_LIMIT);
        Some(Ctrl(lo, Min(max, CAPACITY_LIMIT), lo, t, false, 0.0))
  }

  function Evaluated(c: Ctrl, s: Sample): Ctrl {
    if c.capacity == c.max then c
    else if s.pending == c.capacity && s.completed == 0 then
      if !c.saturation then c.(saturation := true, begin := s.now)
      else if s.now - c.begin > c.timeout as real then
        c.(saturation := false, capacity := Min(c.capacity * 2, c.max))
      else c
    else c.(saturation := false)
  }

  class Controller {
    const min: nat
    const max: nat
    const timeout: nat
    var capacity: nat
    var saturation: bool
    var saturationBegin: real

    ghost function State(): Ctrl
      reads this
    {
      Ctrl(min, max, capacity, timeout, saturation, saturationBegin)
    }

    constructor (c: Ctrl)
      requires Ok(c)
      ensures State() == c
    {
      min, max, timeout := c.min, c.max, c.timeout;
      capacity, saturation, saturationBegin := c.capacity, c.saturation, c.begin;
    }

    method Evaluate(pending: nat, completed: nat, now: real)
      requires Ok(State())
      modifies this
      ensures State() == Evaluated(old(State()), Sample(pending, completed, now))
      ensures Ok(State()) && capacity >= old(capacity)
      ensures completed > 0 || pending != old(capacity) ==> capacity == old(capacity) && (capacity < max ==> !saturation)
    {
      if capacity == max {
        return;
      }
      if pending == capacity && completed == 0 {
        if !saturation {
          saturation := true;
          saturationBegin := now;
        } else if now - saturationBegin > timeout as real {
          saturation := false;
          capacity := Min(capacity * 2, max);
        }
      } else {
        saturation := false;
      }
    }
  }

  // ------------------------------------------------------------------ whole runs

  /** The controller after the first n samples of a run. */
  function After(c: Ctrl, ss: seq<Sample>, n: nat): Ctrl
    requires n <= |ss|
  {
    if n == 0 then c else Evaluated(After(c, ss, n - 1), ss[n - 1])
  }

  predicate Grows(c: Ctrl, ss: seq<Sample>, i: nat)
    requires i < |ss|
  {
    After(c, ss, i + 1).capacity > After(c, ss, i).capacity
  }

  function Growths(c: Ctrl, ss: seq<Sample>, n: nat): nat
    requires n <= |ss|
  {
    if n == 0 then 0
    else Growths(c, ss, n - 1) + if Grows(c, ss, n - 1) then 1 else 0
  }

  /** n doublings of x, that is x * 2^n. */
  function Doubled(x: nat, n: nat): nat {
    if n == 0 then x else 2 * Doubled(x, n - 1)
  }

  lemma {:induction false} DoubledFirst(x: nat, y: nat, n: nat)
    requires n > 0 && y <= 2 * x
    ensures Doubled(2 * x, n - 1) == Doubled(x, n)
    ensures Doubled(y, n - 1) <= Doubled(x, n) && Doubled(y, n - 1) >= y
  {
    if n > 1 {
      DoubledFirst(x, y, n - 1);
    }
  }

  /** One evaluation of a capacity that is x doubled g times and cut at the maximum. */
  lemma {:induction false} DoublesOnce(c: Ctrl, s: Sample, x: nat, g: nat)
    requires Ok(c) && c.capacity == Min(Doubled(x, g), c.max) && (g > 0 ==> Doubled(x, g - 1) < c.max)
    ensures var c' := Evaluated(c, s);
            var g' := if c'.capacity > c.capacity then g + 1 else g;
            && Ok(c') && c'.min == c.min && c'.max == c.max && c'.timeout == c.timeout
            && c'.capacity == Min(Doubled(x, g'), c.max) && (g' > 0 ==> Doubled(x, g' - 1) < c.max)
  {
  }

  /** Over every run the capacity is the starting one doubled once per growth and cut at
      the maximum, and the last growth started below the maximum: there are at most
      ceil(log2(max / min)) of them. Limits and timeout never change. */
  lemma {:induction false} DoublesAtMostLogTimes(c: Ctrl, ss: seq<Sample>, n: nat)
    requires Ok(c) && n <= |ss|
    ensures Ok(After(c, ss, n))
    ensures After(c, ss, n).min == c.min && After(c, ss, n).max == c.max && After(c, ss, n).timeout == c.timeout
    ensures var g := Growths(c, ss, n);
            && After(c, ss, n).capacity == Min(Doubled(c.capacity, g), c.max)
            && (g > 0 ==> Doubled(c.capacity, g - 1) < c.max)
  {
    if n > 0 {
      DoublesAtMostLogTimes(c, ss, n - 1);
      DoublesOnce(After(c, ss, n - 1), ss[n - 1], c.capacity, Growths(c, ss, n - 1));
    }
  }

  /** The capacity never shrinks during a run. */
  lemma {:induction false} NeverShrinks(c: Ctrl, ss: seq<Sample>, i: nat, n: nat)
    requires Ok(c) && i <= n <= |ss|
    ensures After(c, ss, i).capacity <= After(c, ss, n).capacity
    decreases n
  {
    if i < n {
      NeverShrinks(c, ss, i, n - 1);
      DoublesAtMostLogTimes(c, ss, n - 1);
    }
  }

  /** Samples j..n-1 all find the array full, at the same capacity, with nothing completed. */
  ghost predicate Epoch(c: Ctrl, ss: seq<Sample>, j: nat, n: nat, capacity: nat)
    requires n <= |ss|
  {
    forall m :: j <= m < n ==> ss[m].completed == 0 && ss[m].pending == After(c, ss, m).capacity == capacity
  }

  /** No sample between j and n came more than the timeout after j. */
  ghost predicate WithinTimeout(c: Ctrl, ss: seq<Sample>, j: nat, n: nat)
    requires j < n <= |ss|
  {
    forall m :: j < m < n ==> ss[m].now - ss[j].now <= c.timeout as real
  }

  /** When an epoch begins or lasts, and what the controller is then. */
  lemma Saturates(c: Ctrl, s: Sample, c': Ctrl)
    requires Ok(c) && (c.saturation ==> c.capacity < c.max) && c' == Evaluated(c, s)
    ensures c'.saturation <==>
              && c.capacity < c.max && s.completed == 0 && s.pending == c.capacity
              && (c.saturation ==> s.now - c.begin <= c.timeout as real)
    ensures c'.saturation ==> c' == if c.saturation then c else c.(saturation := true, begin := s.now)
  {
  }

  /** The controller before and after sample n - 1. */
  lemma {:induction false} LastSample(c: Ctrl, ss: seq<Sample>, n: nat) returns (before: Ctrl, after: Ctrl)
    requires Ok(c) && 0 < n <= |ss|
    ensures before == After(c, ss, n - 1) && after == After(c, ss, n) && after == Evaluated(before, ss[n - 1])
    ensures Ok(before) && before.max == c.max == after.max && before.timeout == c.timeout
  {
    before, after := After(c, ss, n - 1), After(c, ss, n);
    DoublesAtMostLogTimes(c, ss, n - 1);
    DoublesAtMostLogTimes(c, ss, n);
  }

  ghost predicate Began(c: Ctrl, ss: seq<Sample>, j: nat, n: nat, capacity: nat)
    requires n <= |ss|
  {
    j < n && !After(c, ss, j).saturation && Epoch(c, ss, j, n, capacity) && WithinTimeout(c, ss, j, n)
  }

  lemma {:induction false} BeginsNow(c: Ctrl, ss: seq<Sample>, k: nat, n: nat, before: Ctrl)
    requires k + 1 == n <= |ss| && before == After(c, ss, k) && !before.saturation
    requires ss[k].completed == 0 && ss[k].pending == before.capacity
    ensures Began(c, ss, k, n, before.capacity)
  {
  }

  lemma {:induction false} BeganMore(c: Ctrl, ss: seq<Sample>, j: nat, k: nat, n: nat, before: Ctrl)
    requires k + 1 == n <= |ss| && before == After(c, ss, k)
    requires ss[k].completed == 0 && ss[k].pending == before.capacity
    requires Began(c, ss, j, k, before.capacity) && ss[k].now - ss[j].now <= c.timeout as real
    ensures Began(c, ss, j, n, before.capacity)
  {
    forall m | j <= m < n ensures ss[m].completed == 0 && ss[m].pending == After(c, ss, m).capacity == before.capacity {
      assert m < k || m == k;
    }
  }

  lemma {:induction false} EpochBegan(c: Ctrl, ss: seq<Sample>, n: nat, after: Ctrl) returns (j: nat)
    requires Ok(c) && !c.saturation && n <= |ss| && after == After(c, ss, n) && after.saturation
    ensures after.capacity < c.max && Began(c, ss, j, n, after.capacity) && after.begin == ss[j].now
    decreases n
  {
    var before, last := LastSample(c, ss, n);
    if before.saturation {
      j := EpochBegan(c, ss, n - 1, before);
      Saturates(before, ss[n - 1], after);
      BeganMore(c, ss, j, n - 1, n, before);
    } else {
      j := n - 1;
      Saturates(before, ss[j], after);
      BeginsNow(c, ss, j, n, before);
    }
  }

  /** The capacity grows only after an unbroken epoch longer than the timeout, in which every
      poll finds the array full and completes nothing. */
  lemma GrowsOnlyAfterEpoch(c: Ctrl, ss: seq<Sample>, i: nat) returns (j: nat)
    requires Ok(c) && !c.saturation && i < |ss| && Grows(c, ss, i)
    ensures j < i && !After(c, ss, j).saturation && WithinTimeout(c, ss, j, i)
    ensures forall m :: j <= m <= i ==> ss[m].completed == 0 && ss[m].pending == After(c, ss, m).capacity == After(c, ss, i).capacity
    ensures ss[i].now - ss[j].now > c.timeout as real
  {
    var before, after := LastSample(c, ss, i + 1);
    j := EpochBegan(c, ss, i, before);
  }

  /** An epoch that began with sample j has lasted up to sample m. */
  lemma {:induction false} EpochLasts(c: Ctrl, ss: seq<Sample>, j: nat, m: nat, i: nat) returns (after: Ctrl)
    requires Ok(c) && j < m <= i <= |ss| && !After(c, ss, j).saturation && After(c, ss, i).capacity < c.max
    requires WithinTimeout(c, ss, j, i)
    requires forall k :: j <= k < i ==> ss[k].completed == 0 && ss[k].pending == After(c, ss, k).capacity
    ensures after == After(c, ss, m) && after.saturation && after.begin == ss[j].now
    decreases m
  {
    var before;
    before, after := LastSample(c, ss, m);
    NeverShrinks(c, ss, m - 1, i);
    if j < m - 1 {
      var same := EpochLasts(c, ss, j, m - 1, i);
    }
    Saturates(before, ss[m - 1], after);
  }

  ghost predicate GrowthDue(c: Ctrl, ss: seq<Sample>, j: nat, i: nat)
    requires j < i < |ss|
  {
    && !After(c, ss, j).saturation && WithinTimeout(c, ss, j, i) && ss[i].now - ss[j].now > c.timeout as real
    && forall m :: j <= m <= i ==> ss[m].completed == 0 && ss[m].pending == After(c, ss, m).capacity
  }

  /** It grows with a sample if and only if it is positive and below the maximum and that
      sample is the first to come more than the timeout after the begin of an epoch. */
  lemma GrowsIffDue(c: Ctrl, ss: seq<Sample>, i: nat)
    requires Ok(c) && !c.saturation && i < |ss|
    ensures Grows(c, ss, i) <==> 0 < After(c, ss, i).capacity < c.max && exists j :: 0 <= j < i && GrowthDue(c, ss, j, i)
  {
    DoublesAtMostLogTimes(c, ss, i);
    if Grows(c, ss, i) {
      var j := GrowsOnlyAfterEpoch(c, ss, i);
      assert GrowthDue(c, ss, j, i);
    }
    if 0 < After(c, ss, i).capacity < c.max && exists j :: 0 <= j < i && GrowthDue(c, ss, j, i) {
      var j :| 0 <= j < i && GrowthDue(c, ss, j, i);
      var before := EpochLasts(c, ss, j, i, i);
    }
  }

  /** A poll that completes something, or that leaves room, does not raise the capacity, and
      it ends an epoch: whatever grows later has waited a whole timeout from then on. */
  lemma BusyPollEndsEpoch(c: Ctrl, ss: seq<Sample>, k: nat, i: nat)
    requires Ok(c) && !c.saturation && k <= i < |ss| && Grows(c, ss, i)
    requires ss[k].completed > 0 || ss[k].pending != After(c, ss, k).capacity
    ensures !Grows(c, ss, k)
    ensures exists j :: k < j < i && ss[i].now - ss[j].now > c.timeout as real
  {
    var j := GrowsOnlyAfterEpoch(c, ss, i);
    assert k < j;
  }

  lemma {:induction false} ZeroStaysZero(c: Ctrl, ss: seq<Sample>, n: nat)
    requires c.capacity == 0 && n <= |ss|
    ensures After(c, ss, n).capacity == 0
  {
    if n > 0 {
      ZeroStaysZero(c, ss, n - 1);
    }
  }

  ghost predicate GrowsBy(c: Ctrl, ss: seq<Sample>, n: nat) {
    n <= |ss| && After(c, ss, n).capacity > c.capacity
  }

  lemma TwoSaturatedPolls(c: Ctrl) returns (ss: seq<Sample>)
    requires Ok(c) && 1 <= c.capacity < c.max
    ensures GrowsBy(c, ss, 2)
  {
    var from := if c.saturation then c.begin else 0.0;
    ss := [Sample(c.capacity, 0, from), Sample(c.capacity, 0, from + c.timeout as real + 1.0)];
    var c1 := Evaluated(c, ss[0]);
    assert After(c, ss, 0) == c && After(c, ss, 1) == c1;
    assert c1 == c.(saturation := true, begin := from) || c1.capacity > c.capacity;
    assert After(c, ss, 2) == Evaluated(c1, ss[1]);
  }

  /** Below the maximum, some run raises the capacity if and only if it is not zero: a
      configured minimum of 0 can never issue anything. */
  lemma CanGrowIffPositive(c: Ctrl)
    requires Ok(c) && c.capacity < c.max
    ensures c.capacity >= 1 <==> exists ss, n: nat :: GrowsBy(c, ss, n)
  {
    if c.capacity >= 1 {
      var ss := TwoSaturatedPolls(c);
      assert GrowsBy(c, ss, 2);
    } else {
      forall ss, n: nat ensures !GrowsBy(c, ss, n) {
        if n <= |ss| {
          ZeroStaysZero(c, ss, n);
        }
      }
    }
  }

  // ------------------------------------------------ progress when nothing completes

  /** Polling with nothing completing: `queued` operations wait in the pre-queues. */
  datatype Load = Load(ctrl: Ctrl, pending: nat, queued: nat)

  ghost predicate LoadOk(l: Load) {
    Ok(l.ctrl) && l.pending <= l.ctrl.capacity
  }

  /** One `checkRequests` in which no request completes: the free room is filled from the
      pre-queues and the capacity is evaluated. */
  function Polled(l: Load, now: real): Load
    requires LoadOk(l)
  {
    var moved := Min(l.ctrl.capacity - l.pending, l.queued);
    Load(Evaluated(l.ctrl, Sample(l.pending + moved, 0, now)), l.pending + moved, l.queued - moved)
  }

  function PolledAll(l: Load, clock: seq<real>): Load
    requires LoadOk(l)
    decreases |clock|
  {
    if clock == [] then l else PolledAll(Polled(l, clock[0]), clock[1..])
  }

  /** The clock never goes back, and starts at `last` or later. */
  ghost predicate Monotone(clock: seq<real>, last: real) {
    && (clock != [] ==> last <= clock[0])
    && forall i, j :: 0 <= i < j < |clock| ==> clock[i] <= clock[j]
  }

  /** How often more than `gap` passes: polls that come more than that after `last` or after
      the poll counted before. */
  function Lapses(clock: seq<real>, last: real, gap: nat): nat
    decreases |clock|
  {
    if clock == [] then 0
    else if clock[0] - last > gap as real then 1 + Lapses(clock[1..], clock[0], gap)
    else Lapses(clock[1..], last, gap)
  }

  ghost predicate Settled(l: Load) {
    l.queued == 0 || (l.ctrl.capacity == l.ctrl.max && l.pending == l.ctrl.max)
  }

  lemma {:induction false} SettledStays(l: Load, clock: seq<real>)
    requires LoadOk(l) && Settled(l)
    ensures Settled(PolledAll(l, clock))
    decreases |clock|
  {
    if clock != [] {
      SettledStays(Polled(l, clock[0]), clock[1..]);
    }
  }

  /** The lapses that are enough for g doublings: one to see the array full and one for the
      timeout, each time. An epoch that has begun by `last` needs one less. */
  function Enough(l: Load, g: nat, last: real): nat {
    if g > 0 && l.ctrl.saturation && l.ctrl.begin <= last then 2 * g else 2 * g + 1
  }

  /** One poll: either that settles it, or what is left of the lapses is still enough. */
  lemma PollUsesLapse(l: Load, clock: seq<real>, g: nat, last: real) returns (g': nat, last': real)
    requires LoadOk(l) && l.ctrl.capacity >= 1 && Doubled(l.ctrl.capacity, g) >= l.ctrl.max
    requires clock != [] && Monotone(clock, last) && (l.ctrl.saturation ==> l.ctrl.begin <= clock[0])
    requires Lapses(clock, last, l.ctrl.timeout) >= Enough(l, g, last)
    requires !Settled(Polled(l, clock[0]))
    ensures var l' := Polled(l, clock[0]);
            && LoadOk(l') && l'.ctrl.capacity >= 1 && Doubled(l'.ctrl.capacity, g') >= l'.ctrl.max
            && l'.ctrl.timeout == l.ctrl.timeout && (l'.ctrl.saturation ==> l'.ctrl.begin <= clock[0])
            && last' <= clock[0] && Lapses(clock[1..], last', l.ctrl.timeout) >= Enough(l', g', last')
  {
    var l' := Polled(l, clock[0]);
    assert l'.pending == l.ctrl.capacity < l.ctrl.max && g > 0;
    last' := if clock[0] - last > l.ctrl.timeout as real then clock[0] else last;
    g' := g;
    if l'.ctrl.capacity > l.ctrl.capacity {
      DoubledFirst(l.ctrl.capacity, Min(2 * l.ctrl.capacity, l.ctrl.max), g);
      g' := g - 1;
    }
  }

  /** If nothing completes and the clock advances, then after two lapses of the timeout per
      doubling, with any number of polls in between, every queued operation has been issued
      or the maximum capacity is full: saturation cannot hold operations back below it. */
  lemma {:induction false} IssuedOrAtMaximum(l: Load, clock: seq<real>, g: nat, last: real)
    requires LoadOk(l) && l.ctrl.capacity >= 1 && Doubled(l.ctrl.capacity, g) >= l.ctrl.max
    requires Monotone(clock, last) && (l.ctrl.saturation && clock != [] ==> l.ctrl.begin <= clock[0])
    requires Lapses(clock, last, l.ctrl.timeout) >= Enough(l, g, last)
    ensures Settled(PolledAll(l, clock))
    decreases |clock|
  {
    var l' := Polled(l, clock[0]);
    if Settled(l') {
      SettledStays(l', clock[1..]);
    } else {
      var g', last' := PollUsesLapse(l, clock, g, last);
      assert clock[1..] != [] ==> clock[1..][0] == clock[1];
      IssuedOrAtMaximum(l', clock[1..], g', last');
    }
  }

  /** With capacity 0 no poll ever issues anything. */
  lemma {:induction false} ZeroIssuesNothing(l: Load, clock: seq<real>)
    requires LoadOk(l) && l.ctrl.capacity == 0
    ensures var l' := PolledAll(l, clock); l'.queued == l.queued && l'.pending == 0 && l'.ctrl.capacity == 0
    ensures PolledAll(l, clock).ctrl.max == l.ctrl.max
    decreases |clock|
  {
    if clock != [] {
      ZeroIssuesNothing(Polled(l, clock[0]), clock[1..]);
    }
  }

  /** Below the maximum, with operations queued and nothing completing, enough lapses issue
      them all or fill the maximum if and only if the capacity is not zero: a configured
      minimum of 0 never issues anything. */
  lemma SettlesIffPositive(l: Load, clock: seq<real>, g: nat, last: real)
    requires LoadOk(l) && l.ctrl.capacity < l.ctrl.max && l.queued > 0
    requires l.ctrl.capacity >= 1 ==> Doubled(l.ctrl.capacity, g) >= l.ctrl.max
    requires Monotone(clock, last) && (l.ctrl.saturation && clock != [] ==> l.ctrl.begin <= clock[0])
    requires Lapses(clock, last, l.ctrl.timeout) >= 2 * g + 1
    ensures Settled(PolledAll(l, clock)) <==> l.ctrl.capacity >= 1
    ensures l.ctrl.capacity == 0 ==> PolledAll(l, clock).queued == l.queued
  {
    if l.ctrl.capacity >= 1 {
      IssuedOrAtMaximum(l, clock, g, last);
    } else {
      ZeroIssuesNothing(l, clock);
    }
  }

  /** A run of polls keeps the limits, and its last poll comes last. */
  lemma {:induction false} PolledMore(l: Load, clock: seq<real>, now: real)
    requires LoadOk(l)
    ensures LoadOk(PolledAll(l, clock)) && PolledAll(l, clock + [now]) == Polled(PolledAll(l, clock), now)
    decreases |clock|
  {
    if clock == [] {
      assert ([] + [now])[1..] == [];
    } else {
      assert (clock + [now])[0] == clock[0] && (clock + [now])[1..] == clock[1..] + [now];
      PolledMore(Polled(l, clock[0]), clock[1..], now);
    }
  }
}
