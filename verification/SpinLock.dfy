/**
  The ticket-array spinlock of src/common/util/SpinLock.hpp as a step machine.

  Each atomic access of `lock`, `try_lock` and `unlock` is one step, so every
  interleaving of any number of threads is a run of the machine. Nothing relates the
  number of threads to the number of slots. Counters are unbounded and memory is
  sequentially consistent.
 */
module SpinLock {
  import Arith

  datatype Pc =
    | Idle
    | Spinning(ticket: nat)   // lock(): ticket taken, reading its slot until it matches
    | TryHead(ticket: nat)    // try_lock(): head read
    | TrySlot(ticket: nat)    // try_lock(): slot matched, compare-exchange to come
    | Holding(ticket: nat)    // inside the critical section
    | Releasing(ticket: nat)  // unlock(): _next incremented, slot not stored yet

  /** `acquired` and `served` are history: the tickets in order of acquisition and the
      last value that an unlock stored. */
  datatype State = State(
    buffer: seq<nat>, head: nat, next: nat, threads: seq<Pc>,
    acquired: seq<nat>, served: nat)

  datatype Step =
    | TakeTicket(t: nat)
    | ReadSlot(t: nat)
    | LoadHead(t: nat)
    | CheckSlot(t: nat)
    | CompareExchange(t: nat)
    | Advance(t: nat)
    | Publish(t: nat)

  function SlotOf(k: nat, size: nat): (i: nat)
    requires size > 0
    ensures i < size
  {
    k % size
  }

  predicate Matches(s: State, k: nat)
    requires |s.buffer| > 0
  {
    s.buffer[SlotOf(k, |s.buffer|)] == k
  }

  ghost predicate Init(s: State) {
    && |s.buffer| > 0
    && (forall i :: 0 <= i < |s.buffer| ==> s.buffer[i] == 0)
    && s.head == 0 && s.next == 0 && s.served == 0 && s.acquired == []
    && (forall t :: 0 <= t < |s.threads| ==> s.threads[t] == Idle)
  }

  /** What one atomic access does; a step whose thread is elsewhere is not enabled. */
  ghost predicate Next(s: State, s': State, step: Step) {
    && |s.buffer| > 0
    && step.t < |s.threads|
    && var pc := s.threads[step.t];
       match step
       case TakeTicket(t) =>
         pc.Idle? && s' == s.(head := s.head + 1, threads := s.threads[t := Spinning(s.head)])
       case ReadSlot(t) =>
         pc.Spinning? &&
         s' == if Matches(s, pc.ticket)
               then s.(threads := s.threads[t := Holding(pc.ticket)], acquired := s.acquired + [pc.ticket])
               else s
       case LoadHead(t) =>
         pc.Idle? && s' == s.(threads := s.threads[t := TryHead(s.head)])
       case CheckSlot(t) =>
         pc.TryHead? &&
         s' == s.(threads := s.threads[t := if Matches(s, pc.ticket) then TrySlot(pc.ticket) else Idle])
       case CompareExchange(t) =>
         pc.TrySlot? &&
         s' == if s.head == pc.ticket
               then s.(head := s.head + 1, threads := s.threads[t := Holding(pc.ticket)],
                       acquired := s.acquired + [pc.ticket])
               else s.(threads := s.threads[t := Idle])
       case Advance(t) =>
         pc.Holding? && s' == s.(next := s.next + 1, threads := s.threads[t := Releasing(pc.ticket)])
       case Publish(t) =>
         pc.Releasing? &&
         s' == s.(buffer := s.buffer[SlotOf(s.next, |s.buffer|) := s.next], served := s.next,
                  threads := s.threads[t := Idle])
  }

  predicate Inside(pc: Pc) {
    pc.Holding? || pc.Releasing?
  }

  /** The thread has drawn a ticket that it has not given back. */
  predicate Owns(pc: Pc) {
    pc.Spinning? || Inside(pc)
  }

  ghost predicate Held(s: State) {
    exists t :: 0 <= t < |s.threads| && Inside(s.threads[t])
  }

  ghost predicate ThreadOk(s: State, pc: Pc) {
    match pc
    case Idle => true
    case Spinning(k) => s.served <= k < s.head
    case TryHead(h) => h <= s.head
    case TrySlot(h) => h <= s.served
    case Holding(k) => k == s.served < s.head && s.next == s.served
    case Releasing(k) => k == s.served < s.head && s.next == s.served + 1
  }

  ghost predicate Inv(s: State) {
    && |s.buffer| > 0
    && s.served <= s.head
    // A slot shows ticket k exactly while k is among the last Size values stored.
    && (forall k: nat :: Matches(s, k) <==> k <= s.served < k + |s.buffer|)
    && (forall t :: 0 <= t < |s.threads| ==> ThreadOk(s, s.threads[t]))
    && (forall t, u :: 0 <= t < u < |s.threads| && Owns(s.threads[t]) && Owns(s.threads[u])
          ==> s.threads[t].ticket != s.threads[u].ticket)
    // Every ticket not yet served belongs to some thread: no ticket is lost.
    && (forall k :: s.served <= k < s.head ==> HasOwner(s, k))
    && |s.acquired| == s.served + (if Held(s) then 1 else 0)
    && (forall i :: 0 <= i < |s.acquired| ==> s.acquired[i] == i)
    && (!Held(s) ==> s.next == s.served)
  }

  ghost predicate HasOwner(s: State, k: int) {
    exists t :: 0 <= t < |s.threads| && Owns(s.threads[t]) && s.threads[t].ticket == k
  }

  lemma SlotOfNear(k: nat, v: nat, size: nat)
    requires size > 0 && k <= v < k + size
    ensures SlotOf(k, size) == SlotOf(v, size) <==> k == v
  {
    if SlotOf(k, size) == SlotOf(v, size) {
      Arith.ModNear(k, v, size);
    }
  }

  /** Storing the next value keeps the slot characterisation. */
  lemma PublishedSlots(s: State, s': State)
    requires Inv(s)
    requires s'.served == s.served + 1
    requires s'.buffer == s.buffer[SlotOf(s'.served, |s.buffer|) := s'.served]
    ensures forall k: nat :: Matches(s', k) <==> k <= s'.served < k + |s.buffer|
  {
    var size, v := |s.buffer|, s'.served;
    forall k: nat ensures Matches(s', k) <==> k <= v < k + size {
      assert Matches(s, k) <==> k <= s.served < k + size;
      if k <= v < k + size {
        SlotOfNear(k, v, size);
      } else if v == k + size {
        Arith.ModShift(k, size);
      }
    }
  }

  lemma InitInv(s: State)
    requires Init(s)
    ensures Inv(s)
  {
    forall k: nat ensures Matches(s, k) <==> k <= s.served < k + |s.buffer| {
      assert s.buffer[SlotOf(k, |s.buffer|)] == 0;
    }
  }

  /** Whoever can enter finds the lock free: its ticket is the one being served. */
  lemma EntrantIsServed(s: State, t: nat)
    requires Inv(s) && t < |s.threads|
    requires s.threads[t].Spinning? && Matches(s, s.threads[t].ticket)
    ensures s.threads[t].ticket == s.served && !Held(s)
  {
    assert ThreadOk(s, s.threads[t]);
    forall u | 0 <= u < |s.threads| ensures !Inside(s.threads[u]) {
      assert ThreadOk(s, s.threads[u]);
    }
  }

  /** A compare-exchange that succeeds finds the lock free, however old the reads of
      head and slot before it are. */
  lemma StaleTryLockIsExclusive(s: State, t: nat)
    requires Inv(s) && t < |s.threads|
    requires s.threads[t].TrySlot? && s.head == s.threads[t].ticket
    ensures s.head == s.served && !Held(s)
  {
    assert ThreadOk(s, s.threads[t]);
    forall u | 0 <= u < |s.threads| ensures !Inside(s.threads[u]) {
      assert ThreadOk(s, s.threads[u]);
    }
  }

  lemma OnlyOneInside(s: State, t: nat, u: nat)
    requires Inv(s) && t < |s.threads| && u < |s.threads| && t != u
    requires Inside(s.threads[t])
    ensures !Inside(s.threads[u])
  {
    assert ThreadOk(s, s.threads[t]) && ThreadOk(s, s.threads[u]);
  }

  /** Ownership of tickets is carried over a step that changes only thread t. */
  lemma KeepOwners(s: State, s': State, t: nat)
    requires Inv(s) && t < |s.threads|
    requires s'.served >= s.served && s.head <= s'.head <= s.head + 1
    requires |s'.threads| == |s.threads|
    requires forall u :: 0 <= u < |s.threads| && u != t ==> s'.threads[u] == s.threads[u]
    requires Owns(s.threads[t]) ==>
               s'.served > s.threads[t].ticket ||
               (Owns(s'.threads[t]) && s'.threads[t].ticket == s.threads[t].ticket)
    requires s'.head > s.head ==> Owns(s'.threads[t]) && s'.threads[t].ticket == s.head
    ensures forall k :: s'.served <= k < s'.head ==> HasOwner(s', k)
  {
    forall k | s'.served <= k < s'.head ensures HasOwner(s', k) {
      if k < s.head {
        assert HasOwner(s, k);
        var u :| 0 <= u < |s.threads| && Owns(s.threads[u]) && s.threads[u].ticket == k;
        assert Owns(s'.threads[u]) && s'.threads[u].ticket == k;
      } else {
        assert Owns(s'.threads[t]);
      }
    }
  }

  lemma NextInv(s: State, s': State, step: Step)
    requires Inv(s) && Next(s, s', step)
    ensures Inv(s')
  {
    var t := step.t;
    var pc := s.threads[t];
    assert ThreadOk(s, pc);
    match step {
      case TakeTicket(_) =>
        TicketTaken(s, s', t);
      case ReadSlot(_) =>
        if Matches(s, pc.ticket) {
          EntrantIsServed(s, t);
          Entered(s, s', t, pc.ticket);
        }
      case CompareExchange(_) =>
        if s.head == pc.ticket {
          StaleTryLockIsExclusive(s, t);
          Entered(s, s', t, pc.ticket);
        } else {
          Local(s, s', t, s'.threads[t]);
        }
      case LoadHead(_) => Local(s, s', t, s'.threads[t]);
      case CheckSlot(_) => Local(s, s', t, s'.threads[t]);
      case Advance(_) => Advanced(s, s', t);
      case Publish(_) => Published(s, s', t);
    }
  }

  /** A step that only moves a thread between states that own no ticket. */
  lemma Local(s: State, s': State, t: nat, pc: Pc)
    requires Inv(s) && t < |s.threads| && !Owns(s.threads[t])
    requires !Owns(pc) && ThreadOk(s, pc) && s' == s.(threads := s.threads[t := pc])
    ensures Inv(s')
  {
    KeepOwners(s, s', t);
    SameHeld(s, s', t);
    SameSlots(s, s');
  }

  lemma SameHeld(s: State, s': State, t: nat)
    requires t < |s.threads| == |s'.threads|
    requires forall u :: 0 <= u < |s.threads| && u != t ==> s'.threads[u] == s.threads[u]
    requires Inside(s.threads[t]) <==> Inside(s'.threads[t])
    ensures Held(s) <==> Held(s')
  {
    if Held(s) {
      var u :| 0 <= u < |s.threads| && Inside(s.threads[u]);
      assert Inside(s'.threads[u]);
    }
  }

  lemma SameSlots(s: State, s': State)
    requires Inv(s) && s'.buffer == s.buffer && s'.served == s.served
    ensures forall k: nat :: Matches(s', k) <==> k <= s'.served < k + |s'.buffer|
  {
    forall k: nat ensures Matches(s', k) <==> k <= s'.served < k + |s'.buffer| {
      assert Matches(s, k) <==> k <= s.served < k + |s.buffer|;
    }
  }

  lemma TicketTaken(s: State, s': State, t: nat)
    requires Inv(s) && Next(s, s', TakeTicket(t))
    ensures Inv(s')
  {
    KeepOwners(s, s', t);
    SameHeld(s, s', t);
    SameSlots(s, s');
    forall u | 0 <= u < |s'.threads| ensures ThreadOk(s', s'.threads[u]) {
      assert ThreadOk(s, s.threads[u]);
    }
  }

  lemma Entered(s: State, s': State, t: nat, k: nat)
    requires Inv(s) && t < |s.threads| && !Held(s) && k == s.served
    requires || (s.threads[t] == Spinning(k) && s'.head == s.head)
             || (s.threads[t] == TrySlot(k) && s.head == k && s'.head == k + 1)
    requires s' == s.(head := s'.head, threads := s.threads[t := Holding(k)], acquired := s.acquired + [k])
    ensures Inv(s')
  {
    KeepOwners(s, s', t);
    SameSlots(s, s');
    assert Inside(s'.threads[t]);
    forall u | 0 <= u < |s'.threads| ensures ThreadOk(s', s'.threads[u]) {
      assert ThreadOk(s, s.threads[u]);
      assert !Inside(s.threads[u]);
    }
  }

  lemma Advanced(s: State, s': State, t: nat)
    requires Inv(s) && Next(s, s', Advance(t))
    ensures Inv(s')
  {
    KeepOwners(s, s', t);
    SameHeld(s, s', t);
    SameSlots(s, s');
    forall u | 0 <= u < |s'.threads| ensures ThreadOk(s', s'.threads[u]) {
      assert ThreadOk(s, s.threads[u]);
      if u != t {
        OnlyOneInside(s, t, u);
      }
    }
    assert Inside(s'.threads[t]);
  }

  lemma Published(s: State, s': State, t: nat)
    requires Inv(s) && Next(s, s', Publish(t))
    ensures Inv(s')
  {
    assert ThreadOk(s, s.threads[t]);
    PublishedSlots(s, s');
    KeepOwners(s, s', t);
    forall u | 0 <= u < |s'.threads|
      ensures ThreadOk(s', s'.threads[u]) && !Inside(s'.threads[u])
    {
      assert ThreadOk(s, s.threads[u]);
      if u != t {
        OnlyOneInside(s, t, u);
      }
    }
    assert Inside(s.threads[t]);
    assert !Held(s');
  }

  // ------------------------------------------------------------------ whole runs

  ghost predicate IsRun(states: seq<State>, steps: seq<Step>) {
    && |states| == |steps| + 1
    && Init(states[0])
    && (forall i :: 0 <= i < |steps| ==> Next(states[i], states[i + 1], steps[i]))
  }

  lemma {:induction false} RunInv(states: seq<State>, steps: seq<Step>, i: nat)
    requires IsRun(states, steps) && i < |states|
    ensures Inv(states[i])
  {
    if i == 0 {
      InitInv(states[0]);
    } else {
      RunInv(states, steps, i - 1);
      NextInv(states[i - 1], states[i], steps[i - 1]);
    }
  }

  /** In every state of every run at most one thread is inside, and the tickets have
      been acquired in the order 0, 1, 2, ... in which they were drawn. */
  lemma MutualExclusionInTicketOrder(states: seq<State>, steps: seq<Step>, i: nat)
    requires IsRun(states, steps) && i < |states|
    ensures forall t, u :: 0 <= t < u < |states[i].threads| && Inside(states[i].threads[t])
              ==> !Inside(states[i].threads[u])
    ensures forall j :: 0 <= j < |states[i].acquired| ==> states[i].acquired[j] == j
  {
    RunInv(states, steps, i);
    var s := states[i];
    forall t, u | 0 <= t < u < |s.threads| && Inside(s.threads[t]) ensures !Inside(s.threads[u]) {
      OnlyOneInside(s, t, u);
    }
  }

  ghost predicate AloneInside(s: State, t: nat) {
    t < |s.threads| && Inside(s.threads[t]) && forall u :: 0 <= u < |s.threads| && u != t ==> !Inside(s.threads[u])
  }

  /** In every run a compare-exchange that succeeds finds the lock free, and its thread is
      then the only one inside, however long ago it read head and slot. */
  lemma TryLockIsExclusive(states: seq<State>, steps: seq<Step>, i: nat)
    requires IsRun(states, steps) && i < |steps| && steps[i].CompareExchange?
    requires Next(states[i], states[i + 1], steps[i]) && states[i + 1].threads[steps[i].t].Holding?
    ensures !Held(states[i]) && states[i].head == states[i].served
    ensures AloneInside(states[i + 1], steps[i].t)
  {
    RunInv(states, steps, i);
    RunInv(states, steps, i + 1);
    StaleTryLockIsExclusive(states[i], steps[i].t);
    var s', t := states[i + 1], steps[i].t;
    forall u | 0 <= u < |s'.threads| && u != t ensures !Inside(s'.threads[u]) {
      OnlyOneInside(s', t, u);
    }
  }

  lemma FreeIffNoTickets(s: State)
    requires Inv(s)
    ensures s.head == s.served <==> forall u :: 0 <= u < |s.threads| ==> !Owns(s.threads[u])
    ensures Matches(s, s.head) <==> s.head == s.served
  {
    if s.head == s.served {
      forall u | 0 <= u < |s.threads| ensures !Owns(s.threads[u]) {
        assert ThreadOk(s, s.threads[u]);
      }
    } else {
      assert HasOwner(s, s.served);
    }
  }

  /** A try_lock that no other thread disturbs gets the lock if and only if nobody holds it or
      waits for it. */
  lemma TryLockSucceedsIffFree(states: seq<State>, steps: seq<Step>, i: nat, t: nat)
    requires IsRun(states, steps) && i + 2 < |states| && steps[i] == LoadHead(t) && steps[i + 1] == CheckSlot(t)
    ensures t < |states[i].threads| == |states[i + 2].threads|
    ensures states[i + 2].threads[t].Idle? || (i + 2 < |steps| && steps[i + 2] == CompareExchange(t) ==> states[i + 3].threads[t].Holding?)
    ensures states[i + 2].threads[t].Idle? <==> exists u :: 0 <= u < |states[i].threads| && Owns(states[i].threads[u])
  {
    RunInv(states, steps, i);
    assert Next(states[i], states[i + 1], steps[i]);
    var j := i + 1;
    assert Next(states[j], states[j + 1], steps[j]);
    FreeIffNoTickets(states[i]);
    if i + 2 < |steps| {
      var k := i + 2;
      assert Next(states[k], states[k + 1], steps[k]);
    }
  }

  lemma HandOverStep(s: State, s': State, step: Step, t: nat)
    requires Inv(s) && Next(s, s', step) && t < |s.threads| && step.t != t
    requires s.threads[t].Spinning? && Matches(s, s.threads[t].ticket)
    ensures |s'.buffer| == |s.buffer| && t < |s'.threads| && s'.threads[t] == s.threads[t]
    ensures Matches(s', s.threads[t].ticket)
  {
    EntrantIsServed(s, t);
    assert !Inside(s.threads[step.t]);
  }

  /** Once the slot of a waiting thread shows its ticket, it does so until that thread reads
      it: the hand-over is never lost, even when threads outnumber slots. */
  lemma {:induction false} HandOverIsKept(states: seq<State>, steps: seq<Step>, i: nat, j: nat, t: nat)
    requires IsRun(states, steps) && i <= j < |states| && t < |states[i].threads| && |states[i].buffer| > 0
    requires states[i].threads[t].Spinning? && Matches(states[i], states[i].threads[t].ticket)
    requires forall k :: i <= k < j ==> steps[k].t != t
    ensures |states[j].buffer| > 0 && t < |states[j].threads| && states[j].threads[t] == states[i].threads[t]
    ensures Matches(states[j], states[i].threads[t].ticket)
    decreases j
  {
    if i < j {
      HandOverIsKept(states, steps, i, j - 1, t);
      RunInv(states, steps, j - 1);
      HandOverStep(states[j - 1], states[j], steps[j - 1], t);
    }
  }

  /** Whenever the lock is free and tickets are out, the thread with the next ticket
      waits on a slot that already matches, so its next read enters. */
  lemma NextTicketCanEnter(states: seq<State>, steps: seq<Step>, i: nat) returns (t: nat)
    requires IsRun(states, steps) && i < |states| && !Held(states[i]) && states[i].served < states[i].head
    ensures var s := states[i];
            && t < |s.threads| && s.threads[t] == Spinning(s.served)
            && Next(s, s.(threads := s.threads[t := Holding(s.served)], acquired := s.acquired + [s.served]), ReadSlot(t))
  {
    RunInv(states, steps, i);
    var s := states[i];
    assert HasOwner(s, s.served) && Matches(s, s.served);
    t :| 0 <= t < |s.threads| && Owns(s.threads[t]) && s.threads[t].ticket == s.served;
    assert !Inside(s.threads[t]);
  }

  ghost predicate CanMake(s: State, step: Step) {
    exists s' :: Next(s, s', step)
  }

  /** In every state of every run every thread can go on: an idle one may lock or try to, one
      inside may unlock, and the others do their next access. */
  lemma ThreadsCanGoOn(states: seq<State>, steps: seq<Step>, i: nat, t: nat)
    requires IsRun(states, steps) && i < |states| && t < |states[i].threads|
    ensures match states[i].threads[t]
            case Idle => CanMake(states[i], TakeTicket(t)) && CanMake(states[i], LoadHead(t))
            case Spinning(_) => CanMake(states[i], ReadSlot(t))
            case TryHead(_) => CanMake(states[i], CheckSlot(t))
            case TrySlot(_) => CanMake(states[i], CompareExchange(t))
            case Holding(_) => CanMake(states[i], Advance(t))
            case Releasing(_) => CanMake(states[i], Publish(t))
  {
    RunInv(states, steps, i);
    var s := states[i];
    match s.threads[t] {
      case Idle =>
        assert Next(s, s.(head := s.head + 1, threads := s.threads[t := Spinning(s.head)]), TakeTicket(t));
        assert Next(s, s.(threads := s.threads[t := TryHead(s.head)]), LoadHead(t));
      case Spinning(k) =>
        var entered := s.(threads := s.threads[t := Holding(k)], acquired := s.acquired + [k]);
        assert Next(s, if Matches(s, k) then entered else s, ReadSlot(t));
      case TryHead(k) =>
        assert Next(s, s.(threads := s.threads[t := if Matches(s, k) then TrySlot(k) else Idle]), CheckSlot(t));
      case TrySlot(k) =>
        var entered := s.(head := s.head + 1, threads := s.threads[t := Holding(k)], acquired := s.acquired + [k]);
        assert Next(s, if s.head == k then entered else s.(threads := s.threads[t := Idle]), CompareExchange(t));
      case Holding(k) =>
        assert Next(s, s.(next := s.next + 1, threads := s.threads[t := Releasing(k)]), Advance(t));
      case Releasing(k) =>
        var b := s.buffer[SlotOf(s.next, |s.buffer|) := s.next];
        assert Next(s, s.(buffer := b, served := s.next, threads := s.threads[t := Idle]), Publish(t));
    }
  }
}
