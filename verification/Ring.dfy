/**
  One single-producer single-consumer ring of src/common/util/MultiLockFreeQueue.hpp under
  interleaving. Every access to shared memory (head, tail, a slot) is a step of its own,
  and both sides keep cached, possibly stale, counters.
 */
module Ring {
  import Arith

  /** Slot k places after `base` in a ring of n slots. */
  function Slot(base: nat, k: nat, n: nat): (i: nat)
    requires base < n && k <= n
    ensures i < n
  {
    if base + k < n then base + k else base + k - n
  }

  lemma SlotIsMod(base: nat, k: nat, n: nat)
    requires base < n && k <= n
    ensures Slot(base, k, n) == (base + k) % n
  {
    Arith.ModOnce(base + k, n);
  }

  /** `getRemaining`: the number of elements between tail and head. */
  function Dist(tail: nat, head: nat, n: nat): (d: nat)
    requires tail < n && head < n
    ensures d < n && Slot(tail, d, n) == head
  {
    if tail <= head then head - tail else head - tail + n
  }

  lemma DistMoves(tail: nat, head: nat, n: nat, k: nat)
    requires tail < n && head < n && k < n
    ensures Dist(tail, head, n) + k < n ==> Dist(tail, Slot(head, k, n), n) == Dist(tail, head, n) + k
    ensures k <= Dist(tail, head, n) ==> Dist(Slot(tail, k, n), head, n) == Dist(tail, head, n) - k
  {
  }

  lemma SlotsDiffer(tail: nat, head: nat, n: nat, i: nat, k: nat)
    requires tail < n && head < n && k < Dist(tail, head, n) && Dist(tail, head, n) + i < n
    ensures Slot(head, i, n) != Slot(tail, k, n)
  {
  }

  datatype Producer<T> =
    | Ready
    | LoadedHead(head: nat)                  // getAvailable: head read, tail to come
    | Writing(elems: seq<T>, written: nat)   // unsafePush: slots being filled

  datatype Consumer<T> =
    | Ready
    | LoadedHead(head: nat)                  // getRemaining: head read, tail to come
    | Reading(count: nat, values: seq<T>)    // unsafePop: slots being copied out

  /** `pushed` and `popped` are history: every element published so far and every element
      handed to the consumer so far. */
  datatype State<T> = State(
    data: seq<T>, head: nat, tail: nat, available: nat, remaining: nat,
    producer: Producer<T>, consumer: Consumer<T>, pushed: seq<T>, popped: seq<T>)

  datatype Step<T> =
    | ProducerLoadsHead
    | ProducerLoadsTail
    | BeginPush(elems: seq<T>)
    | WriteSlot
    | PublishHead
    | ConsumerLoadsHead
    | ConsumerLoadsTail
    | BeginPop(count: nat)
    | ReadSlot
    | PublishTail

  ghost predicate Wf(s: State) {
    s.head < |s.data| && s.tail < |s.data|
  }

  ghost predicate Init(s: State) {
    && |s.data| > 0
    && s.head == 0 && s.tail == 0 && s.available == 0 && s.remaining == 0
    && s.producer == Producer.Ready && s.consumer == Consumer.Ready && s.pushed == [] && s.popped == []
  }

  ghost predicate Next<T>(s: State<T>, s': State<T>, step: Step<T>) {
    && Wf(s)
    && var n := |s.data|;
    match step
    case ProducerLoadsHead =>
      s.producer.Ready? && s.available == 0 && s' == s.(producer := Producer.LoadedHead(s.head))
    case ProducerLoadsTail =>
      && s.producer.LoadedHead? && s.producer.head < n
      && s' == s.(producer := Producer.Ready, available := n - (Dist(s.tail, s.producer.head, n) + 1))
    case BeginPush(elems) =>
      && s.producer.Ready? && 0 < |elems| <= s.available
      && s' == s.(available := s.available - |elems|, producer := Writing(elems, 0))
    case WriteSlot =>
      && s.producer.Writing? && s.producer.written < |s.producer.elems| && s.producer.written < n
      && s' == s.(data := s.data[Slot(s.head, s.producer.written, n) := s.producer.elems[s.producer.written]],
                  producer := Writing(s.producer.elems, s.producer.written + 1))
    case PublishHead =>
      && s.producer.Writing? && s.producer.written == |s.producer.elems| <= n
      && s' == s.(head := Slot(s.head, |s.producer.elems|, n), producer := Producer.Ready,
                  pushed := s.pushed + s.producer.elems)
    case ConsumerLoadsHead =>
      s.consumer.Ready? && s' == s.(consumer := Consumer.LoadedHead(s.head))
    case ConsumerLoadsTail =>
      && s.consumer.LoadedHead? && s.consumer.head < n
      && s' == s.(consumer := Consumer.Ready, remaining := Dist(s.tail, s.consumer.head, n))
    case BeginPop(count) =>
      && s.consumer.Ready? && 0 < count <= s.remaining
      && s' == s.(remaining := s.remaining - count, consumer := Reading(count, []))
    case ReadSlot =>
      && s.consumer.Reading? && |s.consumer.values| < s.consumer.count && |s.consumer.values| < n
      && s' == s.(consumer := Reading(s.consumer.count,
                                      s.consumer.values + [s.data[Slot(s.tail, |s.consumer.values|, n)]]))
    case PublishTail =>
      && s.consumer.Reading? && |s.consumer.values| == s.consumer.count <= n
      && s' == s.(tail := Slot(s.tail, s.consumer.count, n), consumer := Consumer.Ready,
                  popped := s.popped + s.consumer.values)
  }

  function Occupancy(s: State): (d: nat)
    requires Wf(s)
    ensures d < |s.data|
  {
    Dist(s.tail, s.head, |s.data|)
  }

  /** The abstract queue that the memory of the ring represents. */
  ghost function Fifo<T>(s: State<T>): (q: seq<T>)
    requires Wf(s)
    ensures |q| == Occupancy(s)
  {
    seq(Occupancy(s), k requires 0 <= k < Occupancy(s) => s.data[Slot(s.tail, k, |s.data|)])
  }

  ghost predicate ProducerOk(s: State)
    requires Wf(s)
  {
    var free := |s.data| - 1 - Occupancy(s);
    match s.producer
    case Ready => s.available <= free
    case LoadedHead(h) => s.available <= free && h == s.head
    case Writing(elems, written) =>
      && written <= |elems| && 0 < |elems| && s.available + |elems| <= free
      && (forall j :: 0 <= j < written ==> s.data[Slot(s.head, j, |s.data|)] == elems[j])
  }

  ghost predicate ConsumerOk(s: State)
    requires Wf(s)
  {
    match s.consumer
    case Ready => s.remaining <= Occupancy(s)
    case LoadedHead(h) => s.remaining <= Occupancy(s) && h < |s.data| && Dist(s.tail, h, |s.data|) <= Occupancy(s)
    case Reading(count, values) =>
      && |values| <= count && s.remaining + count <= Occupancy(s)
      && (forall j :: 0 <= j < |values| ==> values[j] == s.data[Slot(s.tail, j, |s.data|)])
  }

  ghost predicate Inv(s: State) {
    && Wf(s)
    && |s.pushed| == |s.popped| + Occupancy(s)
    && (forall j :: 0 <= j < |s.popped| ==> s.popped[j] == s.pushed[j])
    && (forall k :: 0 <= k < Occupancy(s) ==> s.data[Slot(s.tail, k, |s.data|)] == s.pushed[|s.popped| + k])
    && ProducerOk(s)
    && ConsumerOk(s)
  }

  lemma WriteInv<T>(s: State<T>, s': State<T>)
    requires Inv(s) && Next(s, s', WriteSlot)
    ensures Inv(s')
  {
    var n, w := |s.data|, s.producer.written;
    forall k | 0 <= k < Occupancy(s) ensures Slot(s.head, w, n) != Slot(s.tail, k, n) {
      SlotsDiffer(s.tail, s.head, n, w, k);
    }
  }

  lemma PublishHeadInv<T>(s: State<T>, s': State<T>)
    requires Inv(s) && Next(s, s', PublishHead)
    ensures Inv(s')
  {
    var n, elems := |s.data|, s.producer.elems;
    DistMoves(s.tail, s.head, n, |elems|);
    forall k | 0 <= k < Occupancy(s')
      ensures s'.data[Slot(s'.tail, k, n)] == s'.pushed[|s'.popped| + k]
    {
      if k >= Occupancy(s) {
        var j := k - Occupancy(s);
        assert Slot(s.tail, k, n) == Slot(s.head, j, n);
        assert s.data[Slot(s.head, j, n)] == elems[j];
      }
    }
  }

  lemma PublishTailInv<T>(s: State<T>, s': State<T>)
    requires Inv(s) && Next(s, s', PublishTail)
    ensures Inv(s')
  {
    var n, c := |s.data|, s.consumer.count;
    DistMoves(s.tail, s.head, n, c);
    forall k | 0 <= k < Occupancy(s')
      ensures s'.data[Slot(s'.tail, k, n)] == s'.pushed[|s'.popped| + k]
    {
      assert Slot(s'.tail, k, n) == Slot(s.tail, c + k, n);
    }
    forall j | 0 <= j < |s'.popped| ensures s'.popped[j] == s'.pushed[j] {
      if j >= |s.popped| {
        assert s.consumer.values[j - |s.popped|] == s.data[Slot(s.tail, j - |s.popped|, n)];
      }
    }
  }

  lemma ProducerInv<T>(s: State<T>, s': State<T>, step: Step<T>)
    requires Inv(s) && Next(s, s', step)
    requires step.ProducerLoadsHead? || step.ProducerLoadsTail? || step.BeginPush?
    ensures Inv(s')
  {
  }

  lemma ConsumerInv<T>(s: State<T>, s': State<T>, step: Step<T>)
    requires Inv(s) && Next(s, s', step)
    requires step.ConsumerLoadsHead? || step.ConsumerLoadsTail? || step.BeginPop? || step.ReadSlot?
    ensures Inv(s')
  {
    assert s'.data == s.data && s'.head == s.head && s'.tail == s.tail && s'.pushed == s.pushed && s'.popped == s.popped;
    assert Occupancy(s') == Occupancy(s) && ProducerOk(s');
    ConsumerStep(s, s', step);
  }

  lemma ConsumerStep<T>(s: State<T>, s': State<T>, step: Step<T>)
    requires Inv(s) && Next(s, s', step)
    requires step.ConsumerLoadsHead? || step.ConsumerLoadsTail? || step.BeginPop? || step.ReadSlot?
    ensures Wf(s') && ConsumerOk(s')
  {
    match step {
      case ConsumerLoadsHead =>
      case ConsumerLoadsTail =>
      case BeginPop(_) =>
      case ReadSlot =>
    }
  }

  lemma NextInv<T>(s: State<T>, s': State<T>, step: Step<T>)
    requires Inv(s) && Next(s, s', step)
    ensures Inv(s')
  {
    if step.WriteSlot? {
      WriteInv(s, s');
    } else if step.PublishHead? {
      PublishHeadInv(s, s');
    } else if step.PublishTail? {
      PublishTailInv(s, s');
    } else if step.ProducerLoadsHead? || step.ProducerLoadsTail? || step.BeginPush? {
      ProducerInv(s, s', step);
    } else {
      ConsumerInv(s, s', step);
    }
  }

  // ------------------------------------------------------------------ whole runs

  ghost predicate IsRun<T>(states: seq<State<T>>, steps: seq<Step<T>>) {
    && |states| == |steps| + 1
    && Init(states[0])
    && (forall i :: 0 <= i < |steps| ==> Next(states[i], states[i + 1], steps[i]))
  }

  lemma {:induction false} RunInv<T>(states: seq<State<T>>, steps: seq<Step<T>>, i: nat)
    requires IsRun(states, steps) && i < |states|
    ensures Inv(states[i])
  {
    if i > 0 {
      RunInv(states, steps, i - 1);
      NextInv(states[i - 1], states[i], steps[i - 1]);
    }
  }

  /** In every interleaving the ring is a queue of at most capacity - 1 elements: what was
      published is what was handed out followed by what the memory holds, in order. */
  lemma RefinesFifo<T>(states: seq<State<T>>, steps: seq<Step<T>>, i: nat)
    requires IsRun(states, steps) && i < |states|
    ensures Wf(states[i])
    ensures states[i].pushed == states[i].popped + Fifo(states[i])
    ensures |Fifo(states[i])| <= |states[i].data| - 1
  {
    RunInv(states, steps, i);
  }

  /** The cached counters never promise more than there is, however stale they are. */
  lemma CachedCountersAreSafe<T>(states: seq<State<T>>, steps: seq<Step<T>>, i: nat)
    requires IsRun(states, steps) && i < |states|
    ensures Wf(states[i])
    ensures states[i].remaining <= |Fifo(states[i])|
    ensures states[i].available <= |states[i].data| - 1 - |Fifo(states[i])|
  {
    RunInv(states, steps, i);
  }

  /** A slot that the producer is filling is none of those that the consumer may read,
      across wrap-around. */
  lemma WritesNeverMeetReads<T>(states: seq<State<T>>, steps: seq<Step<T>>, i: nat, w: nat, k: nat)
    requires IsRun(states, steps) && i < |states|
    requires states[i].producer.Writing? && w < |states[i].producer.elems|
    requires Wf(states[i]) ==> k < |Fifo(states[i])|
    ensures Wf(states[i]) && w < |states[i].data| && k < |states[i].data|
    ensures Slot(states[i].head, w, |states[i].data|) != Slot(states[i].tail, k, |states[i].data|)
  {
    RunInv(states, steps, i);
    SlotsDiffer(states[i].tail, states[i].head, |states[i].data|, w, k);
  }

  predicate OfConsumer<T>(step: Step<T>) {
    step.ConsumerLoadsHead? || step.ConsumerLoadsTail? || step.BeginPop? || step.ReadSlot? || step.PublishTail?
  }

  /** The producer's steps leave the consumer and what it has taken alone. */
  lemma {:induction false} ConsumerWaits<T>(states: seq<State<T>>, steps: seq<Step<T>>, j: nat, i: nat)
    requires IsRun(states, steps) && j <= i < |states| && forall k :: j <= k < i ==> !OfConsumer(steps[k])
    ensures states[i].consumer == states[j].consumer && states[i].tail == states[j].tail && |states[i].data| == |states[j].data|
    decreases i
  {
    if j < i {
      ConsumerWaits(states, steps, j, i - 1);
      assert Next(states[i - 1], states[i - 1 + 1], steps[i - 1]);
    }
  }

  /** A refreshed counter is exact: the producer sees all the room there is when it loads the
      tail, and the consumer all that waited when it loaded the head. */
  lemma RefreshIsExact<T>(states: seq<State<T>>, steps: seq<Step<T>>, j: nat, i: nat)
    requires IsRun(states, steps) && j < i < |steps| && forall k :: j < k < i ==> !OfConsumer(steps[k])
    ensures steps[i].ProducerLoadsTail? ==>
              states[i + 1].available == |states[i].data| - 1 - (|states[i].pushed| - |states[i].popped|)
    ensures steps[j].ConsumerLoadsHead? && steps[i].ConsumerLoadsTail? ==>
              states[i + 1].remaining == |states[j].pushed| - |states[j].popped|
  {
    RunInv(states, steps, i);
    RunInv(states, steps, j);
    assert Next(states[i], states[i + 1], steps[i]);
    assert Next(states[j], states[j + 1], steps[j]);
    ConsumerWaits(states, steps, j + 1, i);
  }

  ghost predicate CanMake<T(!new)>(s: State<T>, step: Step<T>) {
    exists s' :: Next(s, s', step)
  }

  /** The producer can always go on: it refreshes a counter that is used up, begins any push that
      the counter allows, and finishes what it has begun. */
  lemma ProducerCanGoOn<T(!new)>(states: seq<State<T>>, steps: seq<Step<T>>, i: nat, elems: seq<T>)
    requires IsRun(states, steps) && i < |states|
    ensures var s := states[i];
            match s.producer
            case Ready => (s.available == 0 ==> CanMake(s, ProducerLoadsHead)) && (0 < |elems| <= s.available ==> CanMake(s, BeginPush(elems)))
            case LoadedHead(_) => CanMake(s, ProducerLoadsTail)
            case Writing(es, written) => if written < |es| then CanMake(s, WriteSlot) else CanMake(s, PublishHead)
  {
    RunInv(states, steps, i);
    var s := states[i];
    var n := |s.data|;
    match s.producer {
      case Ready =>
        assert s.available == 0 ==> Next(s, s.(producer := Producer.LoadedHead(s.head)), ProducerLoadsHead);
        if 0 < |elems| <= s.available {
          assert Next(s, s.(available := s.available - |elems|, producer := Writing(elems, 0)), BeginPush(elems));
        }
      case LoadedHead(h) =>
        assert Next(s, s.(producer := Producer.Ready, available := n - (Dist(s.tail, h, n) + 1)), ProducerLoadsTail);
      case Writing(es, w) =>
        if w < |es| {
          assert Next(s, s.(data := s.data[Slot(s.head, w, n) := es[w]], producer := Writing(es, w + 1)), WriteSlot);
        } else {
          assert Next(s, s.(head := Slot(s.head, |es|, n), producer := Producer.Ready, pushed := s.pushed + es), PublishHead);
        }
    }
  }

  /** So can the consumer. */
  lemma ConsumerCanGoOn<T(!new)>(states: seq<State<T>>, steps: seq<Step<T>>, i: nat, count: nat)
    requires IsRun(states, steps) && i < |states|
    ensures var s := states[i];
            match s.consumer
            case Ready => CanMake(s, ConsumerLoadsHead) && (0 < count <= s.remaining ==> CanMake(s, BeginPop(count)))
            case LoadedHead(_) => CanMake(s, ConsumerLoadsTail)
            case Reading(c, values) => if |values| < c then CanMake(s, ReadSlot) else CanMake(s, PublishTail)
  {
    RunInv(states, steps, i);
    var s := states[i];
    var n := |s.data|;
    match s.consumer {
      case Ready =>
        assert Next(s, s.(consumer := Consumer.LoadedHead(s.head)), ConsumerLoadsHead);
        if 0 < count <= s.remaining {
          assert Next(s, s.(remaining := s.remaining - count, consumer := Reading(count, [])), BeginPop(count));
        }
      case LoadedHead(h) =>
        assert Next(s, s.(consumer := Consumer.Ready, remaining := Dist(s.tail, h, n)), ConsumerLoadsTail);
      case Reading(c, vs) =>
        if |vs| < c {
          assert Next(s, s.(consumer := Reading(c, vs + [s.data[Slot(s.tail, |vs|, n)]])), ReadSlot);
        } else {
          assert Next(s, s.(tail := Slot(s.tail, c, n), consumer := Consumer.Ready, popped := s.popped + vs), PublishTail);
        }
    }
  }
}
