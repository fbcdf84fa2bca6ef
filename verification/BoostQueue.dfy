/**
  The collective pre-queue (src/common/util/BoostLockFreeQueue.hpp): pushes under the
  producers' lock over a bounded FIFO that takes as many elements as it has room for.
 */
module BoostQueue {
  import opened Basics
  import P = Protocol

  /** Popping `out` and pushing n more elements keeps the order of all of them. */
  lemma StillInOrder<T>(start: seq<T>, elements: seq<T>, count: nat, gone: seq<T>, before: seq<T>, out: seq<T>, kept: seq<T>, n: nat)
    requires count + n <= |elements| && gone + before == start + elements[..count] && before == out + kept
    ensures (gone + out) + (kept + elements[count..][..n]) == start + elements[..count + n]
  {
    assert elements[..count + n] == elements[..count] + elements[count..][..n];
    assert (gone + out) + (kept + elements[count..][..n]) == (gone + (out + kept)) + elements[count..][..n];
  }

  class BoundedQueue<T> {
    const capacity: nat
    var elems: seq<T>

    constructor (capacity: nat)
      ensures this.capacity == capacity && elems == []
    {
      this.capacity, elems := capacity, [];
    }

    ghost predicate Valid()
      reads this
    {
      |elems| <= capacity
    }

    /** The push of the underlying queue: what fits goes in, and the number is returned. */
    method PushSome(elements: seq<T>) returns (n: nat)
      requires Valid()
      modifies this
      ensures Valid() && n == Min(|elements|, capacity - |old(elems)|) && elems == old(elems) + elements[..n]
    {
      n := Min(|elements|, capacity - |elems|);
      elems := elems + elements[..n];
    }

    method Pop(count: nat) returns (out: seq<T>)
      requires Valid()
      modifies this
      ensures Valid() && |out| == Min(count, |old(elems)|) && old(elems) == out + elems
    {
      var n := Min(count, |elems|);
      out, elems := elems[..n], elems[n..];
    }

    /** Aborts if and only if not all elements fit. */
    method PushOrFail(elements: seq<T>) returns (ok: bool)
      requires Valid()
      modifies this
      ensures Valid() && (ok <==> |old(elems)| + |elements| <= capacity)
      ensures ok ==> elems == old(elems) + elements
    {
      var n := PushSome(elements);
      ok := n == |elements|;
    }

    /** Pushes until everything is in. While it waits the i-th time the consumer pops
        pops[i] elements; the call is still spinning when `pops` ends before it does. Nothing is
        lost or reordered, and with room at the start it does not wait at all. */
    method PushCont(elements: seq<T>, pops: seq<nat>) returns (spins: nat, done: bool, ghost gone: seq<T>, ghost pushed: nat)
      requires Valid()
      modifies this
      ensures Valid() && pushed <= |elements| && gone + elems == old(elems) + elements[..pushed]
      ensures done <==> pushed == |elements|
      ensures !done ==> spins == |pops|
      ensures |old(elems)| + |elements| <= capacity ==> done && spins == 0 && gone == []
    {
      var count := PushSome(elements);
      spins, gone := 0, [];
      while count < |elements| && spins < |pops|
        invariant Valid() && count <= |elements| && spins <= |pops|
        invariant gone + elems == old(elems) + elements[..count]
        invariant |old(elems)| + |elements| <= capacity ==> count == |elements| && spins == 0 && gone == []
      {
        ghost var before := elems;
        var out := Pop(pops[spins]);
        ghost var kept := elems;
        spins := spins + 1;
        var n := PushSome(elements[count..]);
        StillInOrder(old(elems), elements, count, gone, before, out, kept, n);
        gone, count := gone + out, count + n;
      }
      done, pushed := count == |elements|, count;
    }

    /** The push of one element, in either mode. */
    method Push(element: T, fullFailure: bool, pops: seq<nat>) returns (ok: bool, spins: nat)
      requires Valid()
      modifies this
      ensures Valid()
      ensures |old(elems)| < capacity ==> ok && spins == 0 && elems == old(elems) + [element]
    {
      if fullFailure {
        ok := PushOrFail([element]);
        spins := 0;
      } else {
        ghost var gone, pushed;
        spins, ok, gone, pushed := PushCont([element], pops);
        assert ok ==> [element][..pushed] == [element];
      }
    }
  }

  /** The push of a collective operation in any state of any run of the protocol neither
      fails nor spins, in either mode, and appends the operation. */
  method PushCollective(q: BoundedQueue<P.CollOp>, x: P.CollOp, fullFailure: bool, pops: seq<nat>,
                        ghost states: seq<P.State>, ghost steps: seq<P.Step>, ghost i: nat)
    returns (ok: bool, spins: nat)
    requires P.IsRun(states, steps) && i < |states| && q.capacity == P.COLL_QUEUE_SIZE && q.elems == states[i].coll
    modifies q
    ensures ok && spins == 0 && q.elems == old(q.elems) + [x]
  {
    P.CollectiveQueueNeverFull(states, steps, i);
    ok, spins := q.Push(x, fullFailure, pops);
  }
}
