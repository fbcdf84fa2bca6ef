/**
  The object allocator of src/common/Allocator.hpp: a central queue and one small stack
  per CPU. Objects are the numbers below the capacity. Calls run one at a time.
 */
module Allocator {
  import opened Basics

  const BATCH_SIZE: nat := 64

  /** src/common/util/FixedSizeStack.hpp, with the capacity that the allocator uses. */
  class FixedSizeStack {
    const elems: array<nat>
    var size: nat

    ghost predicate Valid()
      reads this
    {
      elems.Length == BATCH_SIZE && size <= BATCH_SIZE
    }

    ghost function Contents(): (s: seq<nat>)
      requires Valid()
      reads this, elems
    {
      elems[..size]
    }

    constructor ()
      ensures Valid() && Contents() == [] && fresh(elems)
    {
      elems := new nat[BATCH_SIZE];
      size := 0;
    }

    method Push(objects: seq<nat>)
      requires Valid() && size + |objects| <= BATCH_SIZE
      modifies this`size, elems
      ensures Valid() && Contents() == old(Contents()) + objects
    {
      for i := 0 to |objects|
        invariant size == old(size)
        invariant elems[..size + i] == old(elems[..size]) + objects[..i]
      {
        elems[size + i] := objects[i];
      }
      size := size + |objects|;
    }

    method Pop() returns (element: Option<nat>)
      requires Valid()
      modifies this`size
      ensures Valid()
      ensures old(Contents()) == [] ==> element == None && Contents() == []
      ensures old(Contents()) != [] ==> element.Some? && old(Contents()) == Contents() + [element.value]
    {
      if size == 0 {
        return None;
      }
      size := size - 1;
      element := Some(elems[size]);
    }
  }

  // ------------------------------------------------------------------ conservation

  ghost function Objects(capacity: nat): set<nat> {
    if capacity == 0 then {} else Objects(capacity - 1) + {capacity - 1}
  }

  lemma {:induction false} ObjectsBelow(capacity: nat)
    ensures |Objects(capacity)| == capacity && forall o: nat :: o in Objects(capacity) <==> o < capacity
  {
    if capacity > 0 {
      ObjectsBelow(capacity - 1);
    }
  }

  /** All the objects in the caches, with multiplicity. */
  ghost function Cached(stacks: seq<seq<nat>>): multiset<nat> {
    if stacks == [] then multiset{}
    else Cached(stacks[..|stacks| - 1]) + multiset(stacks[|stacks| - 1])
  }

  lemma Regroup(a: multiset<nat>, b: multiset<nat>, x: multiset<nat>, y: multiset<nat>, z: multiset<nat>)
    requires a + x == b + y
    ensures a + z + x == b + z + y
  {
    assert a + z + x == (a + x) + z;
    assert b + z + y == (b + y) + z;
  }

  lemma {:induction false} CachedUpdate(stacks: seq<seq<nat>>, i: nat, s: seq<nat>)
    requires i < |stacks|
    ensures Cached(stacks[i := s]) + multiset(stacks[i]) == Cached(stacks) + multiset(s)
  {
    var m := |stacks| - 1;
    if i == m {
      assert stacks[i := s][..m] == stacks[..m];
    } else {
      assert stacks[i := s][..m] == stacks[..m][i := s];
      CachedUpdate(stacks[..m], i, s);
      Regroup(Cached(stacks[..m][i := s]), Cached(stacks[..m]), multiset(stacks[i]), multiset(s), multiset(stacks[m]));
    }
  }

  lemma {:induction false} CachedSize(stacks: seq<seq<nat>>, empty: nat)
    requires forall i :: 0 <= i < |stacks| ==> |stacks[i]| <= BATCH_SIZE - 1
    requires empty < |stacks| ==> stacks[empty] == []
    ensures |Cached(stacks)| <= (BATCH_SIZE - 1) * (if empty < |stacks| then |stacks| - 1 else |stacks|)
  {
    if stacks != [] {
      CachedSize(stacks[..|stacks| - 1], empty);
    }
  }

  /** Every object is in exactly one place: the central queue, one cache or in use. */
  ghost predicate Conserved(capacity: nat, central: seq<nat>, stacks: seq<seq<nat>>, live: set<nat>) {
    && multiset(central) + Cached(stacks) + multiset(live) == multiset(Objects(capacity))
    && forall i :: 0 <= i < |stacks| ==> |stacks[i]| <= BATCH_SIZE - 1
  }

  lemma ConservedSize(capacity: nat, central: seq<nat>, stacks: seq<seq<nat>>, live: set<nat>)
    requires Conserved(capacity, central, stacks, live)
    ensures |central| + |Cached(stacks)| + |live| == capacity
  {
    ObjectsBelow(capacity);
    assert |multiset(central) + Cached(stacks) + multiset(live)| == |central| + |Cached(stacks)| + |live|;
  }

  /** What failing to find an object means: the caches of the other CPUs can hide at most
      63 objects each, so all the rest is in use. */
  lemma ExhaustedMeansInUse(capacity: nat, stacks: seq<seq<nat>>, live: set<nat>, cpu: nat)
    requires Conserved(capacity, [], stacks, live) && cpu < |stacks| && stacks[cpu] == []
    ensures |live| >= capacity - (BATCH_SIZE - 1) * (|stacks| - 1)
  {
    ConservedSize(capacity, [], stacks, live);
    CachedSize(stacks, cpu);
  }

  lemma InOnePlace(capacity: nat, central: seq<nat>, stacks: seq<seq<nat>>, live: set<nat>, o: nat)
    requires Conserved(capacity, central, stacks, live)
    ensures multiset(central)[o] + Cached(stacks)[o] + (if o in live then 1 else 0) == if o < capacity then 1 else 0
  {
    ObjectsBelow(capacity);
    var all := multiset(central) + Cached(stacks) + multiset(live);
    assert all[o] == multiset(Objects(capacity))[o];
  }

  lemma CachedHas(stacks: seq<seq<nat>>, i: nat, o: nat)
    requires i < |stacks| && o in stacks[i]
    ensures o in Cached(stacks)
  {
    CachedUpdate(stacks, i, []);
    assert o in multiset(stacks[i]);
    assert (Cached(stacks[i := []]) + multiset(stacks[i]))[o] > 0;
    assert Cached(stacks) + multiset([]) == Cached(stacks);
  }

  class ObjAllocator {
    const capacity: nat
    const caches: seq<FixedSizeStack>
    var central: seq<nat>
    ghost var stacks: seq<seq<nat>>
    ghost var live: set<nat>

    ghost predicate Shape()
      reads this, caches, set c | c in caches :: c.elems
    {
      && |caches| == |stacks| > 0
      && (forall i, j :: 0 <= i < j < |caches| ==> caches[i] != caches[j] && caches[i].elems != caches[j].elems)
      && (forall i :: 0 <= i < |caches| ==> caches[i].Valid() && stacks[i] == caches[i].Contents())
    }

    ghost predicate Valid()
      reads this, caches, set c | c in caches :: c.elems
    {
      Shape() && Conserved(capacity, central, stacks, live)
    }

    /** Every object starts in the central queue; the caches start empty. */
    constructor (capacity: nat, caches: seq<FixedSizeStack>)
      requires |caches| > 0
      requires forall i, j :: 0 <= i < j < |caches| ==> caches[i] != caches[j] && caches[i].elems != caches[j].elems
      requires forall i :: 0 <= i < |caches| ==> caches[i].Valid() && caches[i].size == 0
      ensures Valid() && this.capacity == capacity && this.caches == caches && live == {}
      ensures multiset(central) == multiset(Objects(capacity)) && |central| == capacity
    {
      this.capacity, this.caches, live := capacity, caches, {};
      stacks := seq(|caches|, _ => []);
      central := [];
      new;
      for o := 0 to capacity
        invariant Shape() && live == {} && multiset(central) == multiset(Objects(o)) && |central| == o
        invariant forall i :: 0 <= i < |stacks| ==> stacks[i] == []
      {
        ObjectsBelow(o);
        central := central + [o];
      }
      AllEmpty(stacks);
    }

    /** Takes an object for the given CPU from its cache, or refills the cache from the
        central queue; None is the abort when both are empty. */
    method Alloc(cpu: nat) returns (taken: Option<nat>)
      requires Valid() && cpu < |caches|
      modifies this, caches[cpu], caches[cpu].elems
      ensures Valid()
      ensures taken.Some? ==> taken.value < capacity && taken.value !in old(live) && live == old(live) + {taken.value}
      ensures taken.None? ==> live == old(live) && |live| >= capacity - (BATCH_SIZE - 1) * (|caches| - 1)
      ensures taken.None? <==> old(stacks)[cpu] == [] && old(central) == []
      ensures old(stacks)[cpu] != [] ==>
                old(stacks) == stacks[cpu := stacks[cpu] + [taken.value]] && central == old(central)
      ensures old(stacks)[cpu] == [] && taken.Some? ==>
                && old(central) == [taken.value] + stacks[cpu] + central && stacks == old(stacks)[cpu := stacks[cpu]]
                && |stacks[cpu]| == Min(|old(central)|, BATCH_SIZE) - 1
    {
      taken := caches[cpu].Pop();
      if taken.Some? {
        TookCached(capacity, central, stacks, live, cpu, caches[cpu].Contents(), taken.value);
        stacks := stacks[cpu := caches[cpu].Contents()];
        live := live + {taken.value};
      } else {
        taken := Refill(cpu);
      }
    }

    method Refill(cpu: nat) returns (taken: Option<nat>)
      requires Valid() && cpu < |caches| && stacks[cpu] == []
      modifies this, caches[cpu], caches[cpu].elems
      ensures Valid()
      ensures taken.Some? ==> taken.value < capacity && taken.value !in old(live) && live == old(live) + {taken.value}
      ensures taken.None? ==> live == old(live) && |live| >= capacity - (BATCH_SIZE - 1) * (|caches| - 1)
      ensures taken.None? <==> old(central) == []
      ensures taken.Some? ==>
                && old(central) == [taken.value] + stacks[cpu] + central && stacks == old(stacks)[cpu := stacks[cpu]]
                && |stacks[cpu]| == Min(|old(central)|, BATCH_SIZE) - 1
    {
      var n := Min(|central|, BATCH_SIZE);
      if n == 0 {
        ExhaustedMeansInUse(capacity, stacks, live, cpu);
        return None;
      }
      var first := TakeBatch(cpu, n);
      return Some(first);
    }

    /** The first n objects leave the central queue: one for use, the others for the cache. */
    method TakeBatch(cpu: nat, n: nat) returns (taken: nat)
      requires Valid() && cpu < |caches| && stacks[cpu] == [] && 0 < n <= |central| && n <= BATCH_SIZE
      modifies this, caches[cpu], caches[cpu].elems
      ensures Valid() && taken < capacity && taken !in old(live) && live == old(live) + {taken}
      ensures old(central) == [taken] + stacks[cpu] + central && |stacks[cpu]| == n - 1
      ensures stacks == old(stacks)[cpu := stacks[cpu]]
    {
      Refilled(capacity, central, stacks, live, cpu, n);
      ghost var was, before := central, stacks;
      var objects := central[..n];
      FillCache(cpu, objects[1..]);
      central := central[n..];
      stacks := before[cpu := objects[1..]];
      live := live + {objects[0]};
      taken := objects[0];
      assert was == [taken] + objects[1..] + central;
    }

    method FillCache(cpu: nat, objects: seq<nat>)
      requires Shape() && cpu < |caches| && stacks[cpu] == [] && |objects| < BATCH_SIZE
      modifies caches[cpu], caches[cpu].elems
      ensures forall i :: 0 <= i < |caches| ==> caches[i].Valid()
      ensures forall i :: 0 <= i < |caches| ==> caches[i].Contents() == if i == cpu then objects else stacks[i]
    {
      if |objects| > 0 {
        caches[cpu].Push(objects);
      }
    }

    /** Gives objects in use back to the central queue, which always has room for them. */
    method Free(objects: seq<nat>)
      requires Valid()
      requires forall i, j :: 0 <= i < j < |objects| ==> objects[i] != objects[j]
      requires forall i :: 0 <= i < |objects| ==> objects[i] in live
      modifies this
      ensures Valid() && |central| <= capacity
      ensures central == old(central) + objects && stacks == old(stacks)
      ensures live == old(live) - (set o | o in objects)
    {
      GaveBack(capacity, central, stacks, live, objects);
      central := central + objects;
      live := live - (set o | o in objects);
      ConservedSize(capacity, central, stacks, live);
    }
  }

  lemma {:induction false} AllEmpty(stacks: seq<seq<nat>>)
    requires forall i :: 0 <= i < |stacks| ==> stacks[i] == []
    ensures Cached(stacks) == multiset{}
  {
    if stacks != [] {
      AllEmpty(stacks[..|stacks| - 1]);
    }
  }

  /** Objects that leave a cache, or the central queue, for use keep the total. */
  lemma Moved(c: multiset<nat>, c': multiset<nat>, k: multiset<nat>, k': multiset<nat>, l: set<nat>, o: nat,
              old': multiset<nat>, new': multiset<nat>)
    requires k' + old' == k + new' && c + old' == c' + new' + multiset{o} && o !in l
    ensures c' + k' + multiset(l + {o}) == c + k + multiset(l)
  {
    assert multiset(l + {o}) == multiset(l) + multiset{o};
    forall x ensures (c' + k' + multiset(l + {o}))[x] == (c + k + multiset(l))[x] {
      assert (k' + old')[x] == (k + new')[x] && (c + old')[x] == (c' + new' + multiset{o})[x];
    }
  }

  lemma TookCached(capacity: nat, central: seq<nat>, stacks: seq<seq<nat>>, live: set<nat>, cpu: nat, rest: seq<nat>, o: nat)
    requires Conserved(capacity, central, stacks, live) && cpu < |stacks| && stacks[cpu] == rest + [o]
    ensures o < capacity && o !in live
    ensures Conserved(capacity, central, stacks[cpu := rest], live + {o})
  {
    CachedHas(stacks, cpu, o);
    InOnePlace(capacity, central, stacks, live, o);
    CachedUpdate(stacks, cpu, rest);
    var c := multiset(central);
    assert multiset(stacks[cpu]) == multiset(rest) + multiset{o};
    Moved(c, c, Cached(stacks), Cached(stacks[cpu := rest]), live, o, multiset(stacks[cpu]), multiset(rest));
  }

  lemma Refilled(capacity: nat, central: seq<nat>, stacks: seq<seq<nat>>, live: set<nat>, cpu: nat, n: nat)
    requires Conserved(capacity, central, stacks, live) && cpu < |stacks| && stacks[cpu] == []
    requires 0 < n <= |central| && n <= BATCH_SIZE
    ensures central[0] < capacity && central[0] !in live
    ensures Conserved(capacity, central[n..], stacks[cpu := central[..n][1..]], live + {central[0]})
  {
    var o, kept := central[0], central[..n][1..];
    assert o in multiset(central);
    InOnePlace(capacity, central, stacks, live, o);
    CachedUpdate(stacks, cpu, kept);
    assert central == [o] + kept + central[n..];
    Moved(multiset(central), multiset(central[n..]), Cached(stacks), Cached(stacks[cpu := kept]), live, o,
          multiset(stacks[cpu]), multiset(kept));
  }

  lemma {:induction false} DistinctMultiset(objects: seq<nat>)
    requires forall i, j :: 0 <= i < j < |objects| ==> objects[i] != objects[j]
    ensures multiset(objects) == multiset(set o | o in objects)
  {
    if objects != [] {
      var m := |objects| - 1;
      DistinctMultiset(objects[..m]);
      assert objects == objects[..m] + [objects[m]];
      assert (set o | o in objects) == (set o | o in objects[..m]) + {objects[m]};
    }
  }

  lemma GaveBack(capacity: nat, central: seq<nat>, stacks: seq<seq<nat>>, live: set<nat>, objects: seq<nat>)
    requires Conserved(capacity, central, stacks, live)
    requires forall i, j :: 0 <= i < j < |objects| ==> objects[i] != objects[j]
    requires forall i :: 0 <= i < |objects| ==> objects[i] in live
    ensures Conserved(capacity, central + objects, stacks, live - (set o | o in objects))
  {
    var gone := set o | o in objects;
    DistinctMultiset(objects);
    assert live == (live - gone) + gone;
    assert multiset(live) == multiset(live - gone) + multiset(gone);
  }
}
