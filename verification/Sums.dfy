/** Sums over the per-queue counters, in index order and in cyclic order. */
module Sums {
  import Ring

  function Sum(s: seq<nat>): nat {
    if s == [] then 0 else Sum(s[..|s| - 1]) + s[|s| - 1]
  }

  lemma {:induction false} SumUpdate(s: seq<nat>, i: nat, x: nat)
    requires i < |s|
    ensures Sum(s[i := x]) + s[i] == Sum(s) + x
  {
    var t, m := s[i := x], |s| - 1;
    if i == m {
      assert t[..m] == s[..m];
    } else {
      assert t[..m] == s[..m][i := x];
      SumUpdate(s[..m], i, x);
    }
  }

  lemma {:induction false} SumConcat(a: seq<nat>, b: seq<nat>)
    ensures Sum(a + b) == Sum(a) + Sum(b)
  {
    if b == [] {
      assert a + b == a;
    } else {
      SumConcat(a, b[..|b| - 1]);
      assert (a + b)[..|a + b| - 1] == a + b[..|b| - 1];
    }
  }

  lemma {:induction false} SumPositive(s: seq<nat>) returns (i: nat)
    requires Sum(s) > 0
    ensures i < |s| && s[i] > 0
  {
    i := |s| - 1;
    if s[i] == 0 {
      i := SumPositive(s[..|s| - 1]);
    }
  }

  lemma {:induction false} SumAtMost(s: seq<nat>, t: seq<nat>)
    requires |s| == |t| && forall i :: 0 <= i < |s| ==> s[i] <= t[i]
    ensures Sum(s) <= Sum(t)
  {
    if s != [] {
      SumAtMost(s[..|s| - 1], t[..|t| - 1]);
    }
  }

  lemma {:induction false} SumDifference(s: seq<nat>, t: seq<nat>, d: seq<nat>)
    requires |s| == |t| == |d| && forall i :: 0 <= i < |s| ==> s[i] == t[i] + d[i]
    ensures Sum(s) == Sum(t) + Sum(d)
  {
    if s != [] {
      var m := |s| - 1;
      SumDifference(s[..m], t[..m], d[..m]);
    }
  }

  /** The sum of the entries still to be met, after j steps of a cyclic walk from q0. */
  function CyclicRest(s: seq<nat>, q0: nat, j: nat): nat
    requires q0 < |s| && j <= |s|
    decreases |s| - j
  {
    if j == |s| then 0 else s[Ring.Slot(q0, j, |s|)] + CyclicRest(s, q0, j + 1)
  }

  lemma {:induction false} SumFirst(s: seq<nat>)
    requires s != []
    ensures Sum(s) == s[0] + Sum(s[1..])
  {
    SumConcat(s[..1], s[1..]);
    assert s == s[..1] + s[1..] && s[..1] == [s[0]];
    assert Sum([s[0]]) == s[0];
  }

  lemma {:induction false} CyclicRestSplits(s: seq<nat>, q0: nat, j: nat)
    requires q0 < |s| && j <= |s|
    ensures CyclicRest(s, q0, j) ==
            if q0 + j < |s| then Sum(s[q0 + j..]) + Sum(s[..q0]) else Sum(s[q0 + j - |s|..q0])
    decreases |s| - j
  {
    if j < |s| {
      CyclicRestSplits(s, q0, j + 1);
      if q0 + j < |s| {
        SumFirst(s[q0 + j..]);
        assert s[q0 + j..][1..] == s[q0 + j + 1..];
        assert s[0..q0] == s[..q0];
      } else {
        var r := q0 + j - |s|;
        SumFirst(s[r..q0]);
        assert s[r..q0][1..] == s[r + 1..q0];
      }
    }
  }

  /** A full turn meets every entry once, wherever it starts. */
  lemma FullTurn(s: seq<nat>, q0: nat)
    requires q0 < |s|
    ensures CyclicRest(s, q0, 0) == Sum(s)
  {
    CyclicRestSplits(s, q0, 0);
    SumConcat(s[..q0], s[q0..]);
    assert s[..q0] + s[q0..] == s;
  }
}
