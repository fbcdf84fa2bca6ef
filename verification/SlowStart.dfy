/**
  The slow-start controller of the polling period
  (src/common/polling/SlowStartPollingPeriodCtrl.hpp), over real numbers.
 */
module SlowStart {

  const TOLERANCE: int := 50
  const PENALTY: real := 2.0
  const MIN_BASE: real := 10.0

  function Min(a: real, b: real): real { if a <= b then a else b }
  function Max(a: real, b: real): real { if a >= b then a else b }

  datatype Period = Period(min: real, max: real, period: real, factor: real, misses: int)

  /** The limits that PollingPeriodCtrl checks before it builds this controller. */
  ghost predicate Limits(p: Period) {
    0.0 <= p.min <= p.max && 0.0 < p.max
  }

  /** What `run` asserts before it returns, and what it returns after truncation. */
  ghost predicate Asserted(p: Period) {
    1.5 <= p.factor <= 2.0 && p.min <= p.period <= p.max
  }

  function Initial(min: nat, max: nat): Period {
    Period(min as real, max as real, max as real, 2.0, 0)
  }

  function Penalized(p: Period): Period
    requires p.max != 0.0
  {
    var period := Max(Min(p.period * PENALTY, p.max), MIN_BASE);
    p.(period := period, factor := (1.5 * p.max + 0.5 * period) / p.max, misses := 0)
  }

  function Next(p: Period, hit: bool): Period
    requires p.max != 0.0 && p.factor != 0.0
  {
    if hit then p.(period := Max(p.period / p.factor, p.min), misses := 0)
    else if p.misses + 1 < TOLERANCE then p.(misses := p.misses + 1)
    else Penalized(p)
  }

  class Controller {
    const minPeriod: real
    const maxPeriod: real
    var period: real
    var factor: real
    var misses: int

    ghost function State(): Period
      reads this
    {
      Period(minPeriod, maxPeriod, period, factor, misses)
    }

    constructor (min: nat, max: nat)
      ensures State() == Initial(min, max)
    {
      minPeriod, maxPeriod, period := min as real, max as real, max as real;
      factor, misses := 2.0, 0;
    }

    method Run(completed: nat) returns (r: int)
      requires Limits(State()) && factor > 0.0
      modifies this
      ensures State() == Next(old(State()), completed > 0)
      ensures r == period.Floor
    {
      if completed == 0 {
        misses := misses + 1;
        if misses < TOLERANCE {
          return period.Floor;
        }
      }
      misses := 0;
      if completed == 0 {
        period := Max(Min(period * PENALTY, maxPeriod), MIN_BASE);
        factor := (1.5 * maxPeriod + 0.5 * period) / maxPeriod;
      } else {
        period := Max(period / factor, minPeriod);
      }
      return period.Floor;
    }
  }

  // ------------------------------------------------------------------- arithmetic

  lemma Cancel(a: real, b: real, f: real)
    requires f > 0.0
    ensures a * f <= b * f <==> a <= b
  {
    assert (b - a) * f == b * f - a * f;
  }

  /** Dividing by a factor of at least 1.5. */
  lemma Quotient(p: real, f: real)
    requires p >= 0.0 && 1.5 <= f
    ensures 0.0 <= p / f <= p / 1.5 <= p
  {
    var q := p / f;
    assert q * f == p;
    Cancel(0.0, q, f);
    Cancel(1.5, f, if q > 0.0 then q else 1.0);
  }

  lemma FactorInRange(period: real, max: real)
    requires 0.0 < max && 0.0 <= period
    ensures (1.5 * max + 0.5 * period) / max >= 1.5
    ensures (1.5 * max + 0.5 * period) / max <= 2.0 <==> period <= max
  {
    var y := 1.5 * max + 0.5 * period;
    QuotientAgainst(y / max, max, y, 1.5);
    QuotientAgainst(y / max, max, y, 2.0);
  }

  lemma QuotientAgainst(f: real, max: real, y: real, c: real)
    requires max > 0.0 && f * max == y
    ensures f <= c <==> y <= c * max
    ensures f >= c <==> y >= c * max
  {
    assert (c - f) * max == c * max - y;
  }

  // ------------------------------------------------------------------ whole runs

  /** The controller after a run; true is a poll that completed something. */
  function After(p: Period, polls: seq<bool>): Period
    requires p.max != 0.0 && Limits(p) && p.period >= 0.0 && p.factor >= 1.5
    ensures var q := After(p, polls); q.max == p.max && q.min == p.min && q.period >= 0.0 && q.factor >= 1.5
    decreases |polls|
  {
    if polls == [] then p
    else
      var q := After(p, polls[..|polls| - 1]);
      assert Next(q, polls[|polls| - 1]).factor >= 1.5 by {
        FactorInRange(Penalized(q).period, q.max);
      }
      Next(q, polls[|polls| - 1])
  }

  lemma NextAsserted(p: Period, hit: bool)
    requires Limits(p) && p.max >= MIN_BASE && Asserted(p)
    ensures Asserted(Next(p, hit))
  {
    Quotient(p.period, p.factor);
    FactorInRange(Penalized(p).period, p.max);
  }

  lemma {:induction false} StaysInRange(p: Period, polls: seq<bool>)
    requires Limits(p) && p.max >= MIN_BASE && Asserted(p)
    ensures Asserted(After(p, polls))
    decreases |polls|
  {
    if polls != [] {
      StaysInRange(p, polls[..|polls| - 1]);
      NextAsserted(After(p, polls[..|polls| - 1]), polls[|polls| - 1]);
    }
  }

  function Repeat(hit: bool, n: nat): (polls: seq<bool>)
    ensures |polls| == n
  {
    seq(n, _ => hit)
  }

  lemma {:induction false} RepeatMore(p: Period, hit: bool, n: nat)
    requires Limits(p) && p.period >= 0.0 && p.factor >= 1.5 && n > 0
    ensures After(p, Repeat(hit, n)) == Next(After(p, Repeat(hit, n - 1)), hit)
  {
    assert Repeat(hit, n)[..n - 1] == Repeat(hit, n - 1);
  }

  /** Every run keeps factor and period in range, including the truncated result, if and
      only if the maximum is at least MinBase: a smaller maximum is left after the first
      fifty misses. */
  lemma AssertionsHoldIffMaxAtLeastBase(min: nat, max: nat)
    requires min <= max && max > 0
    ensures max >= 10 <==> forall polls :: Asserted(After(Initial(min, max), polls))
    ensures max >= 10 ==> forall polls :: min <= After(Initial(min, max), polls).period.Floor <= max
  {
    var p := Initial(min, max);
    if max >= 10 {
      forall polls ensures Asserted(After(p, polls)) {
        StaysInRange(p, polls);
      }
    } else {
      MissesApplyPenalties(p, 50);
      assert Penalties(p, 1) == Penalized(p);
      assert !Asserted(After(p, Repeat(false, 50)));
    }
  }

  /** n divisions of x by f, that is x / f^n. */
  function Divided(x: real, f: real, n: nat): (q: real)
    requires x >= 0.0 && f > 0.0
    ensures q >= 0.0
  {
    if n == 0 then x
    else
      var q := Divided(x, f, n - 1);
      assert q / f >= 0.0 by { DivMonotone(0.0, q, f); }
      q / f
  }

  lemma DivMonotone(x: real, y: real, f: real)
    requires x <= y && f > 0.0
    ensures x / f <= y / f
  {
    assert x / f * f == x && y / f * f == y;
    Cancel(x / f, y / f, f);
  }

  lemma {:induction false} DividedMonotone(x: real, f: real, n: nat)
    requires x >= 0.0 && 1.5 <= f
    ensures Divided(x, f, n) <= Divided(x, 1.5, n)
  {
    if n > 0 {
      DividedMonotone(x, f, n - 1);
      Quotient(Divided(x, f, n - 1), f);
      DivMonotone(Divided(x, f, n - 1), Divided(x, 1.5, n - 1), 1.5);
    }
  }

  /** k hits in a row divide the period k times by the factor, down to the minimum, and
      leave the factor: the period is then at most max(min, p / 1.5^k). */
  lemma {:induction false} HitsDecayGeometrically(p: Period, k: nat)
    requires Limits(p) && p.period >= p.min && p.factor >= 1.5
    ensures var q := After(p, Repeat(true, k));
            && q.period == Max(Divided(p.period, p.factor, k), p.min) && q.factor == p.factor
            && q.misses == (if k > 0 then 0 else p.misses)
            && q.period <= Max(Divided(p.period, 1.5, k), p.min)
  {
    DividedMonotone(p.period, p.factor, k);
    if k > 0 {
      HitsDecayGeometrically(p, k - 1);
      RepeatMore(p, true, k);
      Quotient(p.min, p.factor);
      var d := Divided(p.period, p.factor, k - 1);
      if d <= p.min {
        DivMonotone(d, p.min, p.factor);
      }
    } else {
      assert Repeat(true, 0) == [];
    }
  }

  /** The controller starts at the maximum and halves the period with every hit. */
  lemma StartsAtMaximum(min: nat, max: nat, k: nat)
    requires min <= max && max > 0
    ensures After(Initial(min, max), Repeat(true, k)).period == Max(Divided(max as real, 2.0, k), min as real)
  {
    HitsDecayGeometrically(Initial(min, max), k);
  }

  /** n penalties in a row. */
  function Penalties(p: Period, n: nat): Period
    requires p.max != 0.0
    ensures Penalties(p, n).max == p.max && Penalties(p, n).min == p.min
  {
    if n == 0 then p else Penalized(Penalties(p, n - 1))
  }

  lemma OneMoreMiss(m: nat)
    ensures (m + 1) / TOLERANCE == (if m % TOLERANCE == TOLERANCE - 1 then m / TOLERANCE + 1 else m / TOLERANCE)
    ensures (m + 1) % TOLERANCE == (if m % TOLERANCE == TOLERANCE - 1 then 0 else m % TOLERANCE + 1)
  {
  }

  lemma MissAfter(p: Period, misses: nat)
    requires p.max != 0.0 && p.factor != 0.0 && misses < TOLERANCE
    ensures Next(p.(misses := misses), false) ==
            if misses + 1 < TOLERANCE then p.(misses := misses + 1) else Penalized(p).(misses := 0)
  {
  }

  /** n misses in a row, from any state, apply exactly (misses + n) / 50 penalties and
      nothing else, so 50 * j misses apply exactly j. */
  lemma {:induction false} MissesApplyPenalties(p: Period, n: nat)
    requires Limits(p) && p.period >= 0.0 && p.factor >= 1.5 && 0 <= p.misses < TOLERANCE
    ensures After(p, Repeat(false, n)) ==
            Penalties(p, (p.misses + n) / TOLERANCE).(misses := (p.misses + n) % TOLERANCE)
  {
    if n > 0 {
      MissesApplyPenalties(p, n - 1);
      RepeatMore(p, false, n);
      var m := p.misses + n - 1;
      OneMoreMiss(m);
      MissAfter(Penalties(p, m / TOLERANCE), m % TOLERANCE);
    } else {
      assert After(p, []) == p;
      assert Repeat(false, 0) == [];
    }
  }

  /** n multiplications of x by f, that is x * f^n. */
  function Multiplied(x: real, f: real, n: nat): real {
    if n == 0 then x else f * Multiplied(x, f, n - 1)
  }

  /** The period after j penalties in a row: it doubles with each of them, from 10 on if the
      first doubling does not come so far, up to the maximum. */
  function Raised(p: Period, j: nat): real
    requires j > 0
  {
    Min(p.max, Max(Multiplied(p.period, 2.0, j), Multiplied(10.0, 2.0, j - 1)))
  }

  lemma {:induction false} AtLeastTen(j: nat)
    ensures Multiplied(10.0, 2.0, j) >= 10.0
  {
    if j > 0 {
      AtLeastTen(j - 1);
    }
  }

  /** j penalties in a row give exactly that period; with a maximum below 10 it is 10. The
      factor is then 1.5 + period / (2 * max). */
  lemma {:induction false} PenaltiesDouble(p: Period, j: nat)
    requires Limits(p) && j > 0
    ensures Penalties(p, j).period == if p.max >= 10.0 then Raised(p, j) else 10.0
    ensures Penalties(p, j).factor == 1.5 + Penalties(p, j).period / (2.0 * p.max)
    ensures Penalties(p, j).misses == 0
  {
    FactorGiven(Penalties(p, j).period, p.max);
    AtLeastTen(j - 1);
    if j > 1 {
      PenaltiesDouble(p, j - 1);
    } else {
      assert Penalties(p, 0) == p && Multiplied(p.period, 2.0, 1) == 2.0 * p.period && Multiplied(10.0, 2.0, 0) == 10.0;
    }
  }

  lemma FactorGiven(period: real, max: real)
    requires max > 0.0
    ensures (1.5 * max + 0.5 * period) / max == 1.5 + period / (2.0 * max)
  {
    var f, g := (1.5 * max + 0.5 * period) / max, period / (2.0 * max);
    assert f * max == 1.5 * max + 0.5 * period && g * (2.0 * max) == period;
    QuotientAgainst(f - 1.5 - g, max, 0.0, 0.0);
  }

  /** What n misses in a row do, from any state: fewer than it takes to make 50 change nothing
      but their count, and otherwise every 50 of them double the period. */
  lemma {:induction false} MissesDouble(p: Period, n: nat)
    requires Limits(p) && p.period >= 0.0 && p.factor >= 1.5 && 0 <= p.misses < 50
    ensures var q := After(p, Repeat(false, n));
            && q.misses == (p.misses + n) % 50
            && (p.misses + n < 50 ==> q.period == p.period && q.factor == p.factor)
            && (p.misses + n >= 50 ==>
                  && q.period == (if p.max >= 10.0 then Raised(p, (p.misses + n) / 50) else 10.0)
                  && q.factor == 1.5 + q.period / (2.0 * p.max))
  {
    MissesApplyPenalties(p, n);
    var j := (p.misses + n) / 50;
    if j > 0 {
      PenaltiesDouble(p, j);
    }
  }
}
