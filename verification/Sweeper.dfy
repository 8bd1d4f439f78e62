/** The bound on how long a run may stay interrupted.

    Times are nanoseconds; the store stamps rows with whole seconds.  Sweeps are
    instantaneous and on time: the first when the sweeper starts, then one per tick. */
module Sweeper {

  const SECOND: int := 1_000_000_000
  const MINUTE: int := 60 * SECOND

  /** The tick of RunInterruptSweeper. */
  function Interval(ttl: int): (interval: int)
    ensures ttl > 0 ==> 4 * interval <= ttl
    ensures interval <= MINUTE
    ensures interval > 0 <==> ttl !in {1, 2, 3}
  {
    if 0 < ttl < 4 * MINUTE then ttl / 4 else MINUTE
  }

  /** The cutoff of StrandedInterruptedRuns, in whole seconds. */
  function Cutoff(nowS: int, ttl: int): int {
    if ttl <= 0 then nowS + 1 else nowS - ttl / SECOND
  }

  /** Whether a sweep at time `now` resolves a run interrupted at time `t` and not touched since. */
  predicate Resolves(t: int, now: int, ttl: int) {
    t / SECOND < Cutoff(now / SECOND, ttl)
  }

  /** The tick is a quarter of a positive ttl under four minutes, rounded down, and a minute
      otherwise. */
  lemma IntervalExactly(ttl: int)
    ensures if 0 < ttl < 240_000_000_000 then 4 * Interval(ttl) <= ttl < 4 * Interval(ttl) + 4
            else Interval(ttl) == 60_000_000_000
  {
  }

  /** The interruption's second lies before the sweep's by more than the ttl's whole seconds. */
  lemma ResolvesExactly(t: int, now: int, ttl: int)
    ensures ttl > 0 ==>
            (Resolves(t, now, ttl) <==> t / 1_000_000_000 + ttl / 1_000_000_000 < now / 1_000_000_000)
    ensures ttl <= 0 ==> (Resolves(t, now, ttl) <==> t / 1_000_000_000 <= now / 1_000_000_000)
  {
  }

  function Tick(start: int, ttl: int, k: nat): int {
    start + k * Interval(ttl)
  }

  /** The first instant at which a sweep resolves a run interrupted at `t`. */
  function Due(t: int, ttl: int): int {
    (t / SECOND + ttl / SECOND + 1) * SECOND
  }

  lemma ResolvesWhenDue(t: int, now: int, ttl: int)
    requires ttl > 0
    ensures Resolves(t, now, ttl) <==> Due(t, ttl) <= now
    ensures t + ttl / SECOND * SECOND < Due(t, ttl) <= t + (ttl / SECOND + 1) * SECOND
  {
  }

  /** A non-positive ttl resolves every interrupted run at once. */
  lemma ResolveAllNow(t: int, now: int, ttl: int)
    requires ttl <= 0 && t <= now
    ensures Resolves(t, now, ttl)
  {
    DivMonotone(t, now, SECOND);
  }

  lemma DivMonotone(a: int, b: int, m: int)
    requires 0 < m && a <= b
    ensures a / m <= b / m
  {
    if b / m < a / m {
      MulMonotone(b / m + 1, a / m, m);
    }
  }

  lemma MulMonotone(a: int, b: int, m: int)
    requires a <= b && 0 <= m
    ensures a * m <= b * m
  {
  }

  /** The longest time a run can stay interrupted under the sweeper. */
  function WorstCase(ttl: int): int {
    (ttl / SECOND + 1) * SECOND + Interval(ttl) - 1
  }

  /** A run interrupted at `t` while the sweeper runs is resolved by tick `k`, not
      before and not by an earlier tick, and no later than the worst case. */
  lemma ResolvedInTime(start: int, ttl: int, t: int) returns (k: nat)
    requires ttl >= 4 && start <= t
    ensures Resolves(t, Tick(start, ttl, k), ttl)
    ensures forall j: nat :: j < k ==> !Resolves(t, Tick(start, ttl, j), ttl)
    ensures Tick(start, ttl, 0) == start && Tick(start, ttl, k + 1) == Tick(start, ttl, k) + Interval(ttl)
    ensures ttl / SECOND * SECOND < Tick(start, ttl, k) - t <= WorstCase(ttl)
  {
    var m := Interval(ttl);
    var d := Due(t, ttl);
    ResolvesWhenDue(t, t, ttl);
    var x := d - start + m - 1;
    k := x / m;
    assert x - m < k * m <= x;
    ResolvesWhenDue(t, Tick(start, ttl, k), ttl);
    forall j: nat | j < k ensures !Resolves(t, Tick(start, ttl, j), ttl) {
      MulMonotone(j, k - 1, m);
      assert (k - 1) * m == k * m - m;
      ResolvesWhenDue(t, Tick(start, ttl, j), ttl);
    }
  }

  /** The worst case is reached: start one nanosecond after a point from which ticks hit the due time. */
  lemma WorstCaseIsReached(ttl: int) returns (start: int, t: int, k: nat)
    requires ttl >= 4
    ensures start <= t && Resolves(t, Tick(start, ttl, k), ttl)
    ensures forall j: nat :: j < k ==> !Resolves(t, Tick(start, ttl, j), ttl)
    ensures Tick(start, ttl, k) - t == WorstCase(ttl)
  {
    var m := Interval(ttl);
    t := 0;
    var d := Due(t, ttl);
    ResolvesWhenDue(t, t, ttl);
    // the tick before the resolving one, number d, comes one nanosecond too early
    k := d + 1;
    start := d - 1 - d * m;
    MulMonotone(1, m, d);
    assert k * m == d * m + m;
    ResolvesWhenDue(t, Tick(start, ttl, k), ttl);
    forall j: nat | j < k ensures !Resolves(t, Tick(start, ttl, j), ttl) {
      MulMonotone(j, k - 1, m);
      ResolvesWhenDue(t, Tick(start, ttl, j), ttl);
    }
  }

  /** Every run interrupted under the sweeper is resolved within `bound`. */
  ghost predicate AlwaysWithin(ttl: int, bound: int) {
    forall start: int, t: int, k: nat | start <= t :: FirstResolving(start, ttl, t, k) ==> Tick(start, ttl, k) - t <= bound
  }

  ghost predicate FirstResolving(start: int, ttl: int, t: int, k: nat) {
    Resolves(t, Tick(start, ttl, k), ttl) && forall j: nat :: j < k ==> !Resolves(t, Tick(start, ttl, j), ttl)
  }

  /** A bound holds for all starts and interruptions exactly when it is at least the worst case. */
  lemma ExactBound(ttl: int, bound: int)
    requires ttl >= 4
    ensures AlwaysWithin(ttl, bound) <==> WorstCase(ttl) <= bound
  {
    if WorstCase(ttl) <= bound {
      forall start: int, t: int, k: nat | start <= t && FirstResolving(start, ttl, t, k)
        ensures Tick(start, ttl, k) - t <= bound
      {
        var k' := ResolvedInTime(start, ttl, t);
        assert k == k';
      }
    } else {
      var start, t, k := WorstCaseIsReached(ttl);
      assert FirstResolving(start, ttl, t, k);
    }
  }

  /** Whether five quarters of the ttl bound the time a run stays interrupted.  Below four
      minutes: only for a ttl one nanosecond short of a full second.  From four minutes
      up: when the quarter makes up for the tick of a minute and the rest of the second,
      hence always from 244 seconds on, the default of 24 hours included. */
  lemma FiveQuarters(ttl: int)
    requires ttl >= 4
    ensures AlwaysWithin(ttl, ttl + ttl / 4) <==>
            if ttl < 4 * MINUTE then ttl % SECOND == SECOND - 1
            else 4 * (MINUTE + SECOND - 1 - ttl % SECOND) <= ttl
    ensures ttl >= 244 * SECOND ==> AlwaysWithin(ttl, ttl + ttl / 4)
  {
    ExactBound(ttl, ttl + ttl / 4);
  }
}
