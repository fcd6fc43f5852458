/**
 * The allocation sampler of the heap preload: a countdown of bytes, restarted with a fresh draw each time an
 * allocation crosses it. The draws form a renewal process along the bytes allocated, and a sample weighs as many
 * intervals as the renewal points it crossed. Which numbers are drawn is left open; each is at least 1.
 */
module Sampling {

  /** The numbers that the generator will give, one after the other. */
  type Draws = nat -> int

  ghost predicate AllPositive(draws: Draws) {
    forall k :: draws(k) >= 1
  }

  /** Where the k-th renewal lies: the sum of the first k draws. */
  function Renewal(draws: Draws, k: nat): int {
    if k == 0 then 0 else Renewal(draws, k - 1) + draws(k - 1)
  }

  /** The renewals at or below a byte position. Each draw is at least 1, so the k-th one is at k or beyond. */
  ghost function RenewalsUpTo(draws: Draws, bytes: nat): set<nat> {
    set k: nat | 1 <= k <= bytes && Renewal(draws, k) <= bytes
  }

  ghost function Crossings(draws: Draws, bytes: nat): nat {
    |RenewalsUpTo(draws, bytes)|
  }

  lemma {:induction false} RenewalsRise(draws: Draws, j: nat, k: nat)
    requires AllPositive(draws) && j <= k
    ensures Renewal(draws, k) >= Renewal(draws, j) + (k - j)
    decreases k
  {
    if j == k {
    } else {
      RenewalsRise(draws, j, k - 1);
      assert draws(k - 1) >= 1;
    }
  }

  function Upto(n: nat): (s: set<nat>)
    ensures forall k :: k in s <==> 1 <= k <= n
    ensures |s| == n
  {
    if n == 0 then {} else Upto(n - 1) + {n}
  }

  lemma RenewalNext(draws: Draws, k: nat)
    ensures Renewal(draws, k + 1) == Renewal(draws, k) + draws(k)
  {
  }

  /** The number of renewals up to a position is the index of the interval that the position lies in. */
  lemma CrossingsIs(draws: Draws, bytes: nat, n: nat)
    requires AllPositive(draws) && Renewal(draws, n) <= bytes < Renewal(draws, n + 1)
    ensures Crossings(draws, bytes) == n
  {
    RenewalsRise(draws, 0, n);
    forall k: nat
      ensures k in RenewalsUpTo(draws, bytes) <==> k in Upto(n)
    {
      RenewalsRise(draws, 0, k);
      if k <= n {
        RenewalsRise(draws, k, n);
      } else {
        RenewalsRise(draws, n + 1, k);
      }
    }
    assert RenewalsUpTo(draws, bytes) == Upto(n);
  }

  /** The bytes of the allocations that the countdown sees. */
  function SmallBytes(interval: nat, sizes: seq<nat>): nat {
    if sizes == [] then 0
    else SmallBytes(interval, sizes[..|sizes| - 1]) + if sizes[|sizes| - 1] < interval then sizes[|sizes| - 1] else 0
  }

  /** The bytes of the allocations that are recorded at their own size. */
  function LargeBytes(interval: nat, sizes: seq<nat>): nat {
    if sizes == [] then 0
    else LargeBytes(interval, sizes[..|sizes| - 1]) + if sizes[|sizes| - 1] < interval then 0 else sizes[|sizes| - 1]
  }

  class Sampler {
    const interval: nat
    const draws: Draws
    var toNext: int
    var used: nat
    ghost var seen: nat // bytes of below-interval allocations so far

    /** The countdown stands between the last renewal passed and the next one. */
    ghost predicate Valid()
      reads this
    {
      && AllPositive(draws) && used > 0
      && Renewal(draws, used - 1) <= seen < Renewal(draws, used)
      && toNext == Renewal(draws, used) - seen
    }

    constructor (interval: nat, draws: Draws)
      requires AllPositive(draws)
      ensures Valid() && this.interval == interval && this.draws == draws && seen == 0
    {
      this.interval := interval;
      this.draws := draws;
      toNext := draws(0);
      used := 1;
      seen := 0;
      new;
      assert Renewal(draws, 0) == 0 && Renewal(draws, 1) == draws(0);
    }

    method NextInterval() returns (d: int)
      modifies `used
      ensures d == draws(old(used)) && used == old(used) + 1
    {
      d := draws(used);
      used := used + 1;
    }

    /** The weight of an allocation; zero when it is not sampled. */
    method SampleSize(allocSize: nat) returns (weight: nat)
      requires Valid()
      modifies `toNext, `used, `seen
      ensures Valid()
      ensures allocSize >= interval ==>
        weight == allocSize && toNext == old(toNext) && used == old(used) && seen == old(seen)
      ensures allocSize < interval ==>
        && seen == old(seen) + allocSize
        && Crossings(draws, seen) >= Crossings(draws, old(seen))
        && weight == interval * (Crossings(draws, seen) - Crossings(draws, old(seen)))
      ensures 0 < toNext <= draws(used - 1)
    {
      hide Crossings, Renewal;
      RenewalNext(draws, used - 1);
      if allocSize >= interval {
        return allocSize;
      }
      ghost var n := used - 1;
      CrossingsIs(draws, seen, n);
      seen := seen + allocSize;
      toNext := toNext - allocSize;
      var numSamples: nat := 0;
      while toNext <= 0
        invariant used > 0 && n + numSamples == used - 1 && seen == old(seen) + allocSize
        invariant Renewal(draws, used - 1) <= seen
        invariant toNext == Renewal(draws, used) - seen
        invariant toNext <= draws(used - 1)
        decreases -toNext
      {
        assert draws(used) >= 1;
        RenewalNext(draws, used);
        var d := NextInterval();
        toNext := toNext + d;
        numSamples := numSamples + 1;
      }
      CrossingsIs(draws, seen, used - 1);
      assert Crossings(draws, seen) - Crossings(draws, old(seen)) == numSamples;
      weight := interval * numSamples;
    }

    /**
     * Over any run of allocations the weights add up to one interval for each renewal point crossed, plus the
     * large allocations at their own size.
     */
    method SampleAll(sizes: seq<nat>) returns (total: nat)
      requires Valid()
      modifies `toNext, `used, `seen
      ensures Valid() && seen == old(seen) + SmallBytes(interval, sizes)
      ensures Crossings(draws, seen) >= Crossings(draws, old(seen))
      ensures total ==
        interval * (Crossings(draws, seen) - Crossings(draws, old(seen))) + LargeBytes(interval, sizes)
    {
      hide Crossings;
      total := 0;
      ghost var first := Crossings(draws, seen);
      for i := 0 to |sizes|
        invariant Valid() && seen == old(seen) + SmallBytes(interval, sizes[..i])
        invariant Crossings(draws, seen) >= first
        invariant total == interval * (Crossings(draws, seen) - first) + LargeBytes(interval, sizes[..i])
      {
        ghost var before := Crossings(draws, seen);
        assert sizes[..i + 1][..i] == sizes[..i];
        var weight := SampleSize(sizes[i]);
        WeightsAdd(interval, before - first, Crossings(draws, seen) - before);
        total := total + weight;
      }
      assert sizes[..|sizes|] == sizes;
    }
  }

  lemma WeightsAdd(interval: nat, a: int, b: int)
    ensures interval * a + interval * b == interval * (a + b)
  {
  }

  // ---- Neither order nor split matters ----

  function Sum(sizes: seq<nat>): nat {
    if sizes == [] then 0 else Sum(sizes[..|sizes| - 1]) + sizes[|sizes| - 1]
  }

  predicate AllSmall(interval: nat, sizes: seq<nat>) {
    forall i :: 0 <= i < |sizes| ==> sizes[i] < interval
  }

  lemma {:induction false} SmallBytesAreAll(interval: nat, sizes: seq<nat>)
    requires AllSmall(interval, sizes)
    ensures SmallBytes(interval, sizes) == Sum(sizes) && LargeBytes(interval, sizes) == 0
  {
    if sizes == [] {
    } else {
      SmallBytesAreAll(interval, sizes[..|sizes| - 1]);
    }
  }

  /**
   * Two samplers that get the same draws report the same total for the same bytes, however these are split into
   * allocations below the interval and in whatever order they come.
   */
  method SplitIsIrrelevant(interval: nat, draws: Draws, a: seq<nat>, b: seq<nat>) returns (x: nat, y: nat)
    requires AllPositive(draws) && AllSmall(interval, a) && AllSmall(interval, b) && Sum(a) == Sum(b)
    ensures x == y == interval * Crossings(draws, Sum(a))
  {
    hide Crossings;
    SmallBytesAreAll(interval, a);
    SmallBytesAreAll(interval, b);
    NoneCrossedYet(draws);
    var s := new Sampler(interval, draws);
    x := s.SampleAll(a);
    var t := new Sampler(interval, draws);
    y := t.SampleAll(b);
  }

  lemma NoneCrossedYet(draws: Draws)
    requires AllPositive(draws)
    ensures Crossings(draws, 0) == 0
  {
    assert RenewalsUpTo(draws, 0) == {};
  }
}
