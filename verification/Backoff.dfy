/** The retry delay: doubled on every use, capped, reset on success. */
module Backoff {
  import opened GoInt

  /** Largest delay that can be doubled without wrapping around. */
  const HALF: int := MAX_INT64 / 2

  function Advance(current: int, max: int): int {
    var next := Int64(current * 2);
    if next > max then max else next
  }

  /** Below half of the int64 range the delay doubles, up to the cap. */
  lemma AdvanceIs(current: int, max: int)
    requires 0 < current <= max <= 0x3FFF_FFFF_FFFF_FFFF
    ensures Advance(current, max) == if 2 * current > max then max else 2 * current
  {
  }

  class Backoff {
    const min: int
    const max: int
    var current: int

    constructor (min: int, max: int)
      ensures this.min == min && current == min
      ensures this.max == if max < min then min else max
    {
      this.min := min;
      this.max := if max < min then min else max;
      current := min;
    }

    method Next() returns (d: int)
      modifies this
      ensures d == old(current) && current == Advance(old(current), max)
    {
      d := current;
      var next := Int64(current * 2);
      if next > max {
        current := max;
      } else {
        current := next;
      }
    }

    method Reset()
      modifies this
      ensures current == min
    {
      current := min;
    }
  }

  // ------------------------------------------------------------ closed form

  /** The minimum after k unbounded doublings. */
  function Doubled(min: int, k: nat): int {
    if k == 0 then min else 2 * Doubled(min, k - 1)
  }

  /** ... and cut off at the cap. */
  function Capped(min: int, max: int, k: nat): int {
    if Doubled(min, k) > max then max else Doubled(min, k)
  }

  function Pow2(k: nat): nat {
    if k == 0 then 1 else 2 * Pow2(k - 1)
  }

  lemma {:induction false} DoubledIs(min: int, k: nat)
    ensures Doubled(min, k) == min * Pow2(k)
  {
    if k > 0 {
      DoubledIs(min, k - 1);
      assert min * Pow2(k) == min * (2 * Pow2(k - 1)) == 2 * (min * Pow2(k - 1));
    }
  }

  datatype Call = Next | Reset

  /** The current delay after any interleaving of calls on a new backoff. */
  function After(min: int, max: int, calls: seq<Call>): int {
    if calls == [] then min
    else
      var n := |calls| - 1;
      match calls[n]
      case Next => Advance(After(min, max, calls[..n]), max)
      case Reset => min
  }

  /** How many Next calls came after the last Reset. */
  function SinceReset(calls: seq<Call>): nat {
    if calls == [] then 0
    else
      var n := |calls| - 1;
      match calls[n]
      case Next => SinceReset(calls[..n]) + 1
      case Reset => 0
  }

  lemma {:induction false} DoubledGrows(min: int, j: nat, k: nat)
    requires 0 < min && j <= k
    ensures min <= Doubled(min, j) <= Doubled(min, k)
  {
    if k > 0 {
      DoubledGrows(min, if j < k then j else k - 1, k - 1);
    }
  }

  lemma CappedStep(min: int, max: int, k: nat)
    requires 0 < min <= max <= HALF
    ensures min <= Capped(min, max, k) <= max
    ensures Advance(Capped(min, max, k), max) == Capped(min, max, k + 1)
  {
    DoubledGrows(min, 0, k);
  }

  /** No overflow, always between min and max, and min doubled once per Next
      since the last Reset. */
  lemma {:induction false} ClosedForm(min: int, max: int, calls: seq<Call>)
    requires 0 < min <= max <= HALF
    ensures After(min, max, calls) == Capped(min, max, SinceReset(calls))
    ensures min <= After(min, max, calls) <= max
  {
    if calls != [] {
      var before := calls[..|calls| - 1];
      ClosedForm(min, max, before);
      CappedStep(min, max, SinceReset(before));
    }
    CappedStep(min, max, SinceReset(calls));
  }

  // ------------------------------------------------------------ overflow

  function Nexts(n: nat): seq<Call> {
    seq(n, _ => Next)
  }

  lemma NextsStep(min: int, max: int, n: nat)
    ensures After(min, max, Nexts(n + 1)) == Advance(After(min, max, Nexts(n)), max)
  {
    assert Nexts(n + 1)[..n] == Nexts(n);
  }

  ghost predicate AlwaysBounded(min: int, max: int) {
    forall calls: seq<Call> :: min <= After(min, max, calls) <= max
  }

  /** Doubling keeps the delay between min and max for ever exactly when the
      cap itself can be doubled in an int64. */
  lemma BoundedIff(min: int, max: int)
    requires 0 < min <= max <= MAX_INT64
    ensures AlwaysBounded(min, max) <==> max <= 0x3FFF_FFFF_FFFF_FFFF
  {
    if max <= HALF {
      forall calls: seq<Call> ensures min <= After(min, max, calls) <= max {
        ClosedForm(min, max, calls);
      }
    } else {
      var n := Overflows(min, max, 0);
      assert After(min, max, Nexts(n)) < min;
    }
  }

  /** Otherwise enough doublings make the delay negative. */
  lemma Overflows(min: int, max: int, n: nat) returns (m: nat)
    requires 0 < min <= max <= MAX_INT64 && max > HALF
    requires min <= After(min, max, Nexts(n)) <= max
    ensures After(min, max, Nexts(m)) < min
    decreases max - After(min, max, Nexts(n))
  {
    var c := After(min, max, Nexts(n));
    NextsStep(min, max, n);
    if c > HALF {
      m := n + 1;
    } else {
      m := Overflows(min, max, n + 1);
    }
  }

  // ------------------------------------------------------------ total wait

  /** The first n delays handed out after a reset, ... */
  function Schedule(min: int, max: int, n: nat): seq<int> {
    if n == 0 then [] else Schedule(min, max, n - 1) + [Capped(min, max, n - 1)]
  }

  lemma {:induction false} ScheduleAt(min: int, max: int, n: nat, i: nat)
    requires i < n
    ensures |Schedule(min, max, n)| == n && Schedule(min, max, n)[i] == Capped(min, max, i)
  {
    if n == 1 {
    } else {
      ScheduleAt(min, max, n - 1, if i < n - 1 then i else 0);
    }
  }

  /** ... and added up. */
  function TotalWait(min: int, max: int, n: nat): int {
    if n == 0 then 0 else TotalWait(min, max, n - 1) + Capped(min, max, n - 1)
  }

  /** The least number of doublings that reaches the cap. */
  function Ramp(min: int, max: int): (k: nat)
    requires 0 < min
    ensures Doubled(min, k) >= max
    ensures forall j :: 0 <= j < k ==> Doubled(min, j) < max
  {
    RampFrom(min, max, 0)
  }

  function RampFrom(min: int, max: int, k: nat): (r: nat)
    requires 0 < min && forall j :: 0 <= j < k ==> Doubled(min, j) < max
    ensures Doubled(min, r) >= max && forall j :: 0 <= j < r ==> Doubled(min, j) < max
    decreases max - Doubled(min, k)
  {
    DoubledGrows(min, 0, k);
    if Doubled(min, k) >= max then k else RampFrom(min, max, k + 1)
  }

  lemma {:induction false} RampWait(min: int, max: int, n: nat)
    requires 0 < min && n <= Ramp(min, max)
    ensures TotalWait(min, max, n) == Doubled(min, n) - min
  {
    if n > 0 {
      RampWait(min, max, n - 1);
    }
  }

  lemma {:induction false} WaitPastRamp(min: int, max: int, ramp: nat, extra: nat)
    requires 0 < min && Doubled(min, ramp) >= max
    ensures TotalWait(min, max, ramp + extra) == TotalWait(min, max, ramp) + extra * max
  {
    if extra > 0 {
      WaitPastRamp(min, max, ramp, extra - 1);
      DoubledGrows(min, ramp, ramp + extra - 1);
      assert extra * max == (extra - 1) * max + max;
    }
  }

  /** Past the ramp every delay is the cap, so the total wait of n retries is
      exact. */
  lemma TotalWaitIs(min: int, max: int, n: nat)
    requires 0 < min <= max && n >= Ramp(min, max)
    ensures var k := Ramp(min, max);
            TotalWait(min, max, n) == min * (Pow2(k) - 1) + (n - k) * max
  {
    var k := Ramp(min, max);
    RampWait(min, max, k);
    WaitPastRamp(min, max, k, n - k);
    DoubledIs(min, k);
    assert min * (Pow2(k) - 1) == min * Pow2(k) - min;
  }

  lemma ExtraRetries(min: int, max: int, n: nat, wait: int)
    requires 0 < min <= max && TotalWait(min, max, n) <= wait && n >= Ramp(min, max)
    ensures (n - Ramp(min, max)) * max <= wait
  {
    var k := Ramp(min, max);
    RampWait(min, max, k);
    WaitPastRamp(min, max, k, n - k);
    DoubledGrows(min, 0, k);
  }

  /** No more than the ramp plus one retry per cap length fit in a wait. */
  lemma RetriesThatFit(min: int, max: int, n: nat, wait: int)
    requires 0 < min <= max && TotalWait(min, max, n) <= wait && 0 <= wait
    ensures n <= Ramp(min, max) + wait / max
  {
    var k := Ramp(min, max);
    if n >= k {
      ExtraRetries(min, max, n, wait);
      QuotientBound(n - k, max, wait);
    } else {
      QuotientBound(0, max, wait);
    }
  }

  lemma QuotientBound(q: nat, d: int, x: int)
    requires 0 < d && q * d <= x
    ensures q <= x / d
  {
    var r := x / d;
    assert x < (r + 1) * d;
    Cancel(q, r + 1, d);
  }

  lemma Cancel(a: int, b: int, d: int)
    requires 0 < d && a * d < b * d
    ensures a < b
  {
  }
}
