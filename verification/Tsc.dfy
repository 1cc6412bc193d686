/**
  The time-stamp-counter clock (src/timer/tsc.rs): reading it in nanoseconds and in units of 100 ns,
  and waiting.
 */
module Tsc {

  import opened Arith

  /** Per-core data: counts per 100 ns, the adjustment, and whether calibration has happened. */
  datatype Core = Core(par100ns: nat, adjust: int, initialized: bool)

  const U64 := 0x1_0000_0000_0000_0000

  /** The adjusted counter, never below zero. */
  function Common(c: Core, tsc: nat): nat {
    if tsc + c.adjust < 0 then 0 else tsc + c.adjust
  }

  function Nanos(c: Core, tsc: nat): nat
    requires c.par100ns > 0
  {
    Common(c, tsc) * 100 / c.par100ns
  }

  /** Nanoseconds, cut to 64 bits; zero before calibration. */
  function GetTime(c: Core, tsc: nat): nat {
    if !c.initialized || c.par100ns == 0 then 0 else Nanos(c, tsc) % U64
  }

  function Get100ns(c: Core, tsc: nat): nat
    requires c.par100ns > 0
  {
    Common(c, tsc) / c.par100ns
  }

  lemma DivBounds(x: nat, d: nat)
    requires d > 0
    ensures x / d * d <= x < x / d * d + d
  {
  }

  lemma AtLeast(x: nat, d: nat, q: int)
    requires d > 0 && q * d <= x
    ensures q <= x / d
  {
    DivBounds(x, d);
    assert (x / d + 1) * d == x / d * d + d;
    if q > x / d {
      MulMono(x / d + 1, q, d);
    }
  }

  lemma AtMost(x: nat, d: nat, q: nat)
    requires d > 0 && x < (q + 1) * d
    ensures x / d <= q
  {
    DivBounds(x, d);
    if x / d >= q + 1 {
      MulMono(q + 1, x / d, d);
    }
  }

  /** The reading in 100 ns units is the largest that the adjusted counter has reached; 0 when that is negative. */
  lemma LargestReached(c: Core, tsc: nat, q: nat)
    requires c.par100ns > 0
    ensures tsc + c.adjust < 0 ==> Get100ns(c, tsc) == 0
    ensures tsc + c.adjust >= 0 ==> (q <= Get100ns(c, tsc) <==> q * c.par100ns <= tsc + c.adjust)
  {
    if tsc + c.adjust >= 0 {
      Reached(tsc + c.adjust, c.par100ns, q);
    }
  }

  /** So are the nanoseconds, as long as they fit in 64 bits; there are none before calibration. */
  lemma LargestNanosReached(c: Core, tsc: nat, q: nat)
    ensures !c.initialized || c.par100ns == 0 || tsc + c.adjust < 0 ==> GetTime(c, tsc) == 0
    ensures c.initialized && 0 <= (tsc + c.adjust) * 100 < U64 * c.par100ns ==>
      (q <= GetTime(c, tsc) <==> q * c.par100ns <= (tsc + c.adjust) * 100)
  {
    var x, p := (tsc + c.adjust) * 100, c.par100ns;
    if c.initialized && 0 <= x < U64 * p && p > 0 {
      AtMost(x, p, U64 - 1);
      DivMod(0, x / p, U64);
      Reached(x, p, q);
    } else if p > 0 && tsc + c.adjust < 0 {
      DivMod(0, 0, p);
      DivMod(0, 0, U64);
    }
  }

  lemma Reached(x: nat, d: nat, q: nat)
    requires d > 0
    ensures q <= x / d <==> q * d <= x
  {
    DivBounds(x, d);
    if q <= x / d {
      MulMono(q, x / d, d);
    } else {
      MulMono(x / d + 1, q, d);
      assert (x / d + 1) * d == x / d * d + d;
    }
  }

  /** Dividing the nanoseconds by 100 loses nothing against dividing the counter directly. */
  lemma NanosBy100(c: Core, tsc: nat)
    requires c.par100ns > 0
    ensures Nanos(c, tsc) / 100 == Get100ns(c, tsc)
  {
    var x, p := Common(c, tsc), c.par100ns;
    var q := x / p;
    DivBounds(x, p);
    assert q * 100 * p == q * p * 100 && (q * 100 + 99 + 1) * p == (q * p + p) * 100;
    AtLeast(x * 100, p, q * 100);
    AtMost(x * 100, p, q * 100 + 99);
  }

  /** A reading that was cut is too small by more than one unit. */
  lemma CutIsSmaller(n: nat)
    requires n >= U64
    ensures n % U64 / 100 < n / 100
  {
    var q, m := Split(n, U64);
    MulMono(1, q, U64);
    DivBounds(m, 100);
    DivBounds(n, 100);
  }

  /** The two readings agree exactly as long as the nanoseconds fit in 64 bits. */
  lemma ReadingsAgree(c: Core, tsc: nat)
    requires c.par100ns > 0 && c.initialized
    ensures GetTime(c, tsc) / 100 == Get100ns(c, tsc) <==> Nanos(c, tsc) < U64
  {
    NanosBy100(c, tsc);
    var n := Nanos(c, tsc);
    if n < U64 {
      DivMod(0, n, U64);
    } else {
      CutIsSmaller(n);
    }
  }

  // ---------- waiting ----------

  function WaitCounts(c: Core, wait: nat): nat { wait * c.par100ns / 100 }

  /**
    The busy wait. `clock(i)` is what the i-th reading of the counter shows; `enough` is a reading
    that shows the target has passed. The wait ends at the first reading that does.
   */
  method Spin(c: Core, wait: nat, clock: nat -> nat, ghost enough: nat) returns (last: nat)
    requires clock(enough) >= clock(0) + WaitCounts(c, wait) && enough > 0
    ensures c.par100ns == 0 ==> last == 0
    ensures c.par100ns > 0 ==>
      && 0 < last <= enough && clock(last) >= clock(0) + WaitCounts(c, wait)
      && forall i :: 0 < i < last ==> clock(i) < clock(0) + WaitCounts(c, wait)
  {
    last := 0;
    var start := clock(0);
    if c.par100ns == 0 { return; }
    var waitCounts := wait * c.par100ns / 100;
    var target := start + waitCounts;
    last := 1;
    while clock(last) < target
      invariant 0 < last <= enough
      invariant forall i :: 0 < i < last ==> clock(i) < target
      decreases enough - last
    {
      last := last + 1;
    }
  }

  function CeilDiv(x: nat, d: nat): nat
    requires d > 0
  {
    (x + d - 1) / d
  }

  lemma CeilTimes(x: nat, d: nat)
    requires d > 0
    ensures CeilDiv(x, d) * d >= x
  {
    DivBounds(x + d - 1, d);
  }

  /** The nanoseconds gained by so many counts: at most `ceil(99 / p)` short of the wait. */
  lemma NanosGained(p: nat, a: nat, b: nat, wait: nat)
    requires p > 0 && b >= a + wait * p / 100
    ensures b * 100 / p >= a * 100 / p + wait - CeilDiv(99, p)
  {
    var n, k := a * 100 / p, CeilDiv(99, p);
    DivBounds(a * 100, p);
    DivBounds(wait * p, 100);
    CeilTimes(99, p);
    assert b * 100 >= a * 100 + wait * p - 99;
    assert (n + wait - k) * p == n * p + wait * p - k * p;
    AtLeast(b * 100, p, n + wait - k);
  }

  /**
    The wait bound: after `Spin`, the clock of `GetTime` has advanced by the time asked for, less at
    most `ceil(99 / p)` ns, provided neither adjusted reading is negative nor too large for 64 bits.
   */
  lemma SpinWaitsLongEnough(c: Core, wait: nat, first: nat, last: nat)
    requires c.initialized && c.par100ns > 0
    requires last >= first + WaitCounts(c, wait)
    requires first + c.adjust >= 0 && Nanos(c, last) < U64
    ensures GetTime(c, last) >= GetTime(c, first) + wait - CeilDiv(99, c.par100ns)
  {
    NanosGained(c.par100ns, Common(c, first), Common(c, last), wait);
  }
}
