/**
 * The PWM stage of RGBFadeGamma: one free-running 16-bit counter `pwm_ctr`
 * shared by the three channels, and per channel the registered comparison
 * `pwm_x <= pwm_ctr < x_val`.
 */
module Pwm {
  import opened Phase

  /** The number of ticks in one period of `pwm_ctr`. */
  const Period: nat := 0x1_0000

  /** `pwm_ctr.eq(pwm_ctr + 1)`: the sum is truncated to 16 bits. */
  function Inc16(p: U16): (r: U16)
    ensures p < 0xFFFF ==> r == p + 1
    ensures p == 0xFFFF ==> r == 0
  {
    (p + 1) % 0x1_0000
  }

  /**
   * The comparator `pwm_ctr < x_val` that drives one LED input. A value of 0
   * never turns it on, and no value turns it on at the counter's last value
   * 65535, so the output is never on for a whole period.
   */
  function Comparator(pwmCtr: U16, v: U16): (r: bool)
    ensures v == 0 ==> !r
    ensures r ==> pwmCtr != 0xFFFF
  {
    pwmCtr < v
  }

  /**
   * How many of the `n` consecutive counter values `start`, `start + 1`, ...
   * (taken modulo 2^16, as the counter wraps) make the comparator true for
   * the value `v`.
   */
  function OnCount(v: U16, start: int, n: nat): nat
  {
    if n == 0 then 0
    else OnCount(v, start, n - 1) + (if Comparator((start + n - 1) % 0x1_0000, v) then 1 else 0)
  }

  /** A window of `a + b` values is a window of `a` values followed by one of `b`. */
  lemma {:induction false} OnCountSplit(v: U16, start: int, a: nat, b: nat)
    ensures OnCount(v, start, a + b) == OnCount(v, start, a) + OnCount(v, start + a, b)
  {
    if b > 0 {
      OnCountSplit(v, start, a, b - 1);
    }
  }

  /** Shifting a window by one whole period does not change what it counts. */
  lemma {:induction false} OnCountShift(v: U16, start: int, n: nat)
    ensures OnCount(v, start + 0x1_0000, n) == OnCount(v, start, n)
  {
    if n > 0 {
      OnCountShift(v, start, n - 1);
      var k := start + n - 1;
      assert (k + 0x1_0000) % 0x1_0000 == k % 0x1_0000;
      assert OnCount(v, start + 0x1_0000, n) ==
        OnCount(v, start + 0x1_0000, n - 1) + (if Comparator((k + 0x1_0000) % 0x1_0000, v) then 1 else 0);
    }
  }

  /** From 0, the first `n` counter values (n at most one period) turn the output on min(v, n) times. */
  lemma {:induction false} OnCountFromZero(v: U16, n: nat)
    requires n <= 0x1_0000
    ensures OnCount(v, 0, n) == if n <= v then n else v
  {
    if n > 0 {
      OnCountFromZero(v, n - 1);
    }
  }

  /**
   * Duty cycle: over any full period of `pwm_ctr`, wherever it starts, the
   * comparator against a fixed value `v` is true on exactly `v` ticks.
   */
  lemma {:induction false} FullPeriodDuty(v: U16, start: U16)
    ensures OnCount(v, start, Period) == v
  {
    OnCountSplit(v, start, 0x1_0000 - start, start);
    OnCountShift(v, 0, start);
    OnCountSplit(v, 0, start, 0x1_0000 - start);
    OnCountFromZero(v, 0x1_0000);
  }
}
