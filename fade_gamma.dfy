/**
 * The register-transfer behaviour of RGBFadeGamma: the registers its
 * synchronous block updates, one clock tick as a function of the registers
 * before it (`Next`), the object that holds the registers and advances them
 * (`RGBFadeGamma.Tick`), and what holds over one tick and over many.
 *
 * The gamma memory is read through Migen's default port, which registers its
 * address on the clock edge: the word that `fade_corr` shows during a tick is
 * the one addressed by `fade` on the tick before. `rdAdr` is that address
 * register.
 */
module FadeGamma {
  import opened Phase
  import opened Intensity
  import opened Pwm

  /** Every register of the design, as they stand between two ticks. */
  datatype Regs = Regs(
    ctr: U28,       // phase counter
    rdAdr: U8,      // address register of the gamma memory read port
    rVal: U16,      // channel intensities
    gVal: U16,
    bVal: U16,
    pwmCtr: U16,    // shared PWM counter
    pwmR: bool,     // the three LED inputs
    pwmG: bool,
    pwmB: bool)

  /** The intensity register of a channel. */
  function Val(s: Regs, ch: Channel): U16
  {
    match ch
    case Red => s.rVal
    case Green => s.gVal
    case Blue => s.bVal
  }

  /** The PWM output register of a channel. */
  function Out(s: Regs, ch: Channel): bool
  {
    match ch
    case Red => s.pwmR
    case Green => s.pwmG
    case Blue => s.pwmB
  }

  /** Every register after reset: Migen signals reset to 0. The reset state is coherent. */
  function Reset(): (r: Regs)
    ensures Coherent(r)
  {
    Regs(0, 0, 0, 0, 0, 0, false, false, false)
  }

  /**
   * `fade_corr`: the table word the read port shows during this tick, which
   * in a coherent state off the wrap tick is the word at the current `fade`.
   */
  function FadeCorr(t: Table, s: Regs): (r: U16)
    ensures Coherent(s) && Low(s.ctr) != 0 ==> r == t[Fade(s.ctr)]
  {
    Lookup(t, s.rdAdr)
  }

  /**
   * One clock tick: every right-hand side reads the registers as they were
   * before the tick, and all of them are replaced at once.
   */
  function Next(t: Table, s: Regs): Regs
  {
    var corr := FadeCorr(t, s);
    Regs(
      ctr := Inc28(s.ctr),
      rdAdr := Fade(s.ctr),
      rVal := ChannelValue(s.ctr, Red, corr),
      gVal := ChannelValue(s.ctr, Green, corr),
      bVal := ChannelValue(s.ctr, Blue, corr),
      pwmCtr := Inc16(s.pwmCtr),
      pwmR := Comparator(s.pwmCtr, s.rVal),
      pwmG := Comparator(s.pwmCtr, s.gVal),
      pwmB := Comparator(s.pwmCtr, s.bVal))
  }

  /** The registers after `n` ticks from `s`. */
  function Run(t: Table, s: Regs, n: nat): Regs
    decreases n
  {
    if n == 0 then s else Run(t, Next(t, s), n - 1)
  }

  /** On how many of the ticks 1..n after `s` the output of `ch` is on. */
  function HighTicks(t: Table, s: Regs, ch: Channel, n: nat): nat
    decreases n
  {
    if n == 0 then 0
    else (if Out(Next(t, s), ch) then 1 else 0) + HighTicks(t, Next(t, s), ch, n - 1)
  }

  /**
   * What holds of every state reachable from reset: the PWM counter runs in
   * step with the low half of the phase counter (both start at 0 and both
   * count every tick), and the read port's address register holds the
   * current `fade` except on the tick where the low half has just wrapped.
   */
  predicate Coherent(s: Regs)
  {
    && s.pwmCtr == Low(s.ctr)
    && (Low(s.ctr) != 0 ==> s.rdAdr == Fade(s.ctr))
  }

  /** The low half of the phase counter counts exactly like the PWM counter. */
  lemma {:induction false} LowStep(c: U28)
    ensures Low(Inc28(c)) == Inc16(Low(c))
  {
    var q := c / 0x1_0000;
    assert c == q * 0x1_0000 + Low(c);
    if c == 0xFFF_FFFF {
    } else if Low(c) == 0xFFFF {
      assert Inc28(c) == (q + 1) * 0x1_0000;
    } else {
      assert Inc28(c) == q * 0x1_0000 + (Low(c) + 1);
    }
  }

  /** A tick keeps the registers coherent. */
  lemma {:induction false} NextCoherent(t: Table, s: Regs)
    requires Coherent(s)
    ensures Coherent(Next(t, s))
  {
    LowStep(s.ctr);
    FadeStep(s.ctr);
  }

  /**
   * The read port's address register needs no reset value: `col` is 0 on the
   * first tick, so every channel takes 0 whatever word the port shows.
   */
  lemma ResetReadAddressIrrelevant(t: Table, a: U8)
    ensures Next(t, Reset().(rdAdr := a)) == Next(t, Reset())
  {
    assert Col(0) == 0;
    var s0 := Reset();
    var s1 := s0.(rdAdr := a);
    ChannelOffAfterTick(t, s0, Red);
    ChannelOffAfterTick(t, s0, Green);
    ChannelOffAfterTick(t, s0, Blue);
    ChannelOffAfterTick(t, s1, Red);
    ChannelOffAfterTick(t, s1, Green);
    ChannelOffAfterTick(t, s1, Blue);
  }

  /** If a channel's `col` bit is 0 before a tick, its intensity is 0 after it, whatever `direction` and `fade` are. */
  lemma ChannelOffAfterTick(t: Table, s: Regs, ch: Channel)
    requires ColBit(s.ctr, ch.Bit()) == 0
    ensures Val(Next(t, s), ch) == 0
  {
  }

  /**
   * On a tick where `fade` has not just advanced, a lit channel takes the
   * gamma word at the current `fade` on the up ramp and its 16-bit
   * complement on the down ramp.
   */
  lemma ChannelOnAfterTick(t: Table, s: Regs, ch: Channel)
    requires Coherent(s) && Low(s.ctr) != 0
    requires ColBit(s.ctr, ch.Bit()) == 1
    ensures Direction(s.ctr) == 0 ==> Val(Next(t, s), ch) == t[Fade(s.ctr)]
    ensures Direction(s.ctr) == 1 ==> Val(Next(t, s), ch) == 0xFFFF - t[Fade(s.ctr)]
  {
  }

  /** Stepping `fade` on by one and back by one, modulo 256, gives it back. */
  lemma PreviousFade(f: U8)
    ensures ((f + 1) % 0x100 + 0xFF) % 0x100 == f
  {
  }

  /** A channel's intensity after a tick is computed from the word at the registered read address. */
  lemma ValAfterTick(t: Table, s: Regs, ch: Channel)
    ensures Val(Next(t, s), ch) == ChannelValue(s.ctr, ch, t[s.rdAdr])
  {
  }

  /**
   * On the one tick in 65536 where the low half of the counter has just
   * wrapped, the read port still shows the word for the previous `fade`
   * (one less, modulo 256), so the channel is computed from that stale word.
   */
  lemma {:induction false} StaleWordAfterFadeStep(t: Table, p: Regs, ch: Channel)
    requires Low(Next(t, p).ctr) == 0
    ensures var s := Next(t, p);
      s.rdAdr == (Fade(s.ctr) + 0xFF) % 0x100 &&
      Val(Next(t, s), ch) == ChannelValue(s.ctr, ch, t[(Fade(s.ctr) + 0xFF) % 0x100])
  {
    var s := Next(t, p);
    assert s.ctr == Inc28(p.ctr) && s.rdAdr == Fade(p.ctr);
    FadeStep(p.ctr);
    PreviousFade(Fade(p.ctr));
    ValAfterTick(t, s, ch);
  }

  /**
   * Channels are independent: inverting the `col` bit of one channel before
   * a tick leaves the intensity every other channel gets from that tick
   * unchanged.
   */
  lemma {:induction false} NextChannelsIndependent(t: Table, s: Regs, b: int, ch: Channel)
    requires 0 <= b < 3 && ch.Bit() != b
    ensures 0 <= FlipColBit(s.ctr, b) < 0x1000_0000
    ensures Val(Next(t, s.(ctr := FlipColBit(s.ctr, b))), ch) == Val(Next(t, s), ch)
  {
    ChannelsIndependent(s.ctr, b, ch, FadeCorr(t, s));
  }

  /** Registered comparison: each output after a tick compares the PWM counter and the intensity as they were before it. */
  lemma OutAfterTick(t: Table, s: Regs, ch: Channel)
    ensures Out(Next(t, s), ch) == Comparator(s.pwmCtr, Val(s, ch))
  {
  }

  /**
   * The pipeline's latencies: the output on the third tick after `s`
   * compares the PWM counter two ticks on with the intensity computed from
   * the next counter value and the table word that `s`'s `fade` addresses.
   */
  lemma PipelineLatency(t: Table, s: Regs, ch: Channel)
    ensures Val(Next(t, Next(t, s)), ch) == ChannelValue(Inc28(s.ctr), ch, t[Fade(s.ctr)])
    ensures Out(Run(t, s, 3), ch) ==
      Comparator(Inc16(Inc16(s.pwmCtr)), ChannelValue(Inc28(s.ctr), ch, t[Fade(s.ctr)]))
  {
    var s1 := Next(t, s);
    var s2 := Next(t, s1);
    assert Run(t, s, 3) == Run(t, s2, 1) == Next(t, s2);
  }

  /** Counting on from a value reduced modulo 2^28 and reducing again is reducing the whole sum. */
  lemma CtrAdd(a: nat, b: nat)
    ensures (a % 0x1000_0000 + b) % 0x1000_0000 == (a + b) % 0x1000_0000
  {
    var q := a / 0x1000_0000;
    assert a + b == q * 0x1000_0000 + (a % 0x1000_0000 + b);
  }

  /** Counting on from a value reduced modulo 2^16 and reducing again is reducing the whole sum. */
  lemma PwmCtrAdd(a: nat, b: nat)
    ensures (a % 0x1_0000 + b) % 0x1_0000 == (a + b) % 0x1_0000
  {
    var q := a / 0x1_0000;
    assert a + b == q * 0x1_0000 + (a % 0x1_0000 + b);
  }

  /** After `n` ticks both counters have advanced by `n`, each modulo its width. */
  lemma {:induction false} RunCounters(t: Table, s: Regs, n: nat)
    ensures Run(t, s, n).ctr == (s.ctr + n) % 0x1000_0000
    ensures Run(t, s, n).pwmCtr == (s.pwmCtr + n) % 0x1_0000
    decreases n
  {
    if n > 0 {
      var s' := Next(t, s);
      assert s'.ctr == (s.ctr + 1) % 0x1000_0000;
      assert s'.pwmCtr == (s.pwmCtr + 1) % 0x1_0000;
      RunCounters(t, s', n - 1);
      assert Run(t, s, n) == Run(t, s', n - 1);
      CtrAdd(s.ctr + 1, n - 1);
      PwmCtrAdd(s.pwmCtr + 1, n - 1);
    }
  }

  /** Counting from `p` is counting `p` itself and then counting on from the next PWM counter value. */
  lemma {:induction false} OnCountFirst(v: U16, p: U16, n: nat)
    requires n > 0
    ensures OnCount(v, p, n) == (if Comparator(p, v) then 1 else 0) + OnCount(v, Inc16(p), n - 1)
  {
    OnCountSplit(v, p, 1, n - 1);
    assert OnCount(v, p, 1) == OnCount(v, p, 0) + (if Comparator(p % 0x1_0000, v) then 1 else 0);
    if p == 0xFFFF {
      OnCountShift(v, 0, n - 1);
      assert p + 1 == 0 + 0x1_0000;
    } else {
      assert Inc16(p) == p + 1;
    }
  }

  /** While a channel's intensity holds `v`, its output counts the same ticks as the comparator over the PWM counter's values. */
  lemma {:induction false} HighTicksIsOnCount(t: Table, s: Regs, ch: Channel, v: U16, n: nat)
    requires forall k :: 0 <= k < n ==> Val(Run(t, s, k), ch) == v
    ensures HighTicks(t, s, ch, n) == OnCount(v, s.pwmCtr, n)
    decreases n
  {
    if n > 0 {
      var s' := Next(t, s);
      assert Val(Run(t, s, 0), ch) == v;
      forall k | 0 <= k < n - 1
        ensures Val(Run(t, s', k), ch) == v
      {
        assert Run(t, s, k + 1) == Run(t, s', k);
      }
      HighTicksIsOnCount(t, s', ch, v, n - 1);
      OutAfterTick(t, s, ch);
      OnCountFirst(v, s.pwmCtr, n);
    }
  }

  /**
   * Duty cycle of the running design: if a channel's intensity holds `v`
   * for a whole period of the PWM counter, its output is on for exactly `v`
   * of the following 65536 ticks.
   */
  lemma {:induction false} DutyCycle(t: Table, s: Regs, ch: Channel, v: U16)
    requires forall k :: 0 <= k < Period ==> Val(Run(t, s, k), ch) == v
    ensures HighTicks(t, s, ch, Period) == v
  {
    HighTicksIsOnCount(t, s, ch, v, Period);
    FullPeriodDuty(v, s.pwmCtr);
  }

  /** The design's registers, advanced one clock tick at a time. */
  class RGBFadeGamma {
    /** The gamma memory's contents, fixed at construction. */
    const table: Table
    var ctr: U28
    var rdAdr: U8
    var rVal: U16
    var gVal: U16
    var bVal: U16
    var pwmCtr: U16
    var pwmR: bool
    var pwmG: bool
    var pwmB: bool

    /** The registers as a value. */
    function State(): Regs
      reads this
    {
      Regs(ctr, rdAdr, rVal, gVal, bVal, pwmCtr, pwmR, pwmG, pwmB)
    }

    ghost predicate Valid()
      reads this
    {
      Coherent(State())
    }

    /** Power-up: the table is loaded and every register holds its reset value. */
    constructor (table: Table)
      ensures this.table == table
      ensures State() == Reset()
      ensures Valid()
    {
      this.table := table;
      ctr, rdAdr := 0, 0;
      rVal, gVal, bVal := 0, 0, 0;
      pwmCtr := 0;
      pwmR, pwmG, pwmB := false, false, false;
    }

    /** One clock edge: every register is assigned from the values all registers held before it. */
    method Tick()
      requires Valid()
      modifies this
      ensures Valid()
      ensures State() == Next(table, old(State()))
      ensures ctr == Inc28(old(ctr)) && pwmCtr == Inc16(old(pwmCtr))
    {
      NextCoherent(table, State());
      var corr := table[rdAdr];
      ctr, rdAdr, rVal, gVal, bVal, pwmCtr, pwmR, pwmG, pwmB :=
        Inc28(ctr),
        Fade(ctr),
        ChannelValue(ctr, Red, corr),
        ChannelValue(ctr, Green, corr),
        ChannelValue(ctr, Blue, corr),
        Inc16(pwmCtr),
        pwmCtr < rVal,
        pwmCtr < gVal,
        pwmCtr < bVal;
    }

    /** The three LED inputs the driver primitive receives. */
    method Outputs() returns (r: bool, g: bool, b: bool)
      ensures r == Out(State(), Red) && g == Out(State(), Green) && b == Out(State(), Blue)
    {
      r, g, b := pwmR, pwmG, pwmB;
    }
  }
}
