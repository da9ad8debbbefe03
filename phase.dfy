/**
 * The free-running 28-bit phase counter `ctr` of RGBFadeGamma and the three
 * bit fields the combinational logic reads off it:
 *   col       = ctr[25:28]  (which channels are lit)
 *   direction = ctr[24]     (0 ramps up, 1 ramps down)
 *   fade      = ctr[16:24]  (index into the gamma table)
 * The low 16 bits ctr[0:16] are not named in the design; they make every
 * field hold its value for 65536 ticks.
 */
module Phase {

  /** Values a 28-bit register can hold. */
  type U28 = x: int | 0 <= x < 0x1000_0000
  /** Values a 16-bit register can hold. */
  type U16 = x: int | 0 <= x < 0x1_0000
  /** Values an 8-bit signal can hold. */
  type U8 = x: int | 0 <= x < 0x100
  /** Values a 3-bit signal can hold. */
  type U3 = x: int | 0 <= x < 8
  /** Values a 1-bit signal can hold. */
  type Bit = x: int | 0 <= x < 2

  /** `ctr.eq(ctr + 1)`: the sum is one bit wider than `ctr` and is truncated to 28 bits. */
  function Inc28(c: U28): (r: U28)
    ensures c < 0xFFF_FFFF ==> r == c + 1
    ensures c == 0xFFF_FFFF ==> r == 0
  {
    (c + 1) % 0x1000_0000
  }

  /** `col`: bits 25 to 27 of the counter. */
  function Col(c: U28): U3
  {
    (c / 0x200_0000) % 8
  }

  /** `direction`: bit 24 of the counter. */
  function Direction(c: U28): Bit
  {
    (c / 0x100_0000) % 2
  }

  /** `fade`: bits 16 to 23 of the counter. */
  function Fade(c: U28): U8
  {
    (c / 0x1_0000) % 0x100
  }

  /** The unnamed low half of the counter, bits 0 to 15. */
  function Low(c: U28): U16
  {
    c % 0x1_0000
  }

  /** Bit `b` (0..2) of a 3-bit value. */
  function Bit3(x: U3, b: int): Bit
    requires 0 <= b < 3
  {
    if b == 0 then x % 2
    else if b == 1 then (x / 2) % 2
    else (x / 4) % 2
  }

  /** `col[b]` for b in 0..2. */
  function ColBit(c: U28, b: int): Bit
    requires 0 <= b < 3
  {
    Bit3(Col(c), b)
  }

  /** Reference definition: the counter value whose fields are the given ones. */
  function Compose(col: U3, direction: Bit, fade: U8, low: U16): U28
  {
    col * 0x200_0000 + direction * 0x100_0000 + fade * 0x1_0000 + low
  }

  /** The weight of bit `b` of `col` inside the counter, 2^(25 + b). */
  function ColBitWeight(b: int): int
    requires 0 <= b < 3
  {
    if b == 0 then 0x200_0000 else if b == 1 then 0x400_0000 else 0x800_0000
  }

  /** The counter value with bit `b` of `col` inverted and every other bit kept. */
  function FlipColBit(c: U28, b: int): int
    requires 0 <= b < 3
  {
    if ColBit(c, b) == 1 then c - ColBitWeight(b) else c + ColBitWeight(b)
  }

  /** Splitting off the low 16 bits: c == (c / 2^16) * 2^16 + Low(c), with the quotient below 2^12. */
  lemma {:induction false} SplitLow(c: U28)
    ensures c / 0x1_0000 < 0x1000
    ensures c / 0x100_0000 == (c / 0x1_0000) / 0x100
    ensures c / 0x200_0000 == (c / 0x1_0000) / 0x200
  {
    var q := c / 0x1_0000;
    var r := c % 0x1_0000;
    assert c == q * 0x1_0000 + r;
    assert c == (q / 0x100) * 0x100_0000 + ((q % 0x100) * 0x1_0000 + r);
    assert c == (q / 0x200) * 0x200_0000 + ((q % 0x200) * 0x1_0000 + r);
  }

  /** The three decoded fields and the low half partition the counter: nothing is lost or overlapped. */
  lemma {:induction false} DecodeCompose(c: U28)
    ensures Compose(Col(c), Direction(c), Fade(c), Low(c)) == c
  {
    SplitLow(c);
    var q := c / 0x1_0000;
    assert q == (q / 0x200) * 0x200 + ((q / 0x100) % 2) * 0x100 + q % 0x100;
  }

  /** Decoding a composed counter gives back every field. */
  lemma {:induction false} ComposeDecode(col: U3, direction: Bit, fade: U8, low: U16)
    ensures var c := Compose(col, direction, fade, low);
      Col(c) == col && Direction(c) == direction && Fade(c) == fade && Low(c) == low
  {
    var c := Compose(col, direction, fade, low);
    var q := col * 0x200 + direction * 0x100 + fade;
    assert c == q * 0x1_0000 + low;
    assert c / 0x1_0000 == q;
    SplitLow(c);
    assert q / 0x100 == col * 2 + direction;
    assert q / 0x200 == col;
  }

  /** Between two ticks the fields stay put unless the low half wraps to 0, and then `fade` advances by one (mod 256). */
  lemma {:induction false} FadeStep(c: U28)
    ensures Low(Inc28(c)) != 0 ==>
      Col(Inc28(c)) == Col(c) && Direction(Inc28(c)) == Direction(c) && Fade(Inc28(c)) == Fade(c)
    ensures Low(Inc28(c)) == 0 ==> Fade(Inc28(c)) == (Fade(c) + 1) % 0x100
  {
    var n := Inc28(c);
    if c == 0xFFF_FFFF {
      assert n == 0;
    } else {
      assert n == c + 1;
      var q := c / 0x1_0000;
      assert c == q * 0x1_0000 + Low(c);
      if Low(n) != 0 {
        assert Low(c) < 0xFFFF;
        assert n == q * 0x1_0000 + (Low(c) + 1);
        assert n / 0x1_0000 == q;
        SplitLow(c);
        SplitLow(n);
      } else {
        assert Low(c) == 0xFFFF;
        assert n == (q + 1) * 0x1_0000;
        assert n / 0x1_0000 == q + 1;
      }
    }
  }

  /** Adding 2^24 to a counter, modulo 2^28, carries out of `direction` into `col`. */
  lemma ComposeAddDirectionUnit(col: U3, direction: Bit, fade: U8, low: U16)
    ensures (Compose(col, direction, fade, low) + 0x100_0000) % 0x1000_0000 ==
      if direction == 0 then Compose(col, 1, fade, low)
      else if col < 7 then Compose(col + 1, 0, fade, low)
      else Compose(0, 0, fade, low)
  {
  }

  /** Adding 2^25 to a counter, modulo 2^28, steps `col` and wraps it from 7 to 0. */
  lemma ComposeAddColUnit(col: U3, direction: Bit, fade: U8, low: U16)
    ensures (Compose(col, direction, fade, low) + 0x200_0000) % 0x1000_0000 ==
      Compose(if col < 7 then col + 1 else 0, direction, fade, low)
  {
  }

  /** `fade` repeats every 2^24 ticks while `direction` alternates, so each half of a 2^25-tick block is one ramp. */
  lemma {:induction false} RampPeriod(c: U28)
    ensures Fade((c + 0x100_0000) % 0x1000_0000) == Fade(c)
    ensures Direction((c + 0x100_0000) % 0x1000_0000) == 1 - Direction(c)
  {
    var col, dir, fade, low := Col(c), Direction(c), Fade(c), Low(c);
    DecodeCompose(c);
    ComposeAddDirectionUnit(col, dir, fade, low);
    if dir == 0 {
      ComposeDecode(col, 1, fade, low);
    } else if col < 7 {
      ComposeDecode(col + 1, 0, fade, low);
    } else {
      ComposeDecode(0, 0, fade, low);
    }
  }

  /** Every 2^25 ticks `col` moves to the next of its 8 combinations, the other fields unchanged. */
  lemma {:induction false} ColAdvance(c: U28)
    ensures var n := (c + 0x200_0000) % 0x1000_0000;
      Col(n) == (if Col(c) < 7 then Col(c) + 1 else 0) && Direction(n) == Direction(c) && Fade(n) == Fade(c)
  {
    var col, dir, fade, low := Col(c), Direction(c), Fade(c), Low(c);
    DecodeCompose(c);
    ComposeAddColUnit(col, dir, fade, low);
    var n := (c + 0x200_0000) % 0x1000_0000;
    if col < 7 {
      assert n == Compose(col + 1, dir, fade, low);
      ComposeDecode(col + 1, dir, fade, low);
    } else {
      assert n == Compose(0, dir, fade, low);
      ComposeDecode(0, dir, fade, low);
    }
  }

  /** Inverting bit `b` of a 3-bit value by adding or subtracting its weight touches no other bit. */
  lemma {:induction false} FlipBit3(x: U3, b: int)
    requires 0 <= b < 3
    ensures var w := if b == 0 then 1 else if b == 1 then 2 else 4;
      var y := if Bit3(x, b) == 1 then x - w else x + w;
      0 <= y < 8 && Bit3(y, b) == 1 - Bit3(x, b) &&
      forall k :: 0 <= k < 3 && k != b ==> Bit3(y, k) == Bit3(x, k)
  {
    if x == 0 {
    } else if x == 1 {
    } else if x == 2 {
    } else if x == 3 {
    } else if x == 4 {
    } else if x == 5 {
    } else if x == 6 {
    } else {
    }
  }

  /** Inverting one `col` bit stays a 28-bit value, inverts that bit and leaves every other bit of the counter alone. */
  lemma {:induction false} FlipColBitFields(c: U28, b: int)
    requires 0 <= b < 3
    ensures 0 <= FlipColBit(c, b) < 0x1000_0000
    ensures ColBit(FlipColBit(c, b), b) == 1 - ColBit(c, b)
    ensures forall k :: 0 <= k < 3 && k != b ==> ColBit(FlipColBit(c, b), k) == ColBit(c, k)
    ensures Direction(FlipColBit(c, b)) == Direction(c)
    ensures Fade(FlipColBit(c, b)) == Fade(c)
    ensures Low(FlipColBit(c, b)) == Low(c)
  {
    DecodeCompose(c);
    var col := Col(c);
    FlipBit3(col, b);
    var w: int := if b == 0 then 1 else if b == 1 then 2 else 4;
    var col': U3 := if Bit3(col, b) == 1 then col - w else col + w;
    var rest := Direction(c) * 0x100_0000 + Fade(c) * 0x1_0000 + Low(c);
    assert c == col * 0x200_0000 + rest;
    assert ColBitWeight(b) == w * 0x200_0000;
    assert FlipColBit(c, b) == col' * 0x200_0000 + rest;
    assert FlipColBit(c, b) == Compose(col', Direction(c), Fade(c), Low(c));
    ComposeDecode(col', Direction(c), Fade(c), Low(c));
  }
}
