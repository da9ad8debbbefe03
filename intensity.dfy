/**
 * The gamma table and the per-channel intensity that the synchronous block
 * of RGBFadeGamma assigns to `r_val`, `g_val` and `b_val`:
 *   x_val <= Mux(col[b], Mux(direction, ~fade_corr, fade_corr), 0)
 * The table values themselves (a floating-point power curve) are not
 * computed here: the table is a parameter with 256 entries of 16 bits.
 */
module Intensity {
  import opened Phase

  /** The three LED channels and the bit of `col` that gates each. */
  datatype Channel = Red | Green | Blue
  {
    /** Red is gated by col[0], green by col[1], blue by col[2]. */
    function Bit(): (b: int)
      ensures 0 <= b < 3
    {
      match this
      case Red => 0
      case Green => 1
      case Blue => 2
    }
  }

  /** What `Memory(16, 256, init=...)` can hold: 256 words of 16 bits. */
  predicate IsGammaTable(t: seq<int>)
  {
    |t| == 0x100 && forall i :: 0 <= i < |t| ==> 0 <= t[i] < 0x1_0000
  }

  type Table = t: seq<int> | IsGammaTable(t) witness seq(0x100, i => 0)

  /** A table that never decreases, as a power curve with a positive exponent does. */
  predicate Monotone(t: Table)
  {
    forall i, j :: 0 <= i <= j < |t| ==> t[i] <= t[j]
  }

  /** Reading word `adr` of the table. */
  function Lookup(t: Table, adr: U8): U16
  {
    t[adr]
  }

  /** Migen's two-way multiplexer `Mux(sel, a, b)`. */
  function Mux<T>(sel: bool, a: T, b: T): T
  {
    if sel then a else b
  }

  /**
   * `~x` on a 16-bit unsigned signal, kept at 16 bits, computed as a
   * subtraction from the all-ones word; it is the bit-by-bit NOT.
   */
  function Complement16(x: U16): (r: U16)
    ensures r == BitwiseNot(x, 16)
  {
    assert Pow2(4) == 0x10;
    assert Pow2(8) == 0x100;
    assert Pow2(12) == 0x1000;
    assert Pow2(16) == 0x1_0000;
    BitwiseNotIsSubtraction(x, 16);
    0xFFFF - x
  }

  /**
   * The value a channel register takes on the next tick, given the counter
   * and the table word `corr` the read port shows. The channel is dark
   * exactly when its `col` bit is 0 or the ramp is at its zero end: a word of
   * 0 on the up ramp, a word of 65535 on the down ramp.
   */
  function ChannelValue(c: U28, ch: Channel, corr: U16): (r: U16)
    ensures r == 0 <==> ColBit(c, ch.Bit()) == 0 || corr == (if Direction(c) == 1 then 0xFFFF else 0)
  {
    Mux(ColBit(c, ch.Bit()) == 1, Mux(Direction(c) == 1, Complement16(corr), corr), 0)
  }

  /** 2 to the power `w`. */
  function Pow2(w: nat): (p: nat)
    ensures p >= 1
  {
    if w == 0 then 1 else 2 * Pow2(w - 1)
  }

  /** Reference definition of `~x` on a `w`-bit word: every one of the `w` low bits inverted. */
  function BitwiseNot(x: nat, w: nat): nat
  {
    if w == 0 then 0 else 2 * BitwiseNot(x / 2, w - 1) + (1 - x % 2)
  }

  /** Inverting all `w` bits of a `w`-bit word is subtracting it from the all-ones word. */
  lemma {:induction false} BitwiseNotIsSubtraction(x: nat, w: nat)
    requires x < Pow2(w)
    ensures BitwiseNot(x, w) == Pow2(w) - 1 - x
  {
    if w > 0 {
      BitwiseNotIsSubtraction(x / 2, w - 1);
    }
  }

  /**
   * Complementing twice gives the word back, and a word plus its complement
   * is 65535: at the same `fade`, a lit channel's up-ramp and down-ramp
   * values sum to 65535.
   */
  lemma ComplementInvolutive(x: U16)
    ensures Complement16(Complement16(x)) == x
    ensures Complement16(x) + x == 0xFFFF
  {
  }

  /**
   * The three cases of a channel's value: off when its `col` bit is 0,
   * whatever `direction` and `fade` are; otherwise the table word on the up
   * ramp and its 16-bit complement on the down ramp.
   */
  lemma ChannelValueCases(c: U28, ch: Channel, corr: U16)
    ensures ColBit(c, ch.Bit()) == 0 ==> ChannelValue(c, ch, corr) == 0
    ensures ColBit(c, ch.Bit()) == 1 && Direction(c) == 0 ==> ChannelValue(c, ch, corr) == corr
    ensures ColBit(c, ch.Bit()) == 1 && Direction(c) == 1 ==> ChannelValue(c, ch, corr) == 0xFFFF - corr
  {
  }

  /**
   * Channels are independent: inverting the `col` bit of one channel leaves
   * the next value of each other channel unchanged, and turns the flipped
   * channel on or off.
   */
  lemma {:induction false} ChannelsIndependent(c: U28, b: int, ch: Channel, corr: U16)
    requires 0 <= b < 3
    ensures 0 <= FlipColBit(c, b) < 0x1000_0000
    ensures ch.Bit() != b ==> ChannelValue(FlipColBit(c, b), ch, corr) == ChannelValue(c, ch, corr)
    ensures ch.Bit() == b && ColBit(c, b) == 1 ==> ChannelValue(FlipColBit(c, b), ch, corr) == 0
    ensures ch.Bit() == b && ColBit(c, b) == 0 ==>
      ChannelValue(FlipColBit(c, b), ch, corr) == Mux(Direction(c) == 1, Complement16(corr), corr)
  {
    FlipColBitFields(c, b);
  }

  /**
   * With a non-decreasing table, a lit channel brightens as `fade` grows on
   * the up ramp and dims as `fade` grows on the down ramp.
   */
  lemma RampFollowsTable(t: Table, c1: U28, c2: U28, ch: Channel)
    requires Monotone(t)
    requires Col(c1) == Col(c2) && Direction(c1) == Direction(c2) && Fade(c1) <= Fade(c2)
    requires ColBit(c1, ch.Bit()) == 1
    ensures Direction(c1) == 0 ==>
      ChannelValue(c1, ch, Lookup(t, Fade(c1))) <= ChannelValue(c2, ch, Lookup(t, Fade(c2)))
    ensures Direction(c1) == 1 ==>
      ChannelValue(c1, ch, Lookup(t, Fade(c1))) >= ChannelValue(c2, ch, Lookup(t, Fade(c2)))
  {
  }
}
