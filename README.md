# RGB fade with gamma correction, modelled in Dafny

This project models the logic of `RGBFadeGamma`, a Migen design for the
iCEBreaker board. It drives the three channels of the board's RGB LED
through a breathing fade. The design is a small synchronous circuit:

- a free-running 28-bit phase counter `ctr`;
- three fields decoded from it: `col` (bits 25-27, which channels are lit),
  `direction` (bit 24, up or down ramp) and `fade` (bits 16-23, the ramp
  position);
- a 256-word, 16-bit gamma table in a block memory, read at `fade`;
- three registered intensities `r_val`, `g_val` and `b_val`, each gated by
  its own `col` bit and complemented on the down ramp;
- a shared 16-bit PWM counter `pwm_ctr` and three registered comparator
  outputs `pwm_r`, `pwm_g` and `pwm_b`, which feed the LED driver.

Files:

- `phase.dfy` (module `Phase`): register widths, the counter increment,
  and the `col`/`direction`/`fade` decoders. It proves that the decoded
  fields partition the counter, how they step from tick to tick, and how
  they repeat.
- `intensity.dfy` (module `Intensity`): the gamma table type, the
  16-bit complement and the per-channel intensity `Mux`.
- `pwm.dfy` (module `Pwm`): the PWM counter, the comparator and the
  duty-cycle count over one period.
- `fade_gamma.dfy` (module `FadeGamma`): all registers as one value
  `Regs` and one clock tick as the function `Next`. The class
  `RGBFadeGamma` holds the registers as fields; its `Tick` method updates
  them all at once from their values before the tick. The module also has
  the invariant every reachable state keeps, and lemmas about one tick and
  about many ticks.

Decisions in the model:

- The gamma table is a constructor parameter of type `Table`: 256 integers,
  each in `[0, 65536)`, which is what a `Memory(16, 256, ...)` holds. Its
  values are not computed. Where monotonicity matters (`RampFollowsTable`),
  it is a precondition.
- `~fade_corr` on the 16-bit signal is `65535 - fade_corr`. The contract
  of `Complement16` proves that this equals a bit-by-bit NOT.
- The memory is read through `self.mem.get_port()` with Migen's defaults.
  That port is synchronous: it latches its address on the clock edge and
  shows the word at the latched address. The model therefore has an
  address register `rdAdr`, set to `fade` on each tick. The word that
  `fade_corr` shows during a tick was addressed by the previous tick's
  `fade`. For 65535 ticks out of 65536 this is the current `fade`
  (`Coherent`, `ChannelOnAfterTick`). On the tick where `fade` has just
  advanced, the old word is used (`StaleWordAfterFadeStep`). The model
  starts `rdAdr` at 0, but its starting value makes no difference: `col` is
  0 on the first tick, so every channel takes 0 whatever word the port
  shows, and the first tick gives the same registers for every starting
  address (`ResetReadAddressIrrelevant`).
- Register widths are types: `U28` for `ctr`, `U16` for `pwm_ctr` and
  the three intensities, `U8` for the read address. The three one-bit
  outputs `pwm_r`, `pwm_g` and `pwm_b` are `bool`. Every other field of
  `Regs` and of `RGBFadeGamma` has one of the integer types, so the range
  invariant (`ctr < 2^28`, the read address below 2^8, the others below
  2^16) holds after every `Tick` by typing.
  The wrap-around of both counters is explicit in `Inc28` and `Inc16`.
- `pwm_ctr` and the low 16 bits of `ctr` both reset to 0 and both count
  every tick, so they are always equal (`Coherent`, `LowStep`).

Facts about the code that the model keeps:

- `gen_gamma_table` truncates each entry with `int()` rather than rounding
  it. Since the table is a parameter, the model does not assume
  `table[255] == 65535`.
- The synchronous read port adds one pipeline stage between `fade` and
  `fade_corr` (the register `rdAdr` described above).
- The comparator `pwm_ctr < x_val` makes the duty cycle exactly `v` ticks
  out of 65536 (`FullPeriodDuty`, `DutyCycle`). A value of 0 never lights
  the LED, and no value lights it on every tick (`Comparator`).

## Model

| member | source | states |
|---|---|---|
| Phase.Inc28 | rgb_fade_gamma/rgb_fade.py:36 | the phase counter goes up by one and wraps from 2^28-1 to 0 |
| Phase.Col | rgb_fade_gamma/rgb_fade.py:15 | `col` is bits 25-27 of the counter; it has no contract of its own and is pinned down by `DecodeCompose`, `ComposeDecode` and `ColAdvance` |
| Phase.Direction | rgb_fade_gamma/rgb_fade.py:16 | `direction` is bit 24 of the counter; it has no contract of its own and is pinned down by `DecodeCompose`, `ComposeDecode` and `RampPeriod` |
| Phase.Fade | rgb_fade_gamma/rgb_fade.py:17 | `fade` is bits 16-23 of the counter; it has no contract of its own and is pinned down by `DecodeCompose`, `ComposeDecode`, `FadeStep` and `RampPeriod` |
| Phase.DecodeCompose | rgb_fade_gamma/rgb_fade.py:15-17 | `col`, `direction`, `fade` and the low 16 bits together rebuild the counter, so the slices neither overlap nor leave gaps |
| Phase.ComposeDecode | rgb_fade_gamma/rgb_fade.py:15-17 | decoding a counter built from in-range fields gives back each field (the other direction of the round trip) |
| Phase.FadeStep | rgb_fade_gamma/rgb_fade.py:15-17 | across a tick `col`, `direction` and `fade` stay unchanged unless the low half wraps to 0; then `fade` goes up by one, modulo 256 |
| Phase.RampPeriod | rgb_fade_gamma/rgb_fade.py:16-17 | 2^24 ticks later `fade` is the same and `direction` is inverted |
| Phase.ColAdvance | rgb_fade_gamma/rgb_fade.py:15 | 2^25 ticks later `col` is the next of its 8 values, and `direction` and `fade` are unchanged |
| Phase.FlipColBitFields | rgb_fade_gamma/rgb_fade.py:15 | inverting one `col` bit stays within 28 bits, inverts that bit and leaves the other `col` bits, `direction`, `fade` and the low half unchanged |
| Intensity.BitwiseNotIsSubtraction | rgb_fade_gamma/rgb_fade.py:37 | inverting every bit of a `w`-bit word gives 2^w - 1 minus the word |
| Intensity.Complement16 | rgb_fade_gamma/rgb_fade.py:37-39 | the `65535 - x` that models `~fade_corr` equals the bit-by-bit NOT of the 16-bit word (`BitwiseNot`) |
| Intensity.ComplementInvolutive | rgb_fade_gamma/rgb_fade.py:37-39 | the complement undoes itself, and a word plus its complement is 65535: at the same `fade`, a lit channel's up-ramp and down-ramp values sum to 65535 |
| Intensity.ChannelValue | rgb_fade_gamma/rgb_fade.py:37-39 | the value a channel register takes is 0 exactly when its `col` bit is 0 or the ramp is at its zero end (word 0 on the up ramp, word 65535 on the down ramp); `ChannelValueCases` gives the three cases |
| Intensity.ChannelValueCases | rgb_fade_gamma/rgb_fade.py:37-39 | a channel whose `col` bit is 0 gets 0; a lit channel gets the table word on the up ramp and 65535 minus it on the down ramp |
| Intensity.ChannelsIndependent | rgb_fade_gamma/rgb_fade.py:37-39 | inverting one channel's `col` bit leaves the other channels' values unchanged and switches that channel between 0 and its ramp value |
| Intensity.RampFollowsTable | rgb_fade_gamma/rgb_fade.py:29-39 | with a non-decreasing table, a lit channel's value rises with `fade` on the up ramp and falls with it on the down ramp |
| Pwm.Inc16 | rgb_fade_gamma/rgb_fade.py:42 | the PWM counter goes up by one and wraps from 65535 to 0 |
| Pwm.Comparator | rgb_fade_gamma/rgb_fade.py:43-45 | `pwm_ctr < x_val` is never true for a value of 0 and never true at the counter's last value 65535; `FullPeriodDuty` counts how often it is true |
| Pwm.OnCountFromZero | rgb_fade_gamma/rgb_fade.py:43-45 | over the counter values 0..n-1 the comparator against `v` is true min(v, n) times |
| Pwm.FullPeriodDuty | rgb_fade_gamma/rgb_fade.py:42-45 | over any 65536 consecutive PWM counter values, wherever they start, the comparator against `v` is true exactly `v` times |
| FadeGamma.LowStep | rgb_fade_gamma/rgb_fade.py:36-42 | the low 16 bits of the phase counter step exactly like the PWM counter |
| FadeGamma.Reset | rgb_fade_gamma/rgb_fade.py:11-26 | every register resets to 0, and that state satisfies the invariant `Coherent` |
| FadeGamma.FadeCorr | rgb_fade_gamma/rgb_fade.py:29-33 | `fade_corr` is the table word at the registered read address, which in a coherent state off the wrap tick is the word at the current `fade` |
| FadeGamma.Next | rgb_fade_gamma/rgb_fade.py:36-45 | one tick of the `sync` block, every register computed from the values before the tick; it has no contract of its own and is pinned down by `NextCoherent`, `ChannelOffAfterTick`, `ChannelOnAfterTick`, `StaleWordAfterFadeStep`, `OutAfterTick`, `RunCounters` and, through `Tick`, by the class |
| FadeGamma.ResetReadAddressIrrelevant | rgb_fade_gamma/rgb_fade.py:29-39 | the starting value of the read address register makes no difference: the first tick after reset gives the same registers for every starting address, because `col` is 0 |
| FadeGamma.NextCoherent | rgb_fade_gamma/rgb_fade.py:29-42 | a tick keeps the invariant: PWM counter equal to the counter's low half, read address equal to `fade` except just after the low half wraps |
| FadeGamma.ChannelOffAfterTick | rgb_fade_gamma/rgb_fade.py:37-39 | a channel whose `col` bit is 0 before a tick has value 0 after it, whatever `direction` and `fade` are |
| FadeGamma.ChannelOnAfterTick | rgb_fade_gamma/rgb_fade.py:29-39 | in a coherent state, away from a `fade` step, a lit channel gets `table[fade]` on the up ramp and `65535 - table[fade]` on the down ramp |
| FadeGamma.StaleWordAfterFadeStep | rgb_fade_gamma/rgb_fade.py:29-39 | on the tick right after `fade` advances, the read port still holds the previous index (`fade - 1` mod 256), and the channel value is computed from that word |
| FadeGamma.NextChannelsIndependent | rgb_fade_gamma/rgb_fade.py:37-39 | inverting one `col` bit before a tick leaves the values the other two channels get from that tick unchanged |
| FadeGamma.OutAfterTick | rgb_fade_gamma/rgb_fade.py:43-45 | each output after a tick is the comparison of the PWM counter and that channel's intensity as they were before the tick |
| FadeGamma.PipelineLatency | rgb_fade_gamma/rgb_fade.py:29-45 | an intensity is computed from the previous counter's `col` and `direction` and the word that the counter before that addressed; so the `fade` of a counter value reaches the LED input three ticks later, compared against the PWM counter two ticks on |
| FadeGamma.CtrAdd | rgb_fade_gamma/rgb_fade.py:36 | a helper for `RunCounters`, about `%` only: reducing modulo 2^28 before and after adding gives the reduced sum |
| FadeGamma.PwmCtrAdd | rgb_fade_gamma/rgb_fade.py:42 | a helper for `RunCounters`, about `%` only: the same fact modulo 2^16 |
| FadeGamma.RunCounters | rgb_fade_gamma/rgb_fade.py:36-42 | after `n` ticks the phase counter has advanced by `n` modulo 2^28 and the PWM counter by `n` modulo 2^16 |
| FadeGamma.OnCountFirst | rgb_fade_gamma/rgb_fade.py:42-45 | counting comparator hits from counter value `p` is the hit at `p` plus the hits counted from the next, wrapped, counter value |
| FadeGamma.HighTicksIsOnCount | rgb_fade_gamma/rgb_fade.py:42-45 | while a channel's value stays `v` for `n` ticks, its output over the next `n` ticks is on as often as the comparator is true over the `n` PWM counter values from the starting one |
| FadeGamma.DutyCycle | rgb_fade_gamma/rgb_fade.py:42-45 | if a channel's value stays `v` for a whole PWM period, its output is on for exactly `v` of the next 65536 ticks |
| FadeGamma.RGBFadeGamma.constructor | rgb_fade_gamma/rgb_fade.py:7-33 | the table is loaded, every register holds its reset value 0, and the invariant holds |
| FadeGamma.RGBFadeGamma.Tick | rgb_fade_gamma/rgb_fade.py:36-45 | all registers change together to `Next` of their values before the tick: both counters wrap, and the invariant is kept |
| FadeGamma.RGBFadeGamma.Outputs | rgb_fade_gamma/rgb_fade.py:49-51 | the three LED driver inputs are the current `pwm_r`, `pwm_g` and `pwm_b` registers |

## Left out

- The gamma values of `gen_gamma_table` (rgb_fade.py:61-63) are left out. They come from floating-point `pow` followed by `int()` truncation. The table is a parameter with bounded entries. Monotonicity is assumed, as a precondition, only where a lemma needs it.
- The `SB_RGBA_DRV` driver instance (rgb_fade.py:46-59) is left out: it is a vendor hardware primitive with no visible behaviour. Its constant enable and current settings are not modelled. Only the three PWM signals it receives are (`Outputs`).
- Pin assignment, platform build and flashing (rgb_fade.py:65-76) are left out: they are I/O and tooling.
- The `Memory` and port primitives (rgb_fade.py:29-31) are modelled only as sequence indexing at a registered address. Write ports, read-enable and the generated Verilog are not modelled.
- The clock is left out. A tick is one call of `Tick`, or one application of `Next`. No loop in the model drives it.
