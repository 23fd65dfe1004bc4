/** A channel: its wiring, conversion settings, filters and write priorities. */
module Channels {
  import opened EngineTypes
  import opened ValueConv
  import Priority
  import Table

  datatype ChannelType = Analog | Digital | Pwm | Triac | I2c | Uart | VirtualAnalog | VirtualDigital
  {
    predicate IsVirtual() {
      VirtualAnalog? || VirtualDigital?
    }
  }

  datatype Direction = In | Out | High | Low | NoDirection
  {
    predicate IsOutput() {
      Out? || High? || Low?
    }
  }

  datatype Channel = Channel(
    channelIn: Option<ChannelId>, enabled: bool, channelType: ChannelType, direction: Direction,
    device: nat, address: nat, tag: string, trigger: bool, failed: bool, retryCounter: nat,
    conv: Conv, value: EngineValue, flowState: Option<bool>, filterState: seq<real>, pwmDisabled: bool,
    priorities: Option<Priority.Levels>, lastValidValue: real, spikeReadingCount: nat)

  const I2C_RAW_MAX: real := 32767.0
  const ZERO_DROP_BASELINE: real := 50.0
  const SDP810_SPIKE_RATIO: real := 5.0

  predicate IsSdp810(id: ChannelId, ch: Channel) {
    ch.channelType == I2c && 610 <= id <= 614
  }

  /** A reading outside the 16-bit range is replaced by the last valid value. */
  function ValidateI2cRaw(id: ChannelId, ch: Channel, raw: real): real {
    if IsSdp810(id, ch) && !(0.0 <= raw <= I2C_RAW_MAX) then ch.lastValidValue else raw
  }

  /** The converted value is a jump that the flow sensors do not make. */
  predicate IsSpike(baseline: real, cur: real) {
    || (Abs(baseline) > ZERO_DROP_BASELINE && Abs(cur) < 1.0)
    || (Abs(baseline) > 0.0000000001 && Abs(cur / baseline) > SDP810_SPIKE_RATIO)
  }

  /** Spike rejection once a baseline exists; an accepted value becomes the new baseline. */
  function CheckSdp810Spike(id: ChannelId, ch: Channel): Channel {
    if !IsSdp810(id, ch) then ch
    else
      var count := ch.spikeReadingCount + 1;
      var cur := ch.value.cur;
      if ch.lastValidValue != 0.0 && count >= 3 && IsSpike(ch.lastValidValue, cur) then
        ch.(spikeReadingCount := count, value := ch.value.(cur := ch.lastValidValue))
      else ch.(spikeReadingCount := count, lastValidValue := cur)
  }

  // ----- Spike rejection over a run of readings -----

  lemma SelfIsNoSpike(x: real)
    ensures !IsSpike(x, x)
  {
    if Abs(x) > 0.0000000001 {
      Table.MulDiv(1.0, x);
    }
  }

  /** One check: what it lets through becomes the baseline, and a value is replaced exactly
      when the check is armed and the value is a spike against the old baseline. */
  lemma SpikeCheck(id: ChannelId, ch: Channel)
    requires IsSdp810(id, ch)
    ensures var r := CheckSdp810Spike(id, ch);
      IsSdp810(id, r) && r.lastValidValue == r.value.cur && r.spikeReadingCount == ch.spikeReadingCount + 1 &&
      (if ch.lastValidValue != 0.0 && ch.spikeReadingCount >= 2 && IsSpike(ch.lastValidValue, ch.value.cur) then
        r.value.cur == ch.lastValidValue && !IsSpike(ch.lastValidValue, r.value.cur)
      else r.value.cur == ch.value.cur)
  {
    hide IsSpike;
    SelfIsNoSpike(ch.lastValidValue);
  }

  /** The channel and its outputs after a run of converted values. */
  function SpikeRun(id: ChannelId, ch: Channel, curs: seq<real>): (Channel, seq<real>) {
    if curs == [] then (ch, [])
    else
      var k := |curs| - 1;
      var (b, out) := SpikeRun(id, ch, curs[..k]);
      var r := CheckSdp810Spike(id, b.(value := b.value.(cur := curs[k])));
      (r, out + [r.value.cur])
  }

  /** From the third reading on, no two successive outputs of a flow sensor form a spike, whatever
      the sensor delivers; only a zero output disarms the check. */
  lemma {:induction false} OutputsNeverJump(id: ChannelId, ch: Channel, curs: seq<real>)
    requires IsSdp810(id, ch)
    ensures var (r, out) := SpikeRun(id, ch, curs);
      |out| == |curs| && IsSdp810(id, r) && r.spikeReadingCount == ch.spikeReadingCount + |curs| &&
      (curs != [] ==> r.lastValidValue == out[|out| - 1]) &&
      forall k :: 2 <= k < |out| && out[k - 1] != 0.0 ==> !IsSpike(out[k - 1], out[k])
  {
    hide IsSpike, CheckSdp810Spike;
    if curs != [] {
      var k := |curs| - 1;
      OutputsNeverJump(id, ch, curs[..k]);
      var b := SpikeRun(id, ch, curs[..k]).0;
      SpikeCheck(id, b.(value := b.value.(cur := curs[k])));
    }
  }
}
