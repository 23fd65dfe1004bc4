/** What a read returns, in terms of the hardware's answers: which line is asked, what becomes of the
    answer, and what channels without hardware show. */
module Readings {
  import opened EngineTypes
  import opened Channels
  import opened ValueConv
  import opened EngineCore
  import opened EngineFrames
  import opened WritePath
  import Priority
  import Table

  // ----- The pipeline -----

  /** A flow channel that the garbage and spike checks apply to. */
  ghost predicate FlowChannel(id: ChannelId, ch: Channel) {
    ch.channelType == I2c && 610 <= id && id <= 614
  }

  /** A jump that a flow sensor does not make: from beyond 50 to almost nothing, or to more than five
      times the old value. */
  ghost predicate Jump(from: real, to: real) {
    || ((from > 50.0 || from < -50.0) && -1.0 < to < 1.0)
    || (Abs(from) > 0.0000000001 && Abs(to) > 5.0 * Abs(from))
  }

  lemma QuotientBeyond(a: real, b: real)
    requires b != 0.0
    ensures Abs(a / b) > 5.0 <==> Abs(a) > 5.0 * Abs(b)
  {
    var q := a / b;
    assert q * b == a;
    AbsTimes(q, b);
    FiveTimes(Abs(q), Abs(b), Abs(a));
  }

  lemma FiveTimes(x: real, y: real, z: real)
    requires y > 0.0 && z == x * y
    ensures x > 5.0 <==> z > 5.0 * y
  {
    Table.CancelLess(5.0, x, y);
  }

  lemma AbsTimes(x: real, y: real)
    ensures Abs(x * y) == Abs(x) * Abs(y)
  {
    if x >= 0.0 && y < 0.0 {
      assert x * -y >= 0.0;
    } else if x < 0.0 && y >= 0.0 {
      assert -x * y >= 0.0;
    } else if x < 0.0 {
      assert -x * -y >= 0.0;
    } else {
      assert x * y >= 0.0;
    }
  }

  lemma SpikeIsJump(from: real, to: real)
    ensures IsSpike(from, to) <==> Jump(from, to)
  {
    if Abs(from) > 0.0000000001 {
      QuotientBeyond(to, from);
    }
  }

  /** The check on a converted value: a jump from an armed baseline is replaced by the baseline. */
  ghost function Accepted(id: ChannelId, ch: Channel, cur: real): real {
    if FlowChannel(id, ch) && ch.lastValidValue != 0.0 && ch.spikeReadingCount >= 2 && Jump(ch.lastValidValue, cur)
    then ch.lastValidValue else cur
  }

  lemma CheckIs(id: ChannelId, ch: Channel)
    ensures CheckSdp810Spike(id, ch) ==
      if FlowChannel(id, ch) then
        ch.(spikeReadingCount := ch.spikeReadingCount + 1, lastValidValue := Accepted(id, ch, ch.value.cur),
          value := ch.value.(cur := Accepted(id, ch, ch.value.cur)))
      else ch
  {
    hide IsSpike, Jump;
    SpikeIsJump(ch.lastValidValue, ch.value.cur);
  }

  /** The raw value that enters conversion: out of 15 bits, a flow channel's last valid value. */
  ghost function Valid(id: ChannelId, ch: Channel, raw: real): real {
    if FlowChannel(id, ch) && (raw < 0.0 || raw > 32767.0) then ch.lastValidValue else raw
  }

  /** The stages of a reading: garbage replaced, settings detected, converted, jumps refused, filtered;
      the trigger fires on zero if the channel asks for it. */
  lemma PipelineIs(w: World, tables: Tables, id: ChannelId, ch: Channel, raw: real)
    ensures var r := Process(w, tables, id, ch, raw);
      var conv := w.autoDetect(id, ch.conv, tables);
      var start := EngineValue(ch.value.status, Valid(id, ch, raw), ch.value.cur, Flags(true, false), false);
      var (shown, detected) := Convert(conv, start, tables, w.sensor, ch.flowState);
      var accepted := Accepted(id, ch, shown.cur);
      var (state, cur) := w.filters(conv, ch.filterState, accepted, w.now);
      r.conv == conv && r.filterState == state &&
      r.flowState == (if ch.flowState.Some? && detected.Some? then detected else ch.flowState) &&
      r.lastValidValue == (if FlowChannel(id, ch) then accepted else ch.lastValidValue) &&
      r.value == EngineValue(shown.status, shown.raw, cur, shown.flags, if cur == 0.0 then ch.trigger else shown.trigger)
  {
    hide Convert, CheckSdp810Spike, Jump;
    var conv := w.autoDetect(id, ch.conv, tables);
    var start := EngineValue(ch.value.status, Valid(id, ch, raw), ch.value.cur, Flags(true, false), false);
    assert ValidateI2cRaw(id, ch, raw) == Valid(id, ch, raw);
    var (shown, detected) := Convert(conv, start, tables, w.sensor, ch.flowState);
    var flow := if ch.flowState.Some? && detected.Some? then detected else ch.flowState;
    CheckIs(id, ch.(conv := conv, value := shown, flowState := flow));
  }

  /** Nothing is configured or learned that would change a reading. */
  ghost predicate Neutral(w: World, tables: Tables, id: ChannelId, ch: Channel) {
    && w.autoDetect(id, ch.conv, tables) == ch.conv
    && ch.conv.tableIndex.None? && ch.conv.convFunc.None? && !ch.conv.adcMode
    && ch.conv.low.None? && ch.conv.high.None? && ch.conv.offset.None? && ch.conv.scale.None?
    && ch.conv.min.None? && ch.conv.max.None?
    && (forall state, x :: w.filters(ch.conv, state, x, w.now).1 == x)
    && !FlowChannel(id, ch)
  }

  /** The raw value cut to the 12 bits of a converter. */
  ghost function Cut(x: real): real {
    if x < 0.0 then 0.0 else if x > 4096.0 then 4096.0 else x
  }

  lemma NeutralReading(w: World, tables: Tables, id: ChannelId, ch: Channel, raw: real)
    requires Neutral(w, tables, id, ch)
    ensures Process(w, tables, id, ch, raw).value ==
      EngineValue(Ok, Cut(raw), Cut(raw), Flags(true, true), Cut(raw) == 0.0 && ch.trigger)
  {
    hide Process;
    PipelineIs(w, tables, id, ch, raw);
    var v := EngineValue(ch.value.status, raw, ch.value.cur, Flags(true, false), false);
    GoodReading(ch.conv, v, tables);
    FaultIff(ch.conv, v, tables);
  }

  // ----- Hardware channels -----

  /** An enabled channel whose last read did not fail. */
  ghost predicate Healthy(e: Eng, id: ChannelId) {
    id in e.channels && e.channels[id].enabled && !e.channels[id].failed
  }

  /** The read asked the hardware for `key`, got `a`, and passed `raw` on if it got anything. */
  ghost predicate ReadOf(e: Eng, w: World, id: ChannelId, r: Eng, v: Option<EngineValue>, key: ReadKey, raw: real)
    requires id in e.channels
  {
    var ch, a := e.channels[id], w.read(|e.readLog|, key);
    && r.readLog == e.readLog + [key] && id in r.channels && v.Some?
    && (if a.None? then
          r.channels[id] == ch.(failed := true, value := ch.value.(status := Down)) && v.value == WithStatus(Down)
        else r.channels[id] == Process(w, e.tables, id, ch, raw) && v.value == r.channels[id].value)
  }

  /** Each kind of channel asks for its own line and passes the answer on; only digital and triac
      answers are reduced to one or zero. */
  lemma HardwareRead(e: Eng, w: World, id: ChannelId)
    requires Healthy(e, id)
    ensures var (r, v) := Read(e, w, id, map[]);
      var ch, n := e.channels[id], |e.readLog|;
      match ch.channelType
      case Analog =>
        var key := AnalogKey(ch.device, ch.address); ReadOf(e, w, id, r, v, key, w.read(n, key).UnwrapOr(0.0))
      case I2c =>
        var key := I2cKey(ch.device, ch.address, ch.tag); ReadOf(e, w, id, r, v, key, w.read(n, key).UnwrapOr(0.0))
      case Uart =>
        var key := UartKey(ch.device, ch.tag); ReadOf(e, w, id, r, v, key, w.read(n, key).UnwrapOr(0.0))
      case Digital =>
        var key := DigitalKey(ch.address);
        ReadOf(e, w, id, r, v, key, if w.read(n, key).UnwrapOr(0.0) == 0.0 then 0.0 else 1.0)
      case Triac =>
        var key := DigitalKey(ch.address);
        ReadOf(e, w, id, r, v, key, if w.read(n, key).UnwrapOr(0.0) == 0.0 then 0.0 else 1.0)
      case Pwm =>
        var key := PwmKey(ch.device, ch.address);
        !ch.pwmDisabled ==> ReadOf(e, w, id, r, v, key, w.read(n, key).UnwrapOr(0.0))
      case _ => true
  {
    hide Process, VirtualValue;
  }

  /** A neutral channel shows the answer itself: one or zero for a pin, the cut raw value otherwise,
      and Down without an answer. */
  lemma NeutralRead(e: Eng, w: World, id: ChannelId, key: ReadKey)
    requires Healthy(e, id) && Neutral(w, e.tables, id, e.channels[id])
    requires var ch := e.channels[id];
      match ch.channelType
      case Analog => key == AnalogKey(ch.device, ch.address)
      case Digital => key == DigitalKey(ch.address)
      case Triac => key == DigitalKey(ch.address)
      case Pwm => key == PwmKey(ch.device, ch.address) && !ch.pwmDisabled
      case I2c => key == I2cKey(ch.device, ch.address, ch.tag)
      case Uart => key == UartKey(ch.device, ch.tag)
      case _ => false
    ensures var v := Read(e, w, id, map[]).1;
      var a := w.read(|e.readLog|, key);
      var pin := e.channels[id].channelType == Digital || e.channels[id].channelType == Triac;
      v.Some? &&
      (if a.None? then v.value.status == Down
       else if pin then v.value.status == Ok && v.value.cur == (if a.value != 0.0 then 1.0 else 0.0)
       else v.value.status == Ok && v.value.cur == Cut(a.value))
  {
    hide Process, Read, Neutral;
    HardwareRead(e, w, id);
    var a, ch := w.read(|e.readLog|, key), e.channels[id];
    if a.Some? {
      NeutralReading(w, e.tables, id, ch, a.value);
      NeutralReading(w, e.tables, id, ch, if a.value != 0.0 then 1.0 else 0.0);
    }
  }

  /** With its answer at hand an I2C channel does not ask again. */
  lemma CachedRead(e: Eng, w: World, id: ChannelId, cache: I2cCache)
    requires Healthy(e, id) && e.channels[id].channelType == I2c
    requires I2cKey(e.channels[id].device, e.channels[id].address, e.channels[id].tag) in cache
    ensures var (r, v) := Read(e, w, id, cache);
      var ch := e.channels[id];
      var a := cache[I2cKey(ch.device, ch.address, ch.tag)];
      r.readLog == e.readLog && id in r.channels && v.Some? &&
      (if a.None? then r.channels[id].failed && v.value == WithStatus(Down)
       else r.channels[id] == Process(w, e.tables, id, ch, a.value) && v.value == r.channels[id].value)
  {
    hide Process, VirtualValue;
  }

  /** A PWM output that was switched off reads as raw zero and asks nobody. */
  lemma DisabledPwmRead(e: Eng, w: World, id: ChannelId, cache: I2cCache)
    requires Healthy(e, id) && e.channels[id].channelType == Pwm && e.channels[id].pwmDisabled
    ensures var (r, v) := Read(e, w, id, cache);
      r.readLog == e.readLog && id in r.channels &&
      r.channels[id] == Process(w, e.tables, id, e.channels[id], 0.0) && v == Some(r.channels[id].value)
  {
    hide Process, VirtualValue;
  }

  /** An unknown channel is the only error; a disabled channel says so and is left alone. */
  lemma NoRead(e: Eng, w: World, id: ChannelId, cache: I2cCache)
    ensures var (r, v) := Read(e, w, id, cache);
      (v.None? <==> id !in e.channels) &&
      (id !in e.channels || !e.channels[id].enabled ==> r == e) &&
      (id in e.channels && !e.channels[id].enabled ==> v == Some(EngineValue(Disabled, 0.0, 0.0, Flags(false, false), false)))
  {
    hide Process, VirtualValue, CooldownOf;
  }

  // ----- Virtual channels -----

  /** Some level of the channel holds a value. */
  ghost predicate LevelHeld(ch: Channel) {
    ch.priorities.Some? && exists i :: 0 <= i < Priority.MAX_LEVELS && ch.priorities.value[i].value.Some?
  }

  lemma LevelHeldIff(ch: Channel)
    ensures HasWritten(ch) <==> LevelHeld(ch)
  {
    if ch.priorities.Some? {
      Priority.EffectiveIsHighest(ch.priorities.value);
    }
  }

  /** A virtual channel keeps its stored value while a level is held, else follows its source channel,
      else shows zero; it is always Ok. */
  lemma VirtualRead(e: Eng, w: World, id: ChannelId, cache: I2cCache)
    requires Healthy(e, id) && (e.channels[id].channelType == VirtualAnalog || e.channels[id].channelType == VirtualDigital)
    ensures var (r, v) := Read(e, w, id, cache);
      var ch := e.channels[id];
      r.readLog == e.readLog && v.Some? && v.value.status == Ok && v.value.raw == ch.value.raw &&
      id in r.channels && r.channels[id].value == v.value &&
      v.value.cur == if LevelHeld(ch) then ch.value.cur
        else if ch.channelIn.Some? && ch.channelIn.value in e.channels then e.channels[ch.channelIn.value].value.cur
        else 0.0
  {
    hide LevelHeld, HasWritten;
    LevelHeldIff(e.channels[id]);
  }

  /** Write, then read: a virtual channel shows the base value of its best level. */
  lemma VirtualShowsWritten(e: Eng, w: World, id: ChannelId, level: nat, value: Option<real>, who: string, duration: real, u: World)
    requires Healthy(e, id) && (e.channels[id].channelType == VirtualAnalog || e.channels[id].channelType == VirtualDigital)
    requires 1 <= level <= Priority.MAX_LEVELS
    requires Priority.Effective(WrittenLevels(e.channels[id], w, level, value, who, duration)).value.Some?
    ensures var m := WriteLevel(e, w, id, level, value, who, duration).0;
      var x := Priority.Effective(WrittenLevels(e.channels[id], w, level, value, who, duration)).value.value;
      var v := Read(m, u, id, map[]).1;
      v.Some? && v.value.status == Ok && v.value.cur == BaseFor(e.channels[id].conv, x) && m.writeLog == e.writeLog
  {
    hide Read, WriteChannel, BaseFor, RawFor, LevelHeld, Priority.Effective;
    var ch := e.channels[id];
    var levels := WrittenLevels(ch, w, level, value, who, duration);
    var e1 := Put(e, id, ch.(priorities := Some(levels)));
    VirtualStores(e1, w, id, Priority.Effective(levels).value.value);
    var m := WriteLevel(e, w, id, level, value, who, duration).0;
    assert m.channels[id].priorities == Some(levels);
    LevelHeldIff(m.channels[id]);
    VirtualRead(m, u, id, map[]);
  }
}
