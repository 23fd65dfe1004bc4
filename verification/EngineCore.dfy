/** The engine's operations on channels: reading through the conversion pipeline with sensor
    recovery, writing through the priority array to hardware, and timer expiry. The hardware,
    the clock and the signal filters are the oracle `World`; what was asked of the hardware is
    kept in append-only logs. */
module EngineCore {
  import opened EngineTypes
  import opened Channels
  import opened ValueConv
  import Priority

  // ----- The outside world -----

  datatype ReadKey =
    | AnalogKey(device: nat, address: nat)
    | DigitalKey(pin: nat)
    | PwmKey(chip: nat, channel: nat)
    | I2cKey(bus: nat, slave: nat, tag: string)
    | UartKey(port: nat, tag: string)

  datatype Command = SetDigital(pin: nat, on: bool) | SetPwm(chip: nat, channel: nat, duty: real)

  datatype Write = Write(command: Command, ok: bool)

  datatype Reinit = Reinit(source: ChannelId, device: nat, address: nat, tag: string)

  /** Answers of the hardware, indexed by how many requests of that kind came before; the current
      time; and the parts of the pipeline that are arbitrary functions of one channel. */
  datatype World = World(
    read: (nat, ReadKey) -> Option<real>,
    reinitOk: (nat, Reinit) -> bool,
    writeOk: (nat, Command) -> bool,
    now: Instant,
    autoDetect: (ChannelId, Conv, Tables) -> Conv,
    sensor: Sensor,
    filters: (Conv, seq<real>, real, Instant) -> (seq<real>, real))

  // ----- State -----

  datatype Backoff = Backoff(cooldown: nat, failures: nat)

  const RETRY_COOLDOWN_BASE: nat := 30
  const RETRY_COOLDOWN_MAX: nat := 300

  const NEW_BACKOFF := Backoff(RETRY_COOLDOWN_BASE, 0)

  function RecordReinitFailure(b: Backoff): Backoff {
    Backoff(if b.cooldown * 2 <= RETRY_COOLDOWN_MAX then b.cooldown * 2 else RETRY_COOLDOWN_MAX, b.failures + 1)
  }

  type SensorKey = (nat, nat)

  datatype Eng = Eng(
    channels: map<ChannelId, Channel>,
    backoff: map<SensorKey, Backoff>,
    tables: Tables,
    readLog: seq<ReadKey>,
    reinitLog: seq<Reinit>,
    writeLog: seq<Write>)

  function Put(e: Eng, id: ChannelId, ch: Channel): Eng {
    e.(channels := e.channels[id := ch])
  }

  // ----- Sensor recovery -----

  function SensorOf(ch: Channel): SensorKey {
    (ch.device, ch.address)
  }

  function BackoffOf(e: Eng, ch: Channel): Backoff {
    if SensorOf(ch) in e.backoff then e.backoff[SensorOf(ch)] else NEW_BACKOFF
  }

  function CooldownOf(e: Eng, ch: Channel): nat {
    if ch.channelType == I2c then BackoffOf(e, ch).cooldown else RETRY_COOLDOWN_BASE
  }

  /** The state after the retry logic, and whether the read may go on. */
  function Recover(e: Eng, w: World, id: ChannelId): (Eng, bool)
    requires id in e.channels
  {
    var ch := e.channels[id];
    if !ch.failed then (e, true)
    else if ch.retryCounter < CooldownOf(e, ch) then (Put(e, id, ch.(retryCounter := ch.retryCounter + 1)), false)
    else if ch.channelType != I2c then (Put(e, id, ch.(failed := false, retryCounter := 0)), true)
    else
      var r := Reinit(id, ch.device, ch.address, ch.tag);
      var e1 := e.(reinitLog := e.reinitLog + [r]);
      if !w.reinitOk(|e.reinitLog|, r) then
        (Put(e1.(backoff := e.backoff[SensorOf(ch) := RecordReinitFailure(BackoffOf(e, ch))]), id, ch.(retryCounter := 0)), false)
      else
        (Put(e1.(backoff := if SensorOf(ch) in e.backoff then e.backoff[SensorOf(ch) := NEW_BACKOFF] else e.backoff),
           id, ch.(failed := false, retryCounter := 0)), true)
  }

  // ----- Reading -----

  type I2cCache = map<ReadKey, Option<real>>

  function KeyOf(ch: Channel): ReadKey {
    match ch.channelType
    case Analog => AnalogKey(ch.device, ch.address)
    case Digital => DigitalKey(ch.address)
    case Triac => DigitalKey(ch.address)
    case Pwm => PwmKey(ch.device, ch.address)
    case I2c => I2cKey(ch.device, ch.address, ch.tag)
    case _ => UartKey(ch.device, ch.tag)
  }

  /** The read needs the hardware: it is neither cached nor a disabled PWM. */
  predicate NeedsHal(ch: Channel, cache: I2cCache) {
    !(ch.channelType == Pwm && ch.pwmDisabled) && !(ch.channelType == I2c && KeyOf(ch) in cache)
  }

  /** The reading of a non-virtual channel, given the hardware's answer `hal` if it was asked. */
  function Sensed(ch: Channel, cache: I2cCache, hal: Option<real>): Option<real> {
    if ch.channelType == Pwm && ch.pwmDisabled then Some(0.0)
    else if ch.channelType == I2c && KeyOf(ch) in cache then cache[KeyOf(ch)]
    else if (ch.channelType == Digital || ch.channelType == Triac) && hal.Some? then
      Some(if hal.value != 0.0 then 1.0 else 0.0)
    else hal
  }

  /** Conversion, spike rejection, filters and trigger, all within the channel. */
  function Process(w: World, tables: Tables, id: ChannelId, ch: Channel, raw: real): Channel {
    var value := EngineValue(ch.value.status, ValidateI2cRaw(id, ch, raw), ch.value.cur, Flags(true, false), false);
    var conv := w.autoDetect(id, ch.conv, tables);
    var (converted, detected) := Convert(conv, value, tables, w.sensor, ch.flowState);
    var flow := if ch.flowState.Some? && detected.Some? then detected else ch.flowState;
    var checked := CheckSdp810Spike(id, ch.(conv := conv, value := converted, flowState := flow));
    var (filterState, cur) := w.filters(conv, checked.filterState, checked.value.cur, w.now);
    var trigger := if cur == 0.0 then ch.trigger else checked.value.trigger;
    checked.(filterState := filterState, value := checked.value.(cur := cur, trigger := trigger))
  }

  predicate HasWritten(ch: Channel) {
    ch.priorities.Some? && Priority.Effective(ch.priorities.value).value.Some?
  }

  /** A virtual channel shows what was written to it, or else follows its source channel. */
  function VirtualValue(e: Eng, ch: Channel): EngineValue {
    var cur :=
      if HasWritten(ch) then ch.value.cur
      else if ch.channelIn.Some? && ch.channelIn.value in e.channels then e.channels[ch.channelIn.value].value.cur
      else 0.0;
    ch.value.(cur := cur, status := Ok, flags := ch.value.flags.(cur := true))
  }

  /** Everything after recovery. */
  function Fetch(e: Eng, w: World, id: ChannelId, cache: I2cCache): (Eng, EngineValue)
    requires id in e.channels
  {
    var ch := e.channels[id];
    if ch.channelType.IsVirtual() then
      var v := VirtualValue(e, ch);
      (Put(e, id, ch.(value := v)), v)
    else
      var ask := NeedsHal(ch, cache);
      var e1 := if ask then e.(readLog := e.readLog + [KeyOf(ch)]) else e;
      var raw := Sensed(ch, cache, if ask then w.read(|e.readLog|, KeyOf(ch)) else None);
      if raw.None? then
        (Put(e1, id, ch.(failed := true, value := ch.value.(status := Down))), WithStatus(Down))
      else
        var ch' := Process(w, e.tables, id, ch, raw.value);
        (Put(e1, id, ch'), ch'.value)
  }

  /** Reading a channel with some I2C results already at hand; with an empty cache this is the
      plain read. `None` stands for the unknown-channel error, the only one a read can give. */
  function Read(e: Eng, w: World, id: ChannelId, cache: I2cCache): (Eng, Option<EngineValue>) {
    if id !in e.channels then (e, None)
    else if !e.channels[id].enabled then (e, Some(WithStatus(Disabled)))
    else
      var (e1, go) := Recover(e, w, id);
      if !go then (e1, Some(WithStatus(Down)))
      else var (e2, v) := Fetch(e1, w, id, cache); (e2, Some(v))
  }

  // ----- Writing -----

  datatype Outcome = Written(value: EngineValue) | NoSuchChannel | NotSupported | BadLevel

  predicate Writable(ch: Channel) {
    ch.direction.IsOutput() || ch.channelType.IsVirtual()
  }

  /** Raw-only values are converted, cur-only values reverted, others left alone. */
  function Complete(e: Eng, w: World, ch: Channel, v: EngineValue): EngineValue {
    if v.flags.raw && !v.flags.cur then Convert(ch.conv, v, e.tables, w.sensor, None).0
    else if v.flags.cur && !v.flags.raw then Revert(ch.conv, v, e.tables)
    else v
  }

  function Emit(e: Eng, w: World, c: Command): Eng {
    e.(writeLog := e.writeLog + [Write(c, w.writeOk(|e.writeLog|, c))])
  }

  /** The value as stored, and the command for the hardware, of a digital or PWM output. */
  function Encode(ch: Channel, v: EngineValue): (EngineValue, Command) {
    if ch.channelType == Pwm then (v, SetPwm(ch.device, ch.address, v.raw))
    else
      var on := v.raw > 0.5;
      var level := if on then 1.0 else 0.0;
      (if ch.conv.adcMode then v else v.(raw := level, cur := level), SetDigital(ch.address, on))
  }

  predicate Drives(ch: Channel) {
    ch.channelType == Digital || ch.channelType == Triac || ch.channelType == Pwm
  }

  function WriteChannel(e: Eng, w: World, id: ChannelId, v: EngineValue): (Eng, Outcome) {
    if id !in e.channels then (e, NoSuchChannel)
    else
      var ch := e.channels[id];
      if !Writable(ch) || v.flags == NO_FLAGS then (e, NotSupported)
      else if !ch.enabled then (e, Written(v.(status := Disabled)))
      else
        var full := Complete(e, w, ch, v);
        if ch.channelType.IsVirtual() then (Put(e, id, ch.(value := full)), Written(full))
        else if !Drives(ch) then (e, NotSupported)
        else
          var (stored, c) := Encode(ch, full);
          var final := if w.writeOk(|e.writeLog|, c) then stored else stored.(status := Down);
          (Put(Emit(e, w, c), id, ch.(value := final)), Written(final))
  }

  /** A value as the priority array hands it to the write path. */
  function CurOnly(x: real): EngineValue {
    EngineValue(Unknown, 0.0, x, Flags(false, true), false)
  }

  function LevelsOf(ch: Channel): Priority.Levels {
    if ch.priorities.Some? then ch.priorities.value else seq(Priority.MAX_LEVELS, _ => Priority.EMPTY)
  }

  /** Writing or relinquishing one level, then driving the effective value if there is one. */
  function WriteLevel(e: Eng, w: World, id: ChannelId, level: nat, value: Option<real>, who: string, duration: real):
      (Eng, Outcome, Priority.WriteResult)
  {
    if id !in e.channels then (e, NoSuchChannel, Priority.WriteResult(None, 0))
    else if !(1 <= level <= Priority.MAX_LEVELS) then (e, BadLevel, Priority.WriteResult(None, 0))
    else
      var ch := e.channels[id];
      var levels := Priority.SetLevel(LevelsOf(ch), level, Priority.Entry(value, who, duration, w.now));
      var r := Priority.Effective(levels);
      var e1 := Put(e, id, ch.(priorities := Some(levels)));
      if r.value.None? then (e1, Written(ch.value), r)
      else var (e2, out) := WriteChannel(e1, w, id, CurOnly(r.value.value)); (e2, out, r)
  }

  // ----- Timer expiry -----

  function ExpireChannel(e: Eng, w: World, id: ChannelId): Eng {
    if id !in e.channels || e.channels[id].priorities.None? then e
    else
      var ch := e.channels[id];
      var levels := Priority.Expire(ch.priorities.value, w.now);
      var e1 := Put(e, id, ch.(priorities := Some(levels)));
      if Priority.AnyDue(ch.priorities.value, w.now) && Priority.Effective(levels).value.Some? then
        WriteChannel(e1, w, id, CurOnly(Priority.Effective(levels).value.value)).0
      else e1
  }

  /** The sweep over the channels that have a priority array, in the order `ids`. */
  function ExpireAll(e: Eng, w: World, ids: seq<ChannelId>): Eng {
    if ids == [] then e else ExpireChannel(ExpireAll(e, w, ids[..|ids| - 1]), w, ids[|ids| - 1])
  }
}
