/** The write path over whole runs: the hardware holds what the priority array says, the array
    holds what the history of writes says, and low-priority writers cannot disturb a higher one. */
module WritePath {
  import opened EngineTypes
  import opened Channels
  import opened ValueConv
  import opened EngineCore
  import opened EngineFrames
  import opened PollCycle
  import opened EngineRuns
  import Priority

  // ----- Commands and targets -----

  datatype Target = Pin(n: nat) | PwmOut(chip: nat, channel: nat)

  function TargetOf(c: Command): Target {
    match c
    case SetDigital(pin, _) => Pin(pin)
    case SetPwm(chip, channel, _) => PwmOut(chip, channel)
  }

  function ChannelTarget(ch: Channel): Target {
    if ch.channelType == Pwm then PwmOut(ch.device, ch.address) else Pin(ch.address)
  }

  /** The last command sent to a target, whether or not it got there. */
  function LastCommand(log: seq<Write>, t: Target): Option<Command> {
    if log == [] then None
    else
      var last := log[|log| - 1];
      if TargetOf(last.command) == t then Some(last.command) else LastCommand(log[..|log| - 1], t)
  }

  lemma LastCommandAdd(log: seq<Write>, x: Write, t: Target)
    ensures LastCommand(log + [x], t) == if TargetOf(x.command) == t then Some(x.command) else LastCommand(log, t)
  {
    assert (log + [x])[..|log|] == log;
  }

  /** An enabled digital, triac or PWM channel wired as an output, whatever its initial level. */
  predicate Output(ch: Channel) {
    && ch.enabled && (ch.direction == Out || ch.direction == High || ch.direction == Low)
    && (ch.channelType == Digital || ch.channelType == Triac || ch.channelType == Pwm)
  }

  /** The command for an engineering value, in plain arithmetic: a PWM output gets the raw value that
      stands for it as its duty, a digital or triac pin is on above one half. */
  function Expected(tables: Tables, ch: Channel, x: real): Command {
    var raw := RawFor(ch.conv, x, tables);
    if ch.channelType == Pwm then SetPwm(ch.device, ch.address, raw) else SetDigital(ch.address, raw > 0.5)
  }

  lemma ExpectedTarget(tables: Tables, ch: Channel, x: real)
    requires Output(ch)
    ensures TargetOf(Expected(tables, ch, x)) == ChannelTarget(ch)
  {
    hide RawFor;
  }

  /** The command depends on wiring and conversion settings only. */
  lemma ExpectedSame(tables: Tables, a: Channel, b: Channel, x: real)
    requires SamePlace(a, b) && a.conv == b.conv
    ensures Expected(tables, a, x) == Expected(tables, b, x) && ChannelTarget(a) == ChannelTarget(b)
    ensures Output(a) == Output(b)
  {
    hide RawFor;
  }

  // ----- Agreement -----

  function EffectiveOf(ch: Channel): Option<real> {
    if ch.priorities.Some? then Priority.Effective(ch.priorities.value).value else None
  }

  /** If the channel has an effective value, its target was last sent that value's command. */
  ghost predicate Agrees(e: Eng, id: ChannelId)
    requires id in e.channels
  {
    var ch := e.channels[id];
    Output(ch) && EffectiveOf(ch).Some? ==>
      LastCommand(e.writeLog, ChannelTarget(ch)) == Some(Expected(e.tables, ch, EffectiveOf(ch).value))
  }

  ghost predicate HardwareAgrees(e: Eng) {
    forall id :: id in e.channels ==> Agrees(e, id)
  }

  ghost predicate DistinctTargets(e: Eng) {
    forall x, y :: x in e.channels && y in e.channels && x != y && Output(e.channels[x]) && Output(e.channels[y]) ==>
      ChannelTarget(e.channels[x]) != ChannelTarget(e.channels[y])
  }

  /** Auto-detection does not retune an output. */
  ghost predicate Calm(w: World, e: Eng) {
    forall id :: id in e.channels && Output(e.channels[id]) ==>
      w.autoDetect(id, e.channels[id].conv, e.tables) == e.channels[id].conv
  }

  /** The outputs are wired and tuned as they were. */
  ghost predicate SameOutputs(e: Eng, r: Eng) {
    SameSetup(e, r) && forall x :: x in e.channels && Output(e.channels[x]) ==> e.channels[x].conv == r.channels[x].conv
  }

  lemma SameOutputsCalm(e: Eng, r: Eng, w: World)
    requires SameOutputs(e, r) && Calm(w, e)
    ensures Calm(w, r)
  {
    forall id | id in r.channels && Output(r.channels[id])
      ensures w.autoDetect(id, r.channels[id].conv, r.tables) == r.channels[id].conv
    {
      assert SamePlace(e.channels[id], r.channels[id]);
      assert Output(e.channels[id]);
    }
  }

  lemma SameOutputsTargets(e: Eng, r: Eng)
    requires SameOutputs(e, r) && DistinctTargets(e)
    ensures DistinctTargets(r)
  {
    forall x | x in r.channels
      ensures Output(r.channels[x]) == Output(e.channels[x]) && ChannelTarget(r.channels[x]) == ChannelTarget(e.channels[x])
    {
      assert SamePlace(e.channels[x], r.channels[x]);
    }
  }

  lemma SameOutputsTransitive(e: Eng, f: Eng, g: Eng)
    requires SameOutputs(e, f) && SameOutputs(f, g)
    ensures SameOutputs(e, g)
  {
    SamePlaceTransitive(e, f, g);
    forall x | x in e.channels && Output(e.channels[x])
      ensures e.channels[x].conv == g.channels[x].conv
    {
      assert SamePlace(e.channels[x], f.channels[x]);
    }
  }

  // ----- One write -----

  /** What driving a value through the write path does to an output. */
  lemma WriteOutput(e: Eng, w: World, id: ChannelId, x: real)
    requires id in e.channels && Output(e.channels[id])
    ensures var c := Expected(e.tables, e.channels[id], x);
      WriteChannel(e, w, id, CurOnly(x)).0.writeLog == e.writeLog + [Write(c, w.writeOk(|e.writeLog|, c))]
  {
    hide Revert, RawFor, BaseFor;
    RevertIs(e.channels[id].conv, CurOnly(x), e.tables);
  }

  /** What the channel shows after a write: a digital output the level it was driven to, except in
      ADC mode, where it keeps raw and base value like a PWM output; Down if the write was lost. */
  lemma WriteStores(e: Eng, w: World, id: ChannelId, x: real)
    requires id in e.channels && Output(e.channels[id])
    ensures var (r, out) := WriteChannel(e, w, id, CurOnly(x));
      var ch := e.channels[id];
      var raw := RawFor(ch.conv, x, e.tables);
      var ok := w.writeOk(|e.writeLog|, Expected(e.tables, ch, x));
      var pin := ch.channelType != Pwm && !ch.conv.adcMode;
      var level := if raw > 0.5 then 1.0 else 0.0;
      id in r.channels && out == Written(r.channels[id].value) &&
      r.channels[id].value == EngineValue(if ok then Ok else Down, if pin then level else raw,
        if pin then level else BaseFor(ch.conv, x), Flags(true, true), false)
  {
    hide Revert, RawFor, BaseFor;
    RevertIs(e.channels[id].conv, CurOnly(x), e.tables);
  }

  /** A virtual channel stores the base value and sends nothing. */
  lemma VirtualStores(e: Eng, w: World, id: ChannelId, x: real)
    requires id in e.channels && e.channels[id].enabled && e.channels[id].channelType.IsVirtual()
    ensures var (r, out) := WriteChannel(e, w, id, CurOnly(x));
      var ch := e.channels[id];
      r == Put(e, id, ch.(value := EngineValue(Ok, RawFor(ch.conv, x, e.tables), BaseFor(ch.conv, x), Flags(true, true), false)))
  {
    hide Revert, RawFor, BaseFor;
    RevertIs(e.channels[id].conv, CurOnly(x), e.tables);
  }

  /** Writes by raw value: one flagged raw only is converted first, one flagged both is sent as is. */
  lemma RawWriteSends(e: Eng, w: World, id: ChannelId, v: EngineValue)
    requires id in e.channels && Output(e.channels[id]) && v.flags.raw
    ensures var ch := e.channels[id];
      var raw := if v.flags.cur then v.raw else Convert(ch.conv, v, e.tables, w.sensor, None).0.raw;
      var c := if ch.channelType == Pwm then SetPwm(ch.device, ch.address, raw) else SetDigital(ch.address, raw > 0.5);
      WriteChannel(e, w, id, v).0.writeLog == e.writeLog + [Write(c, w.writeOk(|e.writeLog|, c))]
  {
    hide Convert, Revert;
  }

  lemma WriteNonOutput(e: Eng, w: World, id: ChannelId, x: real)
    requires id in e.channels ==> !Output(e.channels[id])
    ensures WriteChannel(e, w, id, CurOnly(x)).0.writeLog == e.writeLog
  {
    hide Revert;
  }

  /** Replacing one channel's value and priorities, with the matching command for an output,
      keeps every target in agreement. */
  lemma UpdateAgrees(e: Eng, r: Eng, id: ChannelId, ok: bool)
    requires HardwareAgrees(e) && DistinctTargets(e) && id in e.channels && id in r.channels && r.tables == e.tables
    requires r.channels == e.channels[id := r.channels[id]]
    requires SamePlace(e.channels[id], r.channels[id]) && r.channels[id].conv == e.channels[id].conv
    requires var ch := r.channels[id];
      if Output(ch) && EffectiveOf(ch).Some? then
        r.writeLog == e.writeLog + [Write(Expected(e.tables, ch, EffectiveOf(ch).value), ok)]
      else r.writeLog == e.writeLog
    ensures HardwareAgrees(r)
  {
    hide Expected, LastCommand, EffectiveOf;
    var ch := r.channels[id];
    if Output(ch) && EffectiveOf(ch).Some? {
      ExpectedTarget(e.tables, ch, EffectiveOf(ch).value);
    }
    forall x | x in r.channels
      ensures Agrees(r, x)
    {
      assert Agrees(e, x);
      if Output(ch) && EffectiveOf(ch).Some? {
        LastCommandAdd(e.writeLog, Write(Expected(e.tables, ch, EffectiveOf(ch).value), ok), ChannelTarget(r.channels[x]));
      }
    }
  }

  lemma LevelAgrees(e: Eng, w: World, id: ChannelId, level: nat, value: Option<real>, who: string, duration: real)
    requires HardwareAgrees(e) && DistinctTargets(e) && Calm(w, e)
    ensures HardwareAgrees(WriteLevel(e, w, id, level, value, who, duration).0)
    ensures SameOutputs(e, WriteLevel(e, w, id, level, value, who, duration).0)
  {
    hide WriteChannel, Priority.Effective, Priority.SetLevel, Priority.Entry, LevelsOf, Expected, HardwareAgrees, DistinctTargets;
    var r := WriteLevel(e, w, id, level, value, who, duration).0;
    LevelTouchesOnly(e, w, id, level, value, who, duration);
    if id in e.channels && 1 <= level <= Priority.MAX_LEVELS {
      var ch := e.channels[id];
      var levels := Priority.SetLevel(LevelsOf(ch), level, Priority.Entry(value, who, duration, w.now));
      DriveAgrees(e, w, id, levels);
      var eff := Priority.Effective(levels).value;
      assert r == Driven(e, w, id, levels, eff.Some?);
    }
  }

  /** New levels stored, and their effective value driven if there is one and `drive` is set. */
  function Driven(e: Eng, w: World, id: ChannelId, levels: Priority.Levels, drive: bool): Eng
    requires id in e.channels
  {
    var e1 := Put(e, id, e.channels[id].(priorities := Some(levels)));
    var eff := Priority.Effective(levels).value;
    if drive && eff.Some? then WriteChannel(e1, w, id, CurOnly(eff.value)).0 else e1
  }

  lemma DriveAgrees(e: Eng, w: World, id: ChannelId, levels: Priority.Levels)
    requires HardwareAgrees(e) && DistinctTargets(e) && id in e.channels
    ensures HardwareAgrees(Driven(e, w, id, levels, true))
  {
    hide WriteChannel, Priority.Effective, Expected, HardwareAgrees, DistinctTargets;
    var ch := e.channels[id].(priorities := Some(levels));
    var e1 := Put(e, id, ch);
    var eff := Priority.Effective(levels).value;
    var r := Driven(e, w, id, levels, true);
    var ok := eff.Some? && w.writeOk(|e.writeLog|, Expected(e.tables, ch, eff.value));
    if eff.Some? {
      WriteTouchesOnly(e1, w, id, CurOnly(eff.value));
      if Output(ch) {
        WriteOutput(e1, w, id, eff.value);
        ExpectedSame(e.tables, ch, r.channels[id], eff.value);
      } else {
        WriteNonOutput(e1, w, id, eff.value);
      }
    }
    assert r.channels == e.channels[id := r.channels[id]];
    UpdateAgrees(e, r, id, ok);
  }

  // ----- Sweeps and reads -----

  lemma ExpireChannelAgrees(e: Eng, w: World, id: ChannelId)
    requires HardwareAgrees(e) && DistinctTargets(e) && Calm(w, e)
    ensures HardwareAgrees(ExpireChannel(e, w, id)) && SameOutputs(e, ExpireChannel(e, w, id))
  {
    hide WriteChannel, Priority.Effective, Priority.Expire, Priority.AnyDue, Expected, HardwareAgrees, DistinctTargets;
    ExpireChannelKeeps(e, w, id);
    if id in e.channels && e.channels[id].priorities.Some? {
      var ch := e.channels[id];
      var levels := Priority.Expire(ch.priorities.value, w.now);
      if Priority.AnyDue(ch.priorities.value, w.now) {
        DriveAgrees(e, w, id, levels);
        assert ExpireChannel(e, w, id) == Driven(e, w, id, levels, true);
      } else {
        Priority.ExpireNothingDue(ch.priorities.value, w.now);
        assert Put(e, id, ch) == e;
      }
    }
  }

  lemma {:induction false} SweepAgrees(e: Eng, w: World, ids: seq<ChannelId>)
    requires HardwareAgrees(e) && DistinctTargets(e) && Calm(w, e)
    ensures HardwareAgrees(ExpireAll(e, w, ids)) && SameOutputs(e, ExpireAll(e, w, ids))
  {
    hide ExpireChannel, HardwareAgrees, DistinctTargets, Calm, SameOutputs;
    if ids == [] {
      SameOutputsRefl(e);
    } else {
      var k := |ids| - 1;
      var m := ExpireAll(e, w, ids[..k]);
      SweepAgrees(e, w, ids[..k]);
      SameOutputsCalm(e, m, w);
      SameOutputsTargets(e, m);
      ExpireChannelAgrees(m, w, ids[k]);
      SameOutputsTransitive(e, m, ExpireAll(e, w, ids));
    }
  }

  lemma SameOutputsRefl(e: Eng)
    ensures SameOutputs(e, e)
  {
  }

  lemma ProcessConv(w: World, tables: Tables, id: ChannelId, ch: Channel, raw: real)
    ensures Process(w, tables, id, ch, raw).conv == w.autoDetect(id, ch.conv, tables)
  {
    hide Convert, IsSpike;
  }

  /** A read keeps a channel's conversion settings, or replaces them by the detected ones. */
  ghost predicate ConvOrDetected(e: Eng, w: World, id: ChannelId, r: Eng)
    requires id in e.channels
  {
    && id in r.channels
    && (r.channels[id].conv == e.channels[id].conv || r.channels[id].conv == w.autoDetect(id, e.channels[id].conv, e.tables))
  }

  lemma FetchConv(e: Eng, w: World, id: ChannelId, cache: I2cCache)
    requires id in e.channels
    ensures ConvOrDetected(e, w, id, Fetch(e, w, id, cache).0)
  {
    hide Process, VirtualValue, KeyOf, NeedsHal, Sensed;
    var ch := e.channels[id];
    var ask := NeedsHal(ch, cache);
    var raw := Sensed(ch, cache, if ask then w.read(|e.readLog|, KeyOf(ch)) else None);
    if raw.Some? {
      ProcessConv(w, e.tables, id, ch, raw.value);
    }
  }

  lemma RecoverConv(e: Eng, w: World, id: ChannelId)
    requires id in e.channels
    ensures id in Recover(e, w, id).0.channels && Recover(e, w, id).0.channels[id].conv == e.channels[id].conv
    ensures Recover(e, w, id).0.tables == e.tables
  {
    hide CooldownOf, BackoffOf, RecordReinitFailure;
  }

  lemma ReadConv(e: Eng, w: World, id: ChannelId, cache: I2cCache)
    requires id in e.channels
    ensures ConvOrDetected(e, w, id, Read(e, w, id, cache).0)
  {
    hide Recover, Fetch;
    if e.channels[id].enabled {
      RecoverConv(e, w, id);
      if Recover(e, w, id).1 {
        FetchConv(Recover(e, w, id).0, w, id, cache);
      }
    }
  }

  lemma ReadAgrees(e: Eng, w: World, id: ChannelId, cache: I2cCache)
    requires HardwareAgrees(e) && Calm(w, e)
    ensures HardwareAgrees(Read(e, w, id, cache).0) && SameOutputs(e, Read(e, w, id, cache).0)
  {
    hide Read, Expected, LastCommand, EffectiveOf;
    var r := Read(e, w, id, cache).0;
    ReadTouchesOnly(e, w, id, cache);
    if id in e.channels {
      ReadConv(e, w, id, cache);
      var a, b := e.channels[id], r.channels[id];
      assert Agrees(e, id);
      if Output(b) {
        assert Output(a);
        EffectiveSame(a, b);
        if EffectiveOf(b).Some? {
          ExpectedSame(e.tables, a, b, EffectiveOf(b).value);
        }
      }
    }
    forall x | x in r.channels
      ensures Agrees(r, x)
    {
      assert Agrees(e, x);
    }
  }

  lemma EffectiveSame(a: Channel, b: Channel)
    requires a.priorities == b.priorities
    ensures EffectiveOf(a) == EffectiveOf(b)
  {
  }

  // ----- Runs -----

  lemma ApplyAgrees(e: Eng, op: Op)
    requires HardwareAgrees(e) && DistinctTargets(e) && Calm(op.w, e)
    ensures HardwareAgrees(Apply(e, op)) && SameOutputs(e, Apply(e, op))
  {
    hide Read, PreRead, WriteLevel, ExpireAll, Expected, LastCommand;
    match op
    case ReadOp(id, cache, w) => ReadAgrees(e, w, id, cache);
    case AheadOp(ids, w) =>
      AheadTouchesNothing(e, w, ids);
      var r := PreRead(e, w, ids).0;
      forall x | x in r.channels
        ensures Agrees(r, x)
      {
        assert Agrees(e, x);
      }
    case LevelOp(id, level, value, who, duration, w) => LevelAgrees(e, w, id, level, value, who, duration);
    case SweepOp(ids, w) => SweepAgrees(e, w, ids);
  }

  ghost predicate CalmRun(e: Eng, ops: seq<Op>) {
    forall k :: 0 <= k < |ops| ==> Calm(ops[k].w, e)
  }

  /** Hardware agreement over runs: after any sequence of reads, level writes, relinquishes and
      timer sweeps, every output with an effective value was last sent that value's command, whatever writes were
      lost on the way. */
  lemma {:induction false} RunAgrees(e: Eng, ops: seq<Op>)
    requires HardwareAgrees(e) && DistinctTargets(e) && CalmRun(e, ops)
    ensures HardwareAgrees(Run(e, ops)) && SameOutputs(e, Run(e, ops))
  {
    hide Apply, HardwareAgrees, DistinctTargets, Calm, SameOutputs;
    if ops == [] {
      SameOutputsRefl(e);
    } else {
      var k := |ops| - 1;
      var m := Run(e, ops[..k]);
      RunAgrees(e, ops[..k]);
      SameOutputsCalm(e, m, ops[k].w);
      SameOutputsTargets(e, m);
      ApplyAgrees(m, ops[k]);
      SameOutputsTransitive(e, m, Run(e, ops));
    }
  }

  /** An engine without priority arrays, as configured, agrees to begin with. */
  lemma FreshAgrees(e: Eng)
    requires forall id :: id in e.channels ==> e.channels[id].priorities.None?
    ensures HardwareAgrees(e)
  {
  }

  /** A level write sends at most one command: that of the highest level then held, and only if
      there is one and the channel is an output. With no level held, nothing is sent. */
  lemma LevelWriteSends(e: Eng, w: World, id: ChannelId, level: nat, value: Option<real>, who: string, duration: real)
    ensures var r := WriteLevel(e, w, id, level, value, who, duration).0;
      var valid := id in e.channels && 1 <= level <= Priority.MAX_LEVELS;
      var eff := if id in r.channels then EffectiveOf(r.channels[id]) else None;
      r.writeLog == e.writeLog +
        if valid && eff.Some? && Output(e.channels[id]) then
          var c := Expected(e.tables, e.channels[id], eff.value); [Write(c, w.writeOk(|e.writeLog|, c))]
        else []
  {
    hide WriteChannel, Priority.Effective, Priority.SetLevel, Priority.Entry, LevelsOf, Expected;
    if id in e.channels && 1 <= level <= Priority.MAX_LEVELS {
      var ch := e.channels[id];
      var levels := Priority.SetLevel(LevelsOf(ch), level, Priority.Entry(value, who, duration, w.now));
      var e1 := Put(e, id, ch.(priorities := Some(levels)));
      var eff := Priority.Effective(levels).value;
      if eff.Some? {
        WriteTouchesOnly(e1, w, id, CurOnly(eff.value));
        ExpectedSame(e.tables, ch, e1.channels[id], eff.value);
        if Output(ch) {
          WriteOutput(e1, w, id, eff.value);
        } else {
          WriteNonOutput(e1, w, id, eff.value);
        }
      }
    }
  }

  /** A channel the write path refuses to drive. */
  predicate Unwritable(ch: Channel) {
    var virtual := ch.channelType == VirtualAnalog || ch.channelType == VirtualDigital;
    var driven := ch.channelType == Digital || ch.channelType == Triac || ch.channelType == Pwm;
    !virtual && ((ch.direction != Out && ch.direction != High && ch.direction != Low) || (ch.enabled && !driven))
  }

  /** The array that a level write makes of the channel's own. */
  function WrittenLevels(ch: Channel, w: World, level: nat, value: Option<real>, who: string, duration: real): Priority.Levels {
    Priority.SetLevel(LevelsOf(ch), level, Priority.Entry(value, who, duration, w.now))
  }

  /** When a level write fails, and what it changes then. An unknown channel or level changes
      nothing. Otherwise the array is written first, and the write fails exactly when a level is then
      held on a channel that cannot be driven; so a failing write changes nothing exactly when the
      channel's array already was the written one. */
  lemma ErrorsAndTheArray(e: Eng, w: World, id: ChannelId, level: nat, value: Option<real>, who: string, duration: real)
    ensures var (r, out, _) := WriteLevel(e, w, id, level, value, who, duration);
      if id !in e.channels then out == NoSuchChannel && r == e
      else if level < 1 || level > 17 then out == BadLevel && r == e
      else
        var ch := e.channels[id];
        var levels := WrittenLevels(ch, w, level, value, who, duration);
        id in r.channels && r.channels[id].priorities == Some(levels) &&
        (out.Written? <==> Priority.Effective(levels).value.None? || !Unwritable(ch)) &&
        (!out.Written? ==> out == NotSupported && (r == e <==> ch.priorities == Some(levels)))
  {
    hide Complete, Encode, Priority.Effective, Priority.SetLevel, Priority.Entry, LevelsOf;
    if id in e.channels && 1 <= level <= Priority.MAX_LEVELS {
      var ch := e.channels[id];
      var levels := WrittenLevels(ch, w, level, value, who, duration);
      var e1 := Put(e, id, ch.(priorities := Some(levels)));
      if Priority.Effective(levels).value.Some? {
        WriteFails(e1, w, id, Priority.Effective(levels).value.value);
        WriteTouchesOnly(e1, w, id, CurOnly(Priority.Effective(levels).value.value));
      }
      if ch.priorities == Some(levels) {
        PutSame(e, id);
      }
    }
  }

  /** The guards before anything is written: a value without flags is refused like an unwritable
      channel, and a disabled channel answers Disabled; neither changes anything. */
  lemma WriteGuards(e: Eng, w: World, id: ChannelId, v: EngineValue)
    ensures var (r, out) := WriteChannel(e, w, id, v);
      (id !in e.channels <==> out == NoSuchChannel) &&
      (id in e.channels && !v.flags.raw && !v.flags.cur ==> out == NotSupported) &&
      (id in e.channels && !e.channels[id].enabled && (v.flags.raw || v.flags.cur) && !Unwritable(e.channels[id]) ==>
        out == Written(v.(status := Disabled))) &&
      (!out.Written? || id !in e.channels || !e.channels[id].enabled ==> r == e)
  {
    hide Complete, Encode;
  }

  lemma PutSame(e: Eng, id: ChannelId)
    requires id in e.channels
    ensures Put(e, id, e.channels[id]) == e
  {
  }

  lemma WriteFails(e: Eng, w: World, id: ChannelId, x: real)
    requires id in e.channels
    ensures var (r, out) := WriteChannel(e, w, id, CurOnly(x));
      if Unwritable(e.channels[id]) then out == NotSupported && r == e else out.Written?
  {
    hide Complete, Encode;
  }

  // ----- The array is the history of its writes -----

  /** What one operation makes of level `level` of channel `id`. */
  function LevelStep(l: Priority.WriteLevel, op: Op, id: ChannelId, level: nat): Priority.WriteLevel {
    match op
    case LevelOp(x, n, value, who, duration, w) =>
      if x == id && n == level then Priority.Entry(value, who, duration, w.now) else l
    case SweepOp(ids, w) => if id in ids then Priority.ExpireOne(l, w.now) else l
    case _ => l
  }

  /** The level's entry according to the history: its latest write, unless a later sweep came at or
      after the deadline of that write. */
  function Recorded(start: Priority.WriteLevel, ops: seq<Op>, id: ChannelId, level: nat): Priority.WriteLevel {
    if ops == [] then start
    else LevelStep(Recorded(start, ops[..|ops| - 1], id, level), ops[|ops| - 1], id, level)
  }

  lemma ExpireChannelLevels(e: Eng, w: World, x: ChannelId, id: ChannelId, i: nat)
    requires id in e.channels && i < Priority.MAX_LEVELS
    ensures var r := ExpireChannel(e, w, x);
      id in r.channels &&
      LevelsOf(r.channels[id])[i] == if x == id then Priority.ExpireOne(LevelsOf(e.channels[id])[i], w.now) else LevelsOf(e.channels[id])[i]
  {
    hide WriteChannel, Priority.Effective, Priority.AnyDue;
    if x in e.channels && e.channels[x].priorities.Some? {
      var ch := e.channels[x];
      var levels := Priority.Expire(ch.priorities.value, w.now);
      var e1 := Put(e, x, ch.(priorities := Some(levels)));
      var eff := Priority.Effective(levels).value;
      if eff.Some? {
        WriteTouchesOnly(e1, w, x, CurOnly(eff.value));
      }
    }
  }

  lemma {:induction false} SweepLevels(e: Eng, w: World, ids: seq<ChannelId>, id: ChannelId, i: nat)
    requires id in e.channels && i < Priority.MAX_LEVELS
    ensures var r := ExpireAll(e, w, ids);
      id in r.channels &&
      LevelsOf(r.channels[id])[i] == if id in ids then Priority.ExpireOne(LevelsOf(e.channels[id])[i], w.now) else LevelsOf(e.channels[id])[i]
  {
    hide ExpireChannel, LevelsOf;
    if ids != [] {
      var k := |ids| - 1;
      SweepLevels(e, w, ids[..k], id, i);
      ExpireChannelLevels(ExpireAll(e, w, ids[..k]), w, ids[k], id, i);
      assert forall x :: x in ids <==> x in ids[..k] || x == ids[k];
    }
  }

  lemma WriteLevelLevels(e: Eng, w: World, x: ChannelId, level: nat, value: Option<real>, who: string, duration: real,
      id: ChannelId, i: nat)
    requires id in e.channels && i < Priority.MAX_LEVELS
    ensures var r := WriteLevel(e, w, x, level, value, who, duration).0;
      id in r.channels &&
      LevelsOf(r.channels[id])[i] ==
        if x == id && level == i + 1 then Priority.Entry(value, who, duration, w.now) else LevelsOf(e.channels[id])[i]
  {
    hide WriteChannel, Priority.Effective, Priority.Entry;
    if x in e.channels && 1 <= level <= Priority.MAX_LEVELS {
      var ch := e.channels[x];
      var levels := Priority.SetLevel(LevelsOf(ch), level, Priority.Entry(value, who, duration, w.now));
      var e1 := Put(e, x, ch.(priorities := Some(levels)));
      var eff := Priority.Effective(levels);
      if eff.value.Some? {
        WriteTouchesOnly(e1, w, x, CurOnly(eff.value.value));
      }
    }
  }

  lemma ApplyLevels(e: Eng, op: Op, id: ChannelId, i: nat)
    requires id in e.channels && i < Priority.MAX_LEVELS
    ensures id in Apply(e, op).channels
    ensures LevelsOf(Apply(e, op).channels[id])[i] == LevelStep(LevelsOf(e.channels[id])[i], op, id, i + 1)
  {
    hide Read, PreRead, WriteLevel, ExpireAll, Priority.Entry;
    match op
    case ReadOp(x, cache, w) => ReadTouchesOnly(e, w, x, cache);
    case AheadOp(ids, w) => AheadTouchesNothing(e, w, ids);
    case LevelOp(x, level, value, who, duration, w) => WriteLevelLevels(e, w, x, level, value, who, duration, id, i);
    case SweepOp(ids, w) => SweepLevels(e, w, ids, id, i);
  }

  /** After any run each level holds exactly what its history says. */
  lemma {:induction false} LevelsAreHistory(e: Eng, ops: seq<Op>, id: ChannelId, i: nat)
    requires id in e.channels && i < Priority.MAX_LEVELS
    ensures id in Run(e, ops).channels
    ensures LevelsOf(Run(e, ops).channels[id])[i] == Recorded(LevelsOf(e.channels[id])[i], ops, id, i + 1)
  {
    hide Apply, LevelsOf, LevelStep;
    if ops != [] {
      LevelsAreHistory(e, ops[..|ops| - 1], id, i);
      ApplyLevels(Run(e, ops[..|ops| - 1]), ops[|ops| - 1], id, i);
    }
  }

  // ----- From history to hardware -----

  /** The value that level `n` of channel `id` holds after the run, according to the history. */
  function HeldAt(e: Eng, ops: seq<Op>, id: ChannelId, n: nat): Option<real>
    requires id in e.channels && 1 <= n <= Priority.MAX_LEVELS
  {
    Recorded(LevelsOf(e.channels[id])[n - 1], ops, id, n).value
  }

  /** Level `n` is the highest-priority one that holds a value after the run. */
  ghost predicate Winner(e: Eng, ops: seq<Op>, id: ChannelId, n: nat)
    requires id in e.channels
  {
    && 1 <= n <= Priority.MAX_LEVELS
    && HeldAt(e, ops, id, n).Some?
    && (forall i :: 1 <= i < n ==> HeldAt(e, ops, id, i).None?)
  }

  lemma EffectiveIsWinner(ch: Channel, n: nat)
    requires 1 <= n <= Priority.MAX_LEVELS && LevelsOf(ch)[n - 1].value.Some?
    requires forall i :: 0 <= i < n - 1 ==> LevelsOf(ch)[i].value.None?
    ensures EffectiveOf(ch) == LevelsOf(ch)[n - 1].value
  {
    Priority.ScanFromFinds(LevelsOf(ch), 0, n - 1);
  }

  lemma HistoryDecides(e: Eng, ops: seq<Op>, id: ChannelId, n: nat)
    requires id in e.channels && Winner(e, ops, id, n)
    ensures id in Run(e, ops).channels
    ensures EffectiveOf(Run(e, ops).channels[id]) == HeldAt(e, ops, id, n)
  {
    hide Run, LevelsOf, Recorded, EffectiveOf;
    LevelsAreHistory(e, ops, id, 0);
    forall i | 0 <= i < Priority.MAX_LEVELS
      ensures LevelsOf(Run(e, ops).channels[id])[i].value == HeldAt(e, ops, id, i + 1)
    {
      LevelsAreHistory(e, ops, id, i);
    }
    EffectiveIsWinner(Run(e, ops).channels[id], n);
  }

  /** The command an output was last sent is that of its winning level, where both the winner and
      its value come from the history of writes and sweeps alone. */
  lemma CommandIsHistory(e: Eng, ops: seq<Op>, id: ChannelId, n: nat)
    requires HardwareAgrees(e) && DistinctTargets(e) && CalmRun(e, ops)
    requires id in e.channels && Output(e.channels[id]) && Winner(e, ops, id, n)
    ensures LastCommand(Run(e, ops).writeLog, ChannelTarget(e.channels[id])) ==
      Some(Expected(e.tables, e.channels[id], HeldAt(e, ops, id, n).value))
  {
    hide Run, HeldAt, Expected, LastCommand, EffectiveOf, Calm, DistinctTargets;
    RunAgrees(e, ops);
    HistoryDecides(e, ops, id, n);
    var r := Run(e, ops);
    assert SamePlace(e.channels[id], r.channels[id]);
    assert Agrees(r, id);
    ExpectedSame(e.tables, e.channels[id], r.channels[id], EffectiveOf(r.channels[id]).value);
  }

  // ----- Non-interference -----

  /** A write to channel `id` below level `n`. */
  predicate LowWrite(op: Op, id: ChannelId, n: nat) {
    op.LevelOp? && op.id == id && op.level > n
  }

  /** The run without those writes. */
  function WithoutLow(ops: seq<Op>, id: ChannelId, n: nat): seq<Op> {
    if ops == [] then []
    else
      var k := |ops| - 1;
      if LowWrite(ops[k], id, n) then WithoutLow(ops[..k], id, n) else WithoutLow(ops[..k], id, n) + [ops[k]]
  }

  lemma {:induction false} WithoutLowRecorded(start: Priority.WriteLevel, ops: seq<Op>, id: ChannelId, n: nat, level: nat)
    requires level <= n
    ensures Recorded(start, WithoutLow(ops, id, n), id, level) == Recorded(start, ops, id, level)
  {
    hide Priority.Entry, Priority.ExpireOne;
    if ops != [] {
      var k := |ops| - 1;
      WithoutLowRecorded(start, ops[..k], id, n, level);
      if !LowWrite(ops[k], id, n) {
        var a := WithoutLow(ops[..k], id, n);
        assert (a + [ops[k]])[..|a|] == a;
      }
    }
  }

  lemma {:induction false} WithoutLowCalm(e: Eng, ops: seq<Op>, id: ChannelId, n: nat)
    requires CalmRun(e, ops)
    ensures CalmRun(e, WithoutLow(ops, id, n))
  {
    hide Calm;
    if ops != [] {
      var k := |ops| - 1;
      assert CalmRun(e, ops[..k]);
      WithoutLowCalm(e, ops[..k], id, n);
    }
  }

  lemma WinnerWithoutLow(e: Eng, ops: seq<Op>, id: ChannelId, n: nat, win: nat)
    requires id in e.channels && win <= n && Winner(e, ops, id, win)
    ensures Winner(e, WithoutLow(ops, id, n), id, win)
    ensures HeldAt(e, WithoutLow(ops, id, n), id, win) == HeldAt(e, ops, id, win)
  {
    hide Recorded, WithoutLow;
    forall i | 1 <= i <= win
      ensures HeldAt(e, WithoutLow(ops, id, n), id, i) == HeldAt(e, ops, id, i)
    {
      WithoutLowRecorded(LevelsOf(e.channels[id])[i - 1], ops, id, n, i);
    }
  }

  /** While a level at or above `n` wins, the output's command is the one it would have if nobody
      had ever written below level `n`: low-priority writers cannot interfere. */
  lemma LowWritersCannotInterfere(e: Eng, ops: seq<Op>, id: ChannelId, n: nat, win: nat)
    requires HardwareAgrees(e) && DistinctTargets(e) && CalmRun(e, ops)
    requires id in e.channels && Output(e.channels[id]) && win <= n && Winner(e, ops, id, win)
    ensures var t := ChannelTarget(e.channels[id]);
      LastCommand(Run(e, ops).writeLog, t).Some? &&
      LastCommand(Run(e, ops).writeLog, t) == LastCommand(Run(e, WithoutLow(ops, id, n)).writeLog, t)
  {
    hide Run, HeldAt, Expected, LastCommand, CalmRun, WithoutLow, HardwareAgrees, DistinctTargets;
    WithoutLowCalm(e, ops, id, n);
    WinnerWithoutLow(e, ops, id, n, win);
    CommandIsHistory(e, ops, id, win);
    CommandIsHistory(e, WithoutLow(ops, id, n), id, win);
  }

  /** Operation `k` is the latest write of that level. */
  ghost predicate LatestWrite(ops: seq<Op>, id: ChannelId, level: nat, k: nat) {
    && k < |ops| && ops[k].LevelOp? && ops[k].id == id && ops[k].level == level
    && (forall j :: k < j < |ops| ==> !(ops[j].LevelOp? && ops[j].id == id && ops[j].level == level))
  }

  /** What write `k` put into its level. */
  function EntryOf(op: Op): Priority.WriteLevel
    requires op.LevelOp?
  {
    Priority.Entry(op.value, op.who, op.duration, op.w.now)
  }

  /** A later sweep of the channel came at or after the deadline of write `k`. */
  ghost predicate SweptAway(ops: seq<Op>, id: ChannelId, k: nat)
    requires k < |ops| && ops[k].LevelOp?
  {
    exists j :: k < j < |ops| && ops[j].SweepOp? && id in ops[j].ids && Priority.Due(EntryOf(ops[k]), ops[j].w.now)
  }

  lemma SweptAwayStep(ops: seq<Op>, id: ChannelId, k: nat)
    requires k < |ops| - 1 && ops[k].LevelOp?
    ensures var n := |ops| - 1;
      SweptAway(ops, id, k) <==>
        SweptAway(ops[..n], id, k) || (ops[n].SweepOp? && id in ops[n].ids && Priority.Due(EntryOf(ops[k]), ops[n].w.now))
  {
    hide Priority.Due, EntryOf;
    var n := |ops| - 1;
    if SweptAway(ops[..n], id, k) {
      var j :| k < j < n && ops[..n][j].SweepOp? && id in ops[..n][j].ids && Priority.Due(EntryOf(ops[k]), ops[..n][j].w.now);
      assert ops[j] == ops[..n][j];
    }
    if SweptAway(ops, id, k) {
      var j :| k < j < |ops| && ops[j].SweepOp? && id in ops[j].ids && Priority.Due(EntryOf(ops[k]), ops[j].w.now);
      assert j < n ==> ops[..n][j] == ops[j];
    }
  }

  /** A level in closed form: it holds its latest write, timed or permanent, exactly until the first
      later sweep of the channel at or after that write's deadline, and is empty from then on. */
  lemma {:induction false} RecordedExact(start: Priority.WriteLevel, ops: seq<Op>, id: ChannelId, level: nat, k: nat)
    requires LatestWrite(ops, id, level, k)
    ensures Recorded(start, ops, id, level) == if SweptAway(ops, id, k) then Priority.EMPTY else EntryOf(ops[k])
  {
    hide EntryOf, SweptAway;
    var n := |ops| - 1;
    if k < n {
      RecordedExact(start, ops[..n], id, level, k);
      SweptAwayStep(ops, id, k);
    } else {
      NotYetSwept(ops, id);
      WriteRecorded(Recorded(start, ops[..n], id, level), ops[n], id, level);
    }
  }

  lemma NotYetSwept(ops: seq<Op>, id: ChannelId)
    requires ops != [] && ops[|ops| - 1].LevelOp?
    ensures !SweptAway(ops, id, |ops| - 1)
  {
  }

  lemma WriteRecorded(l: Priority.WriteLevel, op: Op, id: ChannelId, level: nat)
    requires op.LevelOp? && op.id == id && op.level == level
    ensures LevelStep(l, op, id, level) == EntryOf(op)
  {
  }

  /** A permanent write stays until the level is written again. */
  lemma RecordedLatest(start: Priority.WriteLevel, ops: seq<Op>, id: ChannelId, level: nat, k: nat)
    requires LatestWrite(ops, id, level, k) && ops[k].duration <= 0.0
    ensures Recorded(start, ops, id, level).value == ops[k].value
    ensures Recorded(start, ops, id, level).expiresAt.None?
  {
    hide Recorded;
    RecordedExact(start, ops, id, level, k);
  }
}
