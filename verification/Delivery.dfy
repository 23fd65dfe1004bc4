/** What a target was sent over a whole run, whether or not a level is held, and what it holds
    when writes get lost. */
module Delivery {
  import opened EngineTypes
  import opened Channels
  import opened ValueConv
  import opened EngineCore
  import opened EngineFrames
  import opened PollCycle
  import opened EngineRuns
  import opened WritePath
  import Priority

  // ----- Everything a target was sent -----

  /** The writes sent to a target, in order. */
  function SentTo(log: seq<Write>, t: Target): seq<Write> {
    if log == [] then []
    else
      var k := |log| - 1;
      SentTo(log[..k], t) + (if TargetOf(log[k].command) == t then [log[k]] else [])
  }

  lemma SentToAdd(log: seq<Write>, x: Write, t: Target)
    ensures SentTo(log + [x], t) == SentTo(log, t) + (if TargetOf(x.command) == t then [x] else [])
  {
    assert (log + [x])[..|log|] == log;
  }

  lemma {:induction false} LastCommandIsSent(log: seq<Write>, t: Target)
    ensures LastCommand(log, t) ==
      if SentTo(log, t) == [] then None else Some(SentTo(log, t)[|SentTo(log, t)| - 1].command)
  {
    if log != [] {
      LastCommandIsSent(log[..|log| - 1], t);
    }
  }

  /** What a target holds: the last of its writes that was not lost. */
  function Reached(sent: seq<Write>): Option<Command> {
    if sent == [] then None
    else
      var k := |sent| - 1;
      if sent[k].ok then Some(sent[k].command) else Reached(sent[..k])
  }

  // ----- No write while nothing is held -----

  lemma SetupKeepsTargets(e: Eng, r: Eng, id: ChannelId)
    requires SameSetup(e, r) && DistinctTargets(e) && id in e.channels
    ensures id in r.channels && ChannelTarget(r.channels[id]) == ChannelTarget(e.channels[id])
    ensures Output(r.channels[id]) == Output(e.channels[id]) && DistinctTargets(r)
  {
    forall x | x in r.channels
      ensures Output(r.channels[x]) == Output(e.channels[x]) && ChannelTarget(r.channels[x]) == ChannelTarget(e.channels[x])
    {
      assert SamePlace(e.channels[x], r.channels[x]);
    }
  }

  lemma EffectiveOfLevels(ch: Channel)
    ensures EffectiveOf(ch) == Priority.Effective(LevelsOf(ch)).value
  {
    Priority.EffectiveIsHighest(LevelsOf(ch));
  }

  /** Driving channel `x` sends nothing to another output, nor to its own without a value. */
  lemma DriveSends(e: Eng, w: World, x: ChannelId, levels: Priority.Levels, id: ChannelId)
    requires DistinctTargets(e) && x in e.channels && id in e.channels && Output(e.channels[id])
    requires x == id ==> Priority.Effective(levels).value.None?
    ensures var t := ChannelTarget(e.channels[id]);
      SentTo(Driven(e, w, x, levels, true).writeLog, t) == SentTo(e.writeLog, t)
  {
    hide WriteChannel, Priority.Effective, Expected, SentTo;
    var ch := e.channels[x].(priorities := Some(levels));
    var e1 := Put(e, x, ch);
    var eff := Priority.Effective(levels).value;
    if eff.Some? {
      if Output(ch) {
        var c := Expected(e.tables, ch, eff.value);
        WriteOutput(e1, w, x, eff.value);
        ExpectedTarget(e.tables, ch, eff.value);
        SentToAdd(e.writeLog, Write(c, w.writeOk(|e.writeLog|, c)), ChannelTarget(e.channels[id]));
      } else {
        WriteNonOutput(e1, w, x, eff.value);
      }
    }
  }

  /** The levels that driving stores are those of the channel afterwards; others keep theirs. */
  lemma DriveStores(e: Eng, w: World, x: ChannelId, levels: Priority.Levels)
    requires x in e.channels
    ensures var r := Driven(e, w, x, levels, true);
      r.channels.Keys == e.channels.Keys && r.channels[x].priorities == Some(levels) &&
      forall y :: y in e.channels && y != x ==> r.channels[y] == e.channels[y]
  {
    hide WriteChannel, Priority.Effective;
    var e1 := Put(e, x, e.channels[x].(priorities := Some(levels)));
    var eff := Priority.Effective(levels).value;
    if eff.Some? {
      WriteTouchesOnly(e1, w, x, CurOnly(eff.value));
    }
  }

  lemma LevelSends(e: Eng, w: World, x: ChannelId, level: nat, value: Option<real>, who: string, duration: real, id: ChannelId)
    requires DistinctTargets(e) && id in e.channels && Output(e.channels[id])
    requires var r := WriteLevel(e, w, x, level, value, who, duration).0; id in r.channels && EffectiveOf(r.channels[id]).None?
    ensures var t := ChannelTarget(e.channels[id]);
      SentTo(WriteLevel(e, w, x, level, value, who, duration).0.writeLog, t) == SentTo(e.writeLog, t)
  {
    hide WriteChannel, Priority.Effective, Priority.SetLevel, Priority.Entry, LevelsOf, SentTo, DistinctTargets;
    if x in e.channels && 1 <= level <= Priority.MAX_LEVELS {
      var levels := Priority.SetLevel(LevelsOf(e.channels[x]), level, Priority.Entry(value, who, duration, w.now));
      assert WriteLevel(e, w, x, level, value, who, duration).0 == Driven(e, w, x, levels, true);
      DriveStores(e, w, x, levels);
      DriveSends(e, w, x, levels, id);
    }
  }

  lemma ExpireSends(e: Eng, w: World, x: ChannelId, id: ChannelId)
    requires DistinctTargets(e) && id in e.channels && Output(e.channels[id])
    requires x == id ==> var r := ExpireChannel(e, w, x); id in r.channels && EffectiveOf(r.channels[id]).None?
    ensures var t := ChannelTarget(e.channels[id]);
      SentTo(ExpireChannel(e, w, x).writeLog, t) == SentTo(e.writeLog, t)
  {
    hide WriteChannel, Priority.Effective, Priority.Expire, Priority.AnyDue, SentTo, DistinctTargets;
    if x in e.channels && e.channels[x].priorities.Some? {
      var levels := Priority.Expire(e.channels[x].priorities.value, w.now);
      if Priority.AnyDue(e.channels[x].priorities.value, w.now) {
        assert ExpireChannel(e, w, x) == Driven(e, w, x, levels, true);
        DriveStores(e, w, x, levels);
        DriveSends(e, w, x, levels, id);
      }
    }
  }

  /** Expiry on one channel leaves the levels of the others alone. */
  lemma ExpireElsewhere(e: Eng, w: World, x: ChannelId, id: ChannelId)
    requires x != id && id in e.channels
    ensures id in ExpireChannel(e, w, x).channels && ExpireChannel(e, w, x).channels[id] == e.channels[id]
  {
    hide WriteChannel, Priority.Effective, Priority.Expire, Priority.AnyDue;
    if x in e.channels && e.channels[x].priorities.Some? {
      var levels := Priority.Expire(e.channels[x].priorities.value, w.now);
      DriveStores(e, w, x, levels);
    }
  }

  lemma SweepKeepsTargets(e: Eng, w: World, ids: seq<ChannelId>, id: ChannelId)
    requires DistinctTargets(e) && id in e.channels
    ensures var m := ExpireAll(e, w, ids);
      id in m.channels && ChannelTarget(m.channels[id]) == ChannelTarget(e.channels[id]) &&
      Output(m.channels[id]) == Output(e.channels[id]) && DistinctTargets(m)
  {
    hide ExpireAll, DistinctTargets, ChannelTarget, Output;
    ApplyKeepsSetup(e, SweepOp(ids, w));
    SetupKeepsTargets(e, ExpireAll(e, w, ids), id);
  }

  lemma {:induction false} SweepElsewhere(e: Eng, w: World, ids: seq<ChannelId>, id: ChannelId)
    requires DistinctTargets(e) && id in e.channels && Output(e.channels[id]) && id !in ids
    ensures var t := ChannelTarget(e.channels[id]);
      SentTo(ExpireAll(e, w, ids).writeLog, t) == SentTo(e.writeLog, t)
  {
    hide ExpireChannel, SentTo, DistinctTargets, ChannelTarget, Output;
    if ids != [] {
      var k := |ids| - 1;
      SweepElsewhere(e, w, ids[..k], id);
      SweepKeepsTargets(e, w, ids[..k], id);
      ExpireSends(ExpireAll(e, w, ids[..k]), w, ids[k], id);
    }
  }

  /** A second expiry at the same time changes no level. */
  lemma SweptTwice(e: Eng, w: World, ids: seq<ChannelId>, more: seq<ChannelId>, id: ChannelId)
    requires id in e.channels && id in ids && id in more
    ensures var a, b := ExpireAll(e, w, ids), ExpireAll(e, w, more);
      id in a.channels && id in b.channels && EffectiveOf(a.channels[id]) == EffectiveOf(b.channels[id])
  {
    hide ExpireAll, LevelsOf, EffectiveOf, Priority.ExpireOne, Priority.Effective;
    SweepLevels(e, w, ids, id, 0);
    SweepLevels(e, w, more, id, 0);
    var a, b := ExpireAll(e, w, ids).channels[id], ExpireAll(e, w, more).channels[id];
    forall i | 0 <= i < Priority.MAX_LEVELS
      ensures LevelsOf(a)[i] == LevelsOf(b)[i]
    {
      SweepLevels(e, w, ids, id, i);
      SweepLevels(e, w, more, id, i);
    }
    assert LevelsOf(a) == LevelsOf(b);
    EffectiveOfLevels(a);
    EffectiveOfLevels(b);
  }

  /** A sweep that leaves a channel without a value sends nothing to its target. */
  lemma {:induction false} SweepSends(e: Eng, w: World, ids: seq<ChannelId>, id: ChannelId)
    requires DistinctTargets(e) && id in e.channels && Output(e.channels[id])
    requires var r := ExpireAll(e, w, ids); id in r.channels && EffectiveOf(r.channels[id]).None?
    ensures var t := ChannelTarget(e.channels[id]);
      SentTo(ExpireAll(e, w, ids).writeLog, t) == SentTo(e.writeLog, t)
  {
    hide ExpireChannel, SentTo, DistinctTargets, ChannelTarget, Output, EffectiveOf;
    if ids != [] {
      var k := |ids| - 1;
      var m := ExpireAll(e, w, ids[..k]);
      SweepKeepsTargets(e, w, ids[..k], id);
      if ids[k] != id {
        ExpireElsewhere(m, w, ids[k], id);
        SweepSends(e, w, ids[..k], id);
      } else if id in ids[..k] {
        SweptTwice(e, w, ids[..k], ids, id);
        SweepSends(e, w, ids[..k], id);
      } else {
        SweepElsewhere(e, w, ids[..k], id);
      }
      ExpireSends(m, w, ids[k], id);
    }
  }

  /** Any operation that leaves an output without an effective value sends it nothing. */
  lemma ApplySends(e: Eng, op: Op, id: ChannelId)
    requires DistinctTargets(e) && id in e.channels && Output(e.channels[id])
    requires id in Apply(e, op).channels && EffectiveOf(Apply(e, op).channels[id]).None?
    ensures var t := ChannelTarget(e.channels[id]);
      SentTo(Apply(e, op).writeLog, t) == SentTo(e.writeLog, t)
  {
    hide Read, PreRead, WriteLevel, ExpireAll, SentTo, DistinctTargets, ChannelTarget, Output, EffectiveOf;
    match op
    case ReadOp(x, cache, w) => ReadTouchesOnly(e, w, x, cache);
    case AheadOp(ids, w) => AheadTouchesNothing(e, w, ids);
    case LevelOp(x, level, value, who, duration, w) => LevelSends(e, w, x, level, value, who, duration, id);
    case SweepOp(ids, w) => SweepSends(e, w, ids, id);
  }

  // ----- Over runs -----

  /** The array of channel `id` after the run, according to the history. */
  function RecordedLevels(e: Eng, ops: seq<Op>, id: ChannelId): Priority.Levels
    requires id in e.channels
  {
    seq(Priority.MAX_LEVELS, i requires 0 <= i < Priority.MAX_LEVELS => Recorded(LevelsOf(e.channels[id])[i], ops, id, i + 1))
  }

  /** The effective value after the run, according to the history. */
  function Shown(e: Eng, ops: seq<Op>, id: ChannelId): Option<real>
    requires id in e.channels
  {
    Priority.Effective(RecordedLevels(e, ops, id)).value
  }

  /** The effective value at the latest moment of the run at which there was one. */
  function LastShown(e: Eng, ops: seq<Op>, id: ChannelId): Option<real>
    requires id in e.channels
  {
    if Shown(e, ops, id).Some? then Shown(e, ops, id)
    else if ops == [] then None
    else LastShown(e, ops[..|ops| - 1], id)
  }

  lemma ShownIsEffective(e: Eng, ops: seq<Op>, id: ChannelId)
    requires id in e.channels
    ensures id in Run(e, ops).channels && EffectiveOf(Run(e, ops).channels[id]) == Shown(e, ops, id)
  {
    hide Run, LevelsOf, Recorded, EffectiveOf, Priority.Effective;
    LevelsAreHistory(e, ops, id, 0);
    var ch := Run(e, ops).channels[id];
    forall i | 0 <= i < Priority.MAX_LEVELS
      ensures LevelsOf(ch)[i] == RecordedLevels(e, ops, id)[i]
    {
      LevelsAreHistory(e, ops, id, i);
    }
    assert LevelsOf(ch) == RecordedLevels(e, ops, id);
    EffectiveOfLevels(ch);
  }

  lemma RunKeepsTargets(e: Eng, ops: seq<Op>, id: ChannelId)
    requires DistinctTargets(e) && id in e.channels
    ensures var m := Run(e, ops);
      id in m.channels && ChannelTarget(m.channels[id]) == ChannelTarget(e.channels[id]) &&
      Output(m.channels[id]) == Output(e.channels[id]) && DistinctTargets(m)
  {
    hide Run, DistinctTargets, ChannelTarget, Output, SameSetup;
    RunKeepsSetup(e, ops);
    SetupKeepsTargets(e, Run(e, ops), id);
  }

  /** While no level of an output holds a value, by relinquish or expiry, nothing at all is sent to
      its target: what it was sent up to step `k` stands. */
  lemma {:induction false} NothingSentWhileEmpty(e: Eng, ops: seq<Op>, id: ChannelId, k: nat)
    requires DistinctTargets(e) && id in e.channels && Output(e.channels[id]) && k <= |ops|
    requires forall j :: k < j <= |ops| ==> Shown(e, ops[..j], id).None?
    ensures var t := ChannelTarget(e.channels[id]);
      SentTo(Run(e, ops).writeLog, t) == SentTo(Run(e, ops[..k]).writeLog, t)
  {
    hide Apply, SentTo, DistinctTargets, ChannelTarget, Output, Shown, EffectiveOf;
    if k == |ops| {
      assert ops[..k] == ops;
    } else {
      var n := |ops| - 1;
      forall j | k < j <= n
        ensures Shown(e, ops[..n][..j], id).None?
      {
        assert ops[..n][..j] == ops[..j];
      }
      assert ops[..n][..k] == ops[..k] && ops[..|ops|] == ops;
      NothingSentWhileEmpty(e, ops[..n], id, k);
      RunKeepsTargets(e, ops[..n], id);
      ShownIsEffective(e, ops, id);
      ApplySends(Run(e, ops[..n]), ops[n], id);
    }
  }

  /** The last command after any run, level held or not: that of the value last shown, or what stood
      before the run if none ever was. Everything on the right is history alone. */
  lemma {:induction false} CommandAfterAnyRun(e: Eng, ops: seq<Op>, id: ChannelId)
    requires HardwareAgrees(e) && DistinctTargets(e) && CalmRun(e, ops) && id in e.channels && Output(e.channels[id])
    ensures var t := ChannelTarget(e.channels[id]);
      LastCommand(Run(e, ops).writeLog, t) ==
        if LastShown(e, ops, id).Some? then Some(Expected(e.tables, e.channels[id], LastShown(e, ops, id).value))
        else LastCommand(e.writeLog, t)
  {
    hide Apply, SentTo, LastCommand, Expected, DistinctTargets, ChannelTarget, Output, Shown, HardwareAgrees, Calm, EffectiveOf;
    if Shown(e, ops, id).Some? {
      ShownCommand(e, ops, id);
    } else if ops != [] {
      var n := |ops| - 1;
      var t := ChannelTarget(e.channels[id]);
      CommandAfterAnyRun(e, ops[..n], id);
      assert ops[..|ops|] == ops;
      NothingSentWhileEmpty(e, ops, id, n);
      LastCommandIsSent(Run(e, ops).writeLog, t);
      LastCommandIsSent(Run(e, ops[..n]).writeLog, t);
    }
  }

  lemma ShownCommand(e: Eng, ops: seq<Op>, id: ChannelId)
    requires HardwareAgrees(e) && DistinctTargets(e) && CalmRun(e, ops) && id in e.channels && Output(e.channels[id])
    requires Shown(e, ops, id).Some?
    ensures LastCommand(Run(e, ops).writeLog, ChannelTarget(e.channels[id])) ==
      Some(Expected(e.tables, e.channels[id], Shown(e, ops, id).value))
  {
    hide Run, Recorded, LastCommand, Expected, HardwareAgrees, DistinctTargets, CalmRun, LevelsOf;
    var levels := RecordedLevels(e, ops, id);
    Priority.EffectiveIsHighest(levels);
    var n := Priority.Effective(levels).level;
    assert HeldAt(e, ops, id, n) == levels[n - 1].value;
    forall i | 1 <= i < n
      ensures HeldAt(e, ops, id, i).None?
    {
      assert levels[i - 1].value.None?;
    }
    CommandIsHistory(e, ops, id, n);
  }

  // ----- Lost writes -----

  /** Whether a target holds the last command it was sent, writes being lost or not. */
  lemma ReachedIff(sent: seq<Write>)
    requires sent != []
    ensures var k := |sent| - 1;
      Reached(sent) == Some(sent[k].command) <==> sent[k].ok || Reached(sent[..k]) == Some(sent[k].command)
  {
  }

  /** After any run an output with an effective value was sent that value's command last, and holds
      it exactly when that last write got through, or the target held the same command before. */
  lemma TargetHoldsIff(e: Eng, ops: seq<Op>, id: ChannelId)
    requires HardwareAgrees(e) && DistinctTargets(e) && CalmRun(e, ops) && id in e.channels && Output(e.channels[id])
    requires Shown(e, ops, id).Some?
    ensures var sent := SentTo(Run(e, ops).writeLog, ChannelTarget(e.channels[id]));
      var c := Expected(e.tables, e.channels[id], Shown(e, ops, id).value);
      sent != [] && sent[|sent| - 1].command == c &&
      (Reached(sent) == Some(c) <==> sent[|sent| - 1].ok || Reached(sent[..|sent| - 1]) == Some(c))
  {
    hide Run, LastCommand, Expected, Shown, SentTo, Reached, HardwareAgrees, DistinctTargets, CalmRun;
    ShownCommand(e, ops, id);
    LastCommandIsSent(Run(e, ops).writeLog, ChannelTarget(e.channels[id]));
    ReachedIff(SentTo(Run(e, ops).writeLog, ChannelTarget(e.channels[id])));
  }

  const PUMP_CONV := Conv(None, None, None, None, None, None, None, false, false, None, "", [], [])

  const PUMP := Channel(None, true, Digital, Out, 0, 4, "pump", false, false, 0, PUMP_CONV, DEFAULT_VALUE,
    None, [], false, None, 0.0, 0)

  const PLANT := Eng(map[1 := PUMP], map[], [], [], [], [])

  /** Hardware that loses its first write and no later one. */
  const LOSSY := World((_, _) => None, (_, _) => true, (n, _) => n > 0, 0, (_, c, _) => c,
    (_, raw, _) => SensorOut(raw, None, raw), (_, s, x, _) => (s, x))

  /** A lost write: the pump is commanded on and stays off; writing the level again heals it. */
  lemma LostWrite()
    ensures var on := LevelOp(1, 8, Some(1.0), "operator", 0.0, LOSSY);
      HardwareAgrees(PLANT) && DistinctTargets(PLANT) && CalmRun(PLANT, [on, on]) && Output(PUMP) &&
      SentTo(Run(PLANT, [on]).writeLog, Pin(4)) == [Write(SetDigital(4, true), false)] &&
      SentTo(Run(PLANT, [on, on]).writeLog, Pin(4)) == [Write(SetDigital(4, true), false), Write(SetDigital(4, true), true)] &&
      Reached(SentTo(Run(PLANT, [on]).writeLog, Pin(4))) == None &&
      Reached(SentTo(Run(PLANT, [on, on]).writeLog, Pin(4))) == Some(SetDigital(4, true))
  {
    hide Apply, HardwareAgrees, DistinctTargets, Calm, SentTo;
    var on := LevelOp(1, 8, Some(1.0), "operator", 0.0, LOSSY);
    PlantIsCalm();
    OneWrite(PLANT);
    RunOne(PLANT, on);
    OneWrite(Run(PLANT, [on]));
    RunTwo(PLANT, on, on);
    var lost, good := Write(SetDigital(4, true), false), Write(SetDigital(4, true), true);
    assert Run(PLANT, [on]).writeLog == [lost];
    assert Run(PLANT, [on, on]).writeLog == [lost, good];
    TwoSent(lost, good);
    assert [lost][..0] == [];
  }

  lemma PlantIsCalm()
    ensures HardwareAgrees(PLANT) && DistinctTargets(PLANT) && Calm(LOSSY, PLANT) && Output(PUMP)
  {
    FreshAgrees(PLANT);
  }

  lemma TwoSent(a: Write, b: Write)
    requires TargetOf(a.command) == TargetOf(b.command) == Pin(4)
    ensures SentTo([a], Pin(4)) == [a] && SentTo([a, b], Pin(4)) == [a, b]
  {
    SentToAdd([], a, Pin(4));
    assert [] + [a] == [a];
    SentToAdd([a], b, Pin(4));
    assert [a] + [b] == [a, b];
  }

  lemma OneWrite(e: Eng)
    requires 1 in e.channels && e.channels[1] == PUMP.(value := e.channels[1].value, priorities := e.channels[1].priorities)
    requires forall i :: 0 <= i < 7 ==> LevelsOf(e.channels[1])[i].value.None?
    ensures var r := Apply(e, LevelOp(1, 8, Some(1.0), "operator", 0.0, LOSSY));
      1 in r.channels && r.channels[1] == PUMP.(value := r.channels[1].value, priorities := r.channels[1].priorities) &&
      r.writeLog == e.writeLog + [Write(SetDigital(4, true), |e.writeLog| > 0)] &&
      forall i :: 0 <= i < 7 ==> LevelsOf(r.channels[1])[i].value.None?
  {
    hide WriteChannel, Priority.Entry;
    var entry := Priority.Entry(Some(1.0), "operator", 0.0, LOSSY.now);
    assert entry.value == Some(1.0) by { EntryHolds(1.0); }
    var levels := Priority.SetLevel(LevelsOf(e.channels[1]), 8, entry);
    Priority.ScanFromFinds(levels, 0, 7);
    assert Apply(e, LevelOp(1, 8, Some(1.0), "operator", 0.0, LOSSY)) == Driven(e, LOSSY, 1, levels, true);
    var e1 := Put(e, 1, e.channels[1].(priorities := Some(levels)));
    WriteTouchesOnly(e1, LOSSY, 1, CurOnly(1.0));
    WriteOutput(e1, LOSSY, 1, 1.0);
    PumpCommand(e.tables, e1.channels[1], 1.0);
  }

  /** A failing write that changes the array: level 8 of an input channel. */
  lemma FailingWriteStays()
    ensures var plant := PLANT.(channels := map[1 := PUMP.(direction := In)]);
      var (r, out, _) := WriteLevel(plant, LOSSY, 1, 8, Some(1.0), "operator", 0.0);
      out == NotSupported && r != plant && 1 in r.channels && r.channels[1].priorities.Some? &&
      r.channels[1].priorities.value[7].value == Some(1.0)
  {
    hide WriteLevel, Priority.Entry, Priority.Effective;
    var ch := PUMP.(direction := In);
    var plant := PLANT.(channels := map[1 := ch]);
    ErrorsAndTheArray(plant, LOSSY, 1, 8, Some(1.0), "operator", 0.0);
    EntryHolds(1.0);
    var levels := WrittenLevels(ch, LOSSY, 8, Some(1.0), "operator", 0.0);
    HeldIsEffective(levels, 7);
  }

  lemma HeldIsEffective(levels: Priority.Levels, i: nat)
    requires i < Priority.MAX_LEVELS && levels[i].value.Some?
    ensures Priority.Effective(levels).value.Some?
  {
    Priority.EffectiveIsHighest(levels);
  }

  // ----- Shared targets -----

  /** Two outputs on one target: a level write on one that drives it leaves the other in agreement
      exactly when both effective values make the same command. */
  lemma SharedTargetIff(e: Eng, w: World, x: ChannelId, level: nat, value: Option<real>, who: string, duration: real, id: ChannelId)
    requires x in e.channels && id in e.channels && x != id && 1 <= level <= Priority.MAX_LEVELS
    requires Output(e.channels[x]) && Output(e.channels[id]) && ChannelTarget(e.channels[x]) == ChannelTarget(e.channels[id])
    requires Priority.Effective(WrittenLevels(e.channels[x], w, level, value, who, duration)).value.Some?
    requires EffectiveOf(e.channels[id]).Some?
    ensures var r := WriteLevel(e, w, x, level, value, who, duration).0;
      var shown := Priority.Effective(WrittenLevels(e.channels[x], w, level, value, who, duration)).value.value;
      id in r.channels && r.tables == e.tables &&
      (Agrees(r, id) <==>
        Expected(e.tables, e.channels[x], shown) == Expected(e.tables, e.channels[id], EffectiveOf(e.channels[id]).value))
  {
    hide WriteLevel, Expected, LastCommand, Priority.Effective, WrittenLevels;
    var r := WriteLevel(e, w, x, level, value, who, duration).0;
    var levels := WrittenLevels(e.channels[x], w, level, value, who, duration);
    var c := Expected(e.tables, e.channels[x], Priority.Effective(levels).value.value);
    LevelTouchesOnly(e, w, x, level, value, who, duration);
    ErrorsAndTheArray(e, w, x, level, value, who, duration);
    LevelWriteSends(e, w, x, level, value, who, duration);
    ExpectedTarget(e.tables, e.channels[x], Priority.Effective(levels).value.value);
    LastCommandAdd(e.writeLog, Write(c, w.writeOk(|e.writeLog|, c)), ChannelTarget(e.channels[id]));
  }

  /** Pump 1 is written on, then pump 2 on the same pin off: pump 1 still shows on, and the pin was
      sent off. */
  lemma SharedPinOverwrites()
    ensures var plant := PLANT.(channels := map[1 := PUMP, 2 := PUMP]);
      var on, off := LevelOp(1, 8, Some(1.0), "operator", 0.0, LOSSY), LevelOp(2, 8, Some(0.0), "operator", 0.0, LOSSY);
      HardwareAgrees(plant) && Shown(plant, [on, off], 1) == Some(1.0) &&
      LastCommand(Run(plant, [on, off]).writeLog, Pin(4)) == Some(SetDigital(4, false))
  {
    hide Apply, SentTo, Priority.Entry, Shown, LastCommand, EffectiveOf, HardwareAgrees;
    var plant := PLANT.(channels := map[1 := PUMP, 2 := PUMP]);
    var on, off := LevelOp(1, 8, Some(1.0), "operator", 0.0, LOSSY), LevelOp(2, 8, Some(0.0), "operator", 0.0, LOSSY);
    FreshAgrees(plant);
    var mid := Apply(plant, on);
    RunTwo(plant, on, off);
    PumpWrite(plant, 1, 1.0);
    PumpWrite(mid, 2, 0.0);
    ShownIsEffective(plant, [on, off], 1);
    LastCommandAdd(mid.writeLog, Write(SetDigital(4, false), |mid.writeLog| > 0), Pin(4));
  }

  /** Writing level 8 of a pump whose better levels are empty. */
  lemma PumpWrite(e: Eng, id: ChannelId, x: real)
    requires id in e.channels && e.channels[id] == PUMP && (x == 0.0 || x == 1.0)
    ensures var r := Apply(e, LevelOp(id, 8, Some(x), "operator", 0.0, LOSSY));
      id in r.channels && EffectiveOf(r.channels[id]) == Some(x) &&
      r.writeLog == e.writeLog + [Write(SetDigital(4, x == 1.0), |e.writeLog| > 0)] &&
      forall y :: y in e.channels && y != id ==> y in r.channels && r.channels[y] == e.channels[y]
  {
    hide WriteChannel, Priority.Entry, Priority.Effective;
    var levels := WrittenLevels(PUMP, LOSSY, 8, Some(x), "operator", 0.0);
    EntryHolds(x);
    LevelEight(levels, x);
    assert Apply(e, LevelOp(id, 8, Some(x), "operator", 0.0, LOSSY)) == Driven(e, LOSSY, id, levels, true);
    var e1 := Put(e, id, PUMP.(priorities := Some(levels)));
    DriveStores(e, LOSSY, id, levels);
    WriteOutput(e1, LOSSY, id, x);
    PumpCommand(e.tables, e1.channels[id], x);
  }

  lemma LevelEight(levels: Priority.Levels, x: real)
    requires levels[7].value == Some(x) && forall i :: 0 <= i < 7 ==> levels[i].value.None?
    ensures Priority.Effective(levels).value == Some(x)
  {
    Priority.ScanFromFinds(levels, 0, 7);
  }

  lemma EntryHolds(x: real)
    ensures Priority.Entry(Some(x), "operator", 0.0, LOSSY.now).value == Some(x)
  {
  }

  lemma PumpCommand(tables: Tables, ch: Channel, x: real)
    requires ch == PUMP.(value := ch.value, priorities := ch.priorities) && (x == 0.0 || x == 1.0)
    ensures Expected(tables, ch, x) == SetDigital(4, x == 1.0)
  {
  }
}
