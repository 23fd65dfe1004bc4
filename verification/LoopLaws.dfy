/** What control loops and components do with their channels: the readings a loop works on, the
    values it writes, how both move together, and components as functions of their input history. */
module LoopLaws {
  import opened EngineTypes
  import opened EngineCore
  import opened EngineRuns
  import opened WritePath
  import opened Control
  import Pid
  import Sequencer
  import Components

  // ----- One loop -----

  datatype Inputs = Inputs(setpoint: real, feedback: real)

  /** What an enabled loop reads: the feedback channel first, which must be Ok, then the setpoint
      channel, which need only exist. Nothing if the loop has to sit the cycle out. */
  ghost function LoopReading(e: Eng, l: ControlLoop, w: World): Option<Inputs> {
    var (e1, pv) := Read(e, w, l.feedbackChannel, map[]);
    var sp := Read(e1, w, l.setpointChannel, map[]).1;
    if l.enabled && pv.Some? && pv.value.status == Ok && sp.Some? then Some(Inputs(sp.value.cur, pv.value.cur)) else None
  }

  ghost predicate WritesLevel(ops: seq<Op>) {
    exists k :: 0 <= k < |ops| && ops[k].LevelOp?
  }

  /** The write of `x` to output `id` of loop `l`. */
  ghost function WriteOf(l: ControlLoop, id: ChannelId, x: real, w: World): Op {
    LevelOp(id, l.writeLevel, Some(x), "control", 0.0, w)
  }

  /** A loop without readings writes nothing and stays as it is. One with readings steps its PID on
      setpoint and feedback; the output goes to its first channel, or through the stages to one
      channel each, on as 1 and off as 0. */
  lemma LoopLaw(e: Eng, l: ControlLoop, w: World)
    ensures var (l', ops) := LoopStep(e, l, w);
      match LoopReading(e, l, w)
      case None => l' == l && !WritesLevel(ops)
      case Some(i) =>
        l' == l.(pid := l'.pid, sequencer := l'.sequencer) &&
        l'.pid == Pid.Next(l.pidConfig, l.pid, i.setpoint, i.feedback, w.now) &&
        (match l.sequencer
         case None =>
           l'.sequencer == None && |ops| == 2 + (if l.outputChannels == [] then 0 else 1) &&
           (l.outputChannels != [] ==> ops[2] == WriteOf(l, l.outputChannels[0], l'.pid.output, w))
         case Some(q) =>
           l'.sequencer == Some(Staging(q.config, Sequencer.Execute(q.config, q.stages, l'.pid.output))) &&
           |ops| == 2 + |l.outputChannels| &&
           forall j :: 0 <= j < |l.outputChannels| ==>
             ops[2 + j] == WriteOf(l, l.outputChannels[j],
               if j < |l'.sequencer.value.stages| && l'.sequencer.value.stages[j] then 1.0 else 0.0, w))
  {
    hide Read, Pid.Next, Sequencer.Execute, StageWrites;
    var (l', ops) := LoopStep(e, l, w);
    if LoopReading(e, l, w).Some? {
      var i := LoopReading(e, l, w).value;
      var l1 := l.(pid := Pid.Next(l.pidConfig, l.pid, i.setpoint, i.feedback, w.now));
      var writes := LoopWrites(l1, w).1;
      assert ops == [PlainRead(l.feedbackChannel, w), PlainRead(l.setpointChannel, w)] + writes;
      assert forall j :: 0 <= j < |writes| ==> ops[2 + j] == writes[j];
      if l.sequencer.Some? {
        StageWritesAre(l1, l'.sequencer.value.stages, w);
      }
    } else {
      SitsOut(e, l, w);
    }
  }

  lemma SitsOut(e: Eng, l: ControlLoop, w: World)
    requires LoopReading(e, l, w).None?
    ensures LoopStep(e, l, w).0 == l && !WritesLevel(LoopStep(e, l, w).1)
  {
    hide Read, LoopWrites, Pid.Next;
    var (e1, pv) := Read(e, w, l.feedbackChannel, map[]);
    var sp := Read(e1, w, l.setpointChannel, map[]).1;
    if !l.enabled {
    } else if pv.None? || pv.value.status != Ok {
      assert LoopStep(e, l, w) == (l, [PlainRead(l.feedbackChannel, w)]);
    } else {
      assert sp.None?;
      assert LoopStep(e, l, w) == (l, [PlainRead(l.feedbackChannel, w), PlainRead(l.setpointChannel, w)]);
    }
  }

  lemma StageWritesAre(l: ControlLoop, stages: seq<bool>, w: World)
    ensures var ops := StageWrites(l, stages, w);
      |ops| == |l.outputChannels| &&
      forall j :: 0 <= j < |ops| ==>
        ops[j] == WriteOf(l, l.outputChannels[j], if j < |stages| && stages[j] then 1.0 else 0.0, w)
  {
  }

  /** The written value of an unstaged loop where no limit bites: the control law on its channels. */
  lemma WrittenValue(e: Eng, l: ControlLoop, w: World, t: Instant, err: real, dt: real)
    requires LoopReading(e, l, w).Some? && l.sequencer.None? && l.outputChannels != []
    requires Pid.InOrder(l.pidConfig) && l.pidConfig.enabled && l.pid.initialized && l.pid.lastExec == Some(t)
    requires w.now > t && w.now - t >= l.pidConfig.execIntervalMs * 1_000_000
    requires err == Pid.Deviation(l.pidConfig, LoopReading(e, l, w).value.setpoint, LoopReading(e, l, w).value.feedback)
    requires dt == Pid.SecondsBetween(t, w.now) && dt > 0.0
    requires var c, s := l.pidConfig, l.pid;
      var target := Pid.Law(c, err, s.lastError, dt, s.integral + Pid.Reset(c, err, dt));
      (c.ki != 0.0 ==> Pid.InRange(c, s.integral + Pid.Reset(c, err, dt))) && Pid.InRange(c, target) &&
      (c.maxDelta > 0.0 ==> Abs(target - s.output) <= c.maxDelta)
    ensures var ops := LoopStep(e, l, w).1;
      |ops| == 3 && ops[2] == WriteOf(l, l.outputChannels[0],
        Pid.Law(l.pidConfig, err, l.pid.lastError, dt, l.pid.integral + Pid.Reset(l.pidConfig, err, dt)), w)
  {
    hide LoopStep, Pid.Next, LoopReading, Pid.Law, Pid.Reset, Pid.SecondsBetween, Pid.Deviation;
    LoopLaw(e, l, w);
    var i := LoopReading(e, l, w).value;
    Pid.UnlimitedOutput(l.pidConfig, l.pid, i.setpoint, i.feedback, t, w.now, err, dt);
  }

  // ----- Two histories -----

  /** The second loop is configured alike and stands at least as high. */
  ghost predicate LoopBelow(a: ControlLoop, b: ControlLoop) {
    && a.pidConfig == b.pidConfig && Pid.Monotone(a.pidConfig) && Pid.Below(a.pid, b.pid)
    && a.sequencer.Some? == b.sequencer.Some?
    && (a.sequencer.Some? ==>
          a.sequencer.value.config == b.sequencer.value.config &&
          Sequencer.FewerOn(a.sequencer.value.stages, b.sequencer.value.stages))
  }

  /** Both sit out, or the second sees no lower setpoint and no higher feedback; under reverse action
      no higher setpoint and no lower feedback. */
  ghost predicate AsksNoMore(direct: bool, x: Option<Inputs>, y: Option<Inputs>) {
    x.Some? == y.Some? &&
    (x.Some? ==>
      if direct then x.value.setpoint <= y.value.setpoint && x.value.feedback >= y.value.feedback
      else x.value.setpoint >= y.value.setpoint && x.value.feedback <= y.value.feedback)
  }

  lemma BelowOutputs(a: ControlLoop, b: ControlLoop, j: nat)
    requires LoopBelow(a, b)
    ensures OutputOf(a, j) <= OutputOf(b, j)
  {
  }

  lemma LoopMonotone(e: Eng, a: ControlLoop, w: World, f: Eng, b: ControlLoop, u: World)
    requires LoopBelow(a, b) && w.now == u.now
    requires AsksNoMore(a.pidConfig.direct, LoopReading(e, a, w), LoopReading(f, b, u))
    ensures LoopBelow(LoopStep(e, a, w).0, LoopStep(f, b, u).0)
  {
    hide LoopStep, LoopReading, Pid.Next, Sequencer.Execute;
    LoopLaw(e, a, w);
    LoopLaw(f, b, u);
    var x, y := LoopReading(e, a, w), LoopReading(f, b, u);
    if x.Some? {
      var p := Pid.Call(a.pidConfig, x.value.setpoint, x.value.feedback, w.now);
      var q := Pid.Call(b.pidConfig, y.value.setpoint, y.value.feedback, u.now);
      Pid.StepMonotone(a.pid, p, b.pid, q);
      if a.sequencer.Some? {
        var s, t := a.sequencer.value, b.sequencer.value;
        Sequencer.StagesMonotone(s.config, s.stages, Pid.Step(a.pid, p).output, t.stages, Pid.Step(b.pid, q).output);
      }
    }
  }

  /** The engine as loop `i` of a cycle finds it. */
  ghost function EngineAt(e: Eng, loops: seq<ControlLoop>, w: World, i: nat): Eng
    requires i <= |loops|
  {
    Run(e, LoopsStep(e, loops[..i], w).ops)
  }

  lemma {:induction false} LoopInCycle(e: Eng, loops: seq<ControlLoop>, w: World, i: nat)
    requires i < |loops|
    ensures var p := LoopsStep(e, loops, w).items;
      |p| == |loops| && p[i] == LoopStep(EngineAt(e, loops, w, i), loops[i], w).0
  {
    hide LoopStep, Run;
    var k := |loops| - 1;
    LoopsKeepConfig(e, loops[..k], w);
    if i < k {
      LoopInCycle(e, loops[..k], w, i);
      assert loops[..k][..i] == loops[..i];
    }
  }

  /** Loop `i` after the cycles of a history, and what it read in each. */
  ghost function LoopAfter(r: Runner, e: Eng, acts: seq<Activity>, i: nat): Option<ControlLoop> {
    var r' := Play(r, e, acts).0;
    if i < |r'.loops| then Some(r'.loops[i]) else None
  }

  ghost function ReadIn(r: Runner, e: Eng, acts: seq<Activity>, i: nat, w: World): Option<Inputs> {
    var (r', ops) := Play(r, e, acts);
    if i < |r'.loops| then LoopReading(EngineAt(Run(e, ops), r'.loops, w, i), r'.loops[i], w) else None
  }

  lemma LoopAfterStep(r: Runner, e: Eng, acts: seq<Activity>, i: nat)
    requires acts != []
    ensures var k := |acts| - 1;
      var (before, ops) := Play(r, e, acts[..k]);
      LoopAfter(r, e, acts, i) ==
        if i >= |before.loops| then None
        else if acts[k].Other? then Some(before.loops[i])
        else Some(LoopStep(EngineAt(Run(e, ops), before.loops, acts[k].w, i), before.loops[i], acts[k].w).0)
  {
    hide LoopStep, Run, LoopsStep, ComponentsStep;
    var k := |acts| - 1;
    var (before, ops) := Play(r, e, acts[..k]);
    if acts[k].Cycle? {
      LoopsKeepConfig(Run(e, ops), before.loops, acts[k].w);
      if i < |before.loops| {
        LoopInCycle(Run(e, ops), before.loops, acts[k].w, i);
      }
    }
  }

  /** The same moments in both histories, loop `i` asking no more in the first. */
  ghost predicate NeverAsksMore(direct: bool, r: Runner, e: Eng, acts: seq<Activity>, s: Runner, f: Eng, others: seq<Activity>, i: nat) {
    |acts| == |others| &&
    forall k :: 0 <= k < |acts| ==>
      acts[k].Cycle? == others[k].Cycle? &&
      (acts[k].Cycle? ==>
        acts[k].w.now == others[k].w.now &&
        AsksNoMore(direct, ReadIn(r, e, acts[..k], i, acts[k].w), ReadIn(s, f, others[..k], i, others[k].w)))
  }

  /** Over whole histories, through skipped cycles, limits, stages and whatever else happens to the
      two engines: a loop that always sees a setpoint at least as high and a feedback at most as high
      never puts out less; under reverse action the other way round. */
  lemma {:induction false} HistoriesMonotone(r: Runner, e: Eng, acts: seq<Activity>, s: Runner, f: Eng, others: seq<Activity>, i: nat)
    requires i < |r.loops| && i < |s.loops| && LoopBelow(r.loops[i], s.loops[i])
    requires NeverAsksMore(r.loops[i].pidConfig.direct, r, e, acts, s, f, others, i)
    ensures var a, b := LoopAfter(r, e, acts, i), LoopAfter(s, f, others, i);
      a.Some? && b.Some? && LoopBelow(a.value, b.value) && a.value.pidConfig == r.loops[i].pidConfig &&
      forall j: nat :: OutputOf(a.value, j) <= OutputOf(b.value, j)
  {
    hide LoopStep, LoopBelow, AsksNoMore, OutputOf, ReadIn, EngineAt, Run, ControlCycle;
    if acts == [] {
      assert LoopAfter(r, e, acts, i) == Some(r.loops[i]) && LoopAfter(s, f, others, i) == Some(s.loops[i]);
    } else {
      hide LoopAfter;
      var k := |acts| - 1;
      AsksMorePrefix(r.loops[i].pidConfig.direct, r, e, acts, s, f, others, i);
      HistoriesMonotone(r, e, acts[..k], s, f, others[..k], i);
      if acts[k].Cycle? {
        StepInHistory(r, e, acts, s, f, others, i);
      } else {
        LoopRests(r, e, acts, i);
        LoopRests(s, f, others, i);
      }
    }
    var a, b := LoopAfter(r, e, acts, i).value, LoopAfter(s, f, others, i).value;
    forall j: nat
      ensures OutputOf(a, j) <= OutputOf(b, j)
    {
      BelowOutputs(a, b, j);
    }
  }

  lemma AsksMorePrefix(direct: bool, r: Runner, e: Eng, acts: seq<Activity>, s: Runner, f: Eng, others: seq<Activity>, i: nat)
    requires acts != [] && NeverAsksMore(direct, r, e, acts, s, f, others, i)
    ensures NeverAsksMore(direct, r, e, acts[..|acts| - 1], s, f, others[..|acts| - 1], i)
  {
    hide AsksNoMore, ReadIn;
    var k := |acts| - 1;
    assert forall n :: 0 <= n < k ==> acts[..k][n] == acts[n] && others[..k][n] == others[n];
    assert forall n :: 0 <= n < k ==> acts[..k][..n] == acts[..n] && others[..k][..n] == others[..n];
  }

  lemma LoopRests(r: Runner, e: Eng, acts: seq<Activity>, i: nat)
    requires acts != [] && acts[|acts| - 1].Other?
    ensures LoopAfter(r, e, acts, i) == LoopAfter(r, e, acts[..|acts| - 1], i)
  {
    hide Run, ControlCycle;
  }

  lemma StepInHistory(r: Runner, e: Eng, acts: seq<Activity>, s: Runner, f: Eng, others: seq<Activity>, i: nat)
    requires |acts| == |others| && acts != []
    requires var k := |acts| - 1;
      acts[k].Cycle? && others[k].Cycle? && acts[k].w.now == others[k].w.now &&
      var a, b := LoopAfter(r, e, acts[..k], i), LoopAfter(s, f, others[..k], i);
      a.Some? && b.Some? && LoopBelow(a.value, b.value) &&
      AsksNoMore(a.value.pidConfig.direct, ReadIn(r, e, acts[..k], i, acts[k].w), ReadIn(s, f, others[..k], i, others[k].w))
    ensures var a, b := LoopAfter(r, e, acts, i), LoopAfter(s, f, others, i);
      a.Some? && b.Some? && LoopBelow(a.value, b.value) &&
      a.value.pidConfig == LoopAfter(r, e, acts[..|acts| - 1], i).value.pidConfig
  {
    hide LoopStep, LoopReading, LoopBelow, AsksNoMore, EngineAt;
    var k := |acts| - 1;
    LoopAfterStep(r, e, acts, i);
    LoopAfterStep(s, f, others, i);
    var (r1, ops) := Play(r, e, acts[..k]);
    var (s1, qps) := Play(s, f, others[..k]);
    var x, y := EngineAt(Run(e, ops), r1.loops, acts[k].w, i), EngineAt(Run(f, qps), s1.loops, others[k].w, i);
    LoopMonotone(x, r1.loops[i], acts[k].w, y, s1.loops[i], others[k].w);
    LoopLaw(x, r1.loops[i], acts[k].w);
  }

  // ----- Components -----

  /** Input `i` of a component is the current value its channel shows after the earlier ones were
      read, or zero if there is no such channel. */
  lemma {:induction false} InputsAre(e: Eng, w: World, ids: seq<ChannelId>, i: nat)
    requires i < |ids|
    ensures var values := ReadInputs(e, w, ids).1;
      var v := Read(Run(e, ReadOps(ids[..i], map[], w)), w, ids[i], map[]).1;
      |values| == |ids| && values[i] == if v.Some? then v.value.cur else 0.0
  {
    hide Read, Run;
    var k := |ids| - 1;
    InputCount(e, w, ids[..k]);
    if i < k {
      InputsAre(e, w, ids[..k], i);
      assert ids[..k][..i] == ids[..i];
    } else {
      ReadInputsIsRun(e, w, ids[..k]);
    }
  }

  lemma {:induction false} InputCount(e: Eng, w: World, ids: seq<ChannelId>)
    ensures |ReadInputs(e, w, ids).1| == |ids|
  {
    hide Read;
    if ids != [] {
      InputCount(e, w, ids[..|ids| - 1]);
    }
  }

  /** An enabled component reads its inputs, steps, and writes its one output; a disabled one rests. */
  lemma ComponentLaw(e: Eng, c: Component, w: World)
    ensures var (c', ops) := ComponentStep(e, c, w);
      var n := |c.inputChannels|;
      if !c.enabled then c' == c && ops == []
      else
        var (kind, value) := ExecuteComponent(c.kind, ReadInputs(e, w, c.inputChannels).1, w.now);
        c' == c.(kind := kind) && |ops| == n + 1 &&
        ops[n] == LevelOp(c.outputChannel, c.writeLevel, Some(value), "control", 0.0, w) &&
        forall i :: 0 <= i < n ==> ops[i] == ReadOp(c.inputChannels[i], map[], w)
  {
    hide ReadInputs, ExecuteComponent;
  }

  datatype Tick = Tick(now: Instant, inputs: seq<real>)

  /** The timer's input is its first channel, on unless zero or missing. */
  ghost function SampleOf(t: Tick): Components.Sample {
    Components.Sample(t.now, t.inputs != [] && t.inputs[0] != 0.0)
  }

  ghost function Samples(ticks: seq<Tick>): seq<Components.Sample> {
    seq(|ticks|, i requires 0 <= i < |ticks| => SampleOf(ticks[i]))
  }

  /** A component's kind and last output after a run of executions. */
  ghost function Ticked(k: Kind, ticks: seq<Tick>): (Kind, real) {
    if ticks == [] then (k, 0.0)
    else
      var n := |ticks| - 1;
      ExecuteComponent(Ticked(k, ticks[..n]).0, ticks[n].inputs, ticks[n].now)
  }

  /** The three timers, as fresh components. */
  ghost function FreshTimers(ms: nat): (Kind, Kind, Kind) {
    (DelayOnKind(ms, Components.OnState(None, false)), DelayOffKind(ms, Components.OffState(None, false)),
     OneShotKind(ms, Components.ShotState(false, None, false)))
  }

  lemma {:induction false} TimersRun(ms: nat, ticks: seq<Tick>)
    ensures var (on, off, shot) := FreshTimers(ms);
      var h := Samples(ticks);
      Ticked(on, ticks).0 == DelayOnKind(ms, Components.DelayOnRun(ms, h)) &&
      Ticked(off, ticks).0 == DelayOffKind(ms, Components.DelayOffRun(ms, h)) &&
      Ticked(shot, ticks).0 == OneShotKind(ms, Components.OneShotRun(ms, h))
  {
    if ticks != [] {
      var n := |ticks| - 1;
      TimersRun(ms, ticks[..n]);
      assert Samples(ticks)[..n] == Samples(ticks[..n]);
    }
  }

  /** What a timer component puts out after any run, as a number, is its definition over the history
      of its input channel. */
  lemma TimersPutOut(ms: nat, ticks: seq<Tick>)
    requires ticks != [] && Components.Ordered(Samples(ticks))
    ensures var (on, off, shot) := FreshTimers(ms);
      var h := Samples(ticks);
      var last, start := |h| - 1, Components.StreakStart(h);
      Ticked(on, ticks).1 ==
        (if h[last].input && start < last && Components.Millis(h[last].now, h[start].now) >= ms then 1.0 else 0.0) &&
      Ticked(off, ticks).1 == (if h[last].input || (start > 0 && !Components.DroppedOff(ms, h)) then 1.0 else 0.0) &&
      Ticked(shot, ticks).1 == (if Components.Pulsing(ms, h) then 1.0 else 0.0)
  {
    var n := |ticks| - 1;
    var h := Samples(ticks);
    TimersRun(ms, ticks[..n]);
    assert h[..n] == Samples(ticks[..n]);
    Components.DelayOnIsHistory(ms, h);
    Components.DelayOffIsHistory(ms, h);
    Components.OneShotIsHistory(ms, h);
  }
}
