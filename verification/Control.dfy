/** The control runner: PID loops with optional sequencers, and standalone components, reading
    and writing engine channels. One cycle is shown to be a run of engine operations whose only
    writes are permanent ones at configured levels, so everything proved of runs applies to it. */
module Control {
  import opened EngineTypes
  import opened EngineCore
  import opened EngineRuns
  import opened WritePath
  import Engine
  import Pid
  import Sequencer
  import Components
  import Priority

  // ----- Configuration and state -----

  datatype Staging = Staging(config: Sequencer.Config, stages: seq<bool>)

  datatype ControlLoop = ControlLoop(
    name: string, feedbackChannel: ChannelId, setpointChannel: ChannelId, outputChannels: seq<ChannelId>,
    writeLevel: nat, pidConfig: Pid.Config, pid: Pid.State, sequencer: Option<Staging>, enabled: bool)

  /** Timers as they are; every other component as an arbitrary step on its own memory. */
  datatype Kind =
    | DelayOnKind(delayMs: nat, on: Components.OnState)
    | DelayOffKind(delayMs: nat, off: Components.OffState)
    | OneShotKind(durationMs: nat, shot: Components.ShotState)
    | OtherKind(memory: seq<real>, step: (seq<real>, seq<real>, Instant) -> (seq<real>, real))

  datatype Component = Component(
    name: string, inputChannels: seq<ChannelId>, outputChannel: ChannelId, writeLevel: nat, kind: Kind, enabled: bool)

  datatype Runner = Runner(loops: seq<ControlLoop>, components: seq<Component>)

  // ----- Components -----

  function BoolValue(b: bool): real {
    if b then 1.0 else 0.0
  }

  function FirstInput(inputs: seq<real>): bool {
    |inputs| > 0 && inputs[0] != 0.0
  }

  function ExecuteComponent(k: Kind, inputs: seq<real>, now: Instant): (Kind, real) {
    match k
    case DelayOnKind(ms, s) =>
      var s' := Components.DelayOnStep(s, ms, Components.Sample(now, FirstInput(inputs)));
      (DelayOnKind(ms, s'), BoolValue(s'.output))
    case DelayOffKind(ms, s) =>
      var s' := Components.DelayOffStep(s, ms, Components.Sample(now, FirstInput(inputs)));
      (DelayOffKind(ms, s'), BoolValue(s'.output))
    case OneShotKind(ms, s) =>
      var s' := Components.OneShotStep(s, ms, Components.Sample(now, FirstInput(inputs)));
      (OneShotKind(ms, s'), BoolValue(s'.output))
    case OtherKind(memory, step) =>
      var (memory', value) := step(memory, inputs, now);
      (OtherKind(memory', step), value)
  }

  // ----- One loop and one component, as operations -----

  function PlainRead(id: ChannelId, w: World): Op {
    ReadOp(id, map[], w)
  }

  function ControlWrite(id: ChannelId, level: nat, value: real, w: World): Op {
    LevelOp(id, level, Some(value), "control", 0.0, w)
  }

  function StageWrites(l: ControlLoop, stages: seq<bool>, w: World): seq<Op> {
    seq(|l.outputChannels|, i requires 0 <= i < |l.outputChannels| =>
      ControlWrite(l.outputChannels[i], l.writeLevel, BoolValue(i < |stages| && stages[i]), w))
  }

  /** The outputs of a loop whose PID now stands at `l.pid`. */
  function LoopWrites(l: ControlLoop, w: World): (ControlLoop, seq<Op>) {
    match l.sequencer
    case Some(q) =>
      var stages := Sequencer.Execute(q.config, q.stages, l.pid.output);
      (l.(sequencer := Some(q.(stages := stages))), StageWrites(l, stages, w))
    case None =>
      (l, if l.outputChannels == [] then [] else [ControlWrite(l.outputChannels[0], l.writeLevel, l.pid.output, w)])
  }

  /** One loop: skipped while its feedback is not Ok, or a channel is missing. */
  function LoopStep(e: Eng, l: ControlLoop, w: World): (ControlLoop, seq<Op>) {
    if !l.enabled then (l, [])
    else
      var (e1, pv) := Read(e, w, l.feedbackChannel, map[]);
      if pv.None? || pv.value.status != Ok then (l, [PlainRead(l.feedbackChannel, w)])
      else
        var (e2, sp) := Read(e1, w, l.setpointChannel, map[]);
        var readOps := [PlainRead(l.feedbackChannel, w), PlainRead(l.setpointChannel, w)];
        if sp.None? then (l, readOps)
        else
          var pid := Pid.Next(l.pidConfig, l.pid, sp.value.cur, pv.value.cur, w.now);
          var (l', writes) := LoopWrites(l.(pid := pid), w);
          (l', readOps + writes)
  }

  /** The current values of the input channels, zero for unknown ones. */
  function ReadInputs(e: Eng, w: World, ids: seq<ChannelId>): (Eng, seq<real>) {
    if ids == [] then (e, [])
    else
      var k := |ids| - 1;
      var (e1, values) := ReadInputs(e, w, ids[..k]);
      var (e2, r) := Read(e1, w, ids[k], map[]);
      (e2, values + [if r.Some? then r.value.cur else 0.0])
  }

  function ComponentStep(e: Eng, c: Component, w: World): (Component, seq<Op>) {
    if !c.enabled then (c, [])
    else
      var inputs := ReadInputs(e, w, c.inputChannels).1;
      var (kind, value) := ExecuteComponent(c.kind, inputs, w.now);
      (c.(kind := kind), ReadOps(c.inputChannels, map[], w) + [ControlWrite(c.outputChannel, c.writeLevel, value, w)])
  }

  // ----- One cycle -----

  datatype Progress<T> = Progress(items: seq<T>, ops: seq<Op>)

  function LoopsStep(e: Eng, loops: seq<ControlLoop>, w: World): Progress<ControlLoop> {
    if loops == [] then Progress([], [])
    else
      var k := |loops| - 1;
      var p := LoopsStep(e, loops[..k], w);
      var (l, ops) := LoopStep(Run(e, p.ops), loops[k], w);
      Progress(p.items + [l], p.ops + ops)
  }

  function ComponentsStep(e: Eng, comps: seq<Component>, w: World): Progress<Component> {
    if comps == [] then Progress([], [])
    else
      var k := |comps| - 1;
      var p := ComponentsStep(e, comps[..k], w);
      var (c, ops) := ComponentStep(Run(e, p.ops), comps[k], w);
      Progress(p.items + [c], p.ops + ops)
  }

  /** The runner after a cycle, and the operations it made on the engine. */
  function ControlCycle(r: Runner, e: Eng, w: World): (Runner, seq<Op>) {
    var a := LoopsStep(e, r.loops, w);
    var b := ComponentsStep(Run(e, a.ops), r.components, w);
    (Runner(a.items, b.items), a.ops + b.ops)
  }

  // ----- What a cycle may do -----

  /** The runner is configured to write channel `id` at level `level`. */
  ghost predicate Configured(r: Runner, id: ChannelId, level: nat) {
    || (exists l :: l in r.loops && id in l.outputChannels && level == l.writeLevel)
    || (exists c :: c in r.components && id == c.outputChannel && level == c.writeLevel)
  }

  /** A plain read, or a permanent write in the runner's name to a configured channel and level. */
  ghost predicate ControlOp(r: Runner, w: World, op: Op) {
    op.w == w &&
    (op.ReadOp? ||
     (op.LevelOp? && Configured(r, op.id, op.level) && op.value.Some? && op.duration == 0.0 && op.who == "control"))
  }

  lemma LoopOps(e: Eng, l: ControlLoop, w: World, r: Runner)
    requires l in r.loops
    ensures forall op :: op in LoopStep(e, l, w).1 ==> ControlOp(r, w, op)
  {
    hide Read, Pid.Next, Sequencer.Execute;
  }

  lemma ComponentOps(e: Eng, c: Component, w: World, r: Runner)
    requires c in r.components
    ensures forall op :: op in ComponentStep(e, c, w).1 ==> ControlOp(r, w, op)
  {
    hide ReadInputs, ExecuteComponent;
  }

  lemma {:induction false} LoopsOps(e: Eng, loops: seq<ControlLoop>, w: World, r: Runner)
    requires forall l :: l in loops ==> l in r.loops
    ensures forall op :: op in LoopsStep(e, loops, w).ops ==> ControlOp(r, w, op)
  {
    hide LoopStep, ControlOp, Run;
    if loops != [] {
      var k := |loops| - 1;
      LoopsOps(e, loops[..k], w, r);
      LoopOps(Run(e, LoopsStep(e, loops[..k], w).ops), loops[k], w, r);
    }
  }

  lemma {:induction false} ComponentsOps(e: Eng, comps: seq<Component>, w: World, r: Runner)
    requires forall c :: c in comps ==> c in r.components
    ensures forall op :: op in ComponentsStep(e, comps, w).ops ==> ControlOp(r, w, op)
  {
    hide ComponentStep, ControlOp, Run;
    if comps != [] {
      var k := |comps| - 1;
      ComponentsOps(e, comps[..k], w, r);
      ComponentOps(Run(e, ComponentsStep(e, comps[..k], w).ops), comps[k], w, r);
    }
  }

  /** A cycle reads channels and writes only where it is configured to. */
  lemma CycleOps(r: Runner, e: Eng, w: World)
    ensures forall op :: op in ControlCycle(r, e, w).1 ==> ControlOp(r, w, op)
  {
    hide LoopsStep, ComponentsStep, ControlOp, Run;
    LoopsOps(e, r.loops, w, r);
    ComponentsOps(Run(e, LoopsStep(e, r.loops, w).ops), r.components, w, r);
  }

  // ----- The runner object -----

  class ControlRunner {
    var loops: seq<ControlLoop>
    var components: seq<Component>

    function View(): Runner
      reads this
    {
      Runner(loops, components)
    }

    constructor (r: Runner)
      ensures View() == r
    {
      loops, components := r.loops, r.components;
    }

    /** One loop or component written to its outputs; errors are logged and ignored. */
    method Issue(engine: Engine.Engine, ops: seq<Op>)
      requires forall op :: op in ops ==> op.LevelOp?
      modifies engine`channels, engine`writeLog
      ensures engine.View() == Run(old(engine.View()), ops)
    {
      hide WriteLevel;
      for i := 0 to |ops|
        invariant engine.View() == Run(old(engine.View()), ops[..i])
      {
        assert ops[..i + 1][..i] == ops[..i];
        var op := ops[i];
        var _, _ := engine.ChannelWriteLevel(op.w, op.id, op.level, op.value, op.who, op.duration);
      }
      assert ops[..|ops|] == ops;
    }

    method ExecuteLoop(engine: Engine.Engine, l: ControlLoop, w: World) returns (l': ControlLoop, ghost ops: seq<Op>)
      requires Pid.InOrder(l.pidConfig)
      modifies engine`channels, engine`backoff, engine`reinitLog, engine`readLog, engine`writeLog
      ensures (l', ops) == LoopStep(old(engine.View()), l, w)
      ensures engine.View() == Run(old(engine.View()), ops)
    {
      hide Read, Pid.Next, LoopWrites, WriteLevel;
      if !l.enabled {
        return l, [];
      }
      ghost var e := engine.View();
      ghost var first := [PlainRead(l.feedbackChannel, w)];
      RunOne(e, PlainRead(l.feedbackChannel, w));
      var pv := engine.ChannelRead(w, l.feedbackChannel);
      if pv.None? || pv.value.status != Ok {
        return l, first;
      }
      ghost var both := [PlainRead(l.feedbackChannel, w), PlainRead(l.setpointChannel, w)];
      RunTwo(e, PlainRead(l.feedbackChannel, w), PlainRead(l.setpointChannel, w));
      var sp := engine.ChannelRead(w, l.setpointChannel);
      if sp.None? {
        return l, both;
      }
      var pid := Pid.Next(l.pidConfig, l.pid, sp.value.cur, pv.value.cur, w.now);
      var (l1, writes) := LoopWrites(l.(pid := pid), w);
      LoopWritesAreLevels(l.(pid := pid), w);
      Issue(engine, writes);
      RunConcat(e, both, writes);
      return l1, both + writes;
    }

    method ReadInputChannels(engine: Engine.Engine, w: World, ids: seq<ChannelId>) returns (values: seq<real>)
      modifies engine`channels, engine`backoff, engine`reinitLog, engine`readLog
      ensures (engine.View(), values) == ReadInputs(old(engine.View()), w, ids)
    {
      hide Read;
      values := [];
      for i := 0 to |ids|
        invariant (engine.View(), values) == ReadInputs(old(engine.View()), w, ids[..i])
      {
        assert ids[..i + 1][..i] == ids[..i];
        var r := engine.ChannelRead(w, ids[i]);
        values := values + [if r.Some? then r.value.cur else 0.0];
      }
      assert ids[..|ids|] == ids;
    }

    method ExecuteOne(engine: Engine.Engine, c: Component, w: World) returns (c': Component, ghost ops: seq<Op>)
      modifies engine`channels, engine`backoff, engine`reinitLog, engine`readLog, engine`writeLog
      ensures (c', ops) == ComponentStep(old(engine.View()), c, w)
      ensures engine.View() == Run(old(engine.View()), ops)
    {
      hide Read, ReadInputs, ExecuteComponent, WriteLevel;
      if !c.enabled {
        return c, [];
      }
      ghost var e := engine.View();
      var inputs := ReadInputChannels(engine, w, c.inputChannels);
      ReadInputsIsRun(e, w, c.inputChannels);
      var (kind, value) := ExecuteComponent(c.kind, inputs, w.now);
      var write := ControlWrite(c.outputChannel, c.writeLevel, value, w);
      Issue(engine, [write]);
      RunConcat(e, ReadOps(c.inputChannels, map[], w), [write]);
      return c.(kind := kind), ReadOps(c.inputChannels, map[], w) + [write];
    }

    method ExecuteLoops(engine: Engine.Engine, w: World)
      requires forall l :: l in loops ==> Pid.InOrder(l.pidConfig)
      modifies this`loops, engine`channels, engine`backoff, engine`reinitLog, engine`readLog, engine`writeLog
      ensures loops == LoopsStep(old(engine.View()), old(loops), w).items
      ensures engine.View() == Run(old(engine.View()), LoopsStep(old(engine.View()), old(loops), w).ops)
    {
      hide LoopStep, Run;
      ghost var e := engine.View();
      var before, after := loops, [];
      ghost var done: seq<Op> := [];
      RunNone(e);
      for i := 0 to |before|
        invariant Progress(after, done) == LoopsStep(e, before[..i], w) && engine.View() == Run(e, done)
      {
        assert before[..i + 1][..i] == before[..i];
        var l, ops := ExecuteLoop(engine, before[i], w);
        RunConcat(e, done, ops);
        after, done := after + [l], done + ops;
      }
      assert before[..|before|] == before;
      loops := after;
    }

    method ExecuteComponents(engine: Engine.Engine, w: World)
      modifies this`components, engine`channels, engine`backoff, engine`reinitLog, engine`readLog, engine`writeLog
      ensures components == ComponentsStep(old(engine.View()), old(components), w).items
      ensures engine.View() == Run(old(engine.View()), ComponentsStep(old(engine.View()), old(components), w).ops)
    {
      hide ComponentStep, Run;
      ghost var e := engine.View();
      var before, after := components, [];
      ghost var done: seq<Op> := [];
      RunNone(e);
      for i := 0 to |before|
        invariant Progress(after, done) == ComponentsStep(e, before[..i], w) && engine.View() == Run(e, done)
      {
        assert before[..i + 1][..i] == before[..i];
        var c, ops := ExecuteOne(engine, before[i], w);
        RunConcat(e, done, ops);
        after, done := after + [c], done + ops;
      }
      assert before[..|before|] == before;
      components := after;
    }

    /** One cycle: loops first, then components, every write passing through the priority arrays. */
    method Execute(engine: Engine.Engine, w: World)
      requires forall l :: l in loops ==> Pid.InOrder(l.pidConfig)
      modifies this, engine`channels, engine`backoff, engine`reinitLog, engine`readLog, engine`writeLog
      ensures View() == ControlCycle(old(View()), old(engine.View()), w).0
      ensures engine.View() == Run(old(engine.View()), ControlCycle(old(View()), old(engine.View()), w).1)
    {
      hide LoopsStep, ComponentsStep, Run;
      ghost var e, ls := engine.View(), loops;
      ghost var mid := Run(e, LoopsStep(e, ls, w).ops);
      ExecuteLoops(engine, w);
      assert engine.View() == mid;
      RunConcat(e, LoopsStep(e, ls, w).ops, ComponentsStep(mid, components, w).ops);
      ExecuteComponents(engine, w);
    }

    /** The first loop of that name is switched, or else the first component of that name. */
    method SetEnabled(name: string, enabled: bool) returns (found: bool)
      modifies this
      ensures (found, View()) == Switch(old(View()), name, enabled)
    {
      for i := 0 to |loops|
        invariant View() == old(View())
        invariant forall k :: 0 <= k < i ==> loops[k].name != name
      {
        if loops[i].name == name {
          FirstLoopFinds(loops, name, i);
          loops := loops[i := loops[i].(enabled := enabled)];
          return true;
        }
      }
      FirstLoopMisses(loops, name);
      for i := 0 to |components|
        invariant View() == old(View())
        invariant forall k :: 0 <= k < i ==> components[k].name != name
      {
        if components[i].name == name {
          FirstComponentFinds(components, name, i);
          components := components[i := components[i].(enabled := enabled)];
          return true;
        }
      }
      FirstComponentMisses(components, name);
      return false;
    }
  }

  lemma LoopWritesAreLevels(l: ControlLoop, w: World)
    ensures forall op :: op in LoopWrites(l, w).1 ==> op.LevelOp?
  {
    hide Sequencer.Execute;
  }

  lemma {:induction false} ReadInputsIsRun(e: Eng, w: World, ids: seq<ChannelId>)
    ensures ReadInputs(e, w, ids).0 == Run(e, ReadOps(ids, map[], w))
  {
    hide Read;
    if ids != [] {
      var k := |ids| - 1;
      ReadInputsIsRun(e, w, ids[..k]);
      assert ReadOps(ids, map[], w)[..k] == ReadOps(ids[..k], map[], w);
    }
  }

  // ----- Switching by name -----

  function FirstLoop(ls: seq<ControlLoop>, name: string): nat {
    if ls == [] || ls[0].name == name then 0 else 1 + FirstLoop(ls[1..], name)
  }

  function FirstComponent(cs: seq<Component>, name: string): nat {
    if cs == [] || cs[0].name == name then 0 else 1 + FirstComponent(cs[1..], name)
  }

  function Switch(r: Runner, name: string, enabled: bool): (bool, Runner) {
    var i := FirstLoop(r.loops, name);
    var j := FirstComponent(r.components, name);
    if i < |r.loops| then (true, r.(loops := r.loops[i := r.loops[i].(enabled := enabled)]))
    else if j < |r.components| then (true, r.(components := r.components[j := r.components[j].(enabled := enabled)]))
    else (false, r)
  }

  lemma {:induction false} FirstLoopFinds(ls: seq<ControlLoop>, name: string, i: nat)
    requires i < |ls| && ls[i].name == name && forall k :: 0 <= k < i ==> ls[k].name != name
    ensures FirstLoop(ls, name) == i
  {
    if i > 0 {
      FirstLoopFinds(ls[1..], name, i - 1);
    }
  }

  lemma {:induction false} FirstLoopMisses(ls: seq<ControlLoop>, name: string)
    requires forall k :: 0 <= k < |ls| ==> ls[k].name != name
    ensures FirstLoop(ls, name) == |ls|
  {
    if ls != [] {
      FirstLoopMisses(ls[1..], name);
    }
  }

  lemma {:induction false} FirstComponentFinds(cs: seq<Component>, name: string, i: nat)
    requires i < |cs| && cs[i].name == name && forall k :: 0 <= k < i ==> cs[k].name != name
    ensures FirstComponent(cs, name) == i
  {
    if i > 0 {
      FirstComponentFinds(cs[1..], name, i - 1);
    }
  }

  lemma {:induction false} FirstComponentMisses(cs: seq<Component>, name: string)
    requires forall k :: 0 <= k < |cs| ==> cs[k].name != name
    ensures FirstComponent(cs, name) == |cs|
  {
    if cs != [] {
      FirstComponentMisses(cs[1..], name);
    }
  }

  // ----- Runs with control -----

  /** The loop writes the same outputs at the same level, staged or not as before. */
  ghost predicate SameLoop(a: ControlLoop, b: ControlLoop) {
    a.outputChannels == b.outputChannels && a.writeLevel == b.writeLevel && a.sequencer.Some? == b.sequencer.Some?
  }

  /** The same loops and components write the same outputs at the same levels. */
  ghost predicate SameConfig(r: Runner, s: Runner) {
    && |r.loops| == |s.loops| && |r.components| == |s.components|
    && (forall i :: 0 <= i < |r.loops| ==> SameLoop(r.loops[i], s.loops[i]))
    && (forall i :: 0 <= i < |r.components| ==>
         r.components[i].outputChannel == s.components[i].outputChannel &&
         r.components[i].writeLevel == s.components[i].writeLevel)
  }

  lemma {:induction false} LoopsKeepConfig(e: Eng, loops: seq<ControlLoop>, w: World)
    ensures var ls := LoopsStep(e, loops, w).items;
      |ls| == |loops| &&
      forall i :: 0 <= i < |ls| ==> SameLoop(loops[i], ls[i])
  {
    hide Read, Run, Pid.Next, Sequencer.Execute;
    if loops != [] {
      LoopsKeepConfig(e, loops[..|loops| - 1], w);
    }
  }

  lemma {:induction false} ComponentsKeepConfig(e: Eng, comps: seq<Component>, w: World)
    ensures var cs := ComponentsStep(e, comps, w).items;
      |cs| == |comps| &&
      forall i :: 0 <= i < |cs| ==>
        cs[i].outputChannel == comps[i].outputChannel && cs[i].writeLevel == comps[i].writeLevel
  {
    hide ReadInputs, Run, ExecuteComponent;
    if comps != [] {
      ComponentsKeepConfig(e, comps[..|comps| - 1], w);
    }
  }

  lemma CycleKeepsConfig(r: Runner, e: Eng, w: World)
    ensures SameConfig(r, ControlCycle(r, e, w).0)
  {
    hide LoopsStep, ComponentsStep, Run;
    LoopsKeepConfig(e, r.loops, w);
    ComponentsKeepConfig(Run(e, LoopsStep(e, r.loops, w).ops), r.components, w);
  }

  /** Every level the runner may write on channel `id` lies below level `n`. */
  ghost predicate ControlsBelow(r: Runner, id: ChannelId, n: nat) {
    && (forall i :: 0 <= i < |r.loops| ==> id in r.loops[i].outputChannels ==> r.loops[i].writeLevel > n)
    && (forall i :: 0 <= i < |r.components| ==> id == r.components[i].outputChannel ==> r.components[i].writeLevel > n)
  }

  lemma SameConfigBelow(r: Runner, s: Runner, id: ChannelId, n: nat)
    requires SameConfig(r, s) && ControlsBelow(r, id, n)
    ensures ControlsBelow(s, id, n)
  {
  }

  lemma ConfiguredBelow(r: Runner, id: ChannelId, n: nat, level: nat)
    requires ControlsBelow(r, id, n) && Configured(r, id, level)
    ensures level > n
  {
  }

  /** What happens to the engine: an operation of somebody else, or a control cycle. */
  datatype Activity = Other(op: Op) | Cycle(w: World)

  /** The engine operations of a history in which the runner takes part, and the runner after it. */
  function Play(r: Runner, e: Eng, acts: seq<Activity>): (Runner, seq<Op>) {
    if acts == [] then (r, [])
    else
      var k := |acts| - 1;
      var (r1, ops) := Play(r, e, acts[..k]);
      match acts[k]
      case Other(op) => (r1, ops + [op])
      case Cycle(w) =>
        var (r2, more) := ControlCycle(r1, Run(e, ops), w);
        (r2, ops + more)
  }

  /** The same history without the runner. */
  function Others(acts: seq<Activity>): seq<Op> {
    if acts == [] then []
    else
      var k := |acts| - 1;
      if acts[k].Other? then Others(acts[..k]) + [acts[k].op] else Others(acts[..k])
  }

  lemma {:induction false} PlayKeepsBelow(r: Runner, e: Eng, acts: seq<Activity>, id: ChannelId, n: nat)
    requires ControlsBelow(r, id, n)
    ensures ControlsBelow(Play(r, e, acts).0, id, n)
  {
    hide ControlCycle, ControlsBelow, SameConfig;
    if acts != [] {
      var k := |acts| - 1;
      var (r1, ops) := Play(r, e, acts[..k]);
      PlayKeepsBelow(r, e, acts[..k], id, n);
      if acts[k].Cycle? {
        CycleKeepsConfig(r1, Run(e, ops), acts[k].w);
        SameConfigBelow(r1, ControlCycle(r1, Run(e, ops), acts[k].w).0, id, n);
      }
    }
  }

  /** Operations of the runner leave the levels above its own alone. */
  lemma {:induction false} ControlLeavesRecorded(
      start: Priority.WriteLevel, r: Runner, w: World, before: seq<Op>, ops: seq<Op>, id: ChannelId, n: nat, level: nat)
    requires ControlsBelow(r, id, n) && level <= n
    requires forall op :: op in ops ==> ControlOp(r, w, op)
    ensures Recorded(start, before + ops, id, level) == Recorded(start, before, id, level)
  {
    hide ControlsBelow, Configured, Priority.Entry, Priority.ExpireOne;
    if ops == [] {
      assert before + ops == before;
    } else {
      var k := |ops| - 1;
      ControlLeavesRecorded(start, r, w, before, ops[..k], id, n, level);
      assert (before + ops)[..|before + ops| - 1] == before + ops[..k];
      assert ControlOp(r, w, ops[k]);
      if ops[k].LevelOp? && ops[k].id == id {
        ConfiguredBelow(r, id, n, ops[k].level);
      }
    }
  }

  lemma {:induction false} PlayRecorded(
      start: Priority.WriteLevel, r: Runner, e: Eng, acts: seq<Activity>, id: ChannelId, n: nat, level: nat)
    requires ControlsBelow(r, id, n) && level <= n
    ensures Recorded(start, Play(r, e, acts).1, id, level) == Recorded(start, Others(acts), id, level)
  {
    hide ControlCycle, ControlsBelow, ControlOp, LevelStep;
    if acts != [] {
      var k := |acts| - 1;
      var (r1, ops) := Play(r, e, acts[..k]);
      PlayRecorded(start, r, e, acts[..k], id, n, level);
      match acts[k]
      case Other(op) =>
        assert (ops + [op])[..|ops|] == ops;
        var rest := Others(acts[..k]);
        assert (rest + [op])[..|rest|] == rest;
      case Cycle(w) =>
        PlayKeepsBelow(r, e, acts[..k], id, n);
        CycleOps(r1, Run(e, ops), w);
        ControlLeavesRecorded(start, r1, w, ops, ControlCycle(r1, Run(e, ops), w).1, id, n, level);
    }
  }

  ghost predicate CalmPlay(e: Eng, acts: seq<Activity>) {
    forall k :: 0 <= k < |acts| ==> Calm(if acts[k].Other? then acts[k].op.w else acts[k].w, e)
  }

  lemma {:induction false} PlayCalm(r: Runner, e: Eng, acts: seq<Activity>)
    requires CalmPlay(e, acts)
    ensures CalmRun(e, Play(r, e, acts).1) && CalmRun(e, Others(acts))
  {
    hide Calm, ControlCycle;
    if acts != [] {
      var k := |acts| - 1;
      assert forall j :: 0 <= j < k ==> acts[..k][j] == acts[j];
      PlayCalm(r, e, acts[..k]);
      var (r1, ops) := Play(r, e, acts[..k]);
      if acts[k].Cycle? {
        CycleOps(r1, Run(e, ops), acts[k].w);
        var more := ControlCycle(r1, Run(e, ops), acts[k].w).1;
        assert forall j :: 0 <= j < |more| ==> more[j] in more;
      }
    }
  }

  /** Override non-interference: while the others hold some level at or above `n`, and every control
      level of the channel lies below `n`, the output's command is the one it would have been sent
      had the runner never run. */
  lemma OverrideSurvivesControl(r: Runner, e: Eng, acts: seq<Activity>, id: ChannelId, n: nat, win: nat)
    requires HardwareAgrees(e) && DistinctTargets(e) && CalmPlay(e, acts)
    requires id in e.channels && Output(e.channels[id]) && ControlsBelow(r, id, n)
    requires win <= n && Winner(e, Others(acts), id, win)
    ensures var t := ChannelTarget(e.channels[id]);
      LastCommand(Run(e, Play(r, e, acts).1).writeLog, t) == LastCommand(Run(e, Others(acts)).writeLog, t) &&
      LastCommand(Run(e, Others(acts)).writeLog, t) ==
        Some(Expected(e.tables, e.channels[id], HeldAt(e, Others(acts), id, win).value))
  {
    hide Run, Play, Others, Recorded, Expected, LastCommand, HardwareAgrees, DistinctTargets, ControlsBelow, CalmRun, LevelsOf;
    var ops := Play(r, e, acts).1;
    PlayCalm(r, e, acts);
    forall i | 1 <= i <= win
      ensures HeldAt(e, ops, id, i) == HeldAt(e, Others(acts), id, i)
    {
      PlayRecorded(LevelsOf(e.channels[id])[i - 1], r, e, acts, id, n, i);
    }
    CommandIsHistory(e, ops, id, win);
    CommandIsHistory(e, Others(acts), id, win);
  }

  /** When the better levels are empty again, the winning level shows its latest write, timed or
      permanent, as long as no sweep came at or after its deadline. */
  lemma ReleaseShowsLatest(e: Eng, ops: seq<Op>, id: ChannelId, level: nat, k: nat)
    requires HardwareAgrees(e) && DistinctTargets(e) && CalmRun(e, ops)
    requires id in e.channels && Output(e.channels[id]) && 1 <= level <= Priority.MAX_LEVELS
    requires LatestWrite(ops, id, level, k) && ops[k].value.Some? && !SweptAway(ops, id, k)
    requires forall i :: 1 <= i < level ==> HeldAt(e, ops, id, i).None?
    ensures LastCommand(Run(e, ops).writeLog, ChannelTarget(e.channels[id])) ==
      Some(Expected(e.tables, e.channels[id], ops[k].value.value))
  {
    hide Run, Recorded, Expected, LastCommand, HardwareAgrees, DistinctTargets, CalmRun, LevelsOf;
    RecordedExact(LevelsOf(e.channels[id])[level - 1], ops, id, level, k);
    CommandIsHistory(e, ops, id, level);
  }

  // ----- What a control level holds -----

  /** The value of a loop's output `j`: its stage, or the PID output itself. */
  function OutputOf(l: ControlLoop, j: nat): real {
    match l.sequencer
    case Some(q) => if j < |q.stages| && q.stages[j] then 1.0 else 0.0
    case None => l.pid.output
  }

  /** Channel `id` is output `j` of the loop and, with stages, no other output of it. */
  ghost predicate Feeds(l: ControlLoop, j: nat, id: ChannelId) {
    && j < |l.outputChannels| && l.outputChannels[j] == id
    && (if l.sequencer.None? then j == 0
        else forall m :: 0 <= m < |l.outputChannels| && m != j ==> l.outputChannels[m] != id)
  }

  /** No operation of `ops` sets or sweeps level `level` of channel `id`. */
  ghost predicate LeavesLevel(ops: seq<Op>, id: ChannelId, level: nat) {
    forall op :: op in ops ==> !op.SweepOp? && !(op.LevelOp? && op.id == id && op.level == level)
  }

  lemma {:induction false} RecordedUntouched(
      start: Priority.WriteLevel, a: seq<Op>, b: seq<Op>, id: ChannelId, level: nat)
    requires LeavesLevel(b, id, level)
    ensures Recorded(start, a + b, id, level) == Recorded(start, a, id, level)
  {
    if b == [] {
      assert a + b == a;
    } else {
      var k := |b| - 1;
      RecordedUntouched(start, a, b[..k], id, level);
      assert (a + b)[..|a + b| - 1] == a + b[..k];
      assert b[k] in b;
    }
  }

  /** The level holds `x`, for good. */
  ghost predicate Holds(l: Priority.WriteLevel, x: real) {
    l.value == Some(x) && l.expiresAt.None?
  }

  lemma StageWritesAt(l: ControlLoop, j: nat, id: ChannelId, stages: seq<bool>, w: World)
    requires Feeds(l, j, id) && l.sequencer.Some?
    ensures var ops := StageWrites(l, stages, w);
      j < |ops| && ops[j] == ControlWrite(id, l.writeLevel, BoolValue(j < |stages| && stages[j]), w) &&
      forall m :: j < m < |ops| ==> ops[m].LevelOp? && ops[m].id != id
  {
  }

  lemma LoopWritesHold(start: Priority.WriteLevel, before: seq<Op>, l: ControlLoop, w: World, j: nat, id: ChannelId)
    requires Feeds(l, j, id)
    ensures var (l', ops) := LoopWrites(l, w);
      Holds(Recorded(start, before + ops, id, l.writeLevel), OutputOf(l', j)) && !LeavesLevel(ops, id, l.writeLevel)
  {
    hide Sequencer.Execute, StageWrites, Recorded;
    var (l', ops) := LoopWrites(l, w);
    if l.sequencer.Some? {
      StageWritesAt(l, j, id, l'.sequencer.value.stages, w);
    }
    var all := before + ops;
    var k := |before| + j;
    assert all[k] == ControlWrite(id, l.writeLevel, OutputOf(l', j), w);
    assert forall m :: k < m < |all| ==> all[m] == ops[m - |before|];
    RecordedLatest(start, all, id, l.writeLevel, k);
    assert ops[j] in ops;
  }

  /** If `ops` left the loop's level alone the output is the old one, and otherwise the level holds
      the new output. */
  ghost predicate UpToDate(b: Priority.WriteLevel, ops: seq<Op>, id: ChannelId, l: ControlLoop, l': ControlLoop, j: nat) {
    if LeavesLevel(ops, id, l.writeLevel) then OutputOf(l', j) == OutputOf(l, j) else Holds(b, OutputOf(l', j))
  }

  lemma LeavesConcat(a: seq<Op>, b: seq<Op>, id: ChannelId, level: nat)
    ensures LeavesLevel(a + b, id, level) <==> LeavesLevel(a, id, level) && LeavesLevel(b, id, level)
  {
    assert forall op :: op in a + b <==> op in a || op in b;
  }

  lemma LoopStepHolds(start: Priority.WriteLevel, before: seq<Op>, e: Eng, l: ControlLoop, w: World, j: nat, id: ChannelId)
    requires Feeds(l, j, id)
    ensures var (l', ops) := LoopStep(e, l, w);
      UpToDate(Recorded(start, before + ops, id, l.writeLevel), ops, id, l, l', j)
  {
    hide Read, Pid.Next, LoopWrites, Recorded, Holds, OutputOf;
    var (l', ops) := LoopStep(e, l, w);
    if !(LeavesLevel(ops, id, l.writeLevel) && l' == l) {
      var (e1, pv) := Read(e, w, l.feedbackChannel, map[]);
      var (e2, sp) := Read(e1, w, l.setpointChannel, map[]);
      var l1 := l.(pid := Pid.Next(l.pidConfig, l.pid, sp.value.cur, pv.value.cur, w.now));
      var readOps := [PlainRead(l.feedbackChannel, w), PlainRead(l.setpointChannel, w)];
      LoopWritesHold(start, before + readOps, l1, w, j, id);
      assert before + ops == before + readOps + LoopWrites(l1, w).1;
      LeavesConcat(readOps, LoopWrites(l1, w).1, id, l.writeLevel);
    }
  }

  /** No loop of the list but number `i` writes the level. */
  ghost predicate OnlyLoop(loops: seq<ControlLoop>, i: nat, id: ChannelId, level: nat) {
    forall m :: 0 <= m < |loops| && m != i ==> id in loops[m].outputChannels ==> loops[m].writeLevel != level
  }

  lemma OtherLoopLeaves(e: Eng, l: ControlLoop, w: World, id: ChannelId, level: nat)
    requires id in l.outputChannels ==> l.writeLevel != level
    ensures LeavesLevel(LoopStep(e, l, w).1, id, level)
  {
    hide Read, Pid.Next, Sequencer.Execute;
  }

  lemma {:induction false} LoopsHold(start: Priority.WriteLevel, before: seq<Op>, e: Eng, loops: seq<ControlLoop>, w: World,
      i: nat, j: nat, id: ChannelId, level: nat)
    requires OnlyLoop(loops, i, id, level)
    requires i < |loops| ==> Feeds(loops[i], j, id) && loops[i].writeLevel == level
    ensures var p := LoopsStep(e, loops, w);
      var b := Recorded(start, before + p.ops, id, level);
      |p.items| == |loops| &&
      (if i < |loops| then UpToDate(b, p.ops, id, loops[i], p.items[i], j) else LeavesLevel(p.ops, id, level))
  {
    hide LoopStep, Recorded, Run, Feeds, UpToDate;
    if loops != [] {
      hide LeavesLevel;
      var k := |loops| - 1;
      LoopsHold(start, before, e, loops[..k], w, i, j, id, level);
      var p := LoopsStep(e, loops[..k], w);
      var (l, ops) := LoopStep(Run(e, p.ops), loops[k], w);
      if k == i {
        LoopStepHolds(start, before + p.ops, Run(e, p.ops), loops[k], w, j, id);
        HoldsAfterIdle(start, before, p.ops, ops, id, loops[k], l, j);
      } else {
        OtherLoopLeaves(Run(e, p.ops), loops[k], w, id, level);
        if i < k {
          HoldsThroughIdle(start, before, p.ops, ops, id, loops[i], p.items[i], j);
        }
        LeavesConcat(p.ops, ops, id, level);
      }
    }
  }

  lemma HoldsAfterIdle(start: Priority.WriteLevel, before: seq<Op>, idle: seq<Op>, ops: seq<Op>, id: ChannelId,
      l: ControlLoop, l': ControlLoop, j: nat)
    requires LeavesLevel(idle, id, l.writeLevel)
    requires UpToDate(Recorded(start, before + idle + ops, id, l.writeLevel), ops, id, l, l', j)
    ensures UpToDate(Recorded(start, before + (idle + ops), id, l.writeLevel), idle + ops, id, l, l', j)
  {
    hide Recorded, Holds, OutputOf, LeavesLevel;
    assert before + (idle + ops) == before + idle + ops;
    LeavesConcat(idle, ops, id, l.writeLevel);
  }

  lemma HoldsThroughIdle(start: Priority.WriteLevel, before: seq<Op>, ops: seq<Op>, idle: seq<Op>, id: ChannelId,
      l: ControlLoop, l': ControlLoop, j: nat)
    requires LeavesLevel(idle, id, l.writeLevel)
    requires UpToDate(Recorded(start, before + ops, id, l.writeLevel), ops, id, l, l', j)
    ensures UpToDate(Recorded(start, before + (ops + idle), id, l.writeLevel), ops + idle, id, l, l', j)
  {
    hide Recorded, Holds, OutputOf, LeavesLevel;
    assert before + (ops + idle) == before + ops + idle;
    RecordedUntouched(start, before + ops, idle, id, l.writeLevel);
    LeavesConcat(ops, idle, id, l.writeLevel);
  }

  lemma {:induction false} ComponentsLeave(e: Eng, comps: seq<Component>, w: World, id: ChannelId, level: nat)
    requires forall m :: 0 <= m < |comps| ==> id == comps[m].outputChannel ==> comps[m].writeLevel != level
    ensures LeavesLevel(ComponentsStep(e, comps, w).ops, id, level)
  {
    hide ReadInputs, ExecuteComponent, Run;
    if comps != [] {
      ComponentsLeave(e, comps[..|comps| - 1], w, id, level);
    }
  }

  /** Loop `i` alone is configured to write its level of channel `id`, as output `j`. */
  ghost predicate SoleWriter(r: Runner, i: nat, j: nat, id: ChannelId) {
    && i < |r.loops| && Feeds(r.loops[i], j, id)
    && OnlyLoop(r.loops, i, id, r.loops[i].writeLevel)
    && (forall m :: 0 <= m < |r.components| ==>
         id == r.components[m].outputChannel ==> r.components[m].writeLevel != r.loops[i].writeLevel)
  }

  lemma SameConfigSole(r: Runner, s: Runner, i: nat, j: nat, id: ChannelId)
    requires SameConfig(r, s) && SoleWriter(r, i, j, id)
    ensures SoleWriter(s, i, j, id) && s.loops[i].writeLevel == r.loops[i].writeLevel
  {
    assert SameLoop(r.loops[i], s.loops[i]);
  }

  /** A cycle that touches the level leaves the loop's new output in it. */
  lemma CycleHolds(start: Priority.WriteLevel, before: seq<Op>, r: Runner, e: Eng, w: World, i: nat, j: nat, id: ChannelId)
    requires SoleWriter(r, i, j, id)
    ensures var (r', ops) := ControlCycle(r, e, w);
      var level := r.loops[i].writeLevel;
      i < |r'.loops| &&
      UpToDate(Recorded(start, before + ops, id, level), ops, id, r.loops[i], r'.loops[i], j)
  {
    hide LoopsStep, ComponentsStep, Recorded, Run, LeavesLevel, Feeds, Holds, OutputOf;
    var level := r.loops[i].writeLevel;
    var a := LoopsStep(e, r.loops, w);
    LoopsHold(start, before, e, r.loops, w, i, j, id, level);
    var b := ComponentsStep(Run(e, a.ops), r.components, w);
    ComponentsLeave(Run(e, a.ops), r.components, w, id, level);
    RecordedUntouched(start, before + a.ops, b.ops, id, level);
    LeavesConcat(a.ops, b.ops, id, level);
    assert before + (a.ops + b.ops) == before + a.ops + b.ops;
  }

  /** Nobody but the runner writes that level. */
  ghost predicate NoneWrites(ops: seq<Op>, id: ChannelId, level: nat) {
    forall k :: 0 <= k < |ops| ==> !(ops[k].LevelOp? && ops[k].id == id && ops[k].level == level)
  }

  lemma NoneWritesConcat(a: seq<Op>, b: seq<Op>, id: ChannelId, level: nat)
    requires NoneWrites(a, id, level)
    ensures NoneWrites(b, id, level) <==> NoneWrites(a + b, id, level)
  {
    assert forall k :: 0 <= k < |b| ==> (a + b)[|a| + k] == b[k];
  }

  lemma NoneWritesPrefix(a: seq<Op>, b: seq<Op>, id: ChannelId, level: nat)
    ensures NoneWrites(a + b, id, level) ==> NoneWrites(a, id, level) && NoneWrites(b, id, level)
  {
    assert forall k :: 0 <= k < |a| ==> (a + b)[k] == a[k];
    assert forall k :: 0 <= k < |b| ==> (a + b)[|a| + k] == b[k];
  }

  /** A cycle makes no sweep, so it leaves a level alone when it does not write it. */
  lemma CycleLeaves(r: Runner, e: Eng, w: World, before: seq<Op>, id: ChannelId, level: nat)
    requires NoneWrites(before + ControlCycle(r, e, w).1, id, level)
    ensures LeavesLevel(ControlCycle(r, e, w).1, id, level)
  {
    hide ControlCycle, Configured;
    var more := ControlCycle(r, e, w).1;
    CycleOps(r, e, w);
    NoneWritesPrefix(before, more, id, level);
    forall op | op in more
      ensures !op.SweepOp? && !(op.LevelOp? && op.id == id && op.level == level)
    {
      assert ControlOp(r, w, op);
      var k :| 0 <= k < |more| && more[k] == op;
    }
  }

  lemma LeavesIsNone(ops: seq<Op>, id: ChannelId, level: nat)
    requires LeavesLevel(ops, id, level)
    ensures NoneWrites(ops, id, level)
  {
  }

  /** In every history, from start-up on: as long as the loop's level has not been written, the loop
      has put out nothing new; from its first write on the level always holds the loop's output,
      through skipped cycles, overrides at other levels and timer sweeps. */
  lemma {:induction false} LevelShowsLoop(start: Priority.WriteLevel, r: Runner, e: Eng, acts: seq<Activity>, i: nat, j: nat, id: ChannelId)
    requires SoleWriter(r, i, j, id) && NoneWrites(Others(acts), id, r.loops[i].writeLevel)
    ensures var (r', ops) := Play(r, e, acts);
      var level := r.loops[i].writeLevel;
      SoleWriter(r', i, j, id) && r'.loops[i].writeLevel == level &&
      (if NoneWrites(ops, id, level) then OutputOf(r'.loops[i], j) == OutputOf(r.loops[i], j)
       else Holds(Recorded(start, ops, id, level), OutputOf(r'.loops[i], j)))
  {
    hide ControlCycle, Feeds, OnlyLoop, OutputOf, SameConfig, LeavesLevel;
    var level := r.loops[i].writeLevel;
    if acts != [] {
      var k := |acts| - 1;
      OthersPrefix(acts, id, level);
      LevelShowsLoop(start, r, e, acts[..k], i, j, id);
      var (r1, ops) := Play(r, e, acts[..k]);
      match acts[k]
      case Other(op) =>
        assert (ops + [op])[..|ops|] == ops;
        assert Others(acts)[|Others(acts)| - 1] == op;
      case Cycle(w) => ShowsAfterCycle(start, ops, r1, Run(e, ops), w, i, j, id);
    }
  }

  /** The cycle's part of that induction. */
  lemma ShowsAfterCycle(start: Priority.WriteLevel, ops: seq<Op>, r: Runner, e: Eng, w: World, i: nat, j: nat, id: ChannelId)
    requires SoleWriter(r, i, j, id)
    requires !NoneWrites(ops, id, r.loops[i].writeLevel) ==>
      Holds(Recorded(start, ops, id, r.loops[i].writeLevel), OutputOf(r.loops[i], j))
    ensures var (r', more) := ControlCycle(r, e, w);
      var level := r.loops[i].writeLevel;
      SoleWriter(r', i, j, id) && r'.loops[i].writeLevel == level &&
      (if NoneWrites(ops + more, id, level) then NoneWrites(ops, id, level) && OutputOf(r'.loops[i], j) == OutputOf(r.loops[i], j)
       else Holds(Recorded(start, ops + more, id, level), OutputOf(r'.loops[i], j)))
  {
    hide ControlCycle, Feeds, OnlyLoop, OutputOf, SameConfig, LeavesLevel, Recorded, Holds;
    var level := r.loops[i].writeLevel;
    var (r', more) := ControlCycle(r, e, w);
    CycleHolds(start, ops, r, e, w, i, j, id);
    CycleKeepsConfig(r, e, w);
    SameConfigSole(r, r', i, j, id);
    if LeavesLevel(more, id, level) {
      RecordedUntouched(start, ops, more, id, level);
      LeavesIsNone(more, id, level);
    } else if NoneWrites(ops + more, id, level) {
      CycleLeaves(r, e, w, ops, id, level);
    }
    NoneWritesPrefix(ops, more, id, level);
    if NoneWrites(ops, id, level) {
      NoneWritesConcat(ops, more, id, level);
    }
  }

  lemma OthersPrefix(acts: seq<Activity>, id: ChannelId, level: nat)
    requires acts != [] && NoneWrites(Others(acts), id, level)
    ensures NoneWrites(Others(acts[..|acts| - 1]), id, level)
  {
    var a := Others(acts[..|acts| - 1]);
    assert forall k :: 0 <= k < |a| ==> Others(acts)[k] == a[k];
  }

  /** Without a write to it, a level that holds a value for good keeps it. */
  lemma {:induction false} HeldForGood(start: Priority.WriteLevel, ops: seq<Op>, id: ChannelId, level: nat, x: real)
    requires Holds(start, x) && NoneWrites(ops, id, level)
    ensures Holds(Recorded(start, ops, id, level), x)
  {
    if ops != [] {
      HeldForGood(start, ops[..|ops| - 1], id, level, x);
    }
  }

  /** Releasing every better level hands the output back to the loop, from start-up on: once the
      loop has written its level, the command last sent is that of the loop's current output. */
  lemma ReleaseShowsLoop(r: Runner, e: Eng, acts: seq<Activity>, i: nat, j: nat, id: ChannelId, level: nat)
    requires HardwareAgrees(e) && DistinctTargets(e) && CalmPlay(e, acts)
    requires id in e.channels && Output(e.channels[id]) && 1 <= level <= Priority.MAX_LEVELS
    requires SoleWriter(r, i, j, id) && level == r.loops[i].writeLevel && NoneWrites(Others(acts), id, level)
    requires !NoneWrites(Play(r, e, acts).1, id, level) ||
      Holds(LevelsOf(e.channels[id])[level - 1], OutputOf(r.loops[i], j))
    requires forall n :: 1 <= n < level ==> HeldAt(e, Play(r, e, acts).1, id, n).None?
    ensures var (r', ops) := Play(r, e, acts);
      i < |r'.loops| &&
      LastCommand(Run(e, ops).writeLog, ChannelTarget(e.channels[id])) ==
        Some(Expected(e.tables, e.channels[id], OutputOf(r'.loops[i], j)))
  {
    hide Run, Play, Others, Recorded, Expected, LastCommand, HardwareAgrees, DistinctTargets, CalmRun, LevelsOf, OutputOf;
    var (r', ops) := Play(r, e, acts);
    var start := LevelsOf(e.channels[id])[level - 1];
    PlayCalm(r, e, acts);
    LevelShowsLoop(start, r, e, acts, i, j, id);
    if NoneWrites(ops, id, level) {
      HeldForGood(start, ops, id, level, OutputOf(r.loops[i], j));
    }
    CommandIsHistory(e, ops, id, level);
  }
}
