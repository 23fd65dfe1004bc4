/** Timing and scheduling components. Each timer is shown to equal a definition over the
    history of its calls; time never goes backwards in a history. */
module Components {
  import opened EngineTypes

  // ----- Histories -----

  datatype Sample = Sample(now: Instant, input: bool)

  ghost predicate Ordered(h: seq<Sample>) {
    forall i, j :: 0 <= i <= j < |h| ==> h[i].now <= h[j].now
  }

  function Millis(now: Instant, earlier: Instant): nat {
    Since(now, earlier) / NANOS_PER_MILLI
  }

  /** Start of the run of equal inputs that ends the history. */
  ghost function StreakStart(h: seq<Sample>): (s: nat)
    requires h != []
    ensures s < |h|
    ensures forall i :: s <= i < |h| ==> h[i].input == h[|h| - 1].input
    ensures s > 0 ==> h[s - 1].input != h[|h| - 1].input
  {
    var k := |h| - 1;
    if k > 0 && h[k - 1].input == h[k].input then StreakStart(h[..k]) else k
  }

  // ----- Delay on -----

  datatype OnState = OnState(startTime: Option<Instant>, output: bool)

  function DelayOnStep(s: OnState, delayMs: nat, p: Sample): OnState {
    if !p.input then OnState(None, false)
    else if s.startTime.None? then s.(startTime := Some(p.now))
    else s.(output := s.output || Millis(p.now, s.startTime.value) >= delayMs)
  }

  class DelayOn {
    var delayMs: nat
    var input: bool
    var enabled: bool
    var startTime: Option<Instant>
    var output: bool

    function View(): OnState
      reads this
    {
      OnState(startTime, output)
    }

    constructor (delay: nat)
      ensures delayMs == delay && enabled && !input && View() == OnState(None, false)
    {
      delayMs, input, enabled, startTime, output := delay, false, true, None, false;
    }

    method Execute(now: Instant) returns (out: bool)
      modifies this`startTime, this`output
      ensures View() == if enabled then DelayOnStep(old(View()), delayMs, Sample(now, input)) else old(View())
      ensures out == output
    {
      if !enabled {
        return output;
      }
      if input {
        match startTime {
          case None =>
            startTime := Some(now);
          case Some(start) =>
            var elapsed := Millis(now, start);
            if elapsed >= delayMs {
              output := true;
            }
        }
      } else {
        startTime := None;
        output := false;
      }
      return output;
    }
  }

  ghost function DelayOnRun(delayMs: nat, h: seq<Sample>): OnState {
    if h == [] then OnState(None, false) else DelayOnStep(DelayOnRun(delayMs, h[..|h| - 1]), delayMs, h[|h| - 1])
  }

  lemma {:induction false} DelayOnRuns(delayMs: nat, h: seq<Sample>)
    requires h != [] && Ordered(h)
    ensures var last, start := |h| - 1, StreakStart(h);
      DelayOnRun(delayMs, h) == if !h[last].input then OnState(None, false)
        else OnState(Some(h[start].now), start < last && Millis(h[last].now, h[start].now) >= delayMs)
  {
    var k := |h| - 1;
    if k > 0 {
      DelayOnRuns(delayMs, h[..k]);
      assert h[..k][|h[..k]| - 1] == h[k - 1];
      if h[k - 1].input && h[k].input {
        var s := StreakStart(h[..k]);
        assert StreakStart(h) == s;
        assert h[s].now <= h[k - 1].now <= h[k].now;
      }
    }
  }

  /** The output is on exactly when the current unbroken run of true inputs began at an earlier
      call, at least the delay ago. */
  lemma DelayOnIsHistory(delayMs: nat, h: seq<Sample>)
    requires h != [] && Ordered(h)
    ensures var last, start := |h| - 1, StreakStart(h);
      DelayOnRun(delayMs, h).output <==>
        h[last].input && start < last && Millis(h[last].now, h[start].now) >= delayMs
  {
    DelayOnRuns(delayMs, h);
  }

  // ----- Delay off -----

  datatype OffState = OffState(offTime: Option<Instant>, output: bool)

  function DelayOffStep(s: OffState, delayMs: nat, p: Sample): OffState {
    if p.input then OffState(None, true)
    else if !s.output then s
    else if s.offTime.None? then s.(offTime := Some(p.now))
    else if Millis(p.now, s.offTime.value) >= delayMs then OffState(None, false)
    else s
  }

  class DelayOff {
    var delayMs: nat
    var input: bool
    var enabled: bool
    var offTime: Option<Instant>
    var output: bool

    function View(): OffState
      reads this
    {
      OffState(offTime, output)
    }

    constructor (delay: nat)
      ensures delayMs == delay && enabled && !input && View() == OffState(None, false)
    {
      delayMs, input, enabled, offTime, output := delay, false, true, None, false;
    }

    method Execute(now: Instant) returns (out: bool)
      modifies this`offTime, this`output
      ensures View() == if enabled then DelayOffStep(old(View()), delayMs, Sample(now, input)) else old(View())
      ensures out == output
    {
      if !enabled {
        return output;
      }
      if input {
        output := true;
        offTime := None;
      } else if output {
        match offTime {
          case None =>
            offTime := Some(now);
          case Some(offStart) =>
            var elapsed := Millis(now, offStart);
            if elapsed >= delayMs {
              output := false;
              offTime := None;
            }
        }
      }
      return output;
    }
  }

  ghost function DelayOffRun(delayMs: nat, h: seq<Sample>): OffState {
    if h == [] then OffState(None, false) else DelayOffStep(DelayOffRun(delayMs, h[..|h| - 1]), delayMs, h[|h| - 1])
  }

  /** The false streak that ends the history has lasted the delay, counted between two calls. */
  ghost predicate DroppedOff(delayMs: nat, h: seq<Sample>)
    requires h != []
  {
    var last, start := |h| - 1, StreakStart(h);
    start < last && Millis(h[last].now, h[start].now) >= delayMs
  }

  lemma {:induction false} DelayOffRuns(delayMs: nat, h: seq<Sample>)
    requires h != [] && Ordered(h)
    ensures var last, start := |h| - 1, StreakStart(h);
      DelayOffRun(delayMs, h) ==
        if h[last].input then OffState(None, true)
        else if start == 0 || DroppedOff(delayMs, h) then OffState(None, false)
        else OffState(Some(h[start].now), true)
  {
    var k := |h| - 1;
    if k > 0 {
      DelayOffRuns(delayMs, h[..k]);
      assert h[..k][|h[..k]| - 1] == h[k - 1];
      if !h[k - 1].input && !h[k].input {
        var s := StreakStart(h[..k]);
        assert StreakStart(h) == s;
        assert h[s].now <= h[k - 1].now <= h[k].now;
      }
    }
  }

  /** The output is on exactly when the input is, or was before a false streak that has not yet
      lasted the delay; the streak's first call never drops the output. */
  lemma DelayOffIsHistory(delayMs: nat, h: seq<Sample>)
    requires h != [] && Ordered(h)
    ensures var last, start := |h| - 1, StreakStart(h);
      DelayOffRun(delayMs, h).output <==> h[last].input || (start > 0 && !DroppedOff(delayMs, h))
  {
    DelayOffRuns(delayMs, h);
  }

  // ----- One shot -----

  datatype ShotState = ShotState(prevInput: bool, triggerTime: Option<Instant>, output: bool)

  function OneShotStep(s: ShotState, durationMs: nat, p: Sample): ShotState {
    var rising := p.input && !s.prevInput;
    var trigger := if rising then Some(p.now) else s.triggerTime;
    if trigger.Some? && Millis(p.now, trigger.value) >= durationMs then ShotState(p.input, None, false)
    else ShotState(p.input, trigger, s.output || rising)
  }

  class OneShot {
    var durationMs: nat
    var input: bool
    var prevInput: bool
    var triggerTime: Option<Instant>
    var output: bool

    function View(): ShotState
      reads this
    {
      ShotState(prevInput, triggerTime, output)
    }

    constructor (duration: nat)
      ensures durationMs == duration && !input && View() == ShotState(false, None, false)
    {
      durationMs, input, prevInput, triggerTime, output := duration, false, false, None, false;
    }

    method Execute(now: Instant) returns (out: bool)
      modifies this`prevInput, this`triggerTime, this`output
      ensures View() == OneShotStep(old(View()), durationMs, Sample(now, input))
      ensures out == output
    {
      if input && !prevInput {
        triggerTime := Some(now);
        output := true;
      }
      if triggerTime.Some? {
        var elapsed := Millis(now, triggerTime.value);
        if elapsed >= durationMs {
          output := false;
          triggerTime := None;
        }
      }
      prevInput := input;
      return output;
    }
  }

  ghost function OneShotRun(durationMs: nat, h: seq<Sample>): ShotState {
    if h == [] then ShotState(false, None, false)
    else OneShotStep(OneShotRun(durationMs, h[..|h| - 1]), durationMs, h[|h| - 1])
  }

  /** The call at which the input last rose, the input before the history counting as false. */
  ghost function LatestEdge(h: seq<Sample>): Option<nat> {
    if h == [] then None
    else
      var k := |h| - 1;
      if h[k].input && (k == 0 || !h[k - 1].input) then Some(k) else LatestEdge(h[..k])
  }

  lemma {:induction false} LatestEdgeIndex(h: seq<Sample>)
    ensures LatestEdge(h).Some? ==> LatestEdge(h).value < |h|
  {
    if h != [] {
      LatestEdgeIndex(h[..|h| - 1]);
    }
  }

  /** The pulse of the latest rising edge is still running. */
  ghost predicate Pulsing(durationMs: nat, h: seq<Sample>)
    requires h != []
  {
    var e := LatestEdge(h);
    e.Some? && e.value < |h| && Millis(h[|h| - 1].now, h[e.value].now) < durationMs
  }

  lemma {:induction false} OneShotRuns(durationMs: nat, h: seq<Sample>)
    requires h != [] && Ordered(h)
    ensures var s := OneShotRun(durationMs, h);
      s.prevInput == h[|h| - 1].input && s.output == Pulsing(durationMs, h) &&
      s.triggerTime == if s.output then Some(h[LatestEdge(h).value].now) else None
  {
    var k := |h| - 1;
    LatestEdgeIndex(h[..k]);
    if k > 0 {
      OneShotRuns(durationMs, h[..k]);
      assert h[..k][|h[..k]| - 1] == h[k - 1];
      var e := LatestEdge(h[..k]);
      if e.Some? {
        assert h[e.value].now <= h[k - 1].now <= h[k].now;
      }
    }
  }

  /** The output is on exactly when the latest rising edge is younger than the duration. */
  lemma OneShotIsHistory(durationMs: nat, h: seq<Sample>)
    requires h != [] && Ordered(h)
    ensures OneShotRun(durationMs, h).output <==> Pulsing(durationMs, h)
  {
    OneShotRuns(durationMs, h);
  }

  // ----- Daily schedules -----

  datatype ScheduleEntry<+T> = ScheduleEntry(hour: nat, minute: nat, value: T)
  {
    function Minutes(): nat {
      hour * 60 + minute
    }
  }

  /** Entry `b` governs at minute `now`: it has passed, no passed entry is later, and among
      entries of the same minute it is the last one listed. */
  ghost predicate Governs<T>(entries: seq<ScheduleEntry<T>>, now: nat, b: nat) {
    && b < |entries| && entries[b].Minutes() <= now
    && (forall i :: 0 <= i < |entries| && entries[i].Minutes() <= now ==> entries[i].Minutes() <= entries[b].Minutes())
    && (forall i :: b < i < |entries| && entries[i].Minutes() <= now ==> entries[i].Minutes() < entries[b].Minutes())
  }

  /** Both daily schedules, for any value type. */
  method EvaluateSchedule<T>(entries: seq<ScheduleEntry<T>>, default: T, enabled: bool, hour: nat, minute: nat)
      returns (value: T)
    ensures enabled && (exists i :: 0 <= i < |entries| && entries[i].Minutes() <= hour * 60 + minute) ==>
      exists b: nat :: Governs(entries, hour * 60 + minute, b) && value == entries[b].value
    ensures !enabled || (forall i :: 0 <= i < |entries| ==> entries[i].Minutes() > hour * 60 + minute) ==> value == default
  {
    if !enabled || |entries| == 0 {
      return default;
    }
    var nowMins := hour * 60 + minute;
    var chosen: Option<ScheduleEntry<T>> := None;
    ghost var best := 0;
    for i := 0 to |entries|
      invariant chosen.None? ==> forall k :: 0 <= k < i ==> entries[k].Minutes() > nowMins
      invariant chosen.Some? ==> best < i && chosen == Some(entries[best]) && Governs(entries[..i], nowMins, best)
    {
      var entryMins := entries[i].Minutes();
      if entryMins <= nowMins {
        if chosen.None? || entryMins >= chosen.value.Minutes() {
          chosen := Some(entries[i]);
          best := i;
        }
      }
    }
    assert entries[..|entries|] == entries;
    value := if chosen.Some? then chosen.value.value else default;
  }

  lemma GovernorUnique<T>(entries: seq<ScheduleEntry<T>>, now: nat, a: nat, b: nat)
    requires Governs(entries, now, a) && Governs(entries, now, b)
    ensures a == b
  {
  }

  // ----- Units -----

  /** Milliseconds are whole ones. */
  lemma MillisAtLeast(now: Instant, earlier: Instant, ms: nat)
    requires earlier <= now
    ensures Millis(now, earlier) >= ms <==> now - earlier >= ms * 1_000_000
  {
  }

  /** Entries are ordered by hour, then by minute. */
  lemma MinutesOrder<T>(a: ScheduleEntry<T>, b: ScheduleEntry<T>)
    requires a.minute < 60 && b.minute < 60
    ensures a.Minutes() <= b.Minutes() <==> a.hour < b.hour || (a.hour == b.hour && a.minute <= b.minute)
  {
  }
}
