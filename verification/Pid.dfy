/** The PID controller: anti-windup, output limits and rate limit, over whole runs. */
module Pid {
  import opened EngineTypes

  datatype Config = Config(
    kp: real, ki: real, kd: real, outMin: real, outMax: real, bias: real, maxDelta: real,
    direct: bool, execIntervalMs: nat, enabled: bool)

  datatype State = State(output: real, integral: real, lastError: real, lastExec: Option<Instant>, initialized: bool)

  const FRESH := State(0.0, 0.0, 0.0, None, false)

  /** `f64::clamp` panics on inverted bounds, so every call needs them in order. */
  ghost predicate InOrder(c: Config) {
    c.outMin <= c.outMax
  }

  // ----- One execution -----

  function Elapsed(s: State, now: Instant): nat {
    Since(now, s.lastExec.UnwrapOr(now))
  }

  /** The call reaches the computation: enabled, initialised, and the interval has passed. */
  predicate Computes(c: Config, s: State, now: Instant) {
    c.enabled && s.initialized && Elapsed(s, now) >= c.execIntervalMs * NANOS_PER_MILLI && Elapsed(s, now) > 0
  }

  function ErrorOf(c: Config, setpoint: real, pv: real): real {
    if c.direct then setpoint - pv else -(setpoint - pv)
  }

  function Seconds(nanos: nat): real {
    nanos as real / NANOS_PER_SEC as real
  }

  function Proportional(kp: real, error: real): real {
    kp * error
  }

  /** `ki` counts resets per minute. */
  function Accrued(ki: real, error: real, dt: real): real {
    ki * error * dt / 60.0
  }

  function Slope(kd: real, error: real, lastError: real, dt: real): real
    requires dt > 0.0
  {
    kd * (error - lastError) / dt
  }

  lemma SecondsSign(n: nat)
    ensures Seconds(n) > 0.0 <==> n > 0
  {
  }

  /** The integral after accumulating `error` over `dt` seconds, kept in the output range. */
  function Integrate(c: Config, integral: real, error: real, dt: real): real {
    if c.ki != 0.0 then Clamp(integral + Accrued(c.ki, error, dt), c.outMin, c.outMax) else integral
  }

  function Raw(c: Config, integral: real, error: real, lastError: real, dt: real): real
    requires dt > 0.0
  {
    var p := Proportional(c.kp, error);
    var d := if c.kd != 0.0 then Slope(c.kd, error, lastError, dt) else 0.0;
    if c.ki != 0.0 then p + integral + d else p + d + c.bias
  }

  /** Follow `target` from `output` by at most `maxDelta`, when that limit is set. */
  function RateLimit(c: Config, output: real, target: real): real {
    if c.maxDelta > 0.0 && Abs(target - output) > c.maxDelta then
      Clamp(if target - output > 0.0 then output + c.maxDelta else output - c.maxDelta, c.outMin, c.outMax)
    else target
  }

  function Next(c: Config, s: State, setpoint: real, pv: real, now: Instant): State {
    if !c.enabled then s
    else if !s.initialized then
      State(if c.ki == 0.0 then Clamp(c.bias, c.outMin, c.outMax) else s.output, s.integral, 0.0, Some(now), true)
    else if !Computes(c, s, now) then s
    else
      var dt := Seconds(Elapsed(s, now));
      var error := ErrorOf(c, setpoint, pv);
      var integral := Integrate(c, s.integral, error, dt);
      var target := Clamp(Raw(c, integral, error, s.lastError, dt), c.outMin, c.outMax);
      State(RateLimit(c, s.output, target), integral, error, Some(now), true)
  }

  class PidController {
    var config: Config
    var output: real
    var integral: real
    var lastError: real
    var lastExec: Option<Instant>
    var initialized: bool

    function View(): State
      reads this
    {
      State(output, integral, lastError, lastExec, initialized)
    }

    constructor (c: Config)
      ensures config == c && View() == FRESH
    {
      config := c;
      output, integral, lastError, lastExec, initialized := 0.0, 0.0, 0.0, None, false;
    }

    method Execute(setpoint: real, pv: real, now: Instant) returns (out: real)
      requires InOrder(config)
      modifies this
      ensures config == old(config)
      ensures View() == Next(config, old(View()), setpoint, pv, now)
      ensures out == output
    {
      hide Proportional, Accrued, Slope, Seconds;
      if !config.enabled {
        return output;
      }
      if !initialized {
        lastExec := Some(now);
        lastError := 0.0;
        initialized := true;
        if config.ki == 0.0 {
          output := Clamp(config.bias, config.outMin, config.outMax);
        }
        return output;
      }
      var elapsed := Since(now, lastExec.UnwrapOr(now));
      if elapsed < config.execIntervalMs * NANOS_PER_MILLI {
        return output;
      }
      var dt := Seconds(elapsed);
      SecondsSign(elapsed);
      if dt <= 0.0 {
        return output;
      }
      var error := setpoint - pv;
      if !config.direct {
        error := -error;
      }
      var p := Proportional(config.kp, error);
      if config.ki != 0.0 {
        integral := integral + Accrued(config.ki, error, dt);
        integral := Clamp(integral, config.outMin, config.outMax);
      }
      var d := 0.0;
      if config.kd != 0.0 {
        d := Slope(config.kd, error, lastError, dt);
      }
      assert integral == Integrate(config, old(integral), error, dt);
      var raw := if config.ki != 0.0 then p + integral + d else p + d + config.bias;
      assert raw == Raw(config, integral, error, lastError, dt);
      hide Raw, Integrate;
      var newOutput := Clamp(raw, config.outMin, config.outMax);
      if config.maxDelta > 0.0 {
        var change := newOutput - output;
        if Abs(change) > config.maxDelta {
          newOutput := if change > 0.0 then output + config.maxDelta else output - config.maxDelta;
          newOutput := Clamp(newOutput, config.outMin, config.outMax);
        }
      }
      lastError := error;
      lastExec := Some(now);
      output := newOutput;
      return output;
    }

    method Reset()
      modifies this
      ensures config == old(config) && View() == FRESH
    {
      output, integral, lastError, lastExec, initialized := 0.0, 0.0, 0.0, None, false;
    }
  }

  // ----- Bounds -----

  ghost predicate InRange(c: Config, x: real) {
    c.outMin <= x <= c.outMax
  }

  /** The rate limit is a clamp around the old output, followed by the output limits. */
  lemma RateLimitIsClamp(c: Config, output: real, target: real)
    requires InOrder(c) && InRange(c, target)
    ensures RateLimit(c, output, target) ==
      if c.maxDelta > 0.0 then Clamp(Clamp(target, output - c.maxDelta, output + c.maxDelta), c.outMin, c.outMax)
      else target
  {
  }

  /** After every computing call the output, and a used integral, are in range. */
  lemma BoundsAfterComputing(c: Config, s: State, setpoint: real, pv: real, now: Instant)
    requires InOrder(c) && Computes(c, s, now)
    ensures var r := Next(c, s, setpoint, pv, now);
      InRange(c, r.output) && (c.ki != 0.0 ==> InRange(c, r.integral))
  {
  }

  /** A step exceeds a positive `maxDelta` exactly when the old output was further than that
      from the output range, so that the limits pull it back at once. */
  lemma StepWithinMaxDelta(c: Config, s: State, setpoint: real, pv: real, now: Instant)
    requires InOrder(c) && Computes(c, s, now) && c.maxDelta > 0.0
    ensures Abs(Next(c, s, setpoint, pv, now).output - s.output) <= c.maxDelta <==>
      c.outMin - c.maxDelta <= s.output <= c.outMax + c.maxDelta
  {
    hide Raw, Integrate, Seconds;
    var dt := Seconds(Elapsed(s, now));
    SecondsSign(Elapsed(s, now));
    var error := ErrorOf(c, setpoint, pv);
    var integral := Integrate(c, s.integral, error, dt);
    var target := Clamp(Raw(c, integral, error, s.lastError, dt), c.outMin, c.outMax);
    RateLimitIsClamp(c, s.output, target);
  }

  // ----- The control law -----

  /** Which calls compute: an enabled, initialised controller whose interval has passed. */
  lemma ComputesIff(c: Config, s: State, t: Instant, setpoint: real, pv: real, now: Instant)
    requires s.initialized && s.lastExec == Some(t)
    ensures Computes(c, s, now) <==> c.enabled && now > t && now - t >= c.execIntervalMs * 1_000_000
    ensures !Computes(c, s, now) ==> Next(c, s, setpoint, pv, now) == s
  {
  }

  /** The textbook law before any limit: gain times error, rate of change of the error per second,
      and the accumulated integral or else the bias. */
  ghost function Law(c: Config, err: real, previous: real, dt: real, integral: real): real
    requires dt > 0.0
  {
    c.kp * err + c.kd * (err - previous) / dt + (if c.ki != 0.0 then integral else c.bias)
  }

  /** What an error that lasts `dt` seconds adds to the integral, in resets per minute. */
  ghost function Reset(c: Config, err: real, dt: real): real {
    c.ki * err * dt / 60.0
  }

  ghost function SecondsBetween(t: Instant, now: Instant): real {
    (now - t) as real / 1000000000.0
  }

  ghost function Deviation(c: Config, setpoint: real, pv: real): real {
    if c.direct then setpoint - pv else pv - setpoint
  }

  lemma TermsAre(c: Config, integral: real, err: real, previous: real, dt: real)
    requires dt > 0.0
    ensures Raw(c, integral, err, previous, dt) == Law(c, err, previous, dt, integral)
  {
    if c.kd == 0.0 {
      assert c.kd * (err - previous) / dt == 0.0;
    }
  }

  lemma PartsAre(c: Config, s: State, setpoint: real, pv: real, t: Instant, now: Instant)
    requires s.lastExec == Some(t) && now > t
    ensures ErrorOf(c, setpoint, pv) == Deviation(c, setpoint, pv)
    ensures Seconds(Elapsed(s, now)) == SecondsBetween(t, now) > 0.0
    ensures forall err, dt :: Accrued(c.ki, err, dt) == Reset(c, err, dt)
  {
    SecondsSign(now - t);
  }

  /** Where the output goes when the law asks for `target`: into the output range, and with a rate
      limit no further than that from where it was. */
  ghost function Toward(c: Config, from: real, target: real): real {
    var wanted := Clamp(target, c.outMin, c.outMax);
    if c.maxDelta <= 0.0 || Abs(wanted - from) <= c.maxDelta then wanted
    else if wanted > from then Clamp(from + c.maxDelta, c.outMin, c.outMax)
    else Clamp(from - c.maxDelta, c.outMin, c.outMax)
  }

  /** The law of a computing call: the new error and time, the clamped integral, and the output on
      its way to what the law asks for. */
  lemma ControlLaw(c: Config, s: State, setpoint: real, pv: real, t: Instant, now: Instant)
    requires InOrder(c) && c.enabled && s.initialized && s.lastExec == Some(t)
    requires now > t && now - t >= c.execIntervalMs * 1_000_000
    ensures var r := Next(c, s, setpoint, pv, now);
      var err, dt := Deviation(c, setpoint, pv), SecondsBetween(t, now);
      dt > 0.0 && r.initialized && r.lastError == err && r.lastExec == Some(now) &&
      r.integral == (if c.ki == 0.0 then s.integral else Clamp(s.integral + Reset(c, err, dt), c.outMin, c.outMax)) &&
      r.output == Toward(c, s.output, Law(c, err, s.lastError, dt, r.integral))
  {
    hide Raw, Law, Accrued, Reset, Seconds, SecondsBetween, ErrorOf, Deviation;
    ComputesIff(c, s, t, setpoint, pv, now);
    PartsAre(c, s, setpoint, pv, t, now);
    var err, dt := ErrorOf(c, setpoint, pv), Seconds(Elapsed(s, now));
    TermsAre(c, Integrate(c, s.integral, err, dt), err, s.lastError, dt);
  }

  /** Where no limit bites, the integral grows by the full reset term and the output is the law. */
  lemma UnlimitedOutput(c: Config, s: State, setpoint: real, pv: real, t: Instant, now: Instant, err: real, dt: real)
    requires InOrder(c) && c.enabled && s.initialized && s.lastExec == Some(t)
    requires now > t && now - t >= c.execIntervalMs * 1_000_000
    requires err == Deviation(c, setpoint, pv) && dt == SecondsBetween(t, now) && dt > 0.0
    requires c.ki != 0.0 ==> InRange(c, s.integral + Reset(c, err, dt))
    requires var target := Law(c, err, s.lastError, dt, s.integral + Reset(c, err, dt));
      InRange(c, target) && (c.maxDelta > 0.0 ==> Abs(target - s.output) <= c.maxDelta)
    ensures Next(c, s, setpoint, pv, now).output == Law(c, err, s.lastError, dt, s.integral + Reset(c, err, dt))
    ensures c.ki != 0.0 ==> Next(c, s, setpoint, pv, now).integral == s.integral + Reset(c, err, dt)
  {
    hide Next, Reset, SecondsBetween, Deviation;
    ControlLaw(c, s, setpoint, pv, t, now);
    if c.ki == 0.0 {
      LawWithoutIntegral(c, err, s.lastError, dt, s.integral, s.integral + Reset(c, err, dt));
    }
  }

  lemma LawWithoutIntegral(c: Config, err: real, previous: real, dt: real, i: real, j: real)
    requires dt > 0.0 && c.ki == 0.0
    ensures Law(c, err, previous, dt, i) == Law(c, err, previous, dt, j)
  {
  }

  /** One second after an error of nothing: gain 1 at deviation 2 around bias 50, both actions; slope
      1 at deviation 10; 6 resets per minute at deviation 5. */
  lemma WorkedExamples()
    ensures var c := Config(1.0, 0.0, 0.0, 0.0, 100.0, 50.0, 0.0, true, 0, true);
      var s := State(50.0, 0.0, 0.0, Some(0), true);
      Next(c, s, 22.0, 20.0, NANOS_PER_SEC).output == 52.0 &&
      Next(c.(direct := false), s, 22.0, 20.0, NANOS_PER_SEC).output == 48.0 &&
      Next(c.(kp := 0.0, kd := 1.0), s, 10.0, 0.0, NANOS_PER_SEC).output == 60.0 &&
      Next(c.(kp := 0.0, ki := 6.0), s.(integral := 20.0), 5.0, 0.0, NANOS_PER_SEC).output == 20.5
  {
  }

  /** The first call leaves a fresh controller with an integral term at zero, whether or not
      zero is in range; without one it starts at the clamped bias. */
  lemma FirstOutput(c: Config, setpoint: real, pv: real, now: Instant)
    requires InOrder(c) && c.enabled
    ensures var r := Next(c, FRESH, setpoint, pv, now);
      r.initialized && r.lastExec == Some(now) && r.lastError == 0.0 &&
      if c.ki == 0.0 then r.output == Clamp(c.bias, c.outMin, c.outMax) && InRange(c, r.output)
      else (r.output == 0.0 && r.integral == 0.0 && (InRange(c, r.output) <==> c.outMin <= 0.0 <= c.outMax))
  {
  }

  // ----- Runs -----

  datatype Call = Call(config: Config, setpoint: real, pv: real, now: Instant)

  function Step(s: State, c: Call): State {
    Next(c.config, s, c.setpoint, c.pv, c.now)
  }

  function Run(s: State, calls: seq<Call>): State {
    if calls == [] then s else Step(Run(s, calls[..|calls| - 1]), calls[|calls| - 1])
  }

  /** The error a call works on. */
  function CallError(c: Call): real {
    ErrorOf(c.config, c.setpoint, c.pv)
  }

  /** In range, as every computing call leaves a controller. */
  ghost predicate Settled(c: Config, s: State) {
    InRange(c, s.output) && (c.ki != 0.0 ==> InRange(c, s.integral)) && s.initialized
  }

  /** The output has moved by at most `n` steps of the rate limit, if there is one. */
  ghost predicate WithinTravel(c: Config, from: real, to: real, n: nat) {
    c.maxDelta > 0.0 ==> Abs(to - from) <= n as real * c.maxDelta
  }

  lemma TravelStep(c: Config, a: real, b: real, d: real, n: nat)
    requires WithinTravel(c, a, b, n) && (c.maxDelta > 0.0 ==> Abs(d - b) <= c.maxDelta)
    ensures WithinTravel(c, a, d, n + 1)
  {
    var m := n as real * c.maxDelta;
    assert (n + 1) as real == n as real + 1.0;
    assert (n + 1) as real * c.maxDelta == m + c.maxDelta;
    Triangle(d, b, a);
  }

  lemma Triangle(x: real, y: real, z: real)
    ensures Abs(x - z) <= Abs(x - y) + Abs(y - z)
  {
  }

  /** Over a whole run a settled controller never leaves its range, and its output travels at most
      `maxDelta` for each computing call. */
  lemma {:induction false} RunSettled(c: Config, s: State, calls: seq<Call>)
    requires InOrder(c) && Settled(c, s) && forall k :: 0 <= k < |calls| ==> calls[k].config == c
    ensures Settled(c, Run(s, calls)) && WithinTravel(c, s.output, Run(s, calls).output, ComputingCalls(s, calls))
  {
    hide Next, WithinTravel, Computes;
    if calls == [] {
      NoTravel(c, s.output);
    } else {
      var k := |calls| - 1;
      RunSettled(c, s, calls[..k]);
      var b, call := Run(s, calls[..k]), calls[k];
      SettledStep(c, b, call);
      if Computes(c, b, call.now) {
        TravelStep(c, s.output, b.output, Step(b, call).output, ComputingCalls(s, calls[..k]));
      }
    }
  }

  lemma NoTravel(c: Config, x: real)
    ensures WithinTravel(c, x, x, 0)
  {
  }

  lemma SettledStep(c: Config, s: State, call: Call)
    requires InOrder(c) && Settled(c, s) && call.config == c
    ensures var r := Step(s, call);
      Settled(c, r) &&
      (if Computes(c, s, call.now) then c.maxDelta > 0.0 ==> Abs(r.output - s.output) <= c.maxDelta else r == s)
  {
    if Computes(c, s, call.now) {
      BoundsAfterComputing(c, s, call.setpoint, call.pv, call.now);
      if c.maxDelta > 0.0 {
        StepWithinMaxDelta(c, s, call.setpoint, call.pv, call.now);
      }
    }
  }

  /** What the computing calls of a run add up to, before any clamp. */
  ghost function Accumulated(s: State, calls: seq<Call>): real {
    if calls == [] then 0.0
    else
      var k := |calls| - 1;
      var b, call := Run(s, calls[..k]), calls[k];
      Accumulated(s, calls[..k]) +
      (if Computes(call.config, b, call.now) && b.lastExec.Some? then
         Reset(call.config, Deviation(call.config, call.setpoint, call.pv), SecondsBetween(b.lastExec.value, call.now))
       else 0.0)
  }

  lemma AccumulatedStep(c: Config, s: State, call: Call)
    requires InOrder(c) && c.ki != 0.0 && call.config == c && s.initialized && s.lastExec.Some?
    ensures var r := Step(s, call);
      r.initialized && r.lastExec.Some? &&
      r.integral == if Computes(c, s, call.now) then
        Clamp(s.integral + Reset(c, Deviation(c, call.setpoint, call.pv), SecondsBetween(s.lastExec.value, call.now)), c.outMin, c.outMax)
        else s.integral
  {
    hide Computes, Reset, SecondsBetween, Deviation, Law, Next;
    ComputesIff(c, s, s.lastExec.value, call.setpoint, call.pv, call.now);
    if Computes(c, s, call.now) {
      ControlLaw(c, s, call.setpoint, call.pv, s.lastExec.value, call.now);
    }
  }

  /** Over a run whose sums never leave the output range, the integral is their sum. */
  lemma {:induction false} IntegralIsSum(c: Config, s: State, calls: seq<Call>)
    requires InOrder(c) && c.ki != 0.0 && s.initialized && s.lastExec.Some?
    requires forall k :: 0 <= k < |calls| ==> calls[k].config == c
    requires forall n :: 0 <= n <= |calls| ==> InRange(c, s.integral + Accumulated(s, calls[..n]))
    ensures var r := Run(s, calls);
      r.initialized && r.lastExec.Some? && r.integral == s.integral + Accumulated(s, calls)
  {
    hide Next, Computes, Reset, SecondsBetween, Deviation;
    if calls != [] {
      var k := |calls| - 1;
      forall n | 0 <= n <= k
        ensures InRange(c, s.integral + Accumulated(s, calls[..k][..n]))
      {
        assert calls[..k][..n] == calls[..n];
      }
      IntegralIsSum(c, s, calls[..k]);
      AccumulatedStep(c, Run(s, calls[..k]), calls[k]);
      assert calls[..|calls|] == calls;
    }
  }

  // ----- Two runs -----

  ghost predicate Below(s: State, t: State) {
    s.output <= t.output && s.integral <= t.integral && s.lastExec == t.lastExec && s.initialized == t.initialized
  }

  ghost predicate Monotone(c: Config) {
    InOrder(c) && c.kd == 0.0 && c.kp >= 0.0 && c.ki >= 0.0
  }

  lemma ScaledError(k: real, x: real, y: real)
    requires k >= 0.0 && x <= y
    ensures k * x <= k * y
  {
    assert k * (y - x) >= 0.0;
  }

  lemma AccruedMonotone(ki: real, x: real, y: real, dt: real)
    requires ki >= 0.0 && x <= y && dt > 0.0
    ensures Accrued(ki, x, dt) <= Accrued(ki, y, dt)
  {
    ScaledError(ki, x, y);
    ScaledError(dt, ki * x, ki * y);
  }

  /** One call with the larger error keeps two ordered controllers ordered. */
  lemma StepMonotone(s: State, a: Call, t: State, b: Call)
    requires Below(s, t) && a.config == b.config && a.now == b.now && Monotone(a.config)
    requires CallError(a) <= CallError(b)
    ensures Below(Step(s, a), Step(t, b))
  {
    hide Accrued, Proportional, Slope, Seconds;
    var c := a.config;
    if Computes(c, s, a.now) {
      var dt := Seconds(Elapsed(s, a.now));
      SecondsSign(Elapsed(s, a.now));
      var x, y := CallError(a), CallError(b);
      AccruedMonotone(c.ki, x, y, dt);
      ProportionalMonotone(c.kp, x, y);
      var i, j := Integrate(c, s.integral, x, dt), Integrate(c, t.integral, y, dt);
      var u := Clamp(Raw(c, i, x, s.lastError, dt), c.outMin, c.outMax);
      var v := Clamp(Raw(c, j, y, t.lastError, dt), c.outMin, c.outMax);
      RateLimitIsClamp(c, s.output, u);
      RateLimitIsClamp(c, t.output, v);
    }
  }

  lemma ProportionalMonotone(kp: real, x: real, y: real)
    requires kp >= 0.0 && x <= y
    ensures Proportional(kp, x) <= Proportional(kp, y)
  {
    ScaledError(kp, x, y);
  }

  /** The same calls at the same times, with `a` asking for no more than `b`: under direct
      action its deviation is the smaller one, under reverse action the larger one. */
  ghost predicate NoMore(a: Call, b: Call) {
    && a.config == b.config && a.now == b.now && Monotone(a.config)
    && (if a.config.direct then a.setpoint - a.pv <= b.setpoint - b.pv else a.setpoint - a.pv >= b.setpoint - b.pv)
  }

  /** Whole runs are monotone in the error, through clamping, interval skipping, disabling
      and the rate limit, even when the configuration changes between calls. */
  lemma {:induction false} RunMonotone(s: State, a: seq<Call>, t: State, b: seq<Call>)
    requires Below(s, t) && |a| == |b| && forall i :: 0 <= i < |a| ==> NoMore(a[i], b[i])
    ensures Below(Run(s, a), Run(t, b))
    ensures forall n :: 0 <= n <= |a| ==> Run(s, a[..n]).output <= Run(t, b[..n]).output
  {
    hide Next;
    if a == [] {
      assert a[..0] == a && b[..0] == b;
    } else {
      var k := |a| - 1;
      RunMonotone(s, a[..k], t, b[..k]);
      assert NoMore(a[k], b[k]);
      StepMonotone(Run(s, a[..k]), a[k], Run(t, b[..k]), b[k]);
      forall n | 0 <= n <= |a|
        ensures Run(s, a[..n]).output <= Run(t, b[..n]).output
      {
        if n <= k {
          assert a[..k][..n] == a[..n] && b[..k][..n] == b[..n];
        } else {
          assert a[..n] == a && b[..n] == b;
        }
      }
    }
  }

  // ----- Anti-windup -----

  function ComputingCalls(s: State, calls: seq<Call>): nat {
    if calls == [] then 0
    else
      var k := |calls| - 1;
      ComputingCalls(s, calls[..k]) + (if Computes(calls[k].config, Run(s, calls[..k]), calls[k].now) then 1 else 0)
  }

  /** Every computing call of the run sees an error of at most `-e` after at least `tau` seconds. */
  ghost predicate Recovering(c: Config, s: State, calls: seq<Call>, e: real, tau: real) {
    forall k :: 0 <= k < |calls| ==>
      calls[k].config == c &&
      (Computes(c, Run(s, calls[..k]), calls[k].now) ==>
        CallError(calls[k]) <= -e && Seconds(Elapsed(Run(s, calls[..k]), calls[k].now)) >= tau)
  }

  /** The least the integral falls by in one computing call, until it meets the lower limit. */
  function Relief(ki: real, e: real, tau: real): real {
    ki * e * tau / 60.0
  }

  lemma AccruedFalls(ki: real, error: real, dt: real, e: real, tau: real)
    requires ki > 0.0 && e > 0.0 && tau > 0.0 && error <= -e && dt >= tau
    ensures Accrued(ki, error, dt) <= -Relief(ki, e, tau)
  {
    ScaledError(ki, error, -e);
    ScaledError(dt, ki * error, ki * -e);
    ScaledError(ki * e, tau, dt);
  }

  lemma RecoveringPrefix(c: Config, s: State, calls: seq<Call>, e: real, tau: real)
    requires calls != [] && Recovering(c, s, calls, e, tau)
    ensures Recovering(c, s, calls[..|calls| - 1], e, tau)
  {
    var init := calls[..|calls| - 1];
    forall k | 0 <= k < |init|
      ensures init[..k] == calls[..k]
    {
    }
  }

  lemma RecoveringStep(c: Config, s: State, call: Call, e: real, tau: real)
    requires InOrder(c) && c.ki > 0.0 && e > 0.0 && tau > 0.0 && InRange(c, s.integral) && call.config == c
    requires Computes(c, s, call.now) ==> CallError(call) <= -e && Seconds(Elapsed(s, call.now)) >= tau
    ensures var r := Step(s, call).integral;
      InRange(c, r) &&
      (if Computes(c, s, call.now) then r <= Max(c.outMin, s.integral - Relief(c.ki, e, tau)) else r == s.integral)
  {
    hide Accrued, Relief, Raw, RateLimit, Seconds;
    if Computes(c, s, call.now) {
      SecondsSign(Elapsed(s, call.now));
      AccruedFalls(c.ki, CallError(call), Seconds(Elapsed(s, call.now)), e, tau);
    }
  }

  lemma ReliefPositive(ki: real, e: real, tau: real)
    requires ki > 0.0 && e > 0.0 && tau > 0.0
    ensures Relief(ki, e, tau) > 0.0
  {
    GainPositive(ki, e, tau);
  }

  /** Where `n` falls of `d` leave an integral that starts at the upper limit. */
  function Fallen(c: Config, n: nat, d: real): real {
    Max(c.outMin, c.outMax - n as real * d)
  }

  lemma FallenStep(c: Config, n: nat, d: real, i: real, j: real)
    requires d > 0.0 && i <= Fallen(c, n, d) && j <= Max(c.outMin, i - d)
    ensures j <= Fallen(c, n + 1, d)
  {
    assert (n + 1) as real * d == n as real * d + d;
  }

  lemma {:induction false} IntegralFalls(c: Config, s: State, calls: seq<Call>, e: real, tau: real)
    requires InOrder(c) && c.ki > 0.0 && e > 0.0 && tau > 0.0 && InRange(c, s.integral)
    requires Recovering(c, s, calls, e, tau)
    ensures var r := Run(s, calls).integral;
      InRange(c, r) && r <= Fallen(c, ComputingCalls(s, calls), Relief(c.ki, e, tau))
  {
    hide Next, Computes, CallError, Relief, Seconds, Fallen;
    var d := Relief(c.ki, e, tau);
    if calls == [] {
      FallenZero(c, d);
    } else {
      var k := |calls| - 1;
      RecoveringPrefix(c, s, calls, e, tau);
      IntegralFalls(c, s, calls[..k], e, tau);
      RecoveringStep(c, Run(s, calls[..k]), calls[k], e, tau);
      ReliefPositive(c.ki, e, tau);
      if Computes(c, Run(s, calls[..k]), calls[k].now) {
        FallenStep(c, ComputingCalls(s, calls[..k]), d, Run(s, calls[..k]).integral, Run(s, calls).integral);
      }
    }
  }

  lemma FallenZero(c: Config, d: real)
    requires InOrder(c)
    ensures Fallen(c, 0, d) == c.outMax
  {
  }

  /** The number of computing calls after which the integral must have left saturation. */
  function CallsNeeded(c: Config, e: real, tau: real): real
    requires c.ki > 0.0 && e > 0.0 && tau > 0.0
  {
    GainPositive(c.ki, e, tau);
    60.0 * (c.outMax - c.outMin) / (c.ki * e * tau)
  }

  lemma GainPositive(ki: real, e: real, tau: real)
    requires ki > 0.0 && e > 0.0 && tau > 0.0
    ensures ki * e * tau > 0.0
  {
    assert ki * e > 0.0;
  }

  lemma QuotientTimes(x: real, g: real)
    requires g > 0.0
    ensures g * (x / g) == x
  {
  }

  lemma EnoughRelief(c: Config, n: nat, e: real, tau: real)
    requires c.ki > 0.0 && e > 0.0 && tau > 0.0 && n as real >= CallsNeeded(c, e, tau)
    ensures Fallen(c, n, Relief(c.ki, e, tau)) == c.outMin
  {
    var g := c.ki * e * tau;
    GainPositive(c.ki, e, tau);
    QuotientTimes(60.0 * (c.outMax - c.outMin), g);
    ScaledError(g, CallsNeeded(c, e, tau), n as real);
    assert n as real * Relief(c.ki, e, tau) == g * n as real / 60.0;
  }

  /** However long the integral was saturated, 60 (outMax - outMin) / (ki e tau) computing
      calls against an error of at least `e` bring it to the lower limit. */
  lemma AntiWindup(c: Config, s: State, calls: seq<Call>, e: real, tau: real)
    requires InOrder(c) && c.ki > 0.0 && e > 0.0 && tau > 0.0 && InRange(c, s.integral)
    requires Recovering(c, s, calls, e, tau)
    requires ComputingCalls(s, calls) as real >= CallsNeeded(c, e, tau)
    ensures Run(s, calls).integral == c.outMin
  {
    hide Relief, CallsNeeded, Recovering, Fallen;
    EnoughRelief(c, ComputingCalls(s, calls), e, tau);
    IntegralFalls(c, s, calls, e, tau);
  }
}
