/** The lead sequencer: a float input staged over boolean outputs, with hysteresis. The
    stage vector is shown to be a counter in disguise. */
module Sequencer {

  const MAX_STAGES: nat := 16

  datatype Config = Config(inMin: real, inMax: real, hysteresis: real)

  function ClampStages(n: nat): (r: nat)
    ensures 1 <= r <= 16 && (1 <= n <= 16 ==> r == n)
  {
    if n < 1 then 1 else if n > MAX_STAGES then MAX_STAGES else n
  }

  // ----- Thresholds -----

  function BandWidth(c: Config, n: nat): real
    requires n > 0
  {
    (c.inMax - c.inMin) / n as real
  }

  function OnThreshold(c: Config, n: nat, i: nat): real
    requires n > 0
  {
    c.inMin + BandWidth(c, n) * i as real
  }

  /** The dead band below each on-threshold. */
  function DeadBand(c: Config, n: nat): real
    requires n > 0
  {
    BandWidth(c, n) * c.hysteresis
  }

  function OffThreshold(c: Config, n: nat, i: nat): real
    requires n > 0
  {
    OnThreshold(c, n, i) - DeadBand(c, n)
  }

  // ----- One stage and one execution -----

  function Stage(c: Config, n: nat, i: nat, on: bool, input: real): bool
    requires n > 0
  {
    if input > OnThreshold(c, n, i) then true
    else if input < OffThreshold(c, n, i) then false
    else on
  }

  function Execute(c: Config, stages: seq<bool>, input: real): (r: seq<bool>)
    ensures |r| == |stages|
  {
    if c.inMax - c.inMin <= 0.0 || |stages| == 0 then stages
    else seq(|stages|, i requires 0 <= i < |stages| => Stage(c, |stages|, i, stages[i], input))
  }

  class LeadSequencer {
    var numStages: nat
    var config: Config
    var stages: array<bool>

    ghost predicate Valid()
      reads this, stages
    {
      1 <= numStages <= MAX_STAGES && stages.Length == numStages
    }

    constructor (n: nat, c: Config)
      ensures Valid() && fresh(stages)
      ensures config == c && stages[..] == seq(ClampStages(n), _ => false)
    {
      numStages := ClampStages(n);
      config := c;
      stages := new bool[ClampStages(n)](_ => false);
    }

    method Run(input: real)
      requires Valid()
      modifies stages
      ensures Valid() && stages[..] == Execute(config, old(stages[..]), input)
    {
      hide OnThreshold, OffThreshold;
      var range := config.inMax - config.inMin;
      if range <= 0.0 || numStages == 0 {
        return;
      }
      ghost var was := stages[..];
      for i := 0 to numStages
        invariant forall k :: 0 <= k < i ==> stages[k] == Stage(config, numStages, k, was[k], input)
        invariant forall k :: i <= k < numStages ==> stages[k] == was[k]
      {
        if input > OnThreshold(config, numStages, i) {
          stages[i] := true;
        } else if input < OffThreshold(config, numStages, i) {
          stages[i] := false;
        }
      }
      assert stages[..] == Execute(config, was, input);
    }

    method ActiveCount() returns (count: nat)
      requires Valid()
      ensures count == CountOn(stages[..])
    {
      count := 0;
      for i := 0 to numStages
        invariant count == CountOn(stages[..i])
      {
        assert stages[..i + 1][..i] == stages[..i];
        if stages[i] {
          count := count + 1;
        }
      }
      assert stages[..numStages] == stages[..];
    }

    method SetNumStages(n: nat)
      requires Valid()
      modifies this
      ensures Valid() && fresh(stages) && config == old(config)
      ensures stages[..] == seq(ClampStages(n), _ => false)
    {
      numStages := ClampStages(n);
      stages := new bool[ClampStages(n)](_ => false);
    }
  }

  function CountOn(s: seq<bool>): nat {
    if s == [] then 0 else CountOn(s[..|s| - 1]) + (if s[|s| - 1] then 1 else 0)
  }

  // ----- The stages are a counter -----

  /** The first `c` stages are on and the others off. */
  ghost predicate Prefix(s: seq<bool>, c: nat) {
    c <= |s| && forall i :: 0 <= i < |s| ==> (s[i] <==> i < c)
  }

  lemma {:induction false} PrefixCount(s: seq<bool>, c: nat)
    requires Prefix(s, c)
    ensures CountOn(s) == c
  {
    if s != [] {
      var k := |s| - 1;
      PrefixCount(s[..k], if c > k then k else c);
    }
  }

  /** Number of the first `k` stages whose on-threshold lies below the input. */
  ghost function Reached(c: Config, n: nat, input: real, k: nat): nat
    requires n > 0
  {
    if k == 0 then 0 else Reached(c, n, input, k - 1) + (if OnThreshold(c, n, k - 1) < input then 1 else 0)
  }

  /** Number of the first `k` stages whose off-threshold does not lie above the input. */
  ghost function Kept(c: Config, n: nat, input: real, k: nat): nat
    requires n > 0
  {
    if k == 0 then 0 else Kept(c, n, input, k - 1) + (if OffThreshold(c, n, k - 1) <= input then 1 else 0)
  }

  lemma BandPositive(c: Config, n: nat)
    requires n > 0 && c.inMax - c.inMin > 0.0
    ensures BandWidth(c, n) > 0.0
  {
  }

  lemma ThresholdsRise(c: Config, n: nat, i: nat, j: nat)
    requires n > 0 && c.inMax - c.inMin > 0.0 && i <= j
    ensures OnThreshold(c, n, i) <= OnThreshold(c, n, j)
    ensures OffThreshold(c, n, i) <= OffThreshold(c, n, j)
  {
    hide BandWidth;
    BandPositive(c, n);
    var w := BandWidth(c, n);
    assert w * (j - i) as real >= 0.0;
    assert w * j as real == w * i as real + w * (j - i) as real;
  }

  /** The stages that a reading reaches, or keeps, are the first ones. */
  lemma {:induction false} ReachedIsPrefix(c: Config, n: nat, input: real, k: nat, i: nat)
    requires n > 0 && c.inMax - c.inMin > 0.0 && i < k
    ensures Reached(c, n, input, k) <= k && Kept(c, n, input, k) <= k
    ensures i < Reached(c, n, input, k) <==> OnThreshold(c, n, i) < input
    ensures i < Kept(c, n, input, k) <==> OffThreshold(c, n, i) <= input
  {
    hide OnThreshold, OffThreshold;
    ThresholdsRise(c, n, i, k - 1);
    if k > 1 {
      var i' := if i < k - 1 then i else k - 2;
      ReachedIsPrefix(c, n, input, k - 1, i');
      ThresholdsRise(c, n, k - 2, k - 1);
      ReachedIsPrefix(c, n, input, k - 1, k - 2);
    }
  }

  function MaxNat(a: nat, b: nat): nat {
    if a >= b then a else b
  }

  function MinNat(a: nat, b: nat): nat {
    if a <= b then a else b
  }

  /** One execution moves the count `m` into [reached, kept], and nothing else changes. */
  lemma ExecuteIsCounter(c: Config, s: seq<bool>, m: nat, input: real)
    requires Prefix(s, m) && |s| > 0
    ensures var n := |s|;
      Prefix(Execute(c, s, input),
        if c.inMax - c.inMin <= 0.0 then m
        else MaxNat(Reached(c, n, input, n), MinNat(m, Kept(c, n, input, n))))
  {
    hide OnThreshold, OffThreshold, Reached, Kept;
    var n := |s|;
    if c.inMax - c.inMin > 0.0 {
      ReachedIsPrefix(c, n, input, n, 0);
      forall i | 0 <= i < n
        ensures i < Reached(c, n, input, n) <==> OnThreshold(c, n, i) < input
        ensures i < Kept(c, n, input, n) <==> OffThreshold(c, n, i) <= input
      {
        ReachedIsPrefix(c, n, input, n, i);
      }
    }
  }

  // ----- Plain thresholds and order -----

  /** Stage `i` of `n` turns on above its share of the range, off a dead band below it, and otherwise
      stays as it is. */
  lemma StageLaw(c: Config, s: seq<bool>, input: real, i: nat)
    requires c.inMin < c.inMax && i < |s|
    ensures var band := (c.inMax - c.inMin) / |s| as real;
      Execute(c, s, input)[i] ==
        if input > c.inMin + i as real * band then true
        else if input < c.inMin + (i as real - c.hysteresis) * band then false
        else s[i]
  {
    var band := BandWidth(c, |s|);
    assert (i as real - c.hysteresis) * band == band * i as real - band * c.hysteresis;
  }

  /** Every stage on in `s` is on in `t`. */
  ghost predicate FewerOn(s: seq<bool>, t: seq<bool>) {
    |s| == |t| && forall i :: 0 <= i < |s| && s[i] ==> t[i]
  }

  /** A larger input never turns fewer stages on. */
  lemma StagesMonotone(c: Config, s: seq<bool>, x: real, t: seq<bool>, y: real)
    requires FewerOn(s, t) && x <= y
    ensures FewerOn(Execute(c, s, x), Execute(c, t, y))
  {
    hide OnThreshold, OffThreshold;
  }

  // ----- Runs -----

  datatype Call = Call(config: Config, input: real)

  function Run(s: seq<bool>, calls: seq<Call>): (r: seq<bool>)
    ensures |r| == |s|
  {
    if calls == [] then s
    else var k := |calls| - 1; Execute(calls[k].config, Run(s, calls[..k]), calls[k].input)
  }

  /** Every reachable stage vector is a prefix of on-stages, even when the range or the
      hysteresis changes between calls, and the reported count is its length. */
  lemma {:induction false} ReachableIsPrefix(n: nat, calls: seq<Call>) returns (m: nat)
    requires n > 0
    ensures Prefix(Run(seq(n, _ => false), calls), m)
    ensures m == CountOn(Run(seq(n, _ => false), calls))
  {
    var start := seq(n, _ => false);
    if calls == [] {
      m := 0;
    } else {
      var k := |calls| - 1;
      var m' := ReachableIsPrefix(n, calls[..k]);
      var s, call := Run(start, calls[..k]), calls[k];
      ExecuteIsCounter(call.config, s, m', call.input);
      m := if call.config.inMax - call.config.inMin <= 0.0 then m'
           else MaxNat(Reached(call.config, n, call.input, n), MinNat(m', Kept(call.config, n, call.input, n)));
    }
    PrefixCount(Run(start, calls), m);
  }

  /** How often stage `i` changed during a run. */
  ghost function Switches(s: seq<bool>, calls: seq<Call>, i: nat): nat
    requires i < |s|
  {
    if calls == [] then 0
    else
      var k := |calls| - 1;
      Switches(s, calls[..k], i) + (if Run(s, calls)[i] != Run(s, calls[..k])[i] then 1 else 0)
  }

  /** All calls use configuration `c` and inputs from an interval no wider than the dead band. */
  ghost predicate Quiet(c: Config, n: nat, calls: seq<Call>, lo: real, hi: real)
    requires n > 0
  {
    hi - lo <= DeadBand(c, n) && forall k :: 0 <= k < |calls| ==> calls[k].config == c && lo <= calls[k].input <= hi
  }

  lemma {:induction false} QuietStage(c: Config, s: seq<bool>, calls: seq<Call>, lo: real, hi: real, i: nat)
    requires i < |s| && Quiet(c, |s|, calls, lo, hi)
    ensures Switches(s, calls, i) <= 1
    ensures Switches(s, calls, i) == 0 ==> Run(s, calls)[i] == s[i]
    ensures Switches(s, calls, i) == 1 ==> Run(s, calls)[i] != s[i]
    ensures Switches(s, calls, i) == 1 ==> if s[i] then lo < OffThreshold(c, |s|, i) else hi > OnThreshold(c, |s|, i)
  {
    if calls != [] {
      var k := |calls| - 1;
      QuietStage(c, s, calls[..k], lo, hi, i);
    }
  }

  /** Inputs that span no more than the dead band make each stage switch at most once. */
  lemma NoRapidCycling(c: Config, s: seq<bool>, calls: seq<Call>, lo: real, hi: real)
    requires |s| > 0 && Quiet(c, |s|, calls, lo, hi)
    ensures forall i :: 0 <= i < |s| ==> Switches(s, calls, i) <= 1
  {
    forall i | 0 <= i < |s|
      ensures Switches(s, calls, i) <= 1
    {
      QuietStage(c, s, calls, lo, hi, i);
    }
  }
}
