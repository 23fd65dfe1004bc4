/** Types shared by the engine modules. An `f64` is a `real`, an `Instant` a number of
    nanoseconds, and a channel identifier a natural number. */
module EngineTypes {

  datatype Option<+T> = None | Some(value: T)
  {
    function UnwrapOr(default: T): T {
      if Some? then value else default
    }
  }

  datatype Result<+T> = Done(value: T) | Error(message: string)

  ghost predicate NoRepeats<T>(s: seq<T>) {
    forall i, j :: 0 <= i < j < |s| ==> s[i] != s[j]
  }

  type ChannelId = nat

  type Instant = nat

  const NANOS_PER_MILLI: nat := 1_000_000
  const NANOS_PER_SEC: nat := 1_000_000_000

  /** `Instant::duration_since`, which saturates at zero. */
  function Since(now: Instant, earlier: Instant): nat {
    if now >= earlier then now - earlier else 0
  }

  function Min(a: real, b: real): real {
    if a <= b then a else b
  }

  function Max(a: real, b: real): real {
    if a >= b then a else b
  }

  function Abs(x: real): real {
    if x >= 0.0 then x else -x
  }

  /** `f64::clamp`. (The original panics when the bounds are inverted.) */
  function Clamp(x: real, low: real, high: real): real {
    if x < low then low else if x > high then high else x
  }

  /** The nearest value between the bounds. */
  lemma ClampIsNearest(x: real, low: real, high: real, y: real)
    requires low <= y <= high
    ensures low <= Clamp(x, low, high) <= high && Abs(x - Clamp(x, low, high)) <= Abs(x - y)
  {
  }

  datatype Status = Ok | Unknown | Stale | Disabled | Fault | Down

  datatype Flags = Flags(raw: bool, cur: bool)

  datatype EngineValue = EngineValue(status: Status, raw: real, cur: real, flags: Flags, trigger: bool)

  const NO_FLAGS := Flags(false, false)

  const DEFAULT_VALUE := EngineValue(Unknown, 0.0, 0.0, NO_FLAGS, false)

  function WithStatus(s: Status): EngineValue {
    DEFAULT_VALUE.(status := s)
  }

  /** The comparison that decides whether a poll saw a change: raw, flags and trigger are ignored. */
  predicate ValuesEqual(a: EngineValue, b: EngineValue) {
    a.status == b.status && a.cur == b.cur
  }

  lemma {:induction false} SubsetSize<T>(a: set<T>, b: set<T>)
    requires a <= b
    ensures |a| <= |b|
    decreases a
  {
    if a != {} {
      var x :| x in a;
      SubsetSize(a - {x}, b - {x});
    }
  }
}
