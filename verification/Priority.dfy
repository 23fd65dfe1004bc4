/** The 17-level write-priority array. `PriorityArray` keeps a cached index of the active
    level; its methods are proved against functions that know no cache and always scan. */
module Priority {
  import opened EngineTypes

  const MAX_LEVELS: nat := 17
  const MAX_WHO_LEN: nat := 16

  datatype WriteLevel = WriteLevel(value: Option<real>, who: string, duration: real, expiresAt: Option<Instant>)

  const EMPTY := WriteLevel(None, "", 0.0, None)

  datatype WriteResult = WriteResult(value: Option<real>, level: nat)

  type Levels = s: seq<WriteLevel> | |s| == MAX_LEVELS witness seq(MAX_LEVELS, _ => EMPTY)

  // ----- The simple form: scan on every use -----

  /** First level at or after `i` that holds a value, or the last slot. */
  function ScanFrom(levels: Levels, i: nat): (a: nat)
    requires i <= MAX_LEVELS
    ensures a < MAX_LEVELS
    decreases MAX_LEVELS - i
  {
    if i == MAX_LEVELS then MAX_LEVELS - 1
    else if levels[i].value.Some? then i
    else ScanFrom(levels, i + 1)
  }

  function Effective(levels: Levels): WriteResult {
    var a := ScanFrom(levels, 0);
    WriteResult(levels[a].value, if levels[a].value.Some? then a + 1 else 0)
  }

  function Nanos(seconds: real): nat
    requires seconds > 0.0
  {
    (seconds * (NANOS_PER_SEC as real) + 0.5).Floor
  }

  function Entry(value: Option<real>, who: string, duration: real, now: Instant): WriteLevel {
    WriteLevel(value, if |who| <= MAX_WHO_LEN then who else who[..MAX_WHO_LEN], duration,
      if duration > 0.0 && value.Some? then Some(now + Nanos(duration)) else None)
  }

  function SetLevel(levels: Levels, level: nat, e: WriteLevel): Levels {
    if 1 <= level <= MAX_LEVELS then levels[level - 1 := e] else levels
  }

  predicate Due(l: WriteLevel, now: Instant) {
    l.expiresAt.Some? && now >= l.expiresAt.value && l.value.Some?
  }

  function ExpireOne(l: WriteLevel, now: Instant): WriteLevel {
    if Due(l, now) then EMPTY else l
  }

  function Expire(levels: Levels, now: Instant): (r: Levels) {
    seq(MAX_LEVELS, i requires 0 <= i < MAX_LEVELS => ExpireOne(levels[i], now))
  }

  predicate AnyDue(levels: Levels, now: Instant) {
    exists i :: 0 <= i < MAX_LEVELS && Due(levels[i], now)
  }

  // ----- What the scan finds -----

  /** `a` is the first level that holds a value, or the last slot when none does. */
  ghost predicate Active(levels: Levels, a: nat) {
    && a < MAX_LEVELS
    && (forall i :: 0 <= i < a ==> levels[i].value.None?)
    && (levels[a].value.None? ==> a == MAX_LEVELS - 1)
  }

  lemma {:induction false} ScanFromFinds(levels: Levels, i: nat, a: nat)
    requires i <= a && Active(levels, a)
    ensures ScanFrom(levels, i) == a
    decreases a - i
  {
    if i < a {
      ScanFromFinds(levels, i + 1, a);
    }
  }

  lemma {:induction false} ScanFromActive(levels: Levels, i: nat)
    requires i <= MAX_LEVELS && forall k :: 0 <= k < i ==> levels[k].value.None?
    ensures Active(levels, ScanFrom(levels, i))
    decreases MAX_LEVELS - i
  {
    if i < MAX_LEVELS && levels[i].value.None? {
      ScanFromActive(levels, i + 1);
    }
  }

  /** The effective value is that of the highest-priority level that holds one. */
  lemma EffectiveIsHighest(levels: Levels)
    ensures var e := Effective(levels);
      if e.value.Some? then
        1 <= e.level <= MAX_LEVELS && levels[e.level - 1].value == e.value &&
        forall i :: 0 <= i < e.level - 1 ==> levels[i].value.None?
      else
        e.level == 0 && forall i :: 0 <= i < MAX_LEVELS ==> levels[i].value.None?
  {
    ScanFromActive(levels, 0);
  }

  /** Only the levels down to the active one matter. */
  lemma EffectiveAgrees(p: Levels, q: Levels, n: nat)
    requires n < MAX_LEVELS && p[n].value.Some?
    requires forall i :: 0 <= i <= n ==> p[i].value == q[i].value
    ensures Effective(p) == Effective(q) && Effective(p).value.Some? && Effective(p).level <= n + 1
  {
    ScanFromActive(p, 0);
    ScanFromFinds(q, 0, ScanFrom(p, 0));
  }

  // ----- Expiry -----

  /** Sweeping twice is sweeping once, at the later time. */
  lemma ExpireCompose(levels: Levels, t1: Instant, t2: Instant)
    requires t1 <= t2
    ensures Expire(Expire(levels, t1), t2) == Expire(levels, t2)
  {
  }

  lemma ExpireLeavesNoneDue(levels: Levels, now: Instant)
    ensures !AnyDue(Expire(levels, now), now)
  {
  }

  /** A sweep that finds nothing due changes nothing. */
  lemma ExpireNothingDue(levels: Levels, now: Instant)
    requires !AnyDue(levels, now)
    ensures Expire(levels, now) == levels
  {
  }

  /** What a write puts into its level: the value, at most 16 characters of its author, and a deadline
      for a value with a positive duration only. */
  lemma EntryMeans(value: Option<real>, who: string, duration: real, now: Instant)
    ensures var l := Entry(value, who, duration, now);
      l.value == value && l.duration == duration &&
      l.who <= who && (|l.who| == 16 || (l.who == who && |who| < 16)) &&
      (l.expiresAt.Some? <==> value.Some? && duration > 0.0)
  {
  }

  /** A timed write is due once its duration has passed, to the nearest nanosecond. */
  lemma TimedDue(x: real, who: string, duration: real, at: Instant, now: Instant)
    requires duration > 0.0
    ensures Due(Entry(Some(x), who, duration, at), now) <==> (now - at) as real > duration * 1000000000.0 - 0.5
  {
  }

  /** With a whole number of nanoseconds, from the moment it has passed: the first sweep then or later
      empties the level, and no earlier one does. */
  lemma TimedGone(x: real, who: string, duration: real, nanos: nat, at: Instant, now: Instant)
    requires duration > 0.0 && duration * 1000000000.0 == nanos as real
    ensures ExpireOne(Entry(Some(x), who, duration, at), now) ==
      if now >= at + nanos then EMPTY else Entry(Some(x), who, duration, at)
  {
    TimedDue(x, who, duration, at, now);
  }

  // ----- The cached form -----

  class PriorityArray {
    var levels: array<WriteLevel>
    var activeLevel: nat

    ghost predicate Valid()
      reads this, levels
    {
      levels.Length == MAX_LEVELS && Active(levels[..], activeLevel)
    }

    ghost function View(): Levels
      requires Valid()
      reads this, levels
    {
      levels[..]
    }

    constructor ()
      ensures Valid() && fresh(levels)
      ensures forall l :: l in View() ==> l == EMPTY
    {
      levels := new WriteLevel[MAX_LEVELS](_ => EMPTY);
      activeLevel := MAX_LEVELS - 1;
    }

    method GetEffective() returns (r: WriteResult)
      requires Valid()
      ensures r == Effective(View())
    {
      ScanFromFinds(View(), 0, activeLevel);
      var val := levels[activeLevel].value;
      r := WriteResult(val, if val.Some? then activeLevel + 1 else 0);
    }

    method RecalculateActive()
      requires levels.Length == MAX_LEVELS
      modifies this`activeLevel
      ensures Valid()
    {
      for i := 0 to MAX_LEVELS
        invariant forall k :: 0 <= k < i ==> levels[k].value.None?
      {
        if levels[i].value.Some? {
          activeLevel := i;
          return;
        }
      }
      activeLevel := MAX_LEVELS - 1;
    }

    /** The cache decides without a scan whenever it can; the outcome is the scan's. */
    method Set(level: nat, value: Option<real>, who: string, duration: real, now: Instant) returns (r: WriteResult)
      requires Valid()
      modifies this`activeLevel, levels
      ensures Valid() && View() == SetLevel(old(View()), level, Entry(value, who, duration, now))
      ensures r == Effective(View())
    {
      if !(1 <= level <= MAX_LEVELS) {
        r := GetEffective();
        return;
      }
      var idx := level - 1;
      levels[idx] := Entry(value, who, duration, now);
      if value.Some? {
        if idx <= activeLevel {
          activeLevel := idx;
          ScanFromFinds(View(), 0, activeLevel);
          r := WriteResult(value, level);
          return;
        }
        ScanFromFinds(View(), 0, activeLevel);
        r := WriteResult(levels[activeLevel].value, activeLevel + 1);
      } else {
        if idx == activeLevel {
          RecalculateActive();
        }
        r := GetEffective();
      }
    }

    method Clear()
      requires Valid()
      modifies this`activeLevel, levels
      ensures Valid() && forall l :: l in View() ==> l == EMPTY
    {
      for i := 0 to MAX_LEVELS
        invariant forall k :: 0 <= k < i ==> levels[k] == EMPTY
      {
        levels[i] := EMPTY;
      }
      activeLevel := MAX_LEVELS - 1;
    }

    method ExpireTimedLevels(now: Instant) returns (expired: bool)
      requires Valid()
      modifies this`activeLevel, levels
      ensures Valid() && View() == Expire(old(View()), now)
      ensures expired == AnyDue(old(View()), now)
    {
      ghost var was := levels[..];
      expired := false;
      for i := 0 to MAX_LEVELS
        invariant activeLevel == old(activeLevel)
        invariant expired <==> exists k :: 0 <= k < i && Due(was[k], now)
        invariant forall k :: 0 <= k < i ==> levels[k] == ExpireOne(was[k], now)
        invariant forall k :: i <= k < MAX_LEVELS ==> levels[k] == was[k]
      {
        if Due(levels[i], now) {
          levels[i] := EMPTY;
          expired := true;
        }
      }
      if expired {
        RecalculateActive();
      } else {
        assert levels[..] == was;
      }
      assert levels[..] == Expire(was, now);
    }
  }
}
