/** Lookup tables: binary-search interpolation and its linear-scan inverse. */
module Table {
  import opened EngineTypes

  datatype Direction = Increasing | Decreasing

  datatype TableItem = TableItem(tag: string, unitType: string, values: seq<real>, direction: Direction)

  /** How the store chooses the direction when a table is loaded. */
  function DirectionOf(values: seq<real>): Direction
    requires |values| > 0
  {
    if values[|values| - 1] > values[0] then Increasing else Decreasing
  }

  ghost predicate Loaded(t: TableItem) {
    |t.values| > 0 && t.direction == DirectionOf(t.values)
  }

  function Lerp(a: real, b: real, f: real): real {
    a * (1.0 - f) + b * f
  }

  // ----- Binary search, by halving an interval -----

  function SearchIncreasing(values: seq<real>, raw: real, lo: nat, hi: nat): (pos: nat)
    requires lo < hi < |values|
    ensures lo <= pos < hi
    decreases hi - lo
  {
    if hi - lo <= 1 then lo
    else
      var mid := lo + (hi - lo) / 2;
      if values[mid] <= raw then SearchIncreasing(values, raw, mid, hi)
      else SearchIncreasing(values, raw, lo, mid)
  }

  function SearchDecreasing(values: seq<real>, raw: real, lo: nat, hi: nat): (pos: nat)
    requires lo < hi < |values|
    ensures lo <= pos < hi
    decreases hi - lo
  {
    if hi - lo <= 1 then lo
    else
      var mid := lo + (hi - lo) / 2;
      if values[mid] >= raw then SearchDecreasing(values, raw, mid, hi)
      else SearchDecreasing(values, raw, lo, mid)
  }

  method BinarySearchIncreasing(values: seq<real>, raw: real) returns (pos: nat)
    requires |values| >= 2
    ensures pos == SearchIncreasing(values, raw, 0, |values| - 1)
  {
    var lo, hi := 0, |values| - 1;
    while hi - lo > 1
      invariant 0 <= lo < hi < |values|
      invariant SearchIncreasing(values, raw, lo, hi) == SearchIncreasing(values, raw, 0, |values| - 1)
    {
      var mid := lo + (hi - lo) / 2;
      if values[mid] <= raw {
        lo := mid;
      } else {
        hi := mid;
      }
    }
    pos := lo;
  }

  method BinarySearchDecreasing(values: seq<real>, raw: real) returns (pos: nat)
    requires |values| >= 2
    ensures pos == SearchDecreasing(values, raw, 0, |values| - 1)
  {
    var lo, hi := 0, |values| - 1;
    while hi - lo > 1
      invariant 0 <= lo < hi < |values|
      invariant SearchDecreasing(values, raw, lo, hi) == SearchDecreasing(values, raw, 0, |values| - 1)
    {
      var mid := lo + (hi - lo) / 2;
      if values[mid] >= raw {
        lo := mid;
      } else {
        hi := mid;
      }
    }
    pos := lo;
  }

  /** The search needs no sorted table to find an interval around `raw`. */
  lemma {:induction false} SearchIncreasingBrackets(values: seq<real>, raw: real, lo: nat, hi: nat)
    requires lo < hi < |values|
    requires values[lo] <= raw < values[hi]
    ensures var p := SearchIncreasing(values, raw, lo, hi); values[p] <= raw < values[p + 1]
    decreases hi - lo
  {
    if hi - lo > 1 {
      var mid := lo + (hi - lo) / 2;
      if values[mid] <= raw {
        SearchIncreasingBrackets(values, raw, mid, hi);
      } else {
        SearchIncreasingBrackets(values, raw, lo, mid);
      }
    }
  }

  lemma {:induction false} SearchDecreasingBrackets(values: seq<real>, raw: real, lo: nat, hi: nat)
    requires lo < hi < |values|
    requires values[lo] >= raw > values[hi]
    ensures var p := SearchDecreasing(values, raw, lo, hi); values[p] >= raw > values[p + 1]
    decreases hi - lo
  {
    if hi - lo > 1 {
      var mid := lo + (hi - lo) / 2;
      if values[mid] >= raw {
        SearchDecreasingBrackets(values, raw, mid, hi);
      } else {
        SearchDecreasingBrackets(values, raw, lo, mid);
      }
    }
  }

  // ----- Lookup -----

  function UnitStep(n: nat, min: real, max: real): real
    requires n >= 2
  {
    (max - min) / (n as real - 1.0)
  }

  /** The converted value at position `x` of the table. */
  function Grid(min: real, step: real, x: real): real {
    min + x * step
  }

  /** Interpolation inside one interval whose raw ends are `r1` and `r2`. */
  function CellUp(raw: real, r1: real, r2: real, c1: real, step: real): real
    requires r1 < r2
  {
    Lerp(c1, c1 + step, (raw - r1) / (r2 - r1))
  }

  function CellDown(raw: real, r1: real, r2: real, c1: real, step: real): real
    requires r1 > r2
  {
    Lerp(c1 + step, c1, (raw - r2) / (r1 - r2))
  }

  function LookupIncreasing(values: seq<real>, raw: real, min: real, max: real): real
    requires |values| >= 2
  {
    var n := |values|;
    if raw <= values[0] then min
    else if raw >= values[n - 1] then max
    else
      var pos := SearchIncreasing(values, raw, 0, n - 1);
      SearchIncreasingBrackets(values, raw, 0, n - 1);
      var step := UnitStep(n, min, max);
      CellUp(raw, values[pos], values[pos + 1], Grid(min, step, pos as real), step)
  }

  function LookupDecreasing(values: seq<real>, raw: real, min: real, max: real): real
    requires |values| >= 2
  {
    var n := |values|;
    if raw >= values[0] then min
    else if raw <= values[n - 1] then max
    else
      var pos := SearchDecreasing(values, raw, 0, n - 1);
      SearchDecreasingBrackets(values, raw, 0, n - 1);
      var step := UnitStep(n, min, max);
      CellDown(raw, values[pos], values[pos + 1], Grid(min, step, pos as real), step)
  }

  function Lookup(t: TableItem, raw: real, min: real, max: real): Option<real> {
    if |t.values| < 2 then None
    else if t.direction == Increasing then Some(LookupIncreasing(t.values, raw, min, max))
    else Some(LookupDecreasing(t.values, raw, min, max))
  }

  /** `x as i64 as f64`: truncation towards zero, saturating at the 64-bit limits. */
  function AsI64(x: real): real {
    var t := if x >= 0.0 then x.Floor else -((-x).Floor);
    (if t < -0x8000_0000_0000_0000 then -0x8000_0000_0000_0000
     else if t > 0x7FFF_FFFF_FFFF_FFFF then 0x7FFF_FFFF_FFFF_FFFF
     else t) as real
  }

  function CellBack(cur: real, c1: real, step: real, v1: real, v2: real): real
    requires step > 0.0
  {
    Lerp(v1, v2, (cur - c1) / step)
  }

  /** The scan for the first unit interval that contains `cur`, from index `i` on. */
  function ScanBack(values: seq<real>, cur: real, min: real, step: real, i: nat): Option<real>
    requires i < |values| && step > 0.0
    decreases |values| - i
  {
    if i == |values| - 1 then None
    else
      var c1 := Grid(min, step, i as real);
      if cur >= c1 && cur <= c1 + step then Some(AsI64(CellBack(cur, c1, step, values[i], values[i + 1])))
      else ScanBack(values, cur, min, step, i + 1)
  }

  function ReverseLookup(t: TableItem, cur: real, min: real, max: real): Option<real> {
    var n := |t.values|;
    if n < 2 then None
    else if cur <= min then Some(t.values[0])
    else if cur >= max then Some(t.values[n - 1])
    else ScanBack(t.values, cur, min, UnitStep(n, min, max), 0)
  }

  // ----- The loops of the original -----

  method TableLookup(t: TableItem, raw: real, min: real, max: real) returns (r: Option<real>)
    ensures r == Lookup(t, raw, min, max)
  {
    hide Lerp, Grid, UnitStep, CellUp, CellDown;
    var n := |t.values|;
    if n < 2 {
      return None;
    }
    var step := UnitStep(n, min, max);
    if t.direction == Increasing {
      if raw <= t.values[0] {
        return Some(min);
      }
      if raw >= t.values[n - 1] {
        return Some(max);
      }
      var pos := BinarySearchIncreasing(t.values, raw);
      SearchIncreasingBrackets(t.values, raw, 0, n - 1);
      r := Some(CellUp(raw, t.values[pos], t.values[pos + 1], Grid(min, step, pos as real), step));
    } else {
      if raw >= t.values[0] {
        return Some(min);
      }
      if raw <= t.values[n - 1] {
        return Some(max);
      }
      var pos := BinarySearchDecreasing(t.values, raw);
      SearchDecreasingBrackets(t.values, raw, 0, n - 1);
      r := Some(CellDown(raw, t.values[pos], t.values[pos + 1], Grid(min, step, pos as real), step));
    }
  }

  method TableReverseLookup(t: TableItem, cur: real, min: real, max: real) returns (r: Option<real>)
    ensures r == ReverseLookup(t, cur, min, max)
  {
    hide Lerp, Grid, CellBack, AsI64;
    var n := |t.values|;
    if n < 2 {
      return None;
    }
    if cur <= min {
      return Some(t.values[0]);
    }
    if cur >= max {
      return Some(t.values[n - 1]);
    }
    var step := UnitStep(n, min, max);
    for i := 0 to n - 1
      invariant ScanBack(t.values, cur, min, step, 0) == ScanBack(t.values, cur, min, step, i)
    {
      var c1 := Grid(min, step, i as real);
      if cur >= c1 && cur <= c1 + step {
        return Some(AsI64(CellBack(cur, c1, step, t.values[i], t.values[i + 1])));
      }
    }
    r := None;
  }

  // ----- Arithmetic of one interval -----

  lemma CancelLess(x: real, y: real, d: real)
    requires d > 0.0
    ensures x < y <==> x * d < y * d
  {
    assert y * d - x * d == (y - x) * d;
  }

  lemma DivUnit(a: real, d: real) returns (q: real)
    requires 0.0 <= a < d
    ensures q == a / d && 0.0 <= q < 1.0 && q * d == a
  {
    q := a / d;
    assert q * d == a;
    CancelLess(q, 0.0, d);
    CancelLess(q, 1.0, d);
  }

  lemma MulDiv(x: real, d: real)
    requires d != 0.0
    ensures (x * d) / d == x
  {
  }

  lemma LerpSteps(c: real, s: real, f: real)
    ensures Lerp(c, c + s, f) == c + f * s
    ensures Lerp(c + s, c, 1.0 - f) == c + f * s
  {
  }

  /** The point a fraction `f` of the way from `a` to `b`. */
  function Mix(a: real, b: real, f: real): real {
    a + f * (b - a)
  }

  lemma GridAdd(min: real, step: real, x: real, f: real)
    ensures Grid(min, step, x) + f * step == Grid(min, step, x + f)
  {
  }

  lemma CellUpIs(raw: real, r1: real, r2: real, min: real, step: real, x: real) returns (f: real)
    requires r1 <= raw < r2
    ensures 0.0 <= f < 1.0 && raw == Mix(r1, r2, f)
    ensures CellUp(raw, r1, r2, Grid(min, step, x), step) == Grid(min, step, x + f)
  {
    f := DivUnit(raw - r1, r2 - r1);
    LerpSteps(Grid(min, step, x), step, f);
    GridAdd(min, step, x, f);
  }

  lemma CellDownIs(raw: real, r1: real, r2: real, min: real, step: real, x: real) returns (f: real)
    requires r1 >= raw > r2
    ensures 0.0 <= f < 1.0 && raw == Mix(r1, r2, f)
    ensures CellDown(raw, r1, r2, Grid(min, step, x), step) == Grid(min, step, x + f)
  {
    f := DivUnit(r1 - raw, r1 - r2);
    assert raw - r2 == (1.0 - f) * (r1 - r2);
    MulDiv(1.0 - f, r1 - r2);
    LerpSteps(Grid(min, step, x), step, f);
    GridAdd(min, step, x, f);
  }

  lemma GridOrder(min: real, step: real, x: real, y: real)
    requires step > 0.0
    ensures Grid(min, step, x) <= Grid(min, step, y) <==> x <= y
  {
    if x > y {
      assert (x - y) * step > 0.0;
    } else {
      assert (y - x) * step >= 0.0;
    }
  }

  lemma GridMonotone(min: real, step: real, x: real, y: real)
    requires step >= 0.0 && x <= y
    ensures Grid(min, step, x) <= Grid(min, step, y)
  {
    assert (y - x) * step >= 0.0;
  }

  lemma GridEnds(n: nat, min: real, max: real)
    requires n >= 2
    ensures Grid(min, UnitStep(n, min, max), 0.0) == min
    ensures Grid(min, UnitStep(n, min, max), n as real - 1.0) == max
    ensures min <= max ==> UnitStep(n, min, max) >= 0.0
    ensures min < max ==> UnitStep(n, min, max) > 0.0
  {
  }

  // ----- Positions: a raw value as a fractional index -----

  ghost predicate Inside(t: TableItem, raw: real)
    requires |t.values| >= 2
  {
    var first, last := t.values[0], t.values[|t.values| - 1];
    if t.direction == Increasing then first < raw < last else first > raw > last
  }

  /** `raw` lies a fraction `f` of the way from entry `p` to the next, which it has not reached. */
  ghost predicate At(values: seq<real>, raw: real, p: nat, f: real) {
    && p + 1 < |values| && 0.0 <= f < 1.0
    && raw == Mix(values[p], values[p + 1], f)
    && (values[p] <= raw < values[p + 1] || values[p] >= raw > values[p + 1])
  }

  /** Inside the table, sorted or not, lookup is linear in the position of `raw`. */
  lemma Interpolates(t: TableItem, raw: real, min: real, max: real) returns (p: nat, f: real)
    requires |t.values| >= 2 && Inside(t, raw)
    ensures At(t.values, raw, p, f)
    ensures Lookup(t, raw, min, max) == Some(Grid(min, UnitStep(|t.values|, min, max), p as real + f))
  {
    hide UnitStep, Grid, CellUp, CellDown, Lerp, Mix;
    var n := |t.values|;
    var step := UnitStep(n, min, max);
    if t.direction == Increasing {
      p := SearchIncreasing(t.values, raw, 0, n - 1);
      SearchIncreasingBrackets(t.values, raw, 0, n - 1);
      f := CellUpIs(raw, t.values[p], t.values[p + 1], min, step, p as real);
    } else {
      p := SearchDecreasing(t.values, raw, 0, n - 1);
      SearchDecreasingBrackets(t.values, raw, 0, n - 1);
      f := CellDownIs(raw, t.values[p], t.values[p + 1], min, step, p as real);
    }
  }

  /** Interpolation stays in range for every table of two or more values, sorted or not. */
  lemma LookupInRange(t: TableItem, raw: real, min: real, max: real)
    requires |t.values| >= 2 && min <= max
    ensures Lookup(t, raw, min, max).Some? && min <= Lookup(t, raw, min, max).value <= max
  {
    hide UnitStep, Grid, CellUp, CellDown;
    if Inside(t, raw) {
      var n := |t.values|;
      var step := UnitStep(n, min, max);
      var p, f := Interpolates(t, raw, min, max);
      GridEnds(n, min, max);
      GridMonotone(min, step, 0.0, p as real + f);
      GridMonotone(min, step, p as real + f, n as real - 1.0);
    }
  }

  // ----- Strictly monotone tables -----

  ghost predicate Rising(v: seq<real>) {
    forall i, j :: 0 <= i < j < |v| ==> v[i] < v[j]
  }

  ghost predicate Falling(v: seq<real>) {
    forall i, j :: 0 <= i < j < |v| ==> v[i] > v[j]
  }

  /** On a rising table the search finds the interval a linear scan would find. */
  lemma SearchIsScanRising(v: seq<real>, raw: real, i: nat)
    requires i + 1 < |v| && Rising(v) && v[i] <= raw < v[i + 1]
    ensures SearchIncreasing(v, raw, 0, |v| - 1) == i
  {
    var n := |v|;
    assert v[0] <= v[i] && v[i + 1] <= v[n - 1];
    SearchIncreasingBrackets(v, raw, 0, n - 1);
  }

  lemma SearchIsScanFalling(v: seq<real>, raw: real, i: nat)
    requires i + 1 < |v| && Falling(v) && v[i] >= raw > v[i + 1]
    ensures SearchDecreasing(v, raw, 0, |v| - 1) == i
  {
    var n := |v|;
    assert v[0] >= v[i] && v[i + 1] >= v[n - 1];
    SearchDecreasingBrackets(v, raw, 0, n - 1);
  }

  lemma MixOrder(a: real, b: real, f: real, g: real)
    requires (a < b && Mix(a, b, f) <= Mix(a, b, g)) || (a > b && Mix(a, b, f) >= Mix(a, b, g))
    ensures f <= g
  {
    if a < b {
      CancelLess(g, f, b - a);
    } else {
      assert f * (b - a) == -(f * (a - b)) && g * (b - a) == -(g * (a - b));
      CancelLess(g, f, a - b);
    }
  }

  /** Positions along a monotone table are ordered like the raw values. */
  lemma PositionsOrdered(v: seq<real>, a: real, p: nat, f: real, b: real, q: nat, g: real)
    requires At(v, a, p, f) && At(v, b, q, g)
    requires (Rising(v) && a <= b) || (Falling(v) && a >= b)
    ensures p as real + f <= q as real + g
  {
    hide Mix;
    if p < q {
      assert p as real + 1.0 <= q as real;
    } else if p == q {
      MixOrder(v[p], v[p + 1], f, g);
    }
  }

  /** Lookup in a table as loaded is monotone if it rises and antitone if it falls. */
  lemma LookupMonotone(t: TableItem, a: real, b: real, min: real, max: real)
    requires Loaded(t) && |t.values| >= 2 && min <= max && a <= b
    requires Rising(t.values) || Falling(t.values)
    ensures var x, y := Lookup(t, a, min, max), Lookup(t, b, min, max);
      x.Some? && y.Some? && (if Rising(t.values) then x.value <= y.value else x.value >= y.value)
  {
    assert Rising(t.values) <==> t.direction == Increasing by {
      assert Rising(t.values) ==> t.values[0] < t.values[|t.values| - 1];
      assert Falling(t.values) ==> t.values[0] > t.values[|t.values| - 1];
    }
    hide UnitStep, Grid, CellUp, CellDown, At;
    LookupInRange(t, a, min, max);
    LookupInRange(t, b, min, max);
    if Inside(t, a) && Inside(t, b) {
      var p, f := Interpolates(t, a, min, max);
      var q, g := Interpolates(t, b, min, max);
      var step := UnitStep(|t.values|, min, max);
      GridEnds(|t.values|, min, max);
      if t.direction == Increasing {
        PositionsOrdered(t.values, a, p, f, b, q, g);
        GridMonotone(min, step, p as real + f, q as real + g);
      } else {
        PositionsOrdered(t.values, b, q, g, a, p, f);
        GridMonotone(min, step, q as real + g, p as real + f);
      }
    }
  }

  // ----- Reverse lookup -----

  lemma CellBackIs(min: real, step: real, x: real, i: real, v1: real, v2: real)
    requires step > 0.0
    ensures CellBack(Grid(min, step, x), Grid(min, step, i), step, v1, v2) == Mix(v1, v2, x - i)
  {
    assert Grid(min, step, x) - Grid(min, step, i) == (x - i) * step;
    MulDiv(x - i, step);
    LerpSteps(v1, v2 - v1, x - i);
  }

  /** Whether the scan stops at interval `i`, in terms of the position `x` of `cur`. */
  lemma ScanStep(v: seq<real>, x: real, min: real, step: real, i: nat)
    requires i + 1 < |v| && step > 0.0
    ensures ScanBack(v, Grid(min, step, x), min, step, i) ==
        if i as real <= x <= i as real + 1.0 then Some(AsI64(Mix(v[i], v[i + 1], x - i as real)))
        else ScanBack(v, Grid(min, step, x), min, step, i + 1)
  {
    hide Grid, CellBack, AsI64, Mix;
    GridAdd(min, step, i as real, 1.0);
    GridOrder(min, step, i as real, x);
    GridOrder(min, step, x, i as real + 1.0);
    CellBackIs(min, step, x, i as real, v[i], v[i + 1]);
  }

  lemma MixEnds(a: real, b: real)
    ensures Mix(a, b, 0.0) == a && Mix(a, b, 1.0) == b
  {
  }

  /** The scan undoes a position exactly, up to the cast to an integer. */
  lemma {:induction false} ScanBackFinds(v: seq<real>, raw: real, p: nat, f: real, min: real, step: real, i: nat)
    requires At(v, raw, p, f) && i <= p && step > 0.0
    ensures ScanBack(v, Grid(min, step, p as real + f), min, step, i) == Some(AsI64(raw))
    decreases p - i
  {
    hide Grid, AsI64, Mix;
    var x := p as real + f;
    ScanStep(v, x, min, step, i);
    if i < p {
      if f == 0.0 && i == p - 1 {
        assert x - i as real == 1.0;
        MixEnds(v[i], v[p]);
        assert raw == Mix(v[p], v[p + 1], 0.0);
        MixEnds(v[p], v[p + 1]);
      } else {
        assert x > i as real + 1.0;
        ScanBackFinds(v, raw, p, f, min, step, i + 1);
      }
    } else {
      assert x - i as real == f;
    }
  }

  /** The table end nearest to an outside `raw`. */
  function NearEnd(t: TableItem, raw: real): real
    requires |t.values| >= 2
  {
    var first, last := t.values[0], t.values[|t.values| - 1];
    if (t.direction == Increasing && raw <= first) || (t.direction == Decreasing && raw >= first) then first else last
  }

  lemma StrictlyAfterFirst(t: TableItem, raw: real, p: nat, f: real)
    requires |t.values| >= 2 && Inside(t, raw) && At(t.values, raw, p, f)
    ensures 0.0 < p as real + f < |t.values| as real - 1.0
  {
    MixEnds(t.values[0], t.values[1]);
  }

  /** Reverse lookup of lookup gives back the raw value cast to an integer, or the end value
      when the raw value lies outside the table; the table need not be sorted. */
  lemma ReverseOfLookup(t: TableItem, raw: real, min: real, max: real)
    requires |t.values| >= 2 && min < max
    ensures Lookup(t, raw, min, max).Some?
    ensures ReverseLookup(t, Lookup(t, raw, min, max).value, min, max) ==
      Some(if Inside(t, raw) then AsI64(raw) else NearEnd(t, raw))
  {
    hide UnitStep, Grid, CellUp, CellDown, CellBack, AsI64, At;
    GridEnds(|t.values|, min, max);
    if Inside(t, raw) {
      var n := |t.values|;
      var step := UnitStep(n, min, max);
      var p, f := Interpolates(t, raw, min, max);
      var x := p as real + f;
      StrictlyAfterFirst(t, raw, p, f);
      GridOrder(min, step, x, 0.0);
      GridOrder(min, step, n as real - 1.0, x);
      ScanBackFinds(t.values, raw, p, f, min, step, 0);
    }
  }

  lemma {:induction false} ScanBackTotal(v: seq<real>, x: real, min: real, step: real, i: nat)
    requires i < |v| && step > 0.0 && i as real <= x < |v| as real - 1.0
    ensures ScanBack(v, Grid(min, step, x), min, step, i).Some?
    decreases |v| - i
  {
    hide Grid, CellBack, AsI64;
    ScanStep(v, x, min, step, i);
    if x > i as real + 1.0 {
      ScanBackTotal(v, x, min, step, i + 1);
    }
  }

  lemma PositionOf(cur: real, min: real, step: real) returns (x: real)
    requires step > 0.0
    ensures cur == Grid(min, step, x)
  {
    x := (cur - min) / step;
  }

  /** A table of two or more values answers every reverse lookup. */
  lemma ReverseLookupTotal(t: TableItem, cur: real, min: real, max: real)
    ensures ReverseLookup(t, cur, min, max).Some? <==> |t.values| >= 2
  {
    hide UnitStep, Grid, CellBack, AsI64;
    var n := |t.values|;
    if n >= 2 && min < cur < max {
      var step := UnitStep(n, min, max);
      GridEnds(n, min, max);
      var x := PositionOf(cur, min, step);
      GridOrder(min, step, x, 0.0);
      GridOrder(min, step, n as real - 1.0, x);
      ScanBackTotal(t.values, x, min, step, 0);
    }
  }

  /** Within 64 bits the cast gives the whole number next to `x` on the side of zero. */
  lemma AsI64Truncates(x: real)
    requires -9223372036854775808.0 <= x <= 9223372036854775807.0
    ensures AsI64(x).Floor as real == AsI64(x) && Abs(x) - 1.0 < Abs(AsI64(x)) <= Abs(x)
    ensures x >= 0.0 ==> AsI64(x) >= 0.0
    ensures x <= 0.0 ==> AsI64(x) <= 0.0
  {
  }
}
