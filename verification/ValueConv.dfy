/** Conversion between raw readings and engineering units, in both directions. The
    SDP610 sensor curves and their hysteresis are an arbitrary function `sensor`. */
module ValueConv {
  import opened EngineTypes
  import opened Table

  datatype ConversionFn = Sdp610ToPa | Sdp610ToInH2O | Sdp610ToPsi | Sdp610ToCfm | Sdp610ToLps

  datatype Conv = Conv(
    tableIndex: Option<nat>,
    low: Option<real>, high: Option<real>,
    offset: Option<real>, scale: Option<real>,
    min: Option<real>, max: Option<real>,
    adcMode: bool, dacMode: bool,
    convFunc: Option<ConversionFn>,
    unit: string, flowConfig: seq<real>, filterConfig: seq<real>)

  type Tables = seq<Option<TableItem>>

  /** Hysteresis and sensor curve: the adjusted raw value, the flow flag and the converted value. */
  datatype SensorOut = SensorOut(raw: real, detected: Option<bool>, cur: real)

  type Sensor = (Conv, real, Option<bool>) -> SensorOut

  function TableAt(tables: Tables, i: nat): Option<TableItem> {
    if i < |tables| then tables[i] else None
  }

  function LookupAt(tables: Tables, i: nat, raw: real, min: real, max: real): Option<real> {
    match TableAt(tables, i)
    case None => None
    case Some(t) => Lookup(t, raw, min, max)
  }

  function ReverseLookupAt(tables: Tables, i: nat, cur: real, min: real, max: real): Option<real> {
    match TableAt(tables, i)
    case None => None
    case Some(t) => ReverseLookup(t, cur, min, max)
  }

  function ClampOutput(c: Conv, cur: real): real {
    var cur := if c.min.Some? then Max(cur, c.min.value) else cur;
    if c.max.Some? then Min(cur, c.max.value) else cur
  }

  function CombinedTransform(c: Conv, cur: real): real {
    if c.low.Some? && c.high.Some? && c.offset.Some? && c.scale.Some? && c.min.Some? && c.max.Some?
       && c.high.value - c.low.value != 0.0 then
      Clamp(cur / (c.high.value - c.low.value) * c.scale.value + c.offset.value, c.min.value, c.max.value)
    else cur
  }

  /** A share of the span `range`, or zero when the span is empty. */
  function Ratio(raw: real, range: real): real {
    if range != 0.0 then raw / range else 0.0
  }

  function Transform(c: Conv, cur: real): real {
    (cur + c.offset.UnwrapOr(0.0)) * c.scale.UnwrapOr(1.0)
  }

  function ConvLow(c: Conv): real {
    c.low.UnwrapOr(0.0)
  }

  function ConvHigh(c: Conv): real {
    c.high.UnwrapOr(4096.0)
  }

  /** The reading is within 2% of the span from either end, or beyond it. */
  predicate NearEdge(c: Conv, raw: real) {
    var margin := (ConvHigh(c) - ConvLow(c)) * 0.02;
    raw <= ConvLow(c) + margin || raw >= ConvHigh(c) - margin
  }

  /** The value before offset, scale and limits. */
  function BaseValue(c: Conv, raw: real, tables: Tables): real {
    var low, high := ConvLow(c), ConvHigh(c);
    if c.adcMode then
      (if raw <= low + (high - low) * 0.5 then 0.0 else 1.0)
    else if c.tableIndex.Some? then
      LookupAt(tables, c.tableIndex.value, raw, c.min.UnwrapOr(0.0), c.max.UnwrapOr(100.0))
        .UnwrapOr(Ratio(raw, high - low))
    else if c.low.Some? && c.high.Some? then Ratio(raw, high - low)
    else raw
  }

  function ConvertTableOrRange(c: Conv, v: EngineValue, tables: Tables): EngineValue {
    if c.tableIndex.Some? && c.low.None? && c.high.None? then
      v.(status := Fault, trigger := false)
    else if !c.adcMode && c.tableIndex.Some? && NearEdge(c, v.raw) then
      var low := v.raw <= ConvLow(c) + (ConvHigh(c) - ConvLow(c)) * 0.02;
      EngineValue(Fault, v.raw, if low then c.min.UnwrapOr(0.0) else c.max.UnwrapOr(100.0),
        v.flags.(cur := true), false)
    else
      var raw := Clamp(v.raw, ConvLow(c), ConvHigh(c));
      EngineValue(Ok, raw, ClampOutput(c, Transform(c, BaseValue(c, raw, tables))), v.flags.(cur := true), false)
  }

  /** The converted value and the flow flag. */
  function Convert(c: Conv, v: EngineValue, tables: Tables, sensor: Sensor, flow: Option<bool>): (EngineValue, Option<bool>) {
    if c.convFunc.Some? then
      var s := sensor(c, Max(v.raw, 0.0), flow);
      (EngineValue(Ok, s.raw, ClampOutput(c, CombinedTransform(c, s.cur)), v.flags.(cur := true), false), s.detected)
    else
      (ConvertTableOrRange(c, v, tables), flow)
  }

  /** The output limits as `revert` applies them, the upper one first. */
  function Limited(c: Conv, cur: real): real {
    var cur := if c.max.Some? then Min(cur, c.max.value) else cur;
    if c.min.Some? then Max(cur, c.min.value) else cur
  }

  /** Limits, scale and offset taken off again, in the order the original takes them. */
  function Untransform(c: Conv, cur: real): real {
    var cur := Limited(c, cur);
    var cur := if c.scale.Some? && c.scale.value != 0.0 then cur / c.scale.value else cur;
    cur - c.offset.UnwrapOr(0.0)
  }

  function RevertRaw(c: Conv, cur: real, tables: Tables): real {
    if c.adcMode then
      (if cur <= 0.0 then ConvLow(c) else ConvHigh(c))
    else if c.tableIndex.Some? then
      ReverseLookupAt(tables, c.tableIndex.value, cur, c.min.UnwrapOr(0.0), c.max.UnwrapOr(100.0)).UnwrapOr(cur)
    else cur * (c.high.UnwrapOr(1.0) - c.low.UnwrapOr(0.0))
  }

  function ClampRaw(c: Conv, raw: real): real {
    if c.low.Some? && c.high.Some? then Clamp(raw, c.low.value, c.high.value) else raw
  }

  function Revert(c: Conv, v: EngineValue, tables: Tables): EngineValue {
    var cur := Untransform(c, v.cur);
    EngineValue(Ok, ClampRaw(c, RevertRaw(c, cur, tables)), cur, v.flags.(raw := true), false)
  }

  // ----- Reference arithmetic -----

  /** `x` brought into the output limits, the lower one last. */
  function WithinLimits(c: Conv, x: real): real {
    var top := if c.max.Some? && x > c.max.value then c.max.value else x;
    if c.min.Some? && top < c.min.value then c.min.value else top
  }

  /** The value that offset and scale turn into the limited `x`. */
  function BaseFor(c: Conv, x: real): real {
    var unscaled := match c.scale
      case Some(s) => (if s == 0.0 then WithinLimits(c, x) else WithinLimits(c, x) / s)
      case None => WithinLimits(c, x);
    match c.offset
    case Some(o) => unscaled - o
    case None => unscaled
  }

  /** The raw value that stands for the engineering value `x`. */
  function RawFor(c: Conv, x: real, tables: Tables): real {
    RawOfBase(c, BaseFor(c, x), tables)
  }

  /** A threshold channel knows its two ends only; a table is searched backwards; a range is
      stretched over its span. */
  function RawOfBase(c: Conv, base: real, tables: Tables): real {
    var low, high := c.low.UnwrapOr(0.0), c.high.UnwrapOr(if c.adcMode then 4096.0 else 1.0);
    var raw :=
      if c.adcMode then (if base > 0.0 then high else low)
      else
        match c.tableIndex
        case Some(i) =>
          if i < |tables| && tables[i].Some? && |tables[i].value.values| >= 2 then
            ReverseLookup(tables[i].value, base, c.min.UnwrapOr(0.0), c.max.UnwrapOr(100.0)).UnwrapOr(base)
          else base
        case None => base * (high - low);
    if c.low.None? || c.high.None? then raw
    else if raw < low then low else if raw > high then high else raw
  }

  /** `revert` finds that raw value and writes the base value back beside it. */
  lemma RevertIs(c: Conv, v: EngineValue, tables: Tables)
    ensures Revert(c, v, tables) == EngineValue(Ok, RawFor(c, v.cur, tables), BaseFor(c, v.cur), Flags(true, v.flags.cur), false)
  {
    hide RawOfBase, RevertRaw, ClampRaw, BaseFor, Untransform;
    UntransformIs(c, v.cur);
    RawOfBaseIs(c, BaseFor(c, v.cur), tables);
  }

  lemma UntransformIs(c: Conv, x: real)
    ensures Untransform(c, x) == BaseFor(c, x)
  {
    assert Limited(c, x) == WithinLimits(c, x);
  }

  lemma RawOfBaseIs(c: Conv, base: real, tables: Tables)
    ensures ClampRaw(c, RevertRaw(c, base, tables)) == RawOfBase(c, base, tables)
  {
    if c.adcMode {
    } else if c.tableIndex.Some? {
      hide ReverseLookup;
      var i := c.tableIndex.value;
      if i < |tables| && tables[i].Some? {
        ReverseLookupTotal(tables[i].value, base, c.min.UnwrapOr(0.0), c.max.UnwrapOr(100.0));
      }
    } else {
      assert RevertRaw(c, base, tables) == base * (c.high.UnwrapOr(1.0) - c.low.UnwrapOr(0.0));
    }
  }

  /** For a range, reading back what was written gives the value written, as long as neither the
      limits nor the ends of the range cut it. */
  lemma RangeReadBack(c: Conv, v: EngineValue, tables: Tables)
    requires c.tableIndex.None? && !c.adcMode && c.low.Some? && c.high.Some? && c.low.value < c.high.value
    requires c.scale.Some? ==> c.scale.value != 0.0
    requires NoBite(c, v.cur)
    requires c.low.value <= BaseFor(c, v.cur) * (c.high.value - c.low.value) <= c.high.value
    ensures var w := ConvertTableOrRange(c, Revert(c, v, tables), tables);
      w.status == Ok && w.cur == v.cur
  {
    hide LookupAt, ReverseLookupAt, Revert, BaseFor, Transform;
    var base, span := BaseFor(c, v.cur), c.high.value - c.low.value;
    RevertIs(c, v, tables);
    MulDiv(base, span);
    assert Ratio(base * span, span) == base;
    assert Revert(c, v, tables).raw == base * span;
    assert BaseValue(c, base * span, tables) == base;
    BaseTransforms(c, v.cur);
  }

  lemma BaseTransforms(c: Conv, x: real)
    requires NoBite(c, x) && (c.scale.Some? ==> c.scale.value != 0.0)
    ensures Transform(c, BaseFor(c, x)) == x
  {
    if c.scale.Some? {
      DivMul(x, c.scale.value);
    }
  }

  // ----- Faults and limits -----

  /** Which readings a table or range conversion reports as faulty. */
  lemma FaultIff(c: Conv, v: EngineValue, tables: Tables)
    ensures ConvertTableOrRange(c, v, tables).status == Fault <==>
      var low, high := c.low.UnwrapOr(0.0), c.high.UnwrapOr(4096.0);
      c.tableIndex.Some? &&
      ((c.low.None? && c.high.None?) ||
       (!c.adcMode && (v.raw <= low + (high - low) / 50.0 || v.raw >= high - (high - low) / 50.0)))
    ensures ConvertTableOrRange(c, v, tables).status != Fault ==> ConvertTableOrRange(c, v, tables).status == Ok
  {
  }

  /** Offset, scale and then the limits, the upper one last. */
  function Readout(c: Conv, base: real): real {
    var shifted := match c.offset case Some(o) => base + o case None => base;
    var scaled := match c.scale case Some(s) => shifted * s case None => shifted;
    var bottom := if c.min.Some? && scaled < c.min.value then c.min.value else scaled;
    if c.max.Some? && bottom > c.max.value then c.max.value else bottom
  }

  lemma ReadoutIs(c: Conv, base: real)
    ensures ClampOutput(c, Transform(c, base)) == Readout(c, base)
  {
  }

  /** A faulty reading keeps its raw value and shows the output limit of the end it is at; without a
      range it shows what it showed. */
  lemma FaultShows(c: Conv, v: EngineValue, tables: Tables)
    requires c.tableIndex.Some? && ConvLow(c) < ConvHigh(c)
    ensures var w := ConvertTableOrRange(c, v, tables);
      var low, high := c.low.UnwrapOr(0.0), c.high.UnwrapOr(4096.0);
      w.status == Fault ==>
        w.raw == v.raw && !w.trigger &&
        (if c.low.None? && c.high.None? then w.cur == v.cur && w.flags == v.flags
         else w.flags == Flags(v.flags.raw, true) && w.cur == if v.raw < (low + high) / 2.0 then c.min.UnwrapOr(0.0) else c.max.UnwrapOr(100.0))
  {
  }

  /** A good reading: the raw value is cut to the range, and the value shown is what offset, scale and
      limits make of its base value: 0 or 1 around the middle of the range for a threshold channel,
      the table's answer, the share of the span, or the raw value itself. */
  lemma GoodReading(c: Conv, v: EngineValue, tables: Tables)
    ensures var w := ConvertTableOrRange(c, v, tables);
      var low, high := c.low.UnwrapOr(0.0), c.high.UnwrapOr(4096.0);
      w.status == Ok ==>
        w.raw == (if v.raw < low then low else if v.raw > high then high else v.raw) &&
        w.flags == Flags(v.flags.raw, true) && !w.trigger &&
        (c.adcMode ==> w.cur == Readout(c, if w.raw > (low + high) / 2.0 then 1.0 else 0.0)) &&
        (!c.adcMode && c.tableIndex.None? && c.low.Some? && c.high.Some? && low < high ==>
          w.cur == Readout(c, w.raw / (high - low))) &&
        (!c.adcMode && c.tableIndex.None? && (c.low.None? || c.high.None?) ==> w.cur == Readout(c, w.raw)) &&
        (!c.adcMode && c.tableIndex.Some? && TableAt(tables, c.tableIndex.value).Some? &&
          |TableAt(tables, c.tableIndex.value).value.values| >= 2 ==>
          var t := TableAt(tables, c.tableIndex.value).value;
          var x := Lookup(t, w.raw, c.min.UnwrapOr(0.0), c.max.UnwrapOr(100.0));
          x.Some? && w.cur == Readout(c, x.value))
  {
    hide Lookup, Transform, ClampOutput, Readout;
    var raw := Clamp(v.raw, ConvLow(c), ConvHigh(c));
    ReadoutIs(c, BaseValue(c, raw, tables));
    if c.tableIndex.Some? && TableAt(tables, c.tableIndex.value).Some? {
      LookupAnswers(TableAt(tables, c.tableIndex.value).value, raw, c.min.UnwrapOr(0.0), c.max.UnwrapOr(100.0));
    }
  }

  lemma LookupAnswers(t: TableItem, raw: real, min: real, max: real)
    ensures |t.values| >= 2 ==> Lookup(t, raw, min, max).Some?
  {
  }

  /** A sensor curve works on the raw value, zero if negative; with range, offset, scale and limits
      all configured its result is scaled over the span and limited, else only limited. */
  lemma SensorReading(c: Conv, v: EngineValue, tables: Tables, sensor: Sensor, flow: Option<bool>)
    requires c.convFunc.Some?
    ensures var (w, detected) := Convert(c, v, tables, sensor, flow);
      var s := sensor(c, if v.raw < 0.0 then 0.0 else v.raw, flow);
      w.status == Ok && w.raw == s.raw && detected == s.detected && w.flags == Flags(v.flags.raw, true) && !w.trigger &&
      var full := c.low.Some? && c.high.Some? && c.offset.Some? && c.scale.Some? && c.min.Some? && c.max.Some? &&
        c.low.value != c.high.value;
      (!full ==> w.cur == Readout(c.(offset := None, scale := None), s.cur)) &&
      (full && c.min.value <= c.max.value ==>
        var x := s.cur / (c.high.value - c.low.value) * c.scale.value + c.offset.value;
        w.cur == if x < c.min.value then c.min.value else if x > c.max.value then c.max.value else x)
  {
  }

  /** Every good reading lies within the configured output limits. */
  lemma GoodWithinLimits(c: Conv, v: EngineValue, tables: Tables, sensor: Sensor, flow: Option<bool>)
    requires c.min.Some? && c.max.Some? ==> c.min.value <= c.max.value
    ensures var r := Convert(c, v, tables, sensor, flow).0;
      r.status == Ok ==>
        (c.min.Some? ==> c.min.value <= r.cur) && (c.max.Some? ==> r.cur <= c.max.value)
  {
  }

  // ----- Convert, then revert -----

  lemma DivMul(x: real, d: real)
    requires d != 0.0
    ensures x / d * d == x
  {
  }

  /** Neither output limit changes the value. */
  ghost predicate NoBite(c: Conv, cur: real) {
    (c.min.Some? ==> c.min.value <= cur) && (c.max.Some? ==> cur <= c.max.value)
  }

  lemma UntransformUndoes(c: Conv, base: real)
    requires c.scale.Some? ==> c.scale.value != 0.0
    requires NoBite(c, Transform(c, base))
    ensures Untransform(c, ClampOutput(c, Transform(c, base))) == base
  {
    hide ClampOutput, Limited, NoBite;
    LimitsPass(c, Transform(c, base));
    if c.scale.Some? {
      MulDiv(base + c.offset.UnwrapOr(0.0), c.scale.value);
    }
  }

  lemma LimitsPass(c: Conv, x: real)
    requires NoBite(c, x)
    ensures ClampOutput(c, x) == x && Limited(c, x) == x
  {
  }

  /** Both directions scale by the same span. */
  ghost predicate SpansAgree(c: Conv) {
    c.low.Some? == c.high.Some? || c.high.UnwrapOr(1.0) - c.low.UnwrapOr(0.0) == 1.0
  }

  lemma RatioTimes(raw: real, range: real)
    ensures Ratio(raw, range) * range == if range != 0.0 then raw else 0.0
  {
    if range != 0.0 {
      DivMul(raw, range);
    }
  }

  lemma FixedByScaling(x: real, span: real)
    ensures x * span == x <==> x == 0.0 || span == 1.0
  {
    assert x * span - x == x * (span - 1.0);
  }

  lemma RangeRevert(c: Conv, raw: real, tables: Tables)
    requires c.tableIndex.None? && !c.adcMode
    requires ConvLow(c) <= ConvHigh(c) && ConvLow(c) <= raw <= ConvHigh(c)
    ensures ClampRaw(c, RevertRaw(c, BaseValue(c, raw, tables), tables)) == raw <==> SpansAgree(c) || raw == 0.0
  {
    hide Ratio, LookupAt, ReverseLookupAt;
    if c.low.Some? && c.high.Some? {
      RatioTimes(raw, c.high.value - c.low.value);
    } else {
      FixedByScaling(raw, c.high.UnwrapOr(1.0) - c.low.UnwrapOr(0.0));
    }
  }

  /** Without a table, revert gives back the clamped raw value exactly when both ends of the
      raw range are configured, or neither is, or the spans happen to agree, or it is zero. */
  lemma RangeRoundTrip(c: Conv, v: EngineValue, tables: Tables)
    requires c.tableIndex.None? && !c.adcMode && c.convFunc.None?
    requires ConvLow(c) <= ConvHigh(c)
    requires c.scale.Some? ==> c.scale.value != 0.0
    requires NoBite(c, Transform(c, BaseValue(c, Clamp(v.raw, ConvLow(c), ConvHigh(c)), tables)))
    ensures var w := ConvertTableOrRange(c, v, tables);
      w.raw == Clamp(v.raw, ConvLow(c), ConvHigh(c)) &&
      (Revert(c, w, tables).raw == w.raw <==> SpansAgree(c) || w.raw == 0.0)
  {
    hide Transform, Untransform, ClampOutput, BaseValue, ClampRaw, RevertRaw, SpansAgree, NoBite;
    var raw := Clamp(v.raw, ConvLow(c), ConvHigh(c));
    UntransformUndoes(c, BaseValue(c, raw, tables));
    RangeRevert(c, raw, tables);
  }

  /** Through a table, outside the fault margins, revert gives back the raw value cast to an
      integer (or the table end it lies beyond), clamped to the raw range. */
  lemma TableRoundTrip(c: Conv, v: EngineValue, tables: Tables, t: TableItem)
    requires c.tableIndex.Some? && !c.adcMode && c.convFunc.None?
    requires TableAt(tables, c.tableIndex.value) == Some(t) && |t.values| >= 2
    requires c.low.Some? || c.high.Some?
    requires ConvLow(c) < ConvHigh(c) && !NearEdge(c, v.raw)
    requires c.min.UnwrapOr(0.0) < c.max.UnwrapOr(100.0)
    requires c.scale.Some? ==> c.scale.value != 0.0
    requires NoBite(c, Transform(c, BaseValue(c, v.raw, tables)))
    ensures var w := ConvertTableOrRange(c, v, tables);
      w.status == Ok && w.raw == v.raw &&
      Revert(c, w, tables).raw == ClampRaw(c, if Inside(t, v.raw) then AsI64(v.raw) else NearEnd(t, v.raw))
  {
    hide Transform, Untransform, ClampOutput, ClampRaw, NoBite, Lookup, ReverseLookup, Inside, AsI64, NearEnd;
    var min, max := c.min.UnwrapOr(0.0), c.max.UnwrapOr(100.0);
    ReverseOfLookup(t, v.raw, min, max);
    UntransformUndoes(c, BaseValue(c, v.raw, tables));
  }

  // ----- What revert writes back -----

  lemma SolveScale(x: real, s: real, o: real)
    requires s != 0.0
    ensures x / s - o == x <==> x == (x + o) * s
  {
    DivMul(x, s);
    MulDiv(x + o, s);
  }

  /** `revert` writes back the limited value exactly when that value is a fixed point of offset and
      scale, a scale of zero counting as one; in particular when neither is configured. */
  lemma RevertedCurIff(c: Conv, v: EngineValue, tables: Tables)
    ensures var x, o := Limited(c, v.cur), c.offset.UnwrapOr(0.0);
      var s := if c.scale.Some? && c.scale.value != 0.0 then c.scale.value else 1.0;
      Revert(c, v, tables).cur == x <==> x == (x + o) * s
  {
    hide RevertRaw, ClampRaw, Limited;
    var x, o := Limited(c, v.cur), c.offset.UnwrapOr(0.0);
    if c.scale.Some? && c.scale.value != 0.0 {
      SolveScale(x, c.scale.value, o);
    } else {
      SolveScale(x, 1.0, o);
    }
  }

  /** A channel with offset 1: writing 5 stores 4 as its value. */
  lemma RevertedCurDiffers(tables: Tables)
    ensures var c := Conv(None, None, None, Some(1.0), None, None, None, false, false, None, "", [], []);
      var v := DEFAULT_VALUE.(cur := 5.0);
      Limited(c, v.cur) == 5.0 && Revert(c, v, tables).cur == 4.0
  {
  }

  // ----- Revert, then convert, for threshold channels -----

  /** A threshold channel without adjustments reads back one exactly for positive values on a
      non-empty range; a table without a range keeps faulting instead. */
  lemma AdcRoundTrip(c: Conv, v: EngineValue, tables: Tables)
    requires c.adcMode && c.convFunc.None?
    requires c.offset.None? && c.scale.None? && c.min.None? && c.max.None?
    requires ConvLow(c) <= ConvHigh(c)
    ensures var w := ConvertTableOrRange(c, Revert(c, v, tables), tables);
      if c.tableIndex.Some? && c.low.None? && c.high.None? then w.status == Fault
      else w.status == Ok && w.cur == (if v.cur > 0.0 && ConvLow(c) < ConvHigh(c) then 1.0 else 0.0)
  {
    assert Untransform(c, v.cur) == v.cur;
  }
}
