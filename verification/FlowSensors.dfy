/** Garbage readings of the flow sensors: a raw reading out of range is replaced by the last valid
    value, which is a converted one. */
module FlowSensors {
  import opened EngineTypes
  import opened Channels
  import opened ValueConv
  import opened EngineCore

  /** What conversion makes of a raw reading of the channel. */
  function Converted(w: World, tables: Tables, id: ChannelId, ch: Channel, raw: real): real {
    Convert(w.autoDetect(id, ch.conv, tables), EngineValue(ch.value.status, raw, ch.value.cur, Flags(true, false), false),
      tables, w.sensor, ch.flowState).0.cur
  }

  predicate InRawRange(raw: real) {
    0.0 <= raw <= 32767.0
  }

  /** The spike check, once it has a baseline and two earlier readings, refuses the value. */
  predicate Refuses(ch: Channel, cur: real) {
    ch.lastValidValue != 0.0 && ch.spikeReadingCount >= 2 && IsSpike(ch.lastValidValue, cur)
  }

  /** The last valid value after a reading whose raw value entered conversion as `raw`. */
  function NextBaseline(w: World, tables: Tables, id: ChannelId, ch: Channel, raw: real): real {
    var cur := Converted(w, tables, id, ch, raw);
    if Refuses(ch, cur) then ch.lastValidValue else cur
  }

  lemma ProcessBaseline(w: World, tables: Tables, id: ChannelId, ch: Channel, raw: real)
    requires IsSdp810(id, ch)
    ensures var r := Process(w, tables, id, ch, raw);
      IsSdp810(id, r) && r.lastValidValue == NextBaseline(w, tables, id, ch, ValidateI2cRaw(id, ch, raw))
  {
    hide Convert, IsSpike;
  }

  /** After a good reading, a bad one is replaced by that reading exactly when conversion left it
      unchanged, or, if the check refused it as a spike, when the older baseline happens to equal it. */
  lemma ReplacementIff(w: World, tables: Tables, id: ChannelId, ch: Channel, good: real, bad: real)
    requires IsSdp810(id, ch) && InRawRange(good) && !InRawRange(bad)
    ensures ValidateI2cRaw(id, Process(w, tables, id, ch, good), bad) == good <==>
      if Refuses(ch, Converted(w, tables, id, ch, good)) then ch.lastValidValue == good
      else Converted(w, tables, id, ch, good) == good
  {
    hide Process, Converted, Refuses;
    ProcessBaseline(w, tables, id, ch, good);
  }

  /** The channel after a run of readings. */
  function ReadRun(w: World, tables: Tables, id: ChannelId, ch: Channel, raws: seq<real>): Channel {
    if raws == [] then ch else Process(w, tables, id, ReadRun(w, tables, id, ch, raws[..|raws| - 1]), raws[|raws| - 1])
  }

  /** During a run of bad readings conversion is applied to its own results: each one converts the
      baseline again, so the baseline stands still exactly as long as conversion returns it or the
      check refuses the result. */
  lemma {:induction false} GarbageReconverts(w: World, tables: Tables, id: ChannelId, ch: Channel, raws: seq<real>)
    requires IsSdp810(id, ch) && forall k :: 0 <= k < |raws| ==> !InRawRange(raws[k])
    ensures IsSdp810(id, ReadRun(w, tables, id, ch, raws))
    ensures (forall n :: 0 <= n <= |raws| ==> ReadRun(w, tables, id, ch, raws[..n]).lastValidValue == ch.lastValidValue) <==>
      forall n :: 0 <= n < |raws| ==>
        var b := ReadRun(w, tables, id, ch, raws[..n]);
        Converted(w, tables, id, b, ch.lastValidValue) == ch.lastValidValue ||
        Refuses(b, Converted(w, tables, id, b, ch.lastValidValue))
  {
    hide Process, Converted, Refuses;
    if raws == [] {
      assert raws[..0] == raws;
    } else {
      var k := |raws| - 1;
      var init := raws[..k];
      GarbageReconverts(w, tables, id, ch, init);
      var b := ReadRun(w, tables, id, ch, init);
      ProcessBaseline(w, tables, id, b, raws[k]);
      assert raws[..|raws|] == raws && raws[..k] == init;
      assert forall n :: 0 <= n <= k ==> raws[..n] == init[..n];
      assert init[..k] == init;
    }
  }

  const SHIFTED := Conv(None, None, None, Some(1.0), None, None, None, false, false, None, "", [], [])

  const FLOW := Channel(None, true, I2c, In, 2, 37, "sdp810", false, false, 0, SHIFTED, DEFAULT_VALUE,
    None, [], false, None, 0.0, 0)

  /** Hardware and pipeline without detection and filters. */
  const PLAIN := World((_, _) => None, (_, _) => true, (_, _) => true, 0, (_, c, _) => c,
    (_, raw, _) => SensorOut(raw, None, raw), (_, s, x, _) => (s, x))

  /** A flow channel with offset 1: after a reading of 10, a garbage reading enters as 11. */
  lemma ReplacementDiffers()
    ensures ValidateI2cRaw(610, Process(PLAIN, [], 610, FLOW, 10.0), 40000.0) == 11.0
  {
    hide Process;
    assert Converted(PLAIN, [], 610, FLOW, 10.0) == 11.0;
    ProcessBaseline(PLAIN, [], 610, FLOW, 10.0);
  }
}
