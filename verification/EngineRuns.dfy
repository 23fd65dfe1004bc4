/** Runs of engine operations in any order and interleaving. */
module EngineRuns {
  import opened EngineTypes
  import opened Channels
  import opened EngineCore
  import opened EngineFrames
  import opened Subscriptions
  import opened PollCycle
  import Priority

  datatype Op =
    | ReadOp(id: ChannelId, cache: I2cCache, w: World)
    | AheadOp(ids: seq<ChannelId>, w: World)
    | LevelOp(id: ChannelId, level: nat, value: Option<real>, who: string, duration: real, w: World)
    | SweepOp(ids: seq<ChannelId>, w: World)

  function Apply(e: Eng, op: Op): Eng {
    match op
    case ReadOp(id, cache, w) => Read(e, w, id, cache).0
    case AheadOp(ids, w) => PreRead(e, w, ids).0
    case LevelOp(id, level, value, who, duration, w) => WriteLevel(e, w, id, level, value, who, duration).0
    case SweepOp(ids, w) => ExpireAll(e, w, ids)
  }

  function Run(e: Eng, ops: seq<Op>): Eng {
    if ops == [] then e else Apply(Run(e, ops[..|ops| - 1]), ops[|ops| - 1])
  }

  lemma {:induction false} RunConcat(e: Eng, a: seq<Op>, b: seq<Op>)
    ensures Run(e, a + b) == Run(Run(e, a), b)
  {
    hide Apply;
    if b == [] {
      assert a + b == a;
    } else {
      var k := |b| - 1;
      RunConcat(e, a, b[..k]);
      assert (a + b)[..|a| + k] == a + b[..k];
    }
  }

  lemma RunNone(e: Eng)
    ensures Run(e, []) == e
  {
  }

  lemma RunOne(e: Eng, a: Op)
    ensures Run(e, [a]) == Apply(e, a)
  {
    hide Apply;
    assert [a][..0] == [];
  }

  lemma RunTwo(e: Eng, a: Op, b: Op)
    ensures Run(e, [a, b]) == Apply(Apply(e, a), b)
  {
    hide Apply;
    RunOne(e, a);
    assert [a, b][..1] == [a];
  }

  function ReadOps(ids: seq<ChannelId>, cache: I2cCache, w: World): seq<Op> {
    seq(|ids|, i requires 0 <= i < |ids| => ReadOp(ids[i], cache, w))
  }

  lemma {:induction false} PollAllIsRun(c: Cycle, w: World, subs: Subscribers, cache: I2cCache, ids: seq<ChannelId>)
    ensures PollAll(c, w, subs, cache, ids).eng == Run(c.eng, ReadOps(ids, cache, w))
  {
    hide Read, RecordValue, RecordFailure, NotesFor;
    if ids != [] {
      var k := |ids| - 1;
      PollAllIsRun(c, w, subs, cache, ids[..k]);
      assert ReadOps(ids, cache, w)[..k] == ReadOps(ids[..k], cache, w);
    }
  }

  /** The operations of one poll cycle. */
  function PollOps(e: Eng, w: World, sweep: seq<ChannelId>, ids: seq<ChannelId>): seq<Op> {
    [SweepOp(sweep, w), AheadOp(ids, w)] + ReadOps(ids, PreRead(ExpireAll(e, w, sweep), w, ids).1, w)
  }

  /** A poll cycle is such a run. */
  lemma PollIsRun(e: Eng, polls: Polls, w: World, subs: Subscribers, sweep: seq<ChannelId>, ids: seq<ChannelId>)
    ensures PollUpdate(e, polls, w, subs, sweep, ids).eng == Run(e, PollOps(e, w, sweep, ids))
  {
    hide PollAll, ReadOps, PreRead, ExpireAll;
    var start := ExpireAll(e, w, sweep);
    var (e1, cache) := PreRead(start, w, ids);
    var two := [SweepOp(sweep, w), AheadOp(ids, w)];
    assert two[..1] == [SweepOp(sweep, w)] && two[..1][..0] == [];
    assert Run(e, two[..1]) == start;
    assert Run(e, two) == e1;
    RunConcat(e, two, ReadOps(ids, cache, w));
    PollAllIsRun(Cycle(e1, polls, []), w, subs, cache, ids);
  }

  // ----- Frames of operations -----

  /** `r` is `e` with at most value and priorities of channel `id` changed, and commands sent. */
  ghost predicate LevelTouches(e: Eng, r: Eng, id: ChannelId) {
    && r == e.(channels := r.channels, writeLog := r.writeLog)
    && (if id in e.channels then
          id in r.channels && r.channels == e.channels[id :=
            e.channels[id].(value := r.channels[id].value, priorities := r.channels[id].priorities)]
        else r.channels == e.channels)
  }

  lemma LevelTouchesOnly(e: Eng, w: World, id: ChannelId, level: nat, value: Option<real>, who: string, duration: real)
    ensures LevelTouches(e, WriteLevel(e, w, id, level, value, who, duration).0, id)
  {
    hide WriteChannel, Priority.Effective, Priority.SetLevel, Priority.Entry, LevelsOf;
    if id in e.channels && 1 <= level <= Priority.MAX_LEVELS {
      var ch := e.channels[id];
      var levels := Priority.SetLevel(LevelsOf(ch), level, Priority.Entry(value, who, duration, w.now));
      var e1 := Put(e, id, ch.(priorities := Some(levels)));
      var r := Priority.Effective(levels);
      if r.value.Some? {
        WriteTouchesOnly(e1, w, id, CurOnly(r.value.value));
      }
    }
  }

  lemma AheadTouchesNothing(e: Eng, w: World, ids: seq<ChannelId>)
    ensures PreRead(e, w, ids).0 == e.(readLog := PreRead(e, w, ids).0.readLog)
  {
    PreReadKeys(e, w, ids);
  }

  /** What no operation changes: which channels exist, the tables, and each channel's wiring. */
  ghost predicate SameSetup(e: Eng, r: Eng) {
    && r.channels.Keys == e.channels.Keys && r.tables == e.tables
    && (forall x :: x in e.channels ==> SamePlace(e.channels[x], r.channels[x]))
  }

  ghost predicate SamePlace(a: Channel, b: Channel) {
    && a.enabled == b.enabled && a.channelType == b.channelType && a.direction == b.direction
    && a.device == b.device && a.address == b.address && a.tag == b.tag
  }

  lemma ApplyKeepsSetup(e: Eng, op: Op)
    ensures SameSetup(e, Apply(e, op))
  {
    hide Read, PreRead, WriteLevel, ExpireAll;
    match op
    case ReadOp(id, cache, w) => ReadTouchesOnly(e, w, id, cache);
    case AheadOp(ids, w) => AheadTouchesNothing(e, w, ids);
    case LevelOp(id, level, value, who, duration, w) => LevelTouchesOnly(e, w, id, level, value, who, duration);
    case SweepOp(ids, w) => ExpireAllKeeps(e, w, ids);
  }

  lemma {:induction false} RunKeepsSetup(e: Eng, ops: seq<Op>)
    ensures SameSetup(e, Run(e, ops))
  {
    hide Apply, SamePlace;
    if ops == [] {
      SamePlaceAll(e);
    } else {
      var k := |ops| - 1;
      RunKeepsSetup(e, ops[..k]);
      ApplyKeepsSetup(Run(e, ops[..k]), ops[k]);
      SamePlaceTransitive(e, Run(e, ops[..k]), Run(e, ops));
    }
  }

  lemma SamePlaceAll(e: Eng)
    ensures SameSetup(e, e)
  {
  }

  lemma SamePlaceTransitive(e: Eng, f: Eng, g: Eng)
    requires SameSetup(e, f) && SameSetup(f, g)
    ensures SameSetup(e, g)
  {
  }
}
