/** What each engine operation leaves alone. */
module EngineFrames {
  import opened EngineTypes
  import opened Channels
  import opened ValueConv
  import opened EngineCore
  import Priority

  /** A read changes no channel but its own, and of that one only the measured state. */
  ghost predicate SameWiring(a: Channel, b: Channel) {
    && a.enabled == b.enabled && a.channelType == b.channelType && a.direction == b.direction
    && a.device == b.device && a.address == b.address && a.tag == b.tag && a.channelIn == b.channelIn
    && a.priorities == b.priorities
  }

  lemma ProcessWiring(w: World, tables: Tables, id: ChannelId, ch: Channel, raw: real)
    ensures var r := Process(w, tables, id, ch, raw);
      SameWiring(ch, r) && r.failed == ch.failed && r.retryCounter == ch.retryCounter
  {
    hide Convert, IsSpike;
  }

  /** `r` is `e` with at most channel `id` replaced, its wiring kept, and no command sent. */
  ghost predicate TouchesOnly(e: Eng, r: Eng, id: ChannelId) {
    && r.tables == e.tables && r.writeLog == e.writeLog
    && (if id in e.channels then
          id in r.channels && r.channels == e.channels[id := r.channels[id]] && SameWiring(e.channels[id], r.channels[id])
        else r.channels == e.channels)
  }

  lemma RecoverTouchesOnly(e: Eng, w: World, id: ChannelId)
    requires id in e.channels
    ensures TouchesOnly(e, Recover(e, w, id).0, id) && Recover(e, w, id).0.readLog == e.readLog
  {
    hide CooldownOf, BackoffOf, RecordReinitFailure;
  }

  lemma FetchTouchesOnly(e: Eng, w: World, id: ChannelId, cache: I2cCache)
    requires id in e.channels
    ensures TouchesOnly(e, Fetch(e, w, id, cache).0, id)
  {
    hide Process, VirtualValue, KeyOf;
    var ch := e.channels[id];
    var ask := NeedsHal(ch, cache);
    var raw := Sensed(ch, cache, if ask then w.read(|e.readLog|, KeyOf(ch)) else None);
    if raw.Some? {
      ProcessWiring(w, e.tables, id, ch, raw.value);
    }
  }

  lemma ReadTouchesOnly(e: Eng, w: World, id: ChannelId, cache: I2cCache)
    ensures TouchesOnly(e, Read(e, w, id, cache).0, id)
  {
    hide Recover, Fetch;
    if id in e.channels && e.channels[id].enabled {
      var e1 := Recover(e, w, id).0;
      RecoverTouchesOnly(e, w, id);
      if Recover(e, w, id).1 {
        FetchTouchesOnly(e1, w, id, cache);
        assert Fetch(e1, w, id, cache).0.channels == e.channels[id := Fetch(e1, w, id, cache).0.channels[id]];
      }
    }
  }

  /** `r` is `e` with at most the value of channel `id` changed, and commands sent. */
  ghost predicate WritesOnly(e: Eng, r: Eng, id: ChannelId) {
    && r == e.(channels := r.channels, writeLog := r.writeLog)
    && (if id in e.channels then
          id in r.channels && r.channels == e.channels[id := e.channels[id].(value := r.channels[id].value)]
        else r.channels == e.channels)
  }

  lemma WriteTouchesOnly(e: Eng, w: World, id: ChannelId, v: EngineValue)
    ensures WritesOnly(e, WriteChannel(e, w, id, v).0, id)
  {
    hide Complete, Encode;
  }

  /** Only the value and the priorities differ. */
  ghost predicate SweptFrom(a: Channel, b: Channel) {
    b == a.(value := b.value, priorities := b.priorities)
  }

  lemma UpdatedIsSwept(ch: Channel, levels: Option<Priority.Levels>, v: EngineValue)
    ensures SweptFrom(ch, ch.(priorities := levels).(value := v))
  {
  }

  /** What a timer sweep leaves alone. */
  ghost predicate SweepKeeps(e: Eng, r: Eng) {
    && r == e.(channels := r.channels, writeLog := r.writeLog) && r.channels.Keys == e.channels.Keys
    && (forall x :: x in e.channels ==> SweptFrom(e.channels[x], r.channels[x]))
  }

  /** New priorities, and then at most a new value, for one channel. */
  lemma PutThenWriteKeeps(e: Eng, id: ChannelId, levels: Option<Priority.Levels>, r: Eng)
    requires id in e.channels && WritesOnly(Put(e, id, e.channels[id].(priorities := levels)), r, id)
    ensures SweepKeeps(e, r)
  {
    hide SweptFrom;
    forall x | x in e.channels
      ensures SweptFrom(e.channels[x], r.channels[x])
    {
      if x == id {
        UpdatedIsSwept(e.channels[id], levels, r.channels[id].value);
      } else {
        UpdatedIsSwept(e.channels[x], e.channels[x].priorities, e.channels[x].value);
      }
    }
  }

  lemma WritesOnlyRefl(e: Eng, id: ChannelId)
    ensures WritesOnly(e, e, id)
  {
  }

  lemma SweepKeepsTransitive(e: Eng, f: Eng, g: Eng)
    requires SweepKeeps(e, f) && SweepKeeps(f, g)
    ensures SweepKeeps(e, g)
  {
  }

  lemma ExpireChannelKeeps(e: Eng, w: World, id: ChannelId)
    ensures SweepKeeps(e, ExpireChannel(e, w, id))
  {
    hide WriteChannel, WritesOnly, Put, Priority.Expire, Priority.AnyDue, Priority.Effective;
    if id in e.channels && e.channels[id].priorities.Some? {
      hide SweepKeeps;
      var ch := e.channels[id];
      var levels := Priority.Expire(ch.priorities.value, w.now);
      var e1 := Put(e, id, ch.(priorities := Some(levels)));
      var eff := Priority.Effective(levels).value;
      WritesOnlyRefl(e1, id);
      if eff.Some? {
        WriteTouchesOnly(e1, w, id, CurOnly(eff.value));
      }
      PutThenWriteKeeps(e, id, Some(levels), ExpireChannel(e, w, id));
    }
  }

  lemma {:induction false} ExpireAllKeeps(e: Eng, w: World, ids: seq<ChannelId>)
    ensures SweepKeeps(e, ExpireAll(e, w, ids))
  {
    hide ExpireChannel;
    if ids != [] {
      var k := |ids| - 1;
      ExpireAllKeeps(e, w, ids[..k]);
      ExpireChannelKeeps(ExpireAll(e, w, ids[..k]), w, ids[k]);
      SweepKeepsTransitive(e, ExpireAll(e, w, ids[..k]), ExpireAll(e, w, ids));
    }
  }
}
