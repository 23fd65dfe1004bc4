/** One poll cycle: timers expire, I2C reads are made once per sensor, every polled channel is
    read, and changes are announced. */
module PollCycle {
  import opened EngineTypes
  import opened Channels
  import opened EngineCore
  import opened EngineFrames
  import opened Subscriptions

  // ----- The cycle -----

  /** A polled channel whose sensor is read ahead of the cycle. */
  predicate ReadAhead(e: Eng, id: ChannelId) {
    id in e.channels && e.channels[id].channelType == I2c && e.channels[id].enabled && !e.channels[id].failed
  }

  /** The reads made ahead, one for each sensor not yet in the cache. */
  function PreRead(e: Eng, w: World, ids: seq<ChannelId>): (Eng, I2cCache) {
    if ids == [] then (e, map[])
    else
      var k := |ids| - 1;
      var (e1, cache) := PreRead(e, w, ids[..k]);
      if ReadAhead(e, ids[k]) && KeyOf(e.channels[ids[k]]) !in cache then
        var key := KeyOf(e.channels[ids[k]]);
        (e1.(readLog := e1.readLog + [key]), cache[key := w.read(|e1.readLog|, key)])
      else (e1, cache)
  }

  datatype Cycle = Cycle(eng: Eng, polls: Polls, notes: seq<Notification>)

  function PollOne(c: Cycle, w: World, subs: Subscribers, cache: I2cCache, id: ChannelId): Cycle {
    var (e, r) := Read(c.eng, w, id, cache);
    if r.None? then Cycle(e, RecordFailure(c.polls, id), c.notes)
    else
      var (polls, changed) := RecordValue(c.polls, id, r.value);
      Cycle(e, polls, c.notes + (if changed then NotesFor(subs, id, r.value) else []))
  }

  function PollAll(c: Cycle, w: World, subs: Subscribers, cache: I2cCache, ids: seq<ChannelId>): Cycle {
    if ids == [] then c else PollOne(PollAll(c, w, subs, cache, ids[..|ids| - 1]), w, subs, cache, ids[|ids| - 1])
  }

  /** The coalesced cycle of the engine. `sweep` and `ids` are the orders in which the hash maps
      list the channels with priorities and the polled channels. */
  function PollUpdate(e: Eng, polls: Polls, w: World, subs: Subscribers, sweep: seq<ChannelId>, ids: seq<ChannelId>): Cycle {
    var (e1, cache) := PreRead(ExpireAll(e, w, sweep), w, ids);
    PollAll(Cycle(e1, polls, []), w, subs, cache, ids)
  }

  /** The same cycle without coalescing: every channel is read on its own. */
  function PlainPoll(e: Eng, polls: Polls, w: World, subs: Subscribers, sweep: seq<ChannelId>, ids: seq<ChannelId>): Cycle {
    PollAll(Cycle(ExpireAll(e, w, sweep), polls, []), w, subs, map[], ids)
  }

  // ----- Coalesced polling refines plain polling -----

  /** During the cycle the hardware gives the same answer whenever the same key is read. */
  ghost predicate Steady(w: World) {
    forall m, n, k :: w.read(m, k) == w.read(n, k)
  }

  ghost predicate Faithful(w: World, cache: I2cCache) {
    forall k :: k in cache ==> cache[k] == w.read(0, k)
  }

  /** Equal but for the log of hardware reads. */
  ghost predicate Same(e: Eng, f: Eng) {
    e.(readLog := []) == f.(readLog := [])
  }

  lemma RecoverSame(e: Eng, f: Eng, w: World, id: ChannelId)
    requires Same(e, f) && id in e.channels
    ensures Same(Recover(e, w, id).0, Recover(f, w, id).0)
    ensures Recover(e, w, id).1 == Recover(f, w, id).1
    ensures id in Recover(e, w, id).0.channels
  {
    hide RecordReinitFailure;
    assert e.channels == f.channels && e.backoff == f.backoff && e.reinitLog == f.reinitLog;
  }

  lemma FetchSame(e: Eng, f: Eng, w: World, id: ChannelId, cache: I2cCache)
    requires Same(e, f) && id in e.channels && Steady(w) && Faithful(w, cache)
    ensures Same(Fetch(e, w, id, cache).0, Fetch(f, w, id, map[]).0)
    ensures Fetch(e, w, id, cache).1 == Fetch(f, w, id, map[]).1
  {
    hide Process, VirtualValue;
    var ch := e.channels[id];
    assert ch == f.channels[id] && e.tables == f.tables;
    var k := KeyOf(ch);
    assert w.read(|e.readLog|, k) == w.read(0, k) == w.read(|f.readLog|, k);
    if ch.channelType.IsVirtual() {
      assert VirtualValue(e, ch) == VirtualValue(f, ch) by { VirtualValueSame(e, f, ch); }
    } else {
      assert Sensed(ch, cache, if NeedsHal(ch, cache) then w.read(|e.readLog|, k) else None) ==
        Sensed(ch, map[], if NeedsHal(ch, map[]) then w.read(|f.readLog|, k) else None);
    }
  }

  lemma VirtualValueSame(e: Eng, f: Eng, ch: Channel)
    requires Same(e, f)
    ensures VirtualValue(e, ch) == VirtualValue(f, ch)
  {
    assert e.channels == f.channels;
  }

  /** A read served from a faithful cache is the plain read. */
  lemma ReadSame(e: Eng, f: Eng, w: World, id: ChannelId, cache: I2cCache)
    requires Same(e, f) && Steady(w) && Faithful(w, cache)
    ensures Same(Read(e, w, id, cache).0, Read(f, w, id, map[]).0)
    ensures Read(e, w, id, cache).1 == Read(f, w, id, map[]).1
  {
    hide Recover, Fetch, Steady, Faithful;
    assert e.channels == f.channels;
    if id in e.channels && e.channels[id].enabled {
      RecoverSame(e, f, w, id);
      if Recover(e, w, id).1 {
        RecoverKeeps(f, w, id);
        FetchSame(Recover(e, w, id).0, Recover(f, w, id).0, w, id, cache);
      }
    }
  }

  lemma RecoverKeeps(e: Eng, w: World, id: ChannelId)
    requires id in e.channels
    ensures id in Recover(e, w, id).0.channels
  {
  }

  lemma {:induction false} PollAllSame(c: Cycle, d: Cycle, w: World, subs: Subscribers, cache: I2cCache, ids: seq<ChannelId>)
    requires Same(c.eng, d.eng) && c.polls == d.polls && c.notes == d.notes && Steady(w) && Faithful(w, cache)
    ensures var x, y := PollAll(c, w, subs, cache, ids), PollAll(d, w, subs, map[], ids);
      Same(x.eng, y.eng) && x.polls == y.polls && x.notes == y.notes
  {
    hide Read, Same, Steady, Faithful, NotesFor, RecordValue, RecordFailure;
    if ids != [] {
      var k := |ids| - 1;
      PollAllSame(c, d, w, subs, cache, ids[..k]);
      ReadSame(PollAll(c, w, subs, cache, ids[..k]).eng, PollAll(d, w, subs, map[], ids[..k]).eng, w, ids[k], cache);
    }
  }

  lemma {:induction false} PreReadFaithful(e: Eng, w: World, ids: seq<ChannelId>)
    requires Steady(w)
    ensures Same(PreRead(e, w, ids).0, e) && Faithful(w, PreRead(e, w, ids).1)
  {
    if ids != [] {
      PreReadFaithful(e, w, ids[..|ids| - 1]);
    }
  }

  /** With steady hardware, the coalesced cycle ends in the state of the plain one, with the same
      poll items and the same notifications in the same order. */
  lemma CoalescingRefines(e: Eng, polls: Polls, w: World, subs: Subscribers, sweep: seq<ChannelId>, ids: seq<ChannelId>)
    requires Steady(w)
    ensures var x, y := PollUpdate(e, polls, w, subs, sweep, ids), PlainPoll(e, polls, w, subs, sweep, ids);
      Same(x.eng, y.eng) && x.polls == y.polls && x.notes == y.notes
  {
    hide Same, Faithful, Steady, PollAll, PreRead, ExpireAll;
    var start := ExpireAll(e, w, sweep);
    PreReadFaithful(start, w, ids);
    var (e1, cache) := PreRead(start, w, ids);
    PollAllSame(Cycle(e1, polls, []), Cycle(start, polls, []), w, subs, cache, ids);
  }

  // ----- One hardware read per sensor -----

  function I2cOnly(log: seq<ReadKey>): seq<ReadKey> {
    if log == [] then []
    else
      var k := |log| - 1;
      I2cOnly(log[..k]) + (if log[k].I2cKey? then [log[k]] else [])
  }

  lemma {:induction false} I2cOnlyConcat(a: seq<ReadKey>, b: seq<ReadKey>)
    ensures I2cOnly(a + b) == I2cOnly(a) + I2cOnly(b)
  {
    if b == [] {
      assert a + b == a;
    } else {
      var k := |b| - 1;
      I2cOnlyConcat(a, b[..k]);
      assert (a + b)[..|a| + k] == a + b[..k];
    }
  }

  lemma {:induction false} I2cOnlyAll(a: seq<ReadKey>)
    requires forall k :: k in a ==> k.I2cKey?
    ensures I2cOnly(a) == a
  {
    if a != [] {
      I2cOnlyAll(a[..|a| - 1]);
    }
  }

  /** Reading this channel will not ask an I2C sensor. */
  ghost predicate Covered(e: Eng, id: ChannelId, cache: I2cCache) {
    id in e.channels && e.channels[id].channelType == I2c && e.channels[id].enabled ==>
      !e.channels[id].failed && KeyOf(e.channels[id]) in cache
  }

  lemma FetchAsks(e: Eng, w: World, id: ChannelId, cache: I2cCache)
    requires id in e.channels && !e.channels[id].channelType.IsVirtual()
    ensures Fetch(e, w, id, cache).0.readLog ==
      if NeedsHal(e.channels[id], cache) then e.readLog + [KeyOf(e.channels[id])] else e.readLog
  {
    hide Process, Sensed;
  }

  lemma CoveredRead(e: Eng, w: World, id: ChannelId, cache: I2cCache)
    requires Covered(e, id, cache)
    ensures I2cOnly(Read(e, w, id, cache).0.readLog) == I2cOnly(e.readLog)
  {
    hide Fetch, I2cOnly, CooldownOf;
    if id in e.channels && e.channels[id].enabled {
      var ch := e.channels[id];
      RecoverTouchesOnly(e, w, id);
      var e1 := Recover(e, w, id).0;
      if Recover(e, w, id).1 {
        if ch.channelType.IsVirtual() {
          VirtualFetchAsksNothing(e1, w, id, cache);
        } else {
          FetchAsks(e1, w, id, cache);
          I2cOnlyConcat(e.readLog, [KeyOf(e1.channels[id])]);
          I2cOnlySingle(KeyOf(e1.channels[id]));
        }
      }
    }
  }

  lemma VirtualFetchAsksNothing(e: Eng, w: World, id: ChannelId, cache: I2cCache)
    requires id in e.channels && e.channels[id].channelType.IsVirtual()
    ensures Fetch(e, w, id, cache).0.readLog == e.readLog
  {
    hide VirtualValue;
  }

  lemma I2cOnlySingle(k: ReadKey)
    ensures I2cOnly([k]) == if k.I2cKey? then [k] else []
  {
    assert [k][..0] == [];
  }

  /** The two states agree on channel `x`. */
  ghost predicate AgreeOn(e: Eng, f: Eng, x: ChannelId) {
    (x in e.channels <==> x in f.channels) && (x in e.channels ==> e.channels[x] == f.channels[x])
  }

  lemma {:induction false} PollAllCovered(c: Cycle, w: World, subs: Subscribers, cache: I2cCache, ids: seq<ChannelId>)
    requires NoRepeats(ids) && forall id :: id in ids ==> Covered(c.eng, id, cache)
    ensures I2cOnly(PollAll(c, w, subs, cache, ids).eng.readLog) == I2cOnly(c.eng.readLog)
    ensures forall x :: x !in ids ==> AgreeOn(c.eng, PollAll(c, w, subs, cache, ids).eng, x)
  {
    hide Read, RecordValue, NotesFor, RecordFailure, I2cOnly, SameWiring;
    if ids != [] {
      var k := |ids| - 1;
      PollAllCovered(c, w, subs, cache, ids[..k]);
      var e := PollAll(c, w, subs, cache, ids[..k]).eng;
      assert AgreeOn(c.eng, e, ids[k]);
      assert Covered(c.eng, ids[k], cache);
      CoveredRead(e, w, ids[k], cache);
      ReadTouchesOnly(e, w, ids[k], cache);
      forall x | x !in ids
        ensures AgreeOn(c.eng, PollAll(c, w, subs, cache, ids).eng, x)
      {
        assert AgreeOn(c.eng, e, x);
      }
    }
  }

  /** The keys read ahead, each once. */
  function AheadKeys(e: Eng, ids: seq<ChannelId>): seq<ReadKey> {
    if ids == [] then []
    else
      var k := |ids| - 1;
      var keys := AheadKeys(e, ids[..k]);
      if ReadAhead(e, ids[k]) && KeyOf(e.channels[ids[k]]) !in keys then keys + [KeyOf(e.channels[ids[k]])] else keys
  }

  /** `k` belongs to the channel, enabled, of type I2C and not failed, by device, address and label. */
  ghost predicate SensorReady(e: Eng, id: ChannelId, k: ReadKey) {
    && id in e.channels && e.channels[id].channelType == I2c && e.channels[id].enabled && !e.channels[id].failed
    && k == I2cKey(e.channels[id].device, e.channels[id].address, e.channels[id].tag)
  }

  /** `k` is the key of an enabled polled I2C channel. */
  ghost predicate PolledSensor(e: Eng, ids: seq<ChannelId>, k: ReadKey) {
    exists id :: id in ids && SensorReady(e, id, k)
  }

  lemma {:induction false} AheadKeysExact(e: Eng, ids: seq<ChannelId>)
    ensures NoRepeats(AheadKeys(e, ids))
    ensures forall k :: k in AheadKeys(e, ids) <==> PolledSensor(e, ids, k)
    ensures forall k :: k in AheadKeys(e, ids) ==> k.I2cKey?
  {
    if ids != [] {
      var n := |ids| - 1;
      AheadKeysExact(e, ids[..n]);
      forall k
        ensures PolledSensor(e, ids, k) <==>
          PolledSensor(e, ids[..n], k) || (ReadAhead(e, ids[n]) && KeyOf(e.channels[ids[n]]) == k)
      {
        ReadyIff(e, ids[n], k);
        PolledSplit(e, ids, k);
      }
    }
  }

  lemma ReadyIff(e: Eng, id: ChannelId, k: ReadKey)
    ensures SensorReady(e, id, k) <==> ReadAhead(e, id) && KeyOf(e.channels[id]) == k
  {
  }

  lemma PolledSplit(e: Eng, ids: seq<ChannelId>, k: ReadKey)
    requires ids != []
    ensures var n := |ids| - 1;
      PolledSensor(e, ids, k) <==> PolledSensor(e, ids[..n], k) || SensorReady(e, ids[n], k)
  {
    hide SensorReady;
    var n := |ids| - 1;
    assert forall id :: id in ids <==> id in ids[..n] || id == ids[n];
  }

  lemma {:induction false} PreReadKeys(e: Eng, w: World, ids: seq<ChannelId>)
    ensures PreRead(e, w, ids).0 == e.(readLog := e.readLog + AheadKeys(e, ids))
    ensures forall k :: k in PreRead(e, w, ids).1 <==> k in AheadKeys(e, ids)
  {
    hide KeyOf, ReadAhead;
    if ids != [] {
      PreReadKeys(e, w, ids[..|ids| - 1]);
    }
  }

  /** In any state, reading ahead asks exactly the sensors of the healthy polled I2C channels, each
      once, and keeps the answers; failed channels are left to their recovery. */
  lemma ReadsAhead(e: Eng, w: World, ids: seq<ChannelId>) returns (keys: seq<ReadKey>)
    ensures NoRepeats(keys) && forall k :: k in keys <==> PolledSensor(e, ids, k)
    ensures PreRead(e, w, ids).0 == e.(readLog := e.readLog + keys)
    ensures forall k :: k in PreRead(e, w, ids).1 <==> k in keys
    ensures forall i :: 0 <= i < |keys| ==>
      keys[i] in PreRead(e, w, ids).1 && PreRead(e, w, ids).1[keys[i]] == w.read(|e.readLog| + i, keys[i])
  {
    hide PolledSensor, PreRead;
    keys := AheadKeys(e, ids);
    AheadKeysExact(e, ids);
    PreReadKeys(e, w, ids);
    PreReadAnswers(e, w, ids);
  }

  lemma {:induction false} PreReadAnswers(e: Eng, w: World, ids: seq<ChannelId>)
    ensures var keys := AheadKeys(e, ids);
      forall i :: 0 <= i < |keys| ==>
        keys[i] in PreRead(e, w, ids).1 && PreRead(e, w, ids).1[keys[i]] == w.read(|e.readLog| + i, keys[i])
  {
    hide KeyOf, ReadAhead;
    if ids != [] {
      var k := |ids| - 1;
      PreReadAnswers(e, w, ids[..k]);
      PreReadKeys(e, w, ids[..k]);
      assert forall i :: 0 <= i < |AheadKeys(e, ids[..k])| ==> AheadKeys(e, ids[..k])[i] in AheadKeys(e, ids[..k]);
    }
  }

  lemma SweepKeepsAhead(e: Eng, r: Eng, ids: seq<ChannelId>, k: ReadKey)
    requires SweepKeeps(e, r)
    ensures PolledSensor(r, ids, k) <==> PolledSensor(e, ids, k)
  {
    assert forall id :: ReadAhead(r, id) <==> ReadAhead(e, id);
    assert forall id :: ReadAhead(e, id) ==> KeyOf(r.channels[id]) == KeyOf(e.channels[id]);
  }

  /** A cycle that starts with no failed polled I2C channel makes exactly one hardware read for
      each distinct sensor of its enabled polled I2C channels, and no other I2C read. */
  lemma OneReadPerSensor(e: Eng, polls: Polls, w: World, subs: Subscribers, sweep: seq<ChannelId>, ids: seq<ChannelId>)
      returns (keys: seq<ReadKey>)
    requires NoRepeats(ids)
    requires forall id :: id in ids && id in e.channels && e.channels[id].channelType == I2c && e.channels[id].enabled ==>
      !e.channels[id].failed
    ensures I2cOnly(PollUpdate(e, polls, w, subs, sweep, ids).eng.readLog) == I2cOnly(e.readLog) + keys
    ensures NoRepeats(keys) && forall k :: k in keys <==> PolledSensor(e, ids, k)
  {
    hide ExpireAll, PollAll, PreRead, PolledSensor;
    var start := ExpireAll(e, w, sweep);
    ExpireAllKeeps(e, w, sweep);
    keys := AheadKeys(start, ids);
    AheadKeysExact(start, ids);
    PreReadKeys(start, w, ids);
    var (e1, cache) := PreRead(start, w, ids);
    forall id | id in ids
      ensures Covered(e1, id, cache)
    {
      if id in e1.channels && e1.channels[id].channelType == I2c && e1.channels[id].enabled {
        PolledSensorOf(start, ids, id);
      }
    }
    PollAllCovered(Cycle(e1, polls, []), w, subs, cache, ids);
    I2cOnlyConcat(e.readLog, keys);
    I2cOnlyAll(keys);
    forall k
      ensures k in keys <==> PolledSensor(e, ids, k)
    {
      SweepKeepsAhead(e, start, ids, k);
    }
  }

  lemma PolledSensorOf(e: Eng, ids: seq<ChannelId>, id: ChannelId)
    requires id in ids && ReadAhead(e, id)
    ensures PolledSensor(e, ids, KeyOf(e.channels[id]))
  {
  }
}
