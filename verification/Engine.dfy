/** The engine object: its fields are changed in place, step by step, as the value-level
    functions of `EngineCore` and `PollCycle` say. */
module Engine {
  import opened EngineTypes
  import opened Channels
  import opened ValueConv
  import opened EngineCore
  import opened Subscriptions
  import opened PollCycle
  import Priority

  class Engine {
    var channels: map<ChannelId, Channel>
    var backoff: map<SensorKey, Backoff>
    var tables: Tables
    var readLog: seq<ReadKey>
    var reinitLog: seq<Reinit>
    var writeLog: seq<Write>
    var polls: Polls
    var subscribers: Subscribers

    function View(): Eng
      reads this
    {
      Eng(channels, backoff, tables, readLog, reinitLog, writeLog)
    }

    constructor (t: Tables)
      ensures View() == Eng(map[], map[], t, [], [], []) && polls == map[] && subscribers == Subscribers([], [])
    {
      channels, backoff, tables := map[], map[], t;
      readLog, reinitLog, writeLog := [], [], [];
      polls, subscribers := map[], Subscribers([], []);
    }

    // ----- Hardware -----

    method HalRead(w: World, key: ReadKey) returns (r: Option<real>)
      modifies this`readLog
      ensures readLog == old(readLog) + [key] && r == w.read(|old(readLog)|, key)
    {
      r := w.read(|readLog|, key);
      readLog := readLog + [key];
    }

    method HalWrite(w: World, c: Command) returns (ok: bool)
      modifies this`writeLog
      ensures ok == w.writeOk(|old(writeLog)|, c) && writeLog == old(writeLog) + [Write(c, ok)]
    {
      ok := w.writeOk(|writeLog|, c);
      writeLog := writeLog + [Write(c, ok)];
    }

    method HalReinit(w: World, r: Reinit) returns (ok: bool)
      modifies this`reinitLog
      ensures ok == w.reinitOk(|old(reinitLog)|, r) && reinitLog == old(reinitLog) + [r]
    {
      ok := w.reinitOk(|reinitLog|, r);
      reinitLog := reinitLog + [r];
    }

    // ----- Reading -----

    method TryI2cRecovery(w: World, id: ChannelId) returns (go: bool)
      requires id in channels
      modifies this`channels, this`backoff, this`reinitLog
      ensures (View(), go) == Recover(old(View()), w, id)
    {
      var ch := channels[id];
      if !ch.failed {
        return true;
      }
      var key := SensorOf(ch);
      var cooldown := RETRY_COOLDOWN_BASE;
      if ch.channelType == I2c && key in backoff {
        cooldown := backoff[key].cooldown;
      }
      if ch.retryCounter < cooldown {
        channels := channels[id := ch.(retryCounter := ch.retryCounter + 1)];
        return false;
      }
      if ch.channelType == I2c {
        var ok := HalReinit(w, Reinit(id, ch.device, ch.address, ch.tag));
        if !ok {
          var b := if key in backoff then backoff[key] else NEW_BACKOFF;
          backoff := backoff[key := RecordReinitFailure(b)];
          channels := channels[id := ch.(retryCounter := 0)];
          return false;
        }
        if key in backoff {
          backoff := backoff[key := NEW_BACKOFF];
        }
      }
      channels := channels[id := ch.(failed := false, retryCounter := 0)];
      return true;
    }

    /** The part of a read that plain and cached reads share once the reading is known. */
    method FinishRead(w: World, id: ChannelId, raw: Option<real>) returns (v: EngineValue)
      requires id in channels
      modifies this`channels
      ensures var ch := old(channels[id]);
        if raw.None? then
          channels == old(channels)[id := ch.(failed := true, value := ch.value.(status := Down))] && v == WithStatus(Down)
        else
          channels == old(channels)[id := Process(w, tables, id, ch, raw.value)] &&
          v == Process(w, tables, id, ch, raw.value).value
    {
      var ch := channels[id];
      if raw.None? {
        channels := channels[id := ch.(failed := true, value := ch.value.(status := Down))];
        return WithStatus(Down);
      }
      var ch' := Process(w, tables, id, ch, raw.value);
      channels := channels[id := ch'];
      return ch'.value;
    }

    method ReadVirtual(id: ChannelId) returns (v: EngineValue)
      requires id in channels
      modifies this`channels
      ensures v == VirtualValue(old(View()), old(channels[id]))
      ensures channels == old(channels)[id := old(channels[id]).(value := v)]
    {
      var ch := channels[id];
      v := ch.value.(status := Ok, flags := ch.value.flags.(cur := true));
      if !HasWritten(ch) {
        var sourceCur := 0.0;
        if ch.channelIn.Some? && ch.channelIn.value in channels {
          sourceCur := channels[ch.channelIn.value].value.cur;
        }
        v := v.(cur := sourceCur);
      }
      channels := channels[id := ch.(value := v)];
    }

    method ChannelRead(w: World, id: ChannelId) returns (r: Option<EngineValue>)
      modifies this`channels, this`backoff, this`reinitLog, this`readLog
      ensures (View(), r) == Read(old(View()), w, id, map[])
    {
      hide Process, VirtualValue;
      if id !in channels {
        return None;
      }
      if !channels[id].enabled {
        return Some(WithStatus(Disabled));
      }
      var go := TryI2cRecovery(w, id);
      if !go {
        return Some(WithStatus(Down));
      }
      var ch := channels[id];
      var v;
      if ch.channelType.IsVirtual() {
        v := ReadVirtual(id);
        return Some(v);
      }
      var raw;
      if ch.channelType == Pwm && ch.pwmDisabled {
        raw := Some(0.0);
      } else {
        raw := HalRead(w, KeyOf(ch));
        if (ch.channelType == Digital || ch.channelType == Triac) && raw.Some? {
          raw := Some(if raw.value != 0.0 then 1.0 else 0.0);
        }
      }
      v := FinishRead(w, id, raw);
      return Some(v);
    }

    method ChannelReadCached(w: World, id: ChannelId, cache: I2cCache) returns (r: Option<EngineValue>)
      modifies this`channels, this`backoff, this`reinitLog, this`readLog
      ensures (View(), r) == Read(old(View()), w, id, cache)
    {
      hide Process, VirtualValue;
      if id !in channels {
        return None;
      }
      if !channels[id].enabled {
        return Some(WithStatus(Disabled));
      }
      var go := TryI2cRecovery(w, id);
      if !go {
        return Some(WithStatus(Down));
      }
      var ch := channels[id];
      var v;
      if ch.channelType.IsVirtual() {
        v := ReadVirtual(id);
        return Some(v);
      }
      var raw;
      if ch.channelType == Pwm && ch.pwmDisabled {
        raw := Some(0.0);
      } else if ch.channelType == I2c && KeyOf(ch) in cache {
        raw := cache[KeyOf(ch)];
      } else {
        raw := HalRead(w, KeyOf(ch));
        if (ch.channelType == Digital || ch.channelType == Triac) && raw.Some? {
          raw := Some(if raw.value != 0.0 then 1.0 else 0.0);
        }
      }
      v := FinishRead(w, id, raw);
      return Some(v);
    }

    // ----- Writing -----

    method ChannelWrite(w: World, id: ChannelId, value: EngineValue) returns (out: Outcome)
      modifies this`channels, this`writeLog
      ensures (View(), out) == WriteChannel(old(View()), w, id, value)
    {
      hide Complete;
      if id !in channels {
        return NoSuchChannel;
      }
      var ch := channels[id];
      if !Writable(ch) || value.flags == NO_FLAGS {
        return NotSupported;
      }
      if !ch.enabled {
        return Written(value.(status := Disabled));
      }
      var v := Complete(View(), w, ch, value);
      var ok;
      match ch.channelType {
        case Digital | Triac =>
          var on := v.raw > 0.5;
          if !ch.conv.adcMode {
            v := v.(raw := if on then 1.0 else 0.0);
            v := v.(cur := v.raw);
          }
          ok := HalWrite(w, SetDigital(ch.address, on));
        case Pwm =>
          ok := HalWrite(w, SetPwm(ch.device, ch.address, v.raw));
        case VirtualAnalog | VirtualDigital =>
          channels := channels[id := ch.(value := v)];
          return Written(v);
        case Analog | I2c | Uart =>
          return NotSupported;
      }
      if !ok {
        v := v.(status := Down);
      }
      channels := channels[id := ch.(value := v)];
      return Written(v);
    }

    method ChannelWriteLevel(w: World, id: ChannelId, level: nat, value: Option<real>, who: string, duration: real)
        returns (out: Outcome, r: Priority.WriteResult)
      modifies this`channels, this`writeLog
      ensures (View(), out, r) == WriteLevel(old(View()), w, id, level, value, who, duration)
    {
      hide WriteChannel, Priority.Effective, Priority.Entry;
      if id !in channels {
        return NoSuchChannel, Priority.WriteResult(None, 0);
      }
      if !(1 <= level <= Priority.MAX_LEVELS) {
        return BadLevel, Priority.WriteResult(None, 0);
      }
      var ch := channels[id];
      var levels := Priority.SetLevel(LevelsOf(ch), level, Priority.Entry(value, who, duration, w.now));
      channels := channels[id := ch.(priorities := Some(levels))];
      r := Priority.Effective(levels);
      out := Written(ch.value);
      if r.value.Some? {
        out := ChannelWrite(w, id, CurOnly(r.value.value));
      }
    }

    method ExpirePriorityTimers(w: World, sweep: seq<ChannelId>)
      modifies this`channels, this`writeLog
      ensures View() == ExpireAll(old(View()), w, sweep)
    {
      hide WriteChannel, Priority.Effective, Priority.Expire, Priority.AnyDue;
      for i := 0 to |sweep|
        invariant View() == ExpireAll(old(View()), w, sweep[..i])
      {
        assert sweep[..i + 1][..i] == sweep[..i];
        var id := sweep[i];
        if id in channels && channels[id].priorities.Some? {
          var ch := channels[id];
          var expired := Priority.AnyDue(ch.priorities.value, w.now);
          var levels := Priority.Expire(ch.priorities.value, w.now);
          channels := channels[id := ch.(priorities := Some(levels))];
          if expired {
            var effective := Priority.Effective(levels).value;
            if effective.Some? {
              var _ := ChannelWrite(w, id, CurOnly(effective.value));
            }
          }
        }
      }
      assert sweep[..|sweep|] == sweep;
    }

    // ----- Polling -----

    method PreReadI2cChannels(w: World, ids: seq<ChannelId>) returns (cache: I2cCache)
      modifies this`readLog
      ensures (View(), cache) == PreRead(old(View()), w, ids)
    {
      cache := map[];
      for i := 0 to |ids|
        invariant (View(), cache) == PreRead(old(View()), w, ids[..i])
      {
        assert ids[..i + 1][..i] == ids[..i];
        var id := ids[i];
        if id in channels {
          var ch := channels[id];
          if ch.channelType == I2c && ch.enabled && !ch.failed {
            var key := KeyOf(ch);
            if key !in cache {
              var r := HalRead(w, key);
              cache := cache[key := r];
            }
          }
        }
      }
      assert ids[..|ids|] == ids;
    }

    method PollUpdate(w: World, sweep: seq<ChannelId>, ids: seq<ChannelId>) returns (notes: seq<Notification>)
      modifies this`channels, this`backoff, this`reinitLog, this`readLog, this`writeLog, this`polls
      ensures Cycle(View(), polls, notes) == PollCycle.PollUpdate(old(View()), old(polls), w, subscribers, sweep, ids)
    {
      hide Read, ExpireAll, PreRead, NotesFor;
      ExpirePriorityTimers(w, sweep);
      var cache := PreReadI2cChannels(w, ids);
      notes := [];
      ghost var start := Cycle(View(), polls, []);
      for i := 0 to |ids|
        invariant Cycle(View(), polls, notes) == PollAll(start, w, subscribers, cache, ids[..i])
      {
        assert ids[..i + 1][..i] == ids[..i];
        var id := ids[i];
        var r := ChannelReadCached(w, id, cache);
        if r.None? {
          polls := RecordFailure(polls, id);
        } else {
          var (recorded, changed) := RecordValue(polls, id, r.value);
          polls := recorded;
          if changed {
            notes := notes + NotesFor(subscribers, id, r.value);
          }
        }
      }
      assert ids[..|ids|] == ids;
    }
  }
}
