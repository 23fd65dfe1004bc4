/** Recovery of failed sensors: the shared exponential backoff, and when a channel gets its next
    chance, under any interleaving of operations. */
module Recovery {
  import opened EngineTypes
  import opened Channels
  import opened EngineCore
  import opened EngineFrames
  import opened PollCycle
  import opened EngineRuns

  // ----- What every operation keeps -----

  function Pow2(n: nat): nat {
    if n == 0 then 1 else 2 * Pow2(n - 1)
  }

  /** The cooldown after `n` failed attempts in a row. */
  function Cooldown(n: nat): nat {
    if 30 * Pow2(n) <= 300 then 30 * Pow2(n) else 300
  }

  ghost predicate BackoffOk(b: Backoff) {
    b.cooldown == Cooldown(b.failures)
  }

  ghost predicate CounterOk(ch: Channel) {
    ch.retryCounter <= 300 && (!ch.failed ==> ch.retryCounter == 0)
  }

  ghost predicate RecoveryOk(e: Eng) {
    && (forall k :: k in e.backoff ==> BackoffOk(e.backoff[k]))
    && (forall id :: id in e.channels ==> CounterOk(e.channels[id]))
  }

  lemma FailureKeepsBackoff(b: Backoff)
    requires BackoffOk(b)
    ensures BackoffOk(RecordReinitFailure(b))
  {
  }

  lemma NewBackoffOk()
    ensures BackoffOk(NEW_BACKOFF)
  {
  }

  lemma CooldownBound(e: Eng, ch: Channel)
    requires RecoveryOk(e)
    ensures CooldownOf(e, ch) <= 300 && BackoffOk(BackoffOf(e, ch))
  {
    NewBackoffOk();
  }

  lemma RecoverKeeps(e: Eng, w: World, id: ChannelId)
    requires RecoveryOk(e) && id in e.channels
    ensures RecoveryOk(Recover(e, w, id).0)
    ensures var r := Recover(e, w, id); id in r.0.channels && (r.1 ==> !r.0.channels[id].failed)
  {
    hide BackoffOk, CooldownOf, BackoffOf, RecordReinitFailure;
    var ch := e.channels[id];
    NewBackoffOk();
    CooldownBound(e, ch);
    FailureKeepsBackoff(BackoffOf(e, ch));
  }

  lemma FetchKeeps(e: Eng, w: World, id: ChannelId, cache: I2cCache)
    requires RecoveryOk(e) && id in e.channels && !e.channels[id].failed
    ensures RecoveryOk(Fetch(e, w, id, cache).0)
  {
    hide BackoffOk, Process, VirtualValue, KeyOf;
    var ch := e.channels[id];
    var ask := NeedsHal(ch, cache);
    var raw := Sensed(ch, cache, if ask then w.read(|e.readLog|, KeyOf(ch)) else None);
    if raw.Some? {
      ProcessWiring(w, e.tables, id, ch, raw.value);
    }
  }

  lemma ReadKeeps(e: Eng, w: World, id: ChannelId, cache: I2cCache)
    requires RecoveryOk(e)
    ensures RecoveryOk(Read(e, w, id, cache).0)
  {
    hide Recover, Fetch, RecoveryOk;
    if id in e.channels && e.channels[id].enabled {
      RecoverKeeps(e, w, id);
      if Recover(e, w, id).1 {
        FetchKeeps(Recover(e, w, id).0, w, id, cache);
      }
    }
  }

  lemma ApplyKeeps(e: Eng, op: Op)
    requires RecoveryOk(e)
    ensures RecoveryOk(Apply(e, op))
  {
    hide Read, PreRead, WriteLevel, ExpireAll, BackoffOk;
    match op
    case ReadOp(id, cache, w) => ReadKeeps(e, w, id, cache);
    case AheadOp(ids, w) => AheadTouchesNothing(e, w, ids);
    case LevelOp(id, level, value, who, duration, w) => LevelTouchesOnly(e, w, id, level, value, who, duration);
    case SweepOp(ids, w) => ExpireAllKeeps(e, w, ids);
  }

  /** In every reachable state each backoff has the cooldown of its failure count, healthy
      channels have a zero counter, and no counter exceeds 300. */
  lemma {:induction false} RunKeeps(e: Eng, ops: seq<Op>)
    requires RecoveryOk(e)
    ensures RecoveryOk(Run(e, ops))
  {
    hide Apply, RecoveryOk;
    if ops != [] {
      RunKeeps(e, ops[..|ops| - 1]);
      ApplyKeeps(Run(e, ops[..|ops| - 1]), ops[|ops| - 1]);
    }
  }

  /** A freshly configured engine, healthy and without backoff, is such a state. */
  lemma FreshRecoveryOk(e: Eng)
    requires e.backoff == map[]
    requires forall id :: id in e.channels ==> !e.channels[id].failed && e.channels[id].retryCounter == 0
    ensures RecoveryOk(e)
  {
  }

  /** Whatever happens after configuration. */
  lemma ReachableRecoveryOk(e: Eng, ops: seq<Op>)
    requires e.backoff == map[]
    requires forall id :: id in e.channels ==> !e.channels[id].failed && e.channels[id].retryCounter == 0
    ensures RecoveryOk(Run(e, ops))
  {
    hide Run;
    FreshRecoveryOk(e);
    RunKeeps(e, ops);
  }

  // ----- Attempts -----

  /** How often channel `id` asked for its sensor to be reinitialised. */
  function Attempts(log: seq<Reinit>, id: ChannelId): nat {
    if log == [] then 0 else Attempts(log[..|log| - 1], id) + (if log[|log| - 1].source == id then 1 else 0)
  }

  lemma AttemptsAdd(log: seq<Reinit>, r: Reinit, id: ChannelId)
    ensures Attempts(log + [r], id) == Attempts(log, id) + (if r.source == id then 1 else 0)
  {
    assert (log + [r])[..|log|] == log;
  }

  ghost predicate ReadsChannel(op: Op, id: ChannelId) {
    op.ReadOp? && op.id == id
  }

  ghost function ReadsOf(ops: seq<Op>, id: ChannelId): nat {
    if ops == [] then 0
    else ReadsOf(ops[..|ops| - 1], id) + (if ReadsChannel(ops[|ops| - 1], id) then 1 else 0)
  }

  /** An enabled I2C channel whose last read failed. */
  ghost predicate Waiting(e: Eng, id: ChannelId) {
    id in e.channels && e.channels[id].failed && e.channels[id].enabled && e.channels[id].channelType == I2c
  }

  ghost function Counter(e: Eng, id: ChannelId): nat
    requires id in e.channels
  {
    e.channels[id].retryCounter
  }

  lemma FetchLog(e: Eng, w: World, id: ChannelId, cache: I2cCache)
    requires id in e.channels
    ensures Fetch(e, w, id, cache).0.reinitLog == e.reinitLog && Fetch(e, w, id, cache).0.backoff == e.backoff
  {
    hide Process, VirtualValue, KeyOf, Sensed;
  }

  /** A waiting channel's own read either counts or attempts, depending on the cooldown alone. */
  lemma OwnRead(e: Eng, w: World, id: ChannelId, cache: I2cCache)
    requires Waiting(e, id)
    ensures var r := Read(e, w, id, cache).0; var ch := e.channels[id];
      if ch.retryCounter < CooldownOf(e, ch) then
        r == Put(e, id, ch.(retryCounter := ch.retryCounter + 1))
      else
        r.reinitLog == e.reinitLog + [Reinit(id, ch.device, ch.address, ch.tag)]
  {
    hide Fetch, CooldownOf, BackoffOf, RecordReinitFailure;
    var ch := e.channels[id];
    if ch.retryCounter >= CooldownOf(e, ch) {
      if Recover(e, w, id).1 {
        RecoverTouchesOnly(e, w, id);
        FetchLog(Recover(e, w, id).0, w, id, cache);
      }
    }
  }

  /** Reads of other channels leave a channel alone and are not counted as its attempts. */
  lemma OtherRead(e: Eng, w: World, x: ChannelId, cache: I2cCache, id: ChannelId)
    requires x != id && id in e.channels
    ensures var r := Read(e, w, x, cache).0;
      id in r.channels && r.channels[id] == e.channels[id] && Attempts(r.reinitLog, id) == Attempts(e.reinitLog, id)
  {
    hide Fetch, CooldownOf, BackoffOf, RecordReinitFailure;
    ReadTouchesOnly(e, w, x, cache);
    if x in e.channels && e.channels[x].enabled {
      var ch := e.channels[x];
      AttemptsAdd(e.reinitLog, Reinit(x, ch.device, ch.address, ch.tag), id);
      if Recover(e, w, x).1 {
        RecoverTouchesOnly(e, w, x);
        FetchLog(Recover(e, w, x).0, w, x, cache);
      }
    }
  }

  lemma StepOfWaiting(e: Eng, op: Op, id: ChannelId)
    requires Waiting(e, id)
    ensures var r := Apply(e, op);
      Attempts(r.reinitLog, id) >= Attempts(e.reinitLog, id) &&
      (Attempts(r.reinitLog, id) == Attempts(e.reinitLog, id) ==>
        Waiting(r, id) && Counter(r, id) == Counter(e, id) + (if ReadsChannel(op, id) then 1 else 0))
  {
    hide Read, PreRead, WriteLevel, ExpireAll, Attempts;
    match op
    case ReadOp(x, cache, w) =>
      if x == id {
        var ch := e.channels[id];
        OwnRead(e, w, id, cache);
        AttemptsAdd(e.reinitLog, Reinit(id, ch.device, ch.address, ch.tag), id);
      } else {
        OtherRead(e, w, x, cache, id);
      }
    case AheadOp(ids, w) => AheadTouchesNothing(e, w, ids);
    case LevelOp(x, level, value, who, duration, w) => LevelTouchesOnly(e, w, x, level, value, who, duration);
    case SweepOp(ids, w) => ExpireAllKeeps(e, w, ids);
  }

  lemma {:induction false} AttemptsGrow(e: Eng, ops: seq<Op>, id: ChannelId)
    requires Waiting(e, id)
    ensures Attempts(Run(e, ops).reinitLog, id) >= Attempts(e.reinitLog, id)
    ensures Attempts(Run(e, ops).reinitLog, id) == Attempts(e.reinitLog, id) ==>
      Waiting(Run(e, ops), id) && Counter(Run(e, ops), id) == Counter(e, id) + ReadsOf(ops, id)
  {
    hide Apply, Attempts, Waiting, ReadsChannel;
    if ops != [] {
      var k := |ops| - 1;
      var m := Run(e, ops[..k]);
      AttemptsGrow(e, ops[..k], id);
      if Attempts(m.reinitLog, id) == Attempts(e.reinitLog, id) {
        StepOfWaiting(m, ops[k], id);
      } else {
        AttemptsNeverShrink(m, ops[k], id);
      }
    }
  }

  lemma AttemptsNeverShrink(e: Eng, op: Op, id: ChannelId)
    ensures Attempts(Apply(e, op).reinitLog, id) >= Attempts(e.reinitLog, id)
  {
    hide PreRead, WriteLevel, ExpireAll, Attempts, Fetch;
    match op
    case ReadOp(x, cache, w) =>
      if x in e.channels && e.channels[x].enabled {
        var ch := e.channels[x];
        AttemptsAdd(e.reinitLog, Reinit(x, ch.device, ch.address, ch.tag), id);
        if Recover(e, w, x).1 {
          RecoverTouchesOnly(e, w, x);
          FetchLog(Recover(e, w, x).0, w, x, cache);
        }
      }
    case AheadOp(ids, w) => AheadTouchesNothing(e, w, ids);
    case LevelOp(x, level, value, who, duration, w) => LevelTouchesOnly(e, w, x, level, value, who, duration);
    case SweepOp(ids, w) => ExpireAllKeeps(e, w, ids);
  }

  /** Whatever else happens on the sensor, a waiting channel gets a reinitialisation attempt within
      301 of its own reads. */
  lemma AttemptWithin301Reads(e: Eng, ops: seq<Op>, id: ChannelId)
    requires RecoveryOk(e) && Waiting(e, id) && ReadsOf(ops, id) >= 301
    ensures Attempts(Run(e, ops).reinitLog, id) > Attempts(e.reinitLog, id)
  {
    hide Attempts;
    AttemptsGrow(e, ops, id);
    RunKeeps(e, ops);
  }

  // ----- One channel on its own -----

  ghost predicate OnlyReads(ops: seq<Op>, id: ChannelId) {
    forall k :: 0 <= k < |ops| ==> ReadsChannel(ops[k], id)
  }

  ghost predicate Failures(e: Eng, id: ChannelId, k: nat)
    requires id in e.channels
  {
    BackoffOf(e, e.channels[id]).failures == k
  }

  /** Read alone, a waiting channel only counts while its counter is below the cooldown. */
  lemma {:induction false} QuietReads(e: Eng, ops: seq<Op>, id: ChannelId)
    requires Waiting(e, id) && OnlyReads(ops, id)
    requires Counter(e, id) + |ops| <= CooldownOf(e, e.channels[id])
    ensures Run(e, ops) == Put(e, id, e.channels[id].(retryCounter := Counter(e, id) + |ops|))
  {
    hide Apply, Read, CooldownOf;
    if ops == [] {
      assert Put(e, id, e.channels[id]) == e;
    } else {
      var k := |ops| - 1;
      QuietReads(e, ops[..k], id);
      var m := Run(e, ops[..k]);
      assert ReadsChannel(ops[k], id);
      CooldownSame(e, m, id);
      ReadApplies(m, ops[k]);
      OwnRead(m, ops[k].w, id, ops[k].cache);
    }
  }

  lemma ReadApplies(e: Eng, op: Op)
    requires op.ReadOp?
    ensures Apply(e, op) == Read(e, op.w, op.id, op.cache).0
  {
    hide Read;
  }

  lemma CooldownSame(e: Eng, m: Eng, id: ChannelId)
    requires id in e.channels && id in m.channels && m.backoff == e.backoff
    requires m.channels[id] == e.channels[id].(retryCounter := m.channels[id].retryCounter)
    ensures CooldownOf(m, m.channels[id]) == CooldownOf(e, e.channels[id])
  {
  }

  lemma FailedAttempt(e: Eng, op: Op, id: ChannelId, k: nat)
    requires Waiting(e, id) && ReadsChannel(op, id) && Failures(e, id, k)
    requires Counter(e, id) >= CooldownOf(e, e.channels[id])
    requires forall n, r :: !op.w.reinitOk(n, r)
    ensures var r := Apply(e, op);
      Waiting(r, id) && Counter(r, id) == 0 && Failures(r, id, k + 1) &&
      Attempts(r.reinitLog, id) == Attempts(e.reinitLog, id) + 1
  {
    hide Fetch, Attempts;
    var ch := e.channels[id];
    AttemptsAdd(e.reinitLog, Reinit(id, ch.device, ch.address, ch.tag), id);
  }

  /** With failing attempts, the gap after the k-th failure is exactly min(30 * 2^k, 300) + 1 reads:
      that many reads make one attempt, fewer make none, and the next gap is that of k + 1. */
  lemma ExactGap(e: Eng, ops: seq<Op>, id: ChannelId, k: nat)
    requires RecoveryOk(e) && Waiting(e, id) && Counter(e, id) == 0 && Failures(e, id, k) && OnlyReads(ops, id)
    requires |ops| <= Cooldown(k) + 1
    requires forall i, n, r :: 0 <= i < |ops| ==> !ops[i].w.reinitOk(n, r)
    ensures var r := Run(e, ops);
      RecoveryOk(r) && Waiting(r, id) &&
      (if |ops| <= Cooldown(k) then
        Failures(r, id, k) && Counter(r, id) == |ops| && Attempts(r.reinitLog, id) == Attempts(e.reinitLog, id)
      else
        Failures(r, id, k + 1) && Counter(r, id) == 0 && Attempts(r.reinitLog, id) == Attempts(e.reinitLog, id) + 1)
  {
    hide Apply, Attempts, Cooldown, RecoveryOk;
    CooldownIs(e, id, k);
    RunKeeps(e, ops);
    if |ops| <= Cooldown(k) {
      QuietReads(e, ops, id);
    } else {
      var n := |ops| - 1;
      QuietReads(e, ops[..n], id);
      var m := Run(e, ops[..n]);
      CooldownSame(e, m, id);
      FailedAttempt(m, ops[n], id, k);
    }
  }

  lemma CooldownIs(e: Eng, id: ChannelId, k: nat)
    requires RecoveryOk(e) && Waiting(e, id) && Failures(e, id, k)
    ensures CooldownOf(e, e.channels[id]) == Cooldown(k)
  {
    NewBackoffOk();
  }

  /** Reads needed for `m` attempts after `k` failures. */
  function ReadsFor(k: nat, m: nat): nat {
    if m == 0 then 0 else ReadsFor(k, m - 1) + Cooldown(k + m - 1) + 1
  }

  /** The whole schedule of a sensor that never comes back: the m-th attempt falls on read number
      `ReadsFor(k, m)`. */
  lemma {:induction false} AttemptSchedule(e: Eng, ops: seq<Op>, id: ChannelId, k: nat, m: nat)
    requires RecoveryOk(e) && Waiting(e, id) && Counter(e, id) == 0 && Failures(e, id, k) && OnlyReads(ops, id)
    requires |ops| == ReadsFor(k, m)
    requires forall i, n, r :: 0 <= i < |ops| ==> !ops[i].w.reinitOk(n, r)
    ensures var r := Run(e, ops);
      RecoveryOk(r) && Waiting(r, id) && Counter(r, id) == 0 && Failures(r, id, k + m) &&
      Attempts(r.reinitLog, id) == Attempts(e.reinitLog, id) + m
  {
    hide Apply, Attempts, Cooldown, RecoveryOk, Waiting, Failures;
    if m == 0 {
      assert ops == [];
    } else {
      var n := ReadsFor(k, m - 1);
      var a, b := ops[..n], ops[n..];
      assert ops == a + b;
      RunConcat(e, a, b);
      AttemptSchedule(e, a, id, k, m - 1);
      ExactGap(Run(e, a), b, id, k + m - 1);
    }
  }

  // ----- Success -----

  /** Failed attempts in a row that the shared backoff of a sensor counts, and its cooldown. */
  function FailuresAt(e: Eng, key: SensorKey): nat {
    if key in e.backoff then e.backoff[key].failures else 0
  }

  function CooldownAt(e: Eng, key: SensorKey): nat {
    if key in e.backoff then e.backoff[key].cooldown else 30
  }

  /** The attempt that a read of channel `id` would make now. */
  ghost predicate Attempting(e: Eng, id: ChannelId) {
    Waiting(e, id) && Counter(e, id) >= CooldownAt(e, (e.channels[id].device, e.channels[id].address))
  }

  lemma FetchFlags(e: Eng, w: World, id: ChannelId, cache: I2cCache)
    requires id in e.channels && !e.channels[id].failed && e.channels[id].channelType == I2c
    ensures var r := Fetch(e, w, id, cache);
      var ch := e.channels[id];
      var key := I2cKey(ch.device, ch.address, ch.tag);
      var a := if key in cache then cache[key] else w.read(|e.readLog|, key);
      id in r.0.channels && r.0.channels[id].retryCounter == ch.retryCounter &&
      r.0.channels[id].failed == a.None? && (a.None? ==> r.1.status == Down)
  {
    hide Process;
    var ch := e.channels[id];
    var raw := Sensed(ch, cache, if NeedsHal(ch, cache) then w.read(|e.readLog|, KeyOf(ch)) else None);
    if raw.Some? {
      ProcessWiring(w, e.tables, id, ch, raw.value);
    }
  }

  /** A due attempt, both ways. Failure: one more failure, the counter starts again, the read is
      Down. Success: the backoff of the sensor starts afresh for every channel on it, and the read
      goes on to the hardware or the cache. */
  lemma AttemptOutcome(e: Eng, w: World, id: ChannelId, cache: I2cCache)
    requires Attempting(e, id)
    ensures var (r, v) := Read(e, w, id, cache);
      var ch := e.channels[id];
      var key, attempt := (ch.device, ch.address), Reinit(id, ch.device, ch.address, ch.tag);
      var hal := I2cKey(ch.device, ch.address, ch.tag);
      r.reinitLog == e.reinitLog + [attempt] && id in r.channels && r.channels[id].retryCounter == 0 && v.Some? &&
      (if w.reinitOk(|e.reinitLog|, attempt) then
        FailuresAt(r, key) == 0 && CooldownAt(r, key) == 30 &&
        r.channels[id].failed == (if hal in cache then cache[hal] else w.read(|e.readLog|, hal)).None?
      else
        FailuresAt(r, key) == FailuresAt(e, key) + 1 && r.channels[id].failed && v.value.status == Down)
  {
    hide Fetch, RecordReinitFailure;
    var ch := e.channels[id];
    var e1 := Recover(e, w, id).0;
    FailureCounts(BackoffOf(e, ch));
    if Recover(e, w, id).1 {
      FetchLog(e1, w, id, cache);
      FetchFlags(e1, w, id, cache);
    }
  }

  lemma FailureCounts(b: Backoff)
    ensures RecordReinitFailure(b).failures == b.failures + 1
  {
  }

  /** A waiting channel whose attempt is not due yet: the read counts and is Down, nothing else. */
  lemma WaitingRead(e: Eng, w: World, id: ChannelId, cache: I2cCache)
    requires Waiting(e, id) && !Attempting(e, id)
    ensures var (r, v) := Read(e, w, id, cache);
      v == Some(WithStatus(Down)) && r == Put(e, id, e.channels[id].(retryCounter := Counter(e, id) + 1))
  {
    hide Fetch;
  }

  // ----- The failure count is the history of outcomes -----

  /** The operation makes an attempt, seen in the log of requests. */
  ghost predicate Tries(e: Eng, op: Op) {
    op.ReadOp? && |Apply(e, op).reinitLog| == |e.reinitLog| + 1
  }

  /** The sensor an attempt was for. */
  ghost function TriedSensor(e: Eng, op: Op): SensorKey
    requires Tries(e, op)
  {
    var r := Apply(e, op).reinitLog[|e.reinitLog|];
    (r.device, r.address)
  }

  ghost predicate TrySucceeds(e: Eng, op: Op)
    requires Tries(e, op)
  {
    op.w.reinitOk(|e.reinitLog|, Apply(e, op).reinitLog[|e.reinitLog|])
  }

  /** Failed attempts on a sensor since its last successful one. */
  ghost function FailedSince(e: Eng, ops: seq<Op>, key: SensorKey): nat {
    if ops == [] then FailuresAt(e, key)
    else
      var k := |ops| - 1;
      var m, before := Run(e, ops[..k]), FailedSince(e, ops[..k], key);
      if Tries(m, ops[k]) && TriedSensor(m, ops[k]) == key then
        (if TrySucceeds(m, ops[k]) then 0 else before + 1)
      else before
  }

  lemma ReadBackoff(e: Eng, w: World, id: ChannelId, cache: I2cCache)
    ensures var r := Read(e, w, id, cache).0;
      if Attempting(e, id) then
        forall k :: k != (e.channels[id].device, e.channels[id].address) ==> FailuresAt(r, k) == FailuresAt(e, k)
      else r.backoff == e.backoff && r.reinitLog == e.reinitLog
  {
    hide Fetch, RecordReinitFailure;
    if id in e.channels && e.channels[id].enabled && Recover(e, w, id).1 {
      RecoverTouchesOnly(e, w, id);
      FetchLog(Recover(e, w, id).0, w, id, cache);
    }
  }

  lemma FailuresStep(e: Eng, op: Op, key: SensorKey)
    ensures FailuresAt(Apply(e, op), key) ==
      if Tries(e, op) && TriedSensor(e, op) == key then (if TrySucceeds(e, op) then 0 else FailuresAt(e, key) + 1)
      else FailuresAt(e, key)
  {
    hide Read, PreRead, WriteLevel, ExpireAll, Attempting;
    match op
    case ReadOp(id, cache, w) =>
      ReadBackoff(e, w, id, cache);
      if Attempting(e, id) {
        AttemptingIsWaiting(e, id);
        AttemptOutcome(e, w, id, cache);
      }
    case AheadOp(ids, w) => AheadTouchesNothing(e, w, ids);
    case LevelOp(x, level, value, who, duration, w) => LevelTouchesOnly(e, w, x, level, value, who, duration);
    case SweepOp(ids, w) => ExpireAllKeeps(e, w, ids);
  }

  lemma AttemptingIsWaiting(e: Eng, id: ChannelId)
    requires Attempting(e, id)
    ensures Waiting(e, id)
  {
  }

  /** After any run the failure count of a sensor is the number of its failed attempts since the last
      successful one, whichever channels made them. */
  lemma {:induction false} FailuresAreHistory(e: Eng, ops: seq<Op>, key: SensorKey)
    ensures FailuresAt(Run(e, ops), key) == FailedSince(e, ops, key)
  {
    hide Apply, FailuresAt, Tries, TriedSensor, TrySucceeds;
    if ops != [] {
      FailuresAreHistory(e, ops[..|ops| - 1], key);
      FailuresStep(Run(e, ops[..|ops| - 1]), ops[|ops| - 1], key);
    }
  }

  /** From sensor failure to the next attempt: a healthy channel of a sensor without failures whose
      read fails gets its first attempt on read 31 exactly. */
  lemma FreshFailure(e: Eng, op: Op, ops: seq<Op>, id: ChannelId)
    requires RecoveryOk(e) && id in e.channels && e.channels[id].enabled && e.channels[id].channelType == I2c
    requires !e.channels[id].failed && FailuresAt(e, (e.channels[id].device, e.channels[id].address)) == 0
    requires ReadsChannel(op, id) && op.cache == map[] && forall n, k :: op.w.read(n, k).None?
    requires OnlyReads(ops, id) && |ops| <= 31 && forall i, n, r :: 0 <= i < |ops| ==> !ops[i].w.reinitOk(n, r)
    ensures Attempts(Run(Apply(e, op), ops).reinitLog, id) == Attempts(e.reinitLog, id) + (if |ops| == 31 then 1 else 0)
  {
    hide Run, Attempts, Read;
    var m := Apply(e, op);
    ReadApplies(e, op);
    HealthyReadFails(e, op.w, id);
    ApplyKeeps(e, op);
    assert Cooldown(0) == 30;
    ExactGap(m, ops, id, 0);
  }

  lemma HealthyReadFails(e: Eng, w: World, id: ChannelId)
    requires RecoveryOk(e) && id in e.channels && e.channels[id].enabled && e.channels[id].channelType == I2c
    requires !e.channels[id].failed && forall n, k :: w.read(n, k).None?
    ensures var r := Read(e, w, id, map[]).0;
      Waiting(r, id) && Counter(r, id) == 0 && r.reinitLog == e.reinitLog && r.backoff == e.backoff &&
      r.channels[id].device == e.channels[id].device && r.channels[id].address == e.channels[id].address
  {
    hide Fetch;
    ReadTouchesOnly(e, w, id, map[]);
    FetchLog(e, w, id, map[]);
    FetchFlags(e, w, id, map[]);
  }

  /** So a recovered sensor starts over: after a successful attempt and good reading, the next
      failure waits 30 reads however often it had failed before. */
  lemma RecoveryStartsOver(e: Eng, again: Op, op: Op, ops: seq<Op>, id: ChannelId)
    requires RecoveryOk(e) && Attempting(e, id)
    requires ReadsChannel(again, id) && again.cache == map[]
    requires (forall n, r :: again.w.reinitOk(n, r)) && (forall n, k :: again.w.read(n, k).Some?)
    requires ReadsChannel(op, id) && op.cache == map[] && forall n, k :: op.w.read(n, k).None?
    requires OnlyReads(ops, id) && |ops| <= 31 && forall i, n, r :: 0 <= i < |ops| ==> !ops[i].w.reinitOk(n, r)
    ensures Attempts(Run(Apply(Apply(e, again), op), ops).reinitLog, id) ==
      Attempts(e.reinitLog, id) + 1 + (if |ops| == 31 then 1 else 0)
  {
    hide Run, Attempts, Read;
    var m, ch := Apply(e, again), e.channels[id];
    ReadApplies(e, again);
    AttemptOutcome(e, again.w, id, map[]);
    AttemptsAdd(e.reinitLog, Reinit(id, ch.device, ch.address, ch.tag), id);
    ReadTouchesOnly(e, again.w, id, map[]);
    ApplyKeeps(e, again);
    FreshFailure(m, op, ops, id);
  }

  // ----- Channels that are not I2C -----

  /** A failed channel of another kind is never reinitialised: it waits 30 reads and then tries the
      hardware again on the next one. */
  lemma PlainRetry(e: Eng, w: World, id: ChannelId, cache: I2cCache)
    requires id in e.channels && e.channels[id].enabled && e.channels[id].failed && e.channels[id].channelType != I2c
    ensures var (r, v) := Read(e, w, id, cache);
      var ch := e.channels[id];
      r.reinitLog == e.reinitLog && r.backoff == e.backoff && v.Some? &&
      (if ch.retryCounter < 30 then v.value.status == Down && r == Put(e, id, ch.(retryCounter := ch.retryCounter + 1))
       else r == Fetch(Put(e, id, ch.(failed := false, retryCounter := 0)), w, id, cache).0)
  {
    hide Fetch;
    var ch := e.channels[id];
    FetchLog(Put(e, id, ch.(failed := false, retryCounter := 0)), w, id, cache);
  }
}
