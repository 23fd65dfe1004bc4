/** Change notices: what one cycle announces, and what a subscriber learns over many cycles. */
module Notifications {
  import opened EngineTypes
  import opened EngineCore
  import opened Subscriptions
  import opened PollCycle
  import opened EngineRuns

  // ----- One cycle -----

  /** What the cycle recorded for `ch` differs from what was recorded before. */
  ghost predicate ChangedIn(p: Polls, q: Polls, ch: ChannelId) {
    ch in p && ch in q && !ValuesEqual(p[ch].lastValue, q[ch].lastValue)
  }

  /** A notice that the cycle from `p` to `q` owes a subscriber. */
  ghost predicate Due(p: Polls, q: Polls, subs: Subscribers, n: Notification) {
    && ChangedIn(p, q, n.channel) && n.value == q[n.channel].lastValue
    && (if n.WatchNote? then WatchItem(n.channel, n.subscriber) in subs.watches else n.subscriber in subs.notifies)
  }

  lemma {:induction false} PollAllRecords(c: Cycle, w: World, subs: Subscribers, cache: I2cCache, ids: seq<ChannelId>)
    ensures var q := PollAll(c, w, subs, cache, ids).polls;
      q.Keys == c.polls.Keys && (forall ch :: ch in c.polls && ch !in ids ==> q[ch] == c.polls[ch])
  {
    hide Read, NotesFor;
    if ids != [] {
      PollAllRecords(c, w, subs, cache, ids[..|ids| - 1]);
    }
  }

  /** The notices of a cycle are exactly the due ones, each once. */
  lemma {:induction false} CycleNotesExact(c: Cycle, w: World, subs: Subscribers, cache: I2cCache, ids: seq<ChannelId>)
    requires c.notes == [] && NoRepeats(ids) && Distinct(subs)
    ensures var r := PollAll(c, w, subs, cache, ids);
      NoRepeats(r.notes) && (forall n :: n in r.notes <==> Due(c.polls, r.polls, subs, n)) &&
      (forall n :: n in r.notes ==> n.channel in ids)
  {
    hide Read, NotesFor, ValuesEqual;
    if ids == [] {
      forall n: Notification
        ensures !Due(c.polls, c.polls, subs, n)
      {
        EqualToSelf(c.polls, n.channel);
      }
    } else {
      var k := |ids| - 1;
      var id := ids[k];
      CycleNotesExact(c, w, subs, cache, ids[..k]);
      PollAllRecords(c, w, subs, cache, ids[..k]);
      var b, r := PollAll(c, w, subs, cache, ids[..k]), PollAll(c, w, subs, cache, ids);
      assert id !in ids[..k];
      assert id in c.polls ==> b.polls[id] == c.polls[id];
      var v := Read(b.eng, w, id, cache).1;
      if v.Some? && RecordValue(b.polls, id, v.value).1 {
        NotesExact(subs, id, v.value);
        AppendExact(b.notes, NotesFor(subs, id, v.value), id);
        forall n
          ensures Due(c.polls, r.polls, subs, n) <==> Due(c.polls, b.polls, subs, n) || n in NotesFor(subs, id, v.value)
        {
          assert n.channel != id ==> (Due(c.polls, r.polls, subs, n) <==> Due(c.polls, b.polls, subs, n));
          EqualToSelf(b.polls, id);
          assert n.channel == id ==> !Due(c.polls, b.polls, subs, n);
        }
      } else {
        assert r.notes == b.notes;
        forall n
          ensures Due(c.polls, r.polls, subs, n) <==> Due(c.polls, b.polls, subs, n)
        {
          EqualToSelf(b.polls, id);
        }
      }
    }
  }

  lemma EqualToSelf(p: Polls, id: ChannelId)
    ensures id in p ==> ValuesEqual(p[id].lastValue, p[id].lastValue)
  {
  }

  lemma AppendExact(a: seq<Notification>, b: seq<Notification>, id: ChannelId)
    requires NoRepeats(a) && NoRepeats(b)
    requires (forall n :: n in a ==> n.channel != id) && (forall n :: n in b ==> n.channel == id)
    ensures NoRepeats(a + b) && forall n :: n in a + b <==> n in a || n in b
  {
    assert forall i :: 0 <= i < |a| ==> a[i] in a;
    assert forall i :: 0 <= i < |b| ==> b[i] in b;
  }

  // ----- Many cycles -----

  /** One cycle and what happens to the engine before it: control cycles, commands, other reads. */
  datatype Input = Input(before: seq<Op>, w: World, subs: Subscribers, sweep: seq<ChannelId>, ids: seq<ChannelId>)

  /** Engine and poll items after the cycles, and the notices of all of them in order. */
  function Cycles(e: Eng, polls: Polls, inputs: seq<Input>): Cycle {
    if inputs == [] then Cycle(e, polls, [])
    else
      var k := |inputs| - 1;
      var c := Cycles(e, polls, inputs[..k]);
      var i := inputs[k];
      var r := PollUpdate(Run(c.eng, i.before), c.polls, i.w, i.subs, i.sweep, i.ids);
      r.(notes := c.notes + r.notes)
  }

  /** What a subscriber makes of a channel. */
  datatype Seen = Seen(status: Status, cur: real)

  function SeenOf(v: EngineValue): Seen {
    Seen(v.status, v.cur)
  }

  /** Addressed to subscriber `sub`, about channel `ch`, as a global notice or as a watch. */
  predicate Mine(n: Notification, sub: nat, ch: ChannelId, global: bool) {
    n.subscriber == sub && n.channel == ch && n.NotifyNote? == global
  }

  /** The subscriber keeps the last value it was told. */
  function LastSeen(start: Seen, notes: seq<Notification>, sub: nat, ch: ChannelId, global: bool): Seen {
    if notes == [] then start
    else
      var k := |notes| - 1;
      if Mine(notes[k], sub, ch, global) then SeenOf(notes[k].value) else LastSeen(start, notes[..k], sub, ch, global)
  }

  lemma {:induction false} LastSeenConcat(start: Seen, a: seq<Notification>, b: seq<Notification>, sub: nat, ch: ChannelId, global: bool)
    ensures LastSeen(start, a + b, sub, ch, global) == LastSeen(LastSeen(start, a, sub, ch, global), b, sub, ch, global)
  {
    if b == [] {
      assert a + b == a;
    } else {
      var k := |b| - 1;
      LastSeenConcat(start, a, b[..k], sub, ch, global);
      assert (a + b)[..|a| + k] == a + b[..k];
    }
  }

  lemma {:induction false} LastSeenOne(start: Seen, notes: seq<Notification>, sub: nat, ch: ChannelId, global: bool, v: EngineValue)
    requires forall n :: n in notes && Mine(n, sub, ch, global) ==> n.value == v
    ensures LastSeen(start, notes, sub, ch, global) ==
      if exists n :: n in notes && Mine(n, sub, ch, global) then SeenOf(v) else start
  {
    if notes != [] {
      var k := |notes| - 1;
      LastSeenOne(start, notes[..k], sub, ch, global, v);
      assert notes[k] in notes;
      assert forall n :: n in notes <==> n in notes[..k] || n == notes[k];
    }
  }

  ghost predicate Subscribed(subs: Subscribers, sub: nat, ch: ChannelId, global: bool) {
    if global then sub in subs.notifies else WatchItem(ch, sub) in subs.watches
  }

  lemma MirrorsCycle(c: Cycle, i: Input, sub: nat, ch: ChannelId, global: bool)
    requires ch in c.polls && NoRepeats(i.ids) && Distinct(i.subs) && Subscribed(i.subs, sub, ch, global)
    ensures var r := PollUpdate(c.eng, c.polls, i.w, i.subs, i.sweep, i.ids);
      ch in r.polls &&
      LastSeen(SeenOf(c.polls[ch].lastValue), r.notes, sub, ch, global) == SeenOf(r.polls[ch].lastValue)
  {
    hide PollAll, PreRead, ExpireAll, LastSeen;
    var (e1, cache) := PreRead(ExpireAll(c.eng, i.w, i.sweep), i.w, i.ids);
    var start := Cycle(e1, c.polls, []);
    var r := PollAll(start, i.w, i.subs, cache, i.ids);
    CycleNotesExact(start, i.w, i.subs, cache, i.ids);
    PollAllRecords(start, i.w, i.subs, cache, i.ids);
    var v := r.polls[ch].lastValue;
    LastSeenOne(SeenOf(c.polls[ch].lastValue), r.notes, sub, ch, global, v);
    var mine := if global then NotifyNote(sub, ch, v) else WatchNote(sub, ch, v);
    assert Mine(mine, sub, ch, global);
    if ChangedIn(c.polls, r.polls, ch) {
      assert Due(c.polls, r.polls, i.subs, mine);
    }
  }

  /** A subscriber that starts from the recorded value and replays its notices always holds the
      status and value last recorded for the channel, whatever is polled and read, and whatever
      reads, writes, sweeps and control cycles come between the polls. */
  lemma {:induction false} SubscriberMirrors(e: Eng, polls: Polls, inputs: seq<Input>, sub: nat, ch: ChannelId, global: bool)
    requires ch in polls
    requires forall k :: 0 <= k < |inputs| ==>
      NoRepeats(inputs[k].ids) && Distinct(inputs[k].subs) && Subscribed(inputs[k].subs, sub, ch, global)
    ensures var r := Cycles(e, polls, inputs);
      ch in r.polls && LastSeen(SeenOf(polls[ch].lastValue), r.notes, sub, ch, global) == SeenOf(r.polls[ch].lastValue)
  {
    hide PollUpdate, Distinct, NoRepeats;
    if inputs != [] {
      var k := |inputs| - 1;
      SubscriberMirrors(e, polls, inputs[..k], sub, ch, global);
      var c, i := Cycles(e, polls, inputs[..k]), inputs[k];
      var start := c.(eng := Run(c.eng, i.before));
      MirrorsCycle(start, i, sub, ch, global);
      var r := PollUpdate(start.eng, c.polls, i.w, i.subs, i.sweep, i.ids);
      LastSeenConcat(SeenOf(polls[ch].lastValue), c.notes, r.notes, sub, ch, global);
    }
  }
}
