/** Poll items, per-channel watches and global notify subscribers of the engine. */
module Subscriptions {
  import opened EngineTypes

  // ----- Poll items -----

  datatype PollItem = PollItem(lastValue: EngineValue, unchangedCount: nat, failCount: nat)

  type Polls = map<ChannelId, PollItem>

  const NEW_ITEM := PollItem(DEFAULT_VALUE, 0, 0)
  const CONSECUTIVE_FAIL_THRESHOLD: nat := 5

  function RecordValue(p: Polls, id: ChannelId, v: EngineValue): (Polls, bool) {
    if id !in p then (p, false)
    else
      var changed := !ValuesEqual(p[id].lastValue, v);
      (p[id := PollItem(v, if changed then 0 else p[id].unchangedCount + 1, 0)], changed)
  }

  /** A failed read counts, and the count starts over at the threshold. */
  function RecordFailure(p: Polls, id: ChannelId): Polls {
    if id !in p then p
    else
      var n := p[id].failCount + 1;
      p[id := p[id].(failCount := if n >= CONSECUTIVE_FAIL_THRESHOLD then 0 else n)]
  }

  class PollStore {
    var items: Polls

    constructor ()
      ensures items == map[]
    {
      items := map[];
    }

    method Add(id: ChannelId)
      modifies this
      ensures items.Keys == old(items.Keys) + {id}
      ensures forall x :: x in old(items) ==> items[x] == old(items)[x]
      ensures id !in old(items) ==> items[id] == NEW_ITEM
    {
      if id in items {
        return;
      }
      items := items[id := NEW_ITEM];
    }

    method Remove(id: ChannelId)
      modifies this
      ensures forall x :: x in items <==> x in old(items) && x != id
      ensures forall x :: x in items ==> items[x] == old(items)[x]
    {
      items := items - {id};
    }

    method Record(id: ChannelId, v: EngineValue) returns (changed: bool)
      modifies this
      ensures (items, changed) == RecordValue(old(items), id, v)
    {
      if id in items {
        var item := items[id];
        changed := !ValuesEqual(item.lastValue, v);
        if changed {
          item := item.(unchangedCount := 0);
        } else {
          item := item.(unchangedCount := item.unchangedCount + 1);
        }
        items := items[id := item.(lastValue := v, failCount := 0)];
      } else {
        changed := false;
      }
    }

    method Fail(id: ChannelId)
      modifies this
      ensures items == RecordFailure(old(items), id)
    {
      if id in items {
        items := items[id := items[id].(failCount := items[id].failCount + 1)];
        if items[id].failCount >= CONSECUTIVE_FAIL_THRESHOLD {
          items := items[id := items[id].(failCount := 0)];
        }
      }
    }
  }

  /** The failure count always stays below its threshold. */
  lemma FailCountBounded(p: Polls, id: ChannelId, v: EngineValue)
    requires forall x :: x in p ==> p[x].failCount < CONSECUTIVE_FAIL_THRESHOLD
    ensures forall x :: x in RecordFailure(p, id) ==> RecordFailure(p, id)[x].failCount < CONSECUTIVE_FAIL_THRESHOLD
    ensures forall x :: x in RecordValue(p, id, v).0 ==> RecordValue(p, id, v).0[x].failCount < CONSECUTIVE_FAIL_THRESHOLD
  {
  }

  function RecordAll(p: Polls, id: ChannelId, vs: seq<EngineValue>): Polls {
    if vs == [] then p else RecordValue(RecordAll(p, id, vs[..|vs| - 1]), id, vs[|vs| - 1]).0
  }

  /** After a value that changed and `n` that did not, the item counts `n` and holds the last. */
  lemma {:induction false} UnchangedIsStreak(p: Polls, id: ChannelId, first: EngineValue, vs: seq<EngineValue>)
    requires id in p && (p[id].lastValue.status != first.status || p[id].lastValue.cur != first.cur)
    requires forall k :: 0 <= k < |vs| ==> vs[k].status == first.status && vs[k].cur == first.cur
    ensures var q := RecordAll(p, id, [first] + vs);
      id in q && q[id] == PollItem(if vs == [] then first else vs[|vs| - 1], |vs|, 0)
  {
    var all := [first] + vs;
    if vs == [] {
      assert all[..0] == [] && all[0] == first;
    } else {
      var k := |vs| - 1;
      UnchangedIsStreak(p, id, first, vs[..k]);
      assert all[..|all| - 1] == [first] + vs[..k];
    }
  }

  function FailTimes(p: Polls, id: ChannelId, n: nat): Polls {
    if n == 0 then p else RecordFailure(FailTimes(p, id, n - 1), id)
  }

  /** Failures in a row are counted modulo five, and leave the recorded value alone. */
  lemma {:induction false} FailuresModuloFive(p: Polls, id: ChannelId, n: nat)
    requires id in p && p[id].failCount == 0
    ensures id in FailTimes(p, id, n) && FailTimes(p, id, n)[id] == p[id].(failCount := n % 5)
  {
    if n > 0 {
      FailuresModuloFive(p, id, n - 1);
    }
  }

  // ----- Watches and notifies -----

  datatype WatchItem = WatchItem(channel: ChannelId, subscriber: nat)

  datatype Notification =
    | WatchNote(subscriber: nat, channel: ChannelId, value: EngineValue)
    | NotifyNote(subscriber: nat, channel: ChannelId, value: EngineValue)

  datatype Subscribers = Subscribers(watches: seq<WatchItem>, notifies: seq<nat>)

  /** Adding a subscription twice is refused, so the lists never repeat an entry. */
  ghost predicate Distinct(s: Subscribers) {
    NoRepeats(s.watches) && NoRepeats(s.notifies)
  }

  function SubscribersFor(watches: seq<WatchItem>, ch: ChannelId): seq<nat> {
    if watches == [] then []
    else
      var k := |watches| - 1;
      SubscribersFor(watches[..k], ch) + (if watches[k].channel == ch then [watches[k].subscriber] else [])
  }

  function Without<T(==)>(s: seq<T>, x: T): seq<T> {
    if s == [] then []
    else
      var k := |s| - 1;
      Without(s[..k], x) + (if s[k] == x then [] else [s[k]])
  }

  lemma {:induction false} WithoutRemoves<T>(s: seq<T>, x: T)
    ensures forall y :: y in Without(s, x) <==> y in s && y != x
    ensures NoRepeats(s) ==> NoRepeats(Without(s, x))
    ensures |Without(s, x)| < |s| <==> x in s
    ensures |Without(s, x)| <= |s|
  {
    if s != [] {
      var k := |s| - 1;
      WithoutRemoves(s[..k], x);
      assert s == s[..k] + [s[k]];
      if NoRepeats(s) {
        assert s[k] !in s[..k];
      }
    }
  }

  class SubscriberStore {
    var watches: seq<WatchItem>
    var notifies: seq<nat>

    function View(): Subscribers
      reads this
    {
      Subscribers(watches, notifies)
    }

    ghost predicate Valid()
      reads this
    {
      Distinct(View())
    }

    constructor ()
      ensures Valid() && View() == Subscribers([], [])
    {
      watches, notifies := [], [];
    }

    method AddWatch(ch: ChannelId, sub: nat) returns (added: bool)
      requires Valid()
      modifies this`watches
      ensures Valid() && added == (WatchItem(ch, sub) !in old(watches))
      ensures watches == if added then old(watches) + [WatchItem(ch, sub)] else old(watches)
    {
      added := WatchItem(ch, sub) !in watches;
      if added {
        watches := watches + [WatchItem(ch, sub)];
      }
    }

    method RemoveWatch(ch: ChannelId, sub: nat) returns (removed: bool)
      requires Valid()
      modifies this`watches
      ensures Valid() && watches == Without(old(watches), WatchItem(ch, sub))
      ensures removed == (WatchItem(ch, sub) in old(watches))
    {
      var kept := [];
      WithoutRemoves(watches, WatchItem(ch, sub));
      for i := 0 to |watches|
        invariant kept == Without(watches[..i], WatchItem(ch, sub))
      {
        assert watches[..i + 1][..i] == watches[..i];
        if watches[i] != WatchItem(ch, sub) {
          kept := kept + [watches[i]];
        }
      }
      assert watches[..|watches|] == watches;
      removed := |kept| < |watches|;
      watches := kept;
    }

    method AddNotify(sub: nat) returns (added: bool)
      requires Valid()
      modifies this`notifies
      ensures Valid() && added == (sub !in old(notifies))
      ensures notifies == if added then old(notifies) + [sub] else old(notifies)
    {
      added := sub !in notifies;
      if added {
        notifies := notifies + [sub];
      }
    }

    method RemoveNotify(sub: nat) returns (removed: bool)
      requires Valid()
      modifies this`notifies
      ensures Valid() && notifies == Without(old(notifies), sub) && removed == (sub in old(notifies))
    {
      WithoutRemoves(notifies, sub);
      var kept := [];
      for i := 0 to |notifies|
        invariant kept == Without(notifies[..i], sub)
      {
        assert notifies[..i + 1][..i] == notifies[..i];
        if notifies[i] != sub {
          kept := kept + [notifies[i]];
        }
      }
      assert notifies[..|notifies|] == notifies;
      removed := |kept| < |notifies|;
      notifies := kept;
    }
  }

  // ----- Notices for one change -----

  function WatchNotes(subs: seq<nat>, ch: ChannelId, v: EngineValue): seq<Notification> {
    seq(|subs|, i requires 0 <= i < |subs| => WatchNote(subs[i], ch, v))
  }

  function NotifyNotes(subs: seq<nat>, ch: ChannelId, v: EngineValue): seq<Notification> {
    seq(|subs|, i requires 0 <= i < |subs| => NotifyNote(subs[i], ch, v))
  }

  function NotesFor(s: Subscribers, ch: ChannelId, v: EngineValue): seq<Notification> {
    WatchNotes(SubscribersFor(s.watches, ch), ch, v) + NotifyNotes(s.notifies, ch, v)
  }

  lemma {:induction false} SubscribersForExact(watches: seq<WatchItem>, ch: ChannelId)
    ensures forall sub :: sub in SubscribersFor(watches, ch) <==> WatchItem(ch, sub) in watches
    ensures NoRepeats(watches) ==> NoRepeats(SubscribersFor(watches, ch))
  {
    if watches != [] {
      SubscribersForExact(watches[..|watches| - 1], ch);
    }
  }

  /** One change gives one notice to each watcher of the channel and to each global subscriber,
      never two, and none to anyone else. */
  lemma NotesExact(s: Subscribers, ch: ChannelId, v: EngineValue)
    requires Distinct(s)
    ensures NoRepeats(NotesFor(s, ch, v))
    ensures forall n :: n in NotesFor(s, ch, v) <==>
      n.channel == ch && n.value == v &&
      (if n.WatchNote? then WatchItem(ch, n.subscriber) in s.watches else n.subscriber in s.notifies)
  {
    SubscribersForExact(s.watches, ch);
    var a, b := SubscribersFor(s.watches, ch), s.notifies;
    var x, y := WatchNotes(a, ch, v), NotifyNotes(b, ch, v);
    forall n: Notification
      ensures n in x <==> n.WatchNote? && n.channel == ch && n.value == v && n.subscriber in a
      ensures n in y <==> n.NotifyNote? && n.channel == ch && n.value == v && n.subscriber in b
    {
      if n.WatchNote? && n.channel == ch && n.value == v && n.subscriber in a {
        var i :| 0 <= i < |a| && a[i] == n.subscriber;
        assert x[i] == n;
      }
      if n.NotifyNote? && n.channel == ch && n.value == v && n.subscriber in b {
        var i :| 0 <= i < |b| && b[i] == n.subscriber;
        assert y[i] == n;
      }
    }
  }
}
