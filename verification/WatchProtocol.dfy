/** The Haystack watch protocol: clients subscribe to channels, poll for rows that changed,
    and unsubscribe. Channel reads are an oracle: `read(i)` is the outcome of the i-th read a
    command makes. */
module WatchProtocol {
  import opened EngineTypes
  import opened Text

  const WATCH_LEASE_SECS: nat := 3600
  const MAX_WATCHES: nat := 64
  const MAX_CHANNELS_PER_WATCH: nat := 256

  /** `f64::EPSILON`, 2 to the power -52. */
  const EPSILON: real := 1.0 / 4503599627370496.0

  datatype Reading = Reading(status: string, raw: real, cur: real)

  datatype Row = Row(channel: ChannelId, reading: Reading)

  type Oracle = nat -> Option<Reading>

  /** What a client knows of a channel. */
  datatype Known = Known(cur: real, status: string)

  type View = map<ChannelId, Known>

  function KnownOf(r: Reading): Known {
    Known(r.cur, r.status)
  }

  datatype Watch = Watch(displayName: string, channels: seq<ChannelId>, lastValues: View, lastActivity: Instant)

  datatype WatchResponse = WatchResponse(watchId: string, rows: seq<Row>)

  // ----- Commands on one watch -----

  datatype Step = Step(watch: Watch, rows: seq<Row>)

  /** Subscribing to one more channel, whose read gave `r`. */
  function SubOne(s: Step, ch: ChannelId, r: Option<Reading>): Step {
    var channels := if ch in s.watch.channels then s.watch.channels else s.watch.channels + [ch];
    if r.Some? then
      Step(s.watch.(channels := channels, lastValues := s.watch.lastValues[ch := KnownOf(r.value)]), s.rows + [Row(ch, r.value)])
    else Step(s.watch.(channels := channels), s.rows)
  }

  function SubAll(w: Watch, chans: seq<ChannelId>, read: Oracle): Step {
    if chans == [] then Step(w, [])
    else var k := |chans| - 1; SubOne(SubAll(w, chans[..k], read), chans[k], read(k))
  }

  predicate Changed(last: View, ch: ChannelId, r: Reading, refresh: bool) {
    refresh || ch !in last || Abs(r.cur - last[ch].cur) > EPSILON || r.status != last[ch].status
  }

  function PollOne(s: Step, ch: ChannelId, r: Option<Reading>, refresh: bool): Step {
    if r.Some? && Changed(s.watch.lastValues, ch, r.value, refresh) then
      Step(s.watch.(lastValues := s.watch.lastValues[ch := KnownOf(r.value)]), s.rows + [Row(ch, r.value)])
    else s
  }

  function PollAll(w: Watch, chans: seq<ChannelId>, read: Oracle, refresh: bool): Step {
    if chans == [] then Step(w, [])
    else var k := |chans| - 1; PollOne(PollAll(w, chans[..k], read, refresh), chans[k], read(k), refresh)
  }

  function Retain(chans: seq<ChannelId>, gone: seq<ChannelId>): seq<ChannelId> {
    if chans == [] then []
    else
      var k := |chans| - 1;
      if chans[k] in gone then Retain(chans[..k], gone) else Retain(chans[..k], gone) + [chans[k]]
  }

  function Forget(v: View, gone: seq<ChannelId>): View {
    map ch | ch in v && ch !in gone :: v[ch]
  }

  function UnsubSome(w: Watch, gone: seq<ChannelId>): Watch {
    w.(channels := Retain(w.channels, gone), lastValues := Forget(w.lastValues, gone))
  }

  // ----- Commands on the server -----

  type Watches = map<string, Watch>

  datatype Server = Server(watches: Watches, counter: nat)

  datatype Cmd =
    | Sub(watchId: Option<string>, displayName: Option<string>, wanted: seq<ChannelId>, live: set<ChannelId>, read: Oracle, now: Instant)
    | Unsub(id: string, close: bool, gone: seq<ChannelId>)
    | Poll(id: string, refresh: bool, read: Oracle, now: Instant)
    | Expire(now: Instant)

  /** The watch has seen no activity for longer than its lease, in whole seconds. */
  predicate Idle(w: Watch, now: Instant) {
    Since(now, w.lastActivity) / NANOS_PER_SEC > WATCH_LEASE_SECS
  }

  function DropStale(ws: Watches, now: Instant): Watches {
    map id | id in ws && !Idle(ws[id], now) :: ws[id]
  }

  function Existing(wanted: seq<ChannelId>, live: set<ChannelId>): seq<ChannelId> {
    if wanted == [] then []
    else
      var k := |wanted| - 1;
      if wanted[k] in live then Existing(wanted[..k], live) + [wanted[k]] else Existing(wanted[..k], live)
  }

  function WatchName(n: nat): string {
    "w-" + Hex(n)
  }

  /** The server after a command, and its reply. */
  function HandleSub(s: Server, watchId: Option<string>, displayName: Option<string>, wanted: seq<ChannelId>,
      live: set<ChannelId>, read: Oracle, now: Instant): (Server, Result<WatchResponse>)
  {
    var ws := DropStale(s.watches, now);
    if |wanted| > MAX_CHANNELS_PER_WATCH then (s.(watches := ws), Error("too many channels"))
    else
      var known := watchId.Some? && watchId.value in ws;
      if !known && |ws| >= MAX_WATCHES then (s.(watches := ws), Error("watch limit reached"))
      else
        var counter := if known then s.counter else s.counter + 1;
        var wid := if known then watchId.value else WatchName(counter);
        var w := if known then ws[wid] else Watch(displayName.UnwrapOr(wid), [], map[], now);
        var step := SubAll(w.(lastActivity := now), Existing(wanted, live), read);
        (Server(ws[wid := step.watch], counter), Done(WatchResponse(wid, step.rows)))
  }

  function HandleUnsub(s: Server, id: string, close: bool, gone: seq<ChannelId>): (Server, Result<()>) {
    if id !in s.watches then (s, Error("watch not found"))
    else if close then (s.(watches := s.watches - {id}), Done(()))
    else (s.(watches := s.watches[id := UnsubSome(s.watches[id], gone)]), Done(()))
  }

  function HandlePoll(s: Server, id: string, refresh: bool, read: Oracle, now: Instant): (Server, Result<WatchResponse>) {
    if id !in s.watches then (s, Error("watch not found"))
    else
      var w := s.watches[id].(lastActivity := now);
      var step := PollAll(w, w.channels, read, refresh);
      (s.(watches := s.watches[id := step.watch]), Done(WatchResponse(id, step.rows)))
  }

  class WatchServer {
    var watches: Watches
    var counter: nat

    function View(): Server
      reads this
    {
      Server(watches, counter)
    }

    constructor ()
      ensures View() == Server(map[], 0)
    {
      watches, counter := map[], 0;
    }

    method ExpireStaleWatches(now: Instant)
      modifies this`watches
      ensures forall id :: id in watches <==> id in old(watches) && !Idle(old(watches)[id], now)
      ensures forall id :: id in watches ==> watches[id] == old(watches)[id]
      ensures View() == After(old(View()), Expire(now))
    {
      watches := DropStale(watches, now);
    }

    method WatchSub(watchId: Option<string>, displayName: Option<string>, wanted: seq<ChannelId>,
        live: set<ChannelId>, read: Oracle, now: Instant) returns (r: Result<WatchResponse>)
      modifies this
      ensures (View(), r) == HandleSub(old(View()), watchId, displayName, wanted, live, read, now)
    {
      hide DropStale, WatchName, SubAll, Existing;
      ExpireStaleWatches(now);
      ghost var ws := watches;
      if |wanted| > MAX_CHANNELS_PER_WATCH {
        return Error("too many channels");
      }
      var channels := FilterExisting(wanted, live);
      var wid;
      if watchId.Some? && watchId.value in watches {
        wid := watchId.value;
      } else if |watches| >= MAX_WATCHES {
        return Error("watch limit reached");
      } else {
        counter := counter + 1;
        wid := WatchName(counter);
        watches := watches[wid := Watch(displayName.UnwrapOr(wid), [], map[], now)];
      }
      var w, rows := Subscribe(watches[wid].(lastActivity := now), channels, read);
      watches := watches[wid := w];
      PutTwice(ws, wid, Watch(displayName.UnwrapOr(wid), [], map[], now), w);
      r := Done(WatchResponse(wid, rows));
    }

    /** The reads and updates of a subscription. */
    method Subscribe(start: Watch, channels: seq<ChannelId>, read: Oracle) returns (w: Watch, rows: seq<Row>)
      ensures Step(w, rows) == SubAll(start, channels, read)
    {
      w, rows := start, [];
      for i := 0 to |channels|
        invariant Step(w, rows) == SubAll(start, channels[..i], read)
      {
        assert channels[..i + 1][..i] == channels[..i];
        var ch := channels[i];
        if ch !in w.channels {
          w := w.(channels := w.channels + [ch]);
        }
        var val := read(i);
        if val.Some? {
          w := w.(lastValues := w.lastValues[ch := KnownOf(val.value)]);
          rows := rows + [Row(ch, val.value)];
        }
      }
      assert channels[..|channels|] == channels;
    }

    method WatchUnsub(id: string, close: bool, gone: seq<ChannelId>) returns (r: Result<()>)
      modifies this`watches
      ensures (View(), r) == HandleUnsub(old(View()), id, close, gone)
    {
      if close {
        if id in watches {
          watches := watches - {id};
          return Done(());
        }
        return Error("watch not found");
      }
      if id !in watches {
        return Error("watch not found");
      }
      var w := watches[id];
      var kept := [];
      for i := 0 to |w.channels|
        invariant kept == Retain(w.channels[..i], gone)
      {
        assert w.channels[..i + 1][..i] == w.channels[..i];
        if w.channels[i] !in gone {
          kept := kept + [w.channels[i]];
        }
      }
      assert w.channels[..|w.channels|] == w.channels;
      var last := w.lastValues;
      for i := 0 to |gone|
        invariant last == Forget(w.lastValues, gone[..i])
      {
        last := last - {gone[i]};
      }
      assert gone[..|gone|] == gone;
      watches := watches[id := w.(channels := kept, lastValues := last)];
      r := Done(());
    }

    method WatchPoll(id: string, refresh: bool, read: Oracle, now: Instant) returns (r: Result<WatchResponse>)
      modifies this`watches
      ensures (View(), r) == HandlePoll(old(View()), id, refresh, read, now)
    {
      if id !in watches {
        return Error("watch not found");
      }
      var start := watches[id].(lastActivity := now);
      var w, rows := start, [];
      var channels := w.channels;
      for i := 0 to |channels|
        invariant Step(w, rows) == PollAll(start, channels[..i], read, refresh)
      {
        assert channels[..i + 1][..i] == channels[..i];
        var ch, val := channels[i], read(i);
        if val.Some? {
          var changed := if refresh then true
            else if ch !in w.lastValues then true
            else Abs(val.value.cur - w.lastValues[ch].cur) > EPSILON || val.value.status != w.lastValues[ch].status;
          if changed {
            w := w.(lastValues := w.lastValues[ch := KnownOf(val.value)]);
            rows := rows + [Row(ch, val.value)];
          }
        }
      }
      assert channels[..|channels|] == channels;
      watches := watches[id := w];
      r := Done(WatchResponse(id, rows));
    }
  }

  lemma PutTwice(ws: Watches, id: string, a: Watch, b: Watch)
    ensures ws[id := a][id := b] == ws[id := b]
  {
  }

  method FilterExisting(wanted: seq<ChannelId>, live: set<ChannelId>) returns (r: seq<ChannelId>)
    ensures r == Existing(wanted, live)
  {
    r := [];
    for i := 0 to |wanted|
      invariant r == Existing(wanted[..i], live)
    {
      assert wanted[..i + 1][..i] == wanted[..i];
      if wanted[i] in live {
        r := r + [wanted[i]];
      }
    }
    assert wanted[..|wanted|] == wanted;
  }

  // ----- Clients -----

  /** A client applies the rows of a reply, in order. */
  function Replay(v: View, rows: seq<Row>): View {
    if rows == [] then v
    else var k := |rows| - 1; Replay(v, rows[..k])[rows[k].channel := KnownOf(rows[k].reading)]
  }

  lemma ReplayAdd(v: View, rows: seq<Row>, row: Row)
    ensures Replay(v, rows + [row]) == Replay(v, rows)[row.channel := KnownOf(row.reading)]
  {
    assert (rows + [row])[..|rows|] == rows;
  }

  lemma {:induction false} SubMirrored(w: Watch, chans: seq<ChannelId>, read: Oracle)
    ensures var s := SubAll(w, chans, read);
      s.watch.lastValues == Replay(w.lastValues, s.rows)
  {
    if chans != [] {
      var k := |chans| - 1;
      SubMirrored(w, chans[..k], read);
      var p := SubAll(w, chans[..k], read);
      if read(k).Some? {
        ReplayAdd(w.lastValues, p.rows, Row(chans[k], read(k).value));
      }
    }
  }

  lemma {:induction false} PollMirrored(w: Watch, chans: seq<ChannelId>, read: Oracle, refresh: bool)
    ensures var s := PollAll(w, chans, read, refresh);
      s.watch.lastValues == Replay(w.lastValues, s.rows) && s.watch.channels == w.channels
  {
    if chans != [] {
      var k := |chans| - 1;
      PollMirrored(w, chans[..k], read, refresh);
      var p := PollAll(w, chans[..k], read, refresh);
      if read(k).Some? {
        ReplayAdd(w.lastValues, p.rows, Row(chans[k], read(k).value));
      }
    }
  }

  // ----- What every watch keeps -----

  /** Channels are listed once, and values are remembered for subscribed channels only. */
  ghost predicate WatchOk(w: Watch) {
    NoRepeats(w.channels) && forall ch :: ch in w.lastValues ==> ch in w.channels
  }

  lemma {:induction false} SubKeeps(w: Watch, chans: seq<ChannelId>, read: Oracle)
    requires WatchOk(w)
    ensures var r := SubAll(w, chans, read).watch;
      WatchOk(r) && r.lastActivity == w.lastActivity && (forall ch :: ch in r.channels <==> ch in w.channels || ch in chans)
  {
    if chans != [] {
      SubKeeps(w, chans[..|chans| - 1], read);
    }
  }

  lemma {:induction false} PollKeeps(w: Watch, chans: seq<ChannelId>, read: Oracle, refresh: bool)
    requires WatchOk(w) && forall ch :: ch in chans ==> ch in w.channels
    ensures WatchOk(PollAll(w, chans, read, refresh).watch)
  {
    PollMirrored(w, chans, read, refresh);
    if chans != [] {
      PollKeeps(w, chans[..|chans| - 1], read, refresh);
      PollMirrored(w, chans[..|chans| - 1], read, refresh);
    }
  }

  lemma {:induction false} RetainKeeps(chans: seq<ChannelId>, gone: seq<ChannelId>)
    ensures forall ch :: ch in Retain(chans, gone) <==> ch in chans && ch !in gone
    ensures NoRepeats(chans) ==> NoRepeats(Retain(chans, gone))
  {
    if chans != [] {
      RetainKeeps(chans[..|chans| - 1], gone);
    }
  }

  // ----- What a poll achieves -----

  /** The remembered value is a close match of the reading. */
  ghost predicate Matches(v: View, ch: ChannelId, r: Reading) {
    ch in v && v[ch].status == r.status && Abs(r.cur - v[ch].cur) <= EPSILON
  }

  /** After a poll every channel that could be read matches its reading; the others keep what
      was known of them. */
  lemma {:induction false} PollMatches(w: Watch, chans: seq<ChannelId>, read: Oracle, refresh: bool, i: nat)
    requires i < |chans| && NoRepeats(chans)
    ensures var v := PollAll(w, chans, read, refresh).watch.lastValues;
      if read(i).Some? then Matches(v, chans[i], read(i).value)
      else (chans[i] in v <==> chans[i] in w.lastValues) && (chans[i] in v ==> v[chans[i]] == w.lastValues[chans[i]])
  {
    var k := |chans| - 1;
    if i < k {
      PollMatches(w, chans[..k], read, refresh, i);
    } else {
      PollLeavesOthers(w, chans[..k], read, refresh, chans[k]);
    }
  }

  lemma {:induction false} PollLeavesOthers(w: Watch, chans: seq<ChannelId>, read: Oracle, refresh: bool, ch: ChannelId)
    requires ch !in chans
    ensures var v := PollAll(w, chans, read, refresh).watch.lastValues;
      (ch in v <==> ch in w.lastValues) && (ch in v ==> v[ch] == w.lastValues[ch])
  {
    if chans != [] {
      PollLeavesOthers(w, chans[..|chans| - 1], read, refresh, ch);
    }
  }

  // ----- Runs of the server -----

  function After(s: Server, c: Cmd): Server {
    match c
    case Sub(id, name, wanted, live, read, now) => HandleSub(s, id, name, wanted, live, read, now).0
    case Unsub(id, close, gone) => HandleUnsub(s, id, close, gone).0
    case Poll(id, refresh, read, now) => HandlePoll(s, id, refresh, read, now).0
    case Expire(now) => s.(watches := DropStale(s.watches, now))
  }

  function RunCmds(cmds: seq<Cmd>): Server {
    if cmds == [] then Server(map[], 0) else After(RunCmds(cmds[..|cmds| - 1]), cmds[|cmds| - 1])
  }

  /** What a client of watch `id` holds after seeing a reply addressed to it. */
  function ClientStep(s: Server, c: Cmd, id: string, v: View): View {
    match c
    case Sub(wid, name, wanted, live, read, now) =>
      var r := HandleSub(s, wid, name, wanted, live, read, now).1;
      if r.Done? && r.value.watchId == id then Replay(v, r.value.rows) else v
    case Unsub(wid, close, gone) =>
      if wid == id && !close && HandleUnsub(s, wid, close, gone).1.Done? then Forget(v, gone) else v
    case Poll(wid, refresh, read, now) =>
      var r := HandlePoll(s, wid, refresh, read, now).1;
      if r.Done? && wid == id then Replay(v, r.value.rows) else v
    case Expire(_) => v
  }

  /** A client that starts with nothing and applies every reply addressed to watch `id`. */
  function ClientView(cmds: seq<Cmd>, id: string): View {
    if cmds == [] then map[]
    else
      var k := |cmds| - 1;
      ClientStep(RunCmds(cmds[..k]), cmds[k], id, ClientView(cmds[..k], id))
  }

  ghost predicate ServerOk(s: Server) {
    && |s.watches| <= MAX_WATCHES
    && (forall id :: id in s.watches ==> WatchOk(s.watches[id]))
    && (forall id :: id in s.watches ==> exists n :: 1 <= n <= s.counter && id == WatchName(n))
  }

  lemma WatchNameInjective(m: nat, n: nat)
    requires WatchName(m) == WatchName(n)
    ensures m == n
  {
    assert WatchName(m)[2..] == Hex(m) && WatchName(n)[2..] == Hex(n);
    HexInjective(m, n);
  }

  /** A new watch gets a name no live watch has. */
  lemma NewNameIsFresh(s: Server, n: nat)
    requires ServerOk(s) && n > s.counter
    ensures WatchName(n) !in s.watches
  {
    if WatchName(n) in s.watches {
      var m :| 1 <= m <= s.counter && WatchName(n) == WatchName(m);
      WatchNameInjective(n, m);
    }
  }

  lemma DropStaleOk(s: Server, now: Instant)
    requires ServerOk(s)
    ensures ServerOk(s.(watches := DropStale(s.watches, now)))
  {
    SubsetSize(DropStale(s.watches, now).Keys, s.watches.Keys);
  }

  lemma ReplaceOk(s: Server, id: string, w: Watch, counter: nat)
    requires ServerOk(s) && WatchOk(w) && counter >= s.counter
    requires id in s.watches || (|s.watches| < MAX_WATCHES && counter > s.counter && id == WatchName(counter))
    ensures ServerOk(Server(s.watches[id := w], counter))
  {
    var ws := s.watches[id := w];
    assert ws.Keys == s.watches.Keys + {id};
    forall x | x in ws
      ensures exists n :: 1 <= n <= counter && x == WatchName(n)
    {
      if x in s.watches {
        var n :| 1 <= n <= s.counter && x == WatchName(n);
      } else {
        assert x == WatchName(counter);
      }
    }
  }

  lemma SubOk(s: Server, watchId: Option<string>, name: Option<string>, wanted: seq<ChannelId>,
      live: set<ChannelId>, read: Oracle, now: Instant)
    requires ServerOk(s)
    ensures ServerOk(HandleSub(s, watchId, name, wanted, live, read, now).0)
  {
    hide DropStale, SubAll, Existing, WatchName, ServerOk, WatchOk;
    DropStaleOk(s, now);
    var t := s.(watches := DropStale(s.watches, now));
    var r := HandleSub(s, watchId, name, wanted, live, read, now);
    if r.1.Done? {
      var known := watchId.Some? && watchId.value in t.watches;
      var counter := if known then s.counter else s.counter + 1;
      var wid := if known then watchId.value else WatchName(counter);
      var w := if known then t.watches[wid] else Watch(name.UnwrapOr(wid), [], map[], now);
      SubStartOk(t, known, wid, w, now);
      SubKeeps(w.(lastActivity := now), Existing(wanted, live), read);
      ReplaceOk(t, wid, SubAll(w.(lastActivity := now), Existing(wanted, live), read).watch, counter);
    }
  }

  lemma SubStartOk(s: Server, known: bool, wid: string, w: Watch, now: Instant)
    requires ServerOk(s)
    requires if known then wid in s.watches && w == s.watches[wid] else w.channels == [] && w.lastValues == map[]
    ensures WatchOk(w.(lastActivity := now))
  {
  }

  lemma AfterOk(s: Server, c: Cmd)
    requires ServerOk(s)
    ensures ServerOk(After(s, c))
  {
    match c
    case Sub(id, name, wanted, live, read, now) =>
      SubOk(s, id, name, wanted, live, read, now);
    case Unsub(id, close, gone) =>
      if id in s.watches {
        if close {
          SubsetSize((s.watches - {id}).Keys, s.watches.Keys);
        } else {
          RetainKeeps(s.watches[id].channels, gone);
          ReplaceOk(s, id, UnsubSome(s.watches[id], gone), s.counter);
        }
      }
    case Poll(id, refresh, read, now) =>
      if id in s.watches {
        var w := s.watches[id].(lastActivity := now);
        PollKeeps(w, w.channels, read, refresh);
        ReplaceOk(s, id, PollAll(w, w.channels, read, refresh).watch, s.counter);
      }
    case Expire(now) => DropStaleOk(s, now);
  }

  /** In every reachable state at most 64 watches live, and each is well formed. */
  lemma {:induction false} ReachableOk(cmds: seq<Cmd>)
    ensures ServerOk(RunCmds(cmds))
  {
    hide After, ServerOk;
    if cmds == [] {
      EmptyOk();
    } else {
      ReachableOk(cmds[..|cmds| - 1]);
      AfterOk(RunCmds(cmds[..|cmds| - 1]), cmds[|cmds| - 1]);
    }
  }

  lemma EmptyOk()
    ensures ServerOk(Server(map[], 0))
  {
  }

  // ----- Clients mirror the server -----

  /** Clients of live watches hold what the server remembers; names not yet given out have no
      client that holds anything. */
  ghost predicate Mirrored(cmds: seq<Cmd>) {
    var s := RunCmds(cmds);
    && (forall id :: id in s.watches ==> ClientView(cmds, id) == s.watches[id].lastValues)
    && (forall n {:trigger WatchName(n)} :: n > s.counter ==> ClientView(cmds, WatchName(n)) == map[])
  }

  lemma SubMirrorsStep(s: Server, c: Cmd, id: string, v: View)
    requires ServerOk(s) && c.Sub? && id in After(s, c).watches
    requires id in s.watches ==> v == s.watches[id].lastValues
    requires id !in s.watches ==> v == map[]
    ensures ClientStep(s, c, id, v) == After(s, c).watches[id].lastValues
  {
    hide Idle, SubAll, Existing, WatchName, ServerOk, WatchOk, Replay;
    var ws := DropStale(s.watches, c.now);
    var r := HandleSub(s, c.watchId, c.displayName, c.wanted, c.live, c.read, c.now);
    if r.1.Done? && r.1.value.watchId == id {
      var known := c.watchId.Some? && c.watchId.value in ws;
      if !known {
        NewNameIsFresh(s, s.counter + 1);
      }
      var w := if known then ws[id] else Watch(c.displayName.UnwrapOr(id), [], map[], c.now);
      SubMirrored(w.(lastActivity := c.now), Existing(c.wanted, c.live), c.read);
    }
  }

  lemma OtherMirrorsStep(s: Server, c: Cmd, id: string, v: View)
    requires !c.Sub? && id in After(s, c).watches
    requires id in s.watches && v == s.watches[id].lastValues
    ensures ClientStep(s, c, id, v) == After(s, c).watches[id].lastValues
  {
    if c.Poll? && c.id == id {
      var w := s.watches[id].(lastActivity := c.now);
      PollMirrored(w, w.channels, c.read, c.refresh);
    }
  }

  /** A command answered for a name leaves that name given out. */
  lemma UnusedNameUntouched(s: Server, c: Cmd, n: nat)
    requires ServerOk(s) && n > After(s, c).counter
    ensures ClientStep(s, c, WatchName(n), map[]) == map[]
  {
    hide SubAll, PollAll, Existing, Replay, DropStale, Forget;
    NewNameIsFresh(s, n);
    if c.Sub? {
      DropStaleOk(s, c.now);
      NewNameIsFresh(s.(watches := DropStale(s.watches, c.now)), n);
      var r := HandleSub(s, c.watchId, c.displayName, c.wanted, c.live, c.read, c.now);
      if r.1.Done? && r.1.value.watchId == WatchName(n) {
        WatchNameInjective(n, s.counter + 1);
      }
    }
  }

  lemma CountersGrow(s: Server, c: Cmd)
    ensures s.counter <= After(s, c).counter
    ensures forall id :: id in After(s, c).watches && id !in s.watches ==>
      c.Sub? && id == WatchName(s.counter + 1) && After(s, c).counter == s.counter + 1
  {
    hide SubAll, PollAll, Existing, WatchName;
  }

  /** For every run, a client that applies the replies of a live watch holds exactly the values
      the server remembers for it. */
  lemma {:induction false} ClientsMirror(cmds: seq<Cmd>)
    ensures Mirrored(cmds)
  {
    hide After, ClientStep, ServerOk, WatchName;
    if cmds != [] {
      var k := |cmds| - 1;
      var s, c := RunCmds(cmds[..k]), cmds[k];
      var t := RunCmds(cmds);
      ClientsMirror(cmds[..k]);
      ReachableOk(cmds[..k]);
      CountersGrow(s, c);
      forall id | id in t.watches
        ensures ClientView(cmds, id) == t.watches[id].lastValues
      {
        if c.Sub? {
          SubMirrorsStep(s, c, id, ClientView(cmds[..k], id));
        } else {
          OtherMirrorsStep(s, c, id, ClientView(cmds[..k], id));
        }
      }
      forall n {:trigger WatchName(n)} | n > t.counter
        ensures ClientView(cmds, WatchName(n)) == map[]
      {
        UnusedNameUntouched(s, c, n);
      }
    }
  }

  /** After a poll in any run, the client's view matches every reading the poll got, in status and
      within EPSILON, however many polls it skipped small changes in: there is no drift. */
  lemma ClientMatchesPoll(cmds: seq<Cmd>, id: string, refresh: bool, read: Oracle, now: Instant, i: nat)
    requires id in RunCmds(cmds).watches && i < |RunCmds(cmds).watches[id].channels| && read(i).Some?
    ensures Matches(ClientView(cmds + [Poll(id, refresh, read, now)], id), RunCmds(cmds).watches[id].channels[i], read(i).value)
  {
    hide RunCmds, ClientView, PollAll, ServerOk, Matches;
    var all := cmds + [Poll(id, refresh, read, now)];
    var w := RunCmds(cmds).watches[id].(lastActivity := now);
    ReachableOk(cmds);
    WatchesAreOk(RunCmds(cmds), id);
    PollMatches(w, w.channels, read, refresh, i);
    RunPoll(cmds, id, refresh, read, now);
    ClientsMirror(all);
  }

  lemma WatchesAreOk(s: Server, id: string)
    requires ServerOk(s) && id in s.watches
    ensures WatchOk(s.watches[id])
  {
  }

  lemma RunPoll(cmds: seq<Cmd>, id: string, refresh: bool, read: Oracle, now: Instant)
    requires id in RunCmds(cmds).watches
    ensures var w := RunCmds(cmds).watches[id].(lastActivity := now);
      var s := RunCmds(cmds + [Poll(id, refresh, read, now)]);
      id in s.watches && s.watches[id] == PollAll(w, w.channels, read, refresh).watch
  {
    hide PollAll;
    assert (cmds + [Poll(id, refresh, read, now)])[..|cmds|] == cmds;
  }

  // ----- The channel limit -----

  function ToSet(s: seq<ChannelId>): set<ChannelId> {
    set ch | ch in s
  }

  lemma {:induction false} DistinctSize(s: seq<ChannelId>)
    requires NoRepeats(s)
    ensures |ToSet(s)| == |s|
  {
    if s != [] {
      var k := |s| - 1;
      DistinctSize(s[..k]);
      assert ToSet(s) == ToSet(s[..k]) + {s[k]};
    }
  }

  /** The limit of 256 bounds one request, not the watch: a watch stays within it exactly when
      its old channels and the new ones of the request do. */
  lemma ChannelLimitIff(w: Watch, chans: seq<ChannelId>, read: Oracle)
    requires WatchOk(w)
    ensures |SubAll(w, chans, read).watch.channels| <= MAX_CHANNELS_PER_WATCH <==>
      |w.channels| + |ToSet(chans) - ToSet(w.channels)| <= MAX_CHANNELS_PER_WATCH
  {
    SubKeeps(w, chans, read);
    var r := SubAll(w, chans, read).watch;
    DistinctSize(w.channels);
    DistinctSize(r.channels);
    assert ToSet(r.channels) == ToSet(w.channels) + (ToSet(chans) - ToSet(w.channels));
  }

  lemma {:induction false} ExistingAll(wanted: seq<ChannelId>, live: set<ChannelId>)
    requires forall ch :: ch in wanted ==> ch in live
    ensures Existing(wanted, live) == wanted
  {
    if wanted != [] {
      ExistingAll(wanted[..|wanted| - 1], live);
    }
  }

  /** Subscribing a watch to live channels. */
  lemma SubAnswers(s: Server, id: Option<string>, name: Option<string>, wanted: seq<ChannelId>, live: set<ChannelId>, read: Oracle, now: Instant)
    requires |wanted| <= MAX_CHANNELS_PER_WATCH && forall ch :: ch in wanted ==> ch in live
    requires id.Some? ==> id.value in DropStale(s.watches, now)
    requires id.None? ==> |DropStale(s.watches, now)| < MAX_WATCHES
    ensures var wid := if id.Some? then id.value else WatchName(s.counter + 1);
      var w := if id.Some? then s.watches[wid] else Watch(name.UnwrapOr(wid), [], map[], now);
      var r := HandleSub(s, id, name, wanted, live, read, now);
      r.1.Done? && wid in r.0.watches && r.0.watches[wid] == SubAll(w.(lastActivity := now), wanted, read).watch
  {
    hide SubAll, WatchName, Existing;
    ExistingAll(wanted, live);
  }

  /** Two accepted requests can exceed it: 256 channels for a new watch, then one more for it. */
  lemma ChannelLimitExceeded(live: set<ChannelId>, first: Oracle, second: Oracle, now: Instant)
    requires forall ch :: 0 <= ch <= MAX_CHANNELS_PER_WATCH ==> ch in live
    ensures var a := Sub(None, None, seq(MAX_CHANNELS_PER_WATCH, i => i), live, first, now);
      var b := Sub(Some(WatchName(1)), None, [MAX_CHANNELS_PER_WATCH], live, second, now);
      WatchName(1) in RunCmds([a, b]).watches &&
      |RunCmds([a, b]).watches[WatchName(1)].channels| > MAX_CHANNELS_PER_WATCH
  {
    hide SubAll, WatchName, ServerOk, HandleSub;
    var chans := seq(MAX_CHANNELS_PER_WATCH, i => i);
    var a := Sub(None, None, chans, live, first, now);
    var b := Sub(Some(WatchName(1)), None, [MAX_CHANNELS_PER_WATCH], live, second, now);
    assert [a, b][..1] == [a] && [a][..0] == [];
    var s0, s1, s2 := RunCmds([]), RunCmds([a]), RunCmds([a, b]);
    assert s1 == After(s0, a) && s2 == After(s1, b);
    SubAnswers(s0, None, None, chans, live, first, now);
    var w0 := Watch(WatchName(1), [], map[], now);
    SubKeeps(w0, chans, first);
    var w1 := s1.watches[WatchName(1)];
    SubAnswers(s1, Some(WatchName(1)), None, [MAX_CHANNELS_PER_WATCH], live, second, now);
    SubKeeps(w1, [MAX_CHANNELS_PER_WATCH], second);
    var w2 := s2.watches[WatchName(1)];
    DistinctSize(w2.channels);
    DistinctSize(chans);
    assert ToSet(chans) + {MAX_CHANNELS_PER_WATCH} <= ToSet(w2.channels);
    SubsetSize(ToSet(chans) + {MAX_CHANNELS_PER_WATCH}, ToSet(w2.channels));
  }

  // ----- Rows, leases and refusals -----

  /** A poll answers with a row for a channel exactly when it could be read and is new to the client,
      differs in status or by more than EPSILON, or a refresh was asked for; the row is the reading. */
  lemma {:induction false} PollRowsExact(w: Watch, chans: seq<ChannelId>, read: Oracle, refresh: bool, i: nat)
    requires NoRepeats(chans) && i < |chans|
    ensures var rows := PollAll(w, chans, read, refresh).rows;
      var ch := chans[i];
      (forall row :: row in rows ==> row.channel in chans) &&
      (forall row :: row in rows && row.channel == ch ==> read(i) == Some(row.reading)) &&
      ((exists row :: row in rows && row.channel == ch) <==>
        read(i).Some? &&
        (refresh || ch !in w.lastValues || read(i).value.status != w.lastValues[ch].status ||
         Abs(read(i).value.cur - w.lastValues[ch].cur) > EPSILON))
  {
    var k := |chans| - 1;
    var p, s := PollAll(w, chans[..k], read, refresh), PollAll(w, chans, read, refresh);
    RowsInChannels(w, chans[..k], read, refresh);
    assert chans[k] !in chans[..k];
    if i < k {
      PollRowsExact(w, chans[..k], read, refresh, i);
      assert forall row: Row :: row.channel == chans[i] ==> (row in s.rows <==> row in p.rows);
    } else {
      PollLeavesOthers(w, chans[..k], read, refresh, chans[k]);
      assert forall row :: row in p.rows ==> row.channel != chans[k];
      if s.rows != p.rows {
        assert s.rows[|p.rows|] in s.rows;
      }
    }
  }

  lemma {:induction false} RowsInChannels(w: Watch, chans: seq<ChannelId>, read: Oracle, refresh: bool)
    ensures forall row :: row in PollAll(w, chans, read, refresh).rows ==> row.channel in chans
  {
    if chans != [] {
      RowsInChannels(w, chans[..|chans| - 1], read, refresh);
    }
  }

  /** Subscribing remembers the reading of every channel that could be read. */
  lemma {:induction false} SubMatches(w: Watch, chans: seq<ChannelId>, read: Oracle, i: nat)
    requires NoRepeats(chans) && i < |chans|
    ensures var v := SubAll(w, chans, read).watch.lastValues;
      if read(i).Some? then chans[i] in v && v[chans[i]] == Known(read(i).value.cur, read(i).value.status)
      else (chans[i] in v <==> chans[i] in w.lastValues)
  {
    var k := |chans| - 1;
    if i < k {
      SubMatches(w, chans[..k], read, i);
    } else {
      SubLeavesOthers(w, chans[..k], read, chans[k]);
    }
  }

  lemma {:induction false} SubLeavesOthers(w: Watch, chans: seq<ChannelId>, read: Oracle, ch: ChannelId)
    requires ch !in chans
    ensures ch in SubAll(w, chans, read).watch.lastValues <==> ch in w.lastValues
  {
    if chans != [] {
      SubLeavesOthers(w, chans[..|chans| - 1], read, ch);
    }
  }

  /** Unknown channels are left out of a subscription, the others kept. */
  lemma {:induction false} ExistingExact(wanted: seq<ChannelId>, live: set<ChannelId>)
    ensures forall ch :: ch in Existing(wanted, live) <==> ch in wanted && ch in live
  {
    if wanted != [] {
      ExistingExact(wanted[..|wanted| - 1], live);
      assert forall ch :: ch in wanted <==> ch in wanted[..|wanted| - 1] || ch == wanted[|wanted| - 1];
    }
  }

  /** A subscription is refused exactly for more than 256 channels, or for a watch that is not live
      while 64 are. */
  lemma SubRefusedIff(s: Server, id: Option<string>, name: Option<string>, wanted: seq<ChannelId>, live: set<ChannelId>, read: Oracle, now: Instant)
    ensures var ws := DropStale(s.watches, now);
      HandleSub(s, id, name, wanted, live, read, now).1.Error? <==>
        |wanted| > 256 || (|ws| >= 64 && !(id.Some? && id.value in ws))
  {
    hide DropStale, SubAll, Existing, WatchName;
  }

  /** Unsubscribing drops exactly the named channels with their values; closing drops the watch. */
  lemma UnsubDrops(s: Server, id: string, close: bool, gone: seq<ChannelId>)
    requires id in s.watches
    ensures var r := HandleUnsub(s, id, close, gone).0;
      (close ==> id !in r.watches) &&
      (!close ==>
        id in r.watches &&
        (forall ch :: ch in r.watches[id].channels <==> ch in s.watches[id].channels && ch !in gone) &&
        (forall ch :: ch in r.watches[id].lastValues <==> ch in s.watches[id].lastValues && ch !in gone))
  {
    RetainKeeps(s.watches[id].channels, gone);
  }

  /** Polling or subscribing renews the lease: the watch stays live for an hour of silence. */
  lemma LeaseRenewed(s: Server, c: Cmd, id: string, later: Instant)
    requires (c.Poll? && c.id == id && id in s.watches) ||
      (c.Sub? && HandleSub(s, c.watchId, c.displayName, c.wanted, c.live, c.read, c.now).1.Done? &&
       id == HandleSub(s, c.watchId, c.displayName, c.wanted, c.live, c.read, c.now).1.value.watchId)
    requires c.now <= later
    ensures id in After(s, c).watches
    ensures id in After(After(s, c), Expire(later)).watches <==> later - c.now < 3_601_000_000_000
  {
    hide SubAll, PollAll, Existing, DropStale, WatchName;
    if c.Poll? {
      PollKeepsActivity(s.watches[id].(lastActivity := c.now), s.watches[id].channels, c.read, c.refresh);
    } else {
      var ws := DropStale(s.watches, c.now);
      var known := c.watchId.Some? && c.watchId.value in ws;
      var w := if known then ws[id] else Watch(c.displayName.UnwrapOr(id), [], map[], c.now);
      SubKeepsActivity(w.(lastActivity := c.now), Existing(c.wanted, c.live), c.read);
    }
    ExpiredIff(After(s, c), id, later);
  }

  lemma ExpiredIff(s: Server, id: string, later: Instant)
    requires id in s.watches && s.watches[id].lastActivity <= later
    ensures id in After(s, Expire(later)).watches <==> later - s.watches[id].lastActivity < 3_601_000_000_000
  {
  }

  lemma {:induction false} PollKeepsActivity(w: Watch, chans: seq<ChannelId>, read: Oracle, refresh: bool)
    ensures PollAll(w, chans, read, refresh).watch.lastActivity == w.lastActivity
  {
    if chans != [] {
      PollKeepsActivity(w, chans[..|chans| - 1], read, refresh);
    }
  }

  lemma {:induction false} SubKeepsActivity(w: Watch, chans: seq<ChannelId>, read: Oracle)
    ensures SubAll(w, chans, read).watch.lastActivity == w.lastActivity
  {
    if chans != [] {
      SubKeepsActivity(w, chans[..|chans| - 1], read);
    }
  }

  /** Watches are named after the counter in hexadecimal. */
  lemma WatchNames()
    ensures WatchName(1) == "w-1" && WatchName(26) == "w-1a"
  {
    assert Hex(1) == "1";
    assert Hex(26) == "1a";
  }
}
