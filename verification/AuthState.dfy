/** Handshake tokens and sessions. Random tokens and nonces and the clock are parameters. */
module AuthState {
  import opened EngineTypes
  import opened Text
  import opened Scram

  const SESSION_LIFETIME_SECS: nat := 86_400

  datatype Session = Session(token: string, username: string, expiresAt: Instant)

  type Sessions = map<string, Session>

  predicate SessionExpired(s: Session, now: Instant) {
    now >= s.expiresAt
  }

  // ----- Sessions -----

  function DropExpired(sessions: Sessions, now: Instant): Sessions {
    map t | t in sessions && !SessionExpired(sessions[t], now) :: sessions[t]
  }

  predicate Oldest(sessions: Sessions, t: string) {
    t in sessions && forall u :: u in sessions ==> sessions[t].expiresAt <= sessions[u].expiresAt
  }

  /** What is left when a session has to be added: at capacity the expired ones go, and if that
      is not enough, `victim` goes too. */
  function MakeRoom(sessions: Sessions, max: nat, now: Instant, victim: string): Sessions {
    var kept := if |sessions| >= max then DropExpired(sessions, now) else sessions;
    if |kept| >= max then kept - {victim} else kept
  }

  function NewSession(token: string, username: string, now: Instant): Session {
    Session(token, username, now + SESSION_LIFETIME_SECS * NANOS_PER_SEC)
  }

  /** The victim, when one is needed, is an oldest session. */
  ghost predicate FairVictim(sessions: Sessions, max: nat, now: Instant, victim: string) {
    var kept := if |sessions| >= max then DropExpired(sessions, now) else sessions;
    |kept| >= max && kept != map[] ==> Oldest(kept, victim)
  }

  lemma {:induction false} OldestExists(sessions: Sessions, keys: set<string>) returns (t: string)
    requires keys != {} && keys <= sessions.Keys
    ensures t in keys && forall u :: u in keys ==> sessions[t].expiresAt <= sessions[u].expiresAt
    decreases keys
  {
    t :| t in keys;
    if keys != {t} {
      var u := OldestExists(sessions, keys - {t});
      if sessions[u].expiresAt <= sessions[t].expiresAt {
        t := u;
      }
    }
  }

  lemma DropExpiredIs(sessions: Sessions, kept: Sessions, now: Instant)
    requires forall t :: t in kept <==> t in sessions && now < sessions[t].expiresAt
    requires forall t :: t in kept ==> kept[t] == sessions[t]
    ensures kept == DropExpired(sessions, now)
  {
  }

  lemma DropExpiredSmaller(sessions: Sessions, now: Instant)
    ensures |DropExpired(sessions, now)| <= |sessions|
  {
    assert DropExpired(sessions, now).Keys <= sessions.Keys;
    SubsetSize(DropExpired(sessions, now).Keys, sessions.Keys);
  }

  lemma MakeRoomSize(sessions: Sessions, max: nat, now: Instant, victim: string)
    requires FairVictim(sessions, max, now, victim) && |sessions| <= max && max >= 1
    ensures |MakeRoom(sessions, max, now, victim)| < max
  {
    DropExpiredSmaller(sessions, now);
    var kept := if |sessions| >= max then DropExpired(sessions, now) else sessions;
    if |kept| >= max {
      assert kept.Keys == (kept - {victim}).Keys + {victim};
    }
  }

  /** Adding a session never takes a store with room for one beyond its limit. */
  lemma AddKeepsLimit(sessions: Sessions, max: nat, now: Instant, victim: string, token: string, username: string)
    requires FairVictim(sessions, max, now, victim) && |sessions| <= max && max >= 1
    ensures |MakeRoom(sessions, max, now, victim)[token := NewSession(token, username, now)]| <= max
  {
    MakeRoomSize(sessions, max, now, victim);
    var room := MakeRoom(sessions, max, now, victim);
    var added := room[token := NewSession(token, username, now)];
    assert added.Keys == room.Keys + {token};
  }

  class SessionStore {
    var sessions: Sessions
    const maxSessions: nat

    constructor (max: nat)
      ensures sessions == map[] && maxSessions == max
    {
      sessions := map[];
      maxSessions := max;
    }

    method ExpireStale(now: Instant)
      modifies this
      ensures forall t :: t in sessions <==> t in old(sessions) && now < old(sessions)[t].expiresAt
      ensures forall t :: t in sessions ==> sessions[t] == old(sessions)[t]
    {
      sessions := DropExpired(sessions, now);
    }

    method CreateSession(username: string, token: string, now: Instant) returns (s: Session, victim: string)
      modifies this
      ensures FairVictim(old(sessions), maxSessions, now, victim)
      ensures s == NewSession(token, username, now)
      ensures sessions == MakeRoom(old(sessions), maxSessions, now, victim)[token := s]
      ensures maxSessions >= 1 && |old(sessions)| <= maxSessions ==> |sessions| <= maxSessions
    {
      hide DropExpired;
      victim := "";
      if |sessions| >= maxSessions {
        ExpireStale(now);
        DropExpiredIs(old(sessions), sessions, now);
      }
      if |sessions| >= maxSessions && sessions != map[] {
        ghost var w := OldestExists(sessions, sessions.Keys);
        assert Oldest(sessions, w);
        victim :| Oldest(sessions, victim);
        sessions := sessions - {victim};
      }
      s := NewSession(token, username, now);
      if maxSessions >= 1 && |old(sessions)| <= maxSessions {
        AddKeepsLimit(old(sessions), maxSessions, now, victim, token, username);
      }
      sessions := sessions[token := s];
    }

    method ValidateToken(token: string, now: Instant) returns (s: Option<Session>)
      ensures s.Some? <==> token in sessions && !SessionExpired(sessions[token], now)
      ensures s.Some? ==> s.value == sessions[token]
    {
      s := if token in sessions && !SessionExpired(sessions[token], now) then Some(sessions[token]) else None;
    }
  }

  // ----- The whole authentication state -----

  type Handshakes = map<string, Handshake>

  datatype Auth = Auth(handshakes: Handshakes, sessions: Sessions)

  datatype Setup = Setup(crypto: Crypto, credentials: map<string, Credential>, maxSessions: nat)

  datatype Event =
    | Begin(clientFirst: string, serverNonce: string, token: string, at: Instant)
    | Complete(token: string, clientFinal: string, sessionToken: string, victim: string, at: Instant)
    | Cleanup(at: Instant)

  function DropStaleHandshakes(hs: Handshakes, now: Instant): Handshakes {
    map t | t in hs && !HandshakeExpired(hs[t], now) :: hs[t]
  }

  function BeginHandshake(u: Setup, clientFirst: string, serverNonce: string, now: Instant): Result<Handshake> {
    match ParseClientFirst(clientFirst)
    case Error(e) => Error(e)
    case Done(f) =>
      if f.username !in u.credentials then Error("unknown user")
      else Done(Handshake(f.username, f.nonce, serverNonce, f.bare, u.credentials[f.username], now))
  }

  function AfterBegin(u: Setup, a: Auth, clientFirst: string, serverNonce: string, token: string, now: Instant): Auth {
    match BeginHandshake(u, clientFirst, serverNonce, now)
    case Error(_) => a
    case Done(h) => a.(handshakes := DropStaleHandshakes(a.handshakes, now)[token := h])
  }

  /** The verification a completing call makes, if its handshake token is live. */
  function Checked(u: Setup, a: Auth, token: string, clientFinal: string, now: Instant): Result<string> {
    if token !in a.handshakes then Error("invalid or expired handshake token")
    else Verify(u.crypto, a.handshakes[token], clientFinal, now)
  }

  function AfterComplete(u: Setup, a: Auth, token: string, clientFinal: string, sessionToken: string, victim: string, now: Instant): Auth {
    var hs := a.handshakes - {token};
    if Checked(u, a, token, clientFinal, now).Error? then a.(handshakes := hs)
    else
      Auth(hs, MakeRoom(a.sessions, u.maxSessions, now, victim)[sessionToken :=
        NewSession(sessionToken, a.handshakes[token].username, now)])
  }

  function After(u: Setup, a: Auth, e: Event): Auth {
    match e
    case Begin(m, nonce, token, now) => AfterBegin(u, a, m, nonce, token, now)
    case Complete(token, m, st, victim, now) => AfterComplete(u, a, token, m, st, victim, now)
    case Cleanup(now) => Auth(DropStaleHandshakes(a.handshakes, now), DropExpired(a.sessions, now))
  }

  class Authenticator {
    var handshakes: Handshakes
    const sessions: SessionStore
    const setup: Setup

    ghost function View(): Auth
      reads this, sessions
    {
      Auth(handshakes, sessions.sessions)
    }

    ghost predicate Valid()
      reads this, sessions
    {
      sessions.maxSessions == setup.maxSessions
    }

    constructor (u: Setup)
      ensures Valid() && fresh(sessions) && setup == u && View() == Auth(map[], map[])
    {
      setup := u;
      handshakes := map[];
      sessions := new SessionStore(u.maxSessions);
    }

    method BeginScram(clientFirst: string, serverNonce: string, token: string, now: Instant) returns (r: Result<(string, string)>)
      requires Valid()
      modifies this
      ensures Valid() && View() == After(setup, old(View()), Begin(clientFirst, serverNonce, token, now))
      ensures r.Done? <==> BeginHandshake(setup, clientFirst, serverNonce, now).Done?
      ensures r.Done? ==> token in handshakes && r.value == (token, ServerFirst(setup.crypto, handshakes[token]))
    {
      var parsed := ParseClientFirstLoop(clientFirst);
      if parsed.Error? {
        return Error(parsed.message);
      }
      var f := parsed.value;
      if f.username !in setup.credentials {
        return Error("unknown user");
      }
      var h := Handshake(f.username, f.nonce, serverNonce, f.bare, setup.credentials[f.username], now);
      var serverFirst := ServerFirst(setup.crypto, h);
      handshakes := DropStaleHandshakes(handshakes, now);
      handshakes := handshakes[token := h];
      r := Done((token, serverFirst));
    }

    method CompleteScram(token: string, clientFinal: string, sessionToken: string, now: Instant)
        returns (r: Result<(string, string)>, victim: string)
      requires Valid()
      modifies this, sessions
      ensures Valid() && (r.Done? ==> FairVictim(old(View()).sessions, setup.maxSessions, now, victim))
      ensures View() == After(setup, old(View()), Complete(token, clientFinal, sessionToken, victim, now))
      ensures r.Done? <==> Checked(setup, old(View()), token, clientFinal, now).Done?
      ensures r.Done? ==> r.value == (sessionToken, Checked(setup, old(View()), token, clientFinal, now).value)
    {
      victim := "";
      if token !in handshakes {
        assert handshakes - {token} == handshakes;
        return Error("invalid or expired handshake token"), victim;
      }
      var h := handshakes[token];
      handshakes := handshakes - {token};
      var v := Verify(setup.crypto, h, clientFinal, now);
      if v.Error? {
        return Error(v.message), victim;
      }
      var s, w := sessions.CreateSession(h.username, sessionToken, now);
      return Done((s.token, v.value)), w;
    }
  }

  // ----- Runs -----

  function RunEvents(u: Setup, events: seq<Event>): Auth {
    if events == [] then Auth(map[], map[]) else After(u, RunEvents(u, events[..|events| - 1]), events[|events| - 1])
  }

  /** Event `e` opens a session in state `a`. */
  predicate LogsIn(u: Setup, a: Auth, e: Event) {
    e.Complete? && Checked(u, a, e.token, e.clientFinal, e.at).Done?
  }

  /** Whenever a run adds a session to a full store, an oldest session makes room. */
  ghost predicate FairRun(u: Setup, events: seq<Event>) {
    forall k :: 0 <= k < |events| && LogsIn(u, RunEvents(u, events[..k]), events[k]) ==>
      FairVictim(RunEvents(u, events[..k]).sessions, u.maxSessions, events[k].at, events[k].victim)
  }

  lemma FairPrefix(u: Setup, events: seq<Event>, k: nat)
    requires FairRun(u, events) && k <= |events|
    ensures FairRun(u, events[..k])
  {
    forall j | 0 <= j < k
      ensures events[..k][..j] == events[..j]
    {
    }
  }

  /** In every reachable state the session store is within its limit. */
  lemma {:induction false} SessionLimit(u: Setup, events: seq<Event>)
    requires u.maxSessions >= 1 && FairRun(u, events)
    ensures |RunEvents(u, events).sessions| <= u.maxSessions
  {
    if events != [] {
      var k := |events| - 1;
      FairPrefix(u, events, k);
      SessionLimit(u, events[..k]);
      var a, e := RunEvents(u, events[..k]), events[k];
      match e
      case Begin(_, _, _, _) =>
      case Cleanup(now) => DropExpiredSmaller(a.sessions, now);
      case Complete(token, _, st, victim, now) =>
        if LogsIn(u, a, e) {
          AddKeepsLimit(a.sessions, u.maxSessions, now, victim, st, a.handshakes[token].username);
        }
    }
  }

  /** How often handshake token `t` was issued. */
  ghost function Issued(u: Setup, events: seq<Event>, t: string): nat {
    if events == [] then 0
    else
      var e := events[|events| - 1];
      Issued(u, events[..|events| - 1], t) +
      (if e.Begin? && e.token == t && BeginHandshake(u, e.clientFirst, e.serverNonce, e.at).Done? then 1 else 0)
  }

  /** How often a final message was checked against handshake token `t`. */
  ghost function Attempts(u: Setup, events: seq<Event>, t: string): nat {
    if events == [] then 0
    else
      var k := |events| - 1;
      Attempts(u, events[..k], t) +
      (if events[k].Complete? && events[k].token == t && t in RunEvents(u, events[..k]).handshakes then 1 else 0)
  }

  /** How many sessions token `t` produced. */
  ghost function Logins(u: Setup, events: seq<Event>, t: string): nat {
    if events == [] then 0
    else
      var k := |events| - 1;
      var e := events[k];
      Logins(u, events[..k], t) +
      (if e.Complete? && e.token == t && Checked(u, RunEvents(u, events[..k]), t, e.clientFinal, e.at).Done? then 1 else 0)
  }

  /** Each issue of a handshake token allows one check of a final message, right or wrong, so a
      token issued once yields at most one session, and a failed check uses it up. */
  lemma {:induction false} SingleUse(u: Setup, events: seq<Event>, t: string)
    ensures Logins(u, events, t) <= Attempts(u, events, t)
    ensures Attempts(u, events, t) + (if t in RunEvents(u, events).handshakes then 1 else 0) <= Issued(u, events, t)
  {
    hide Verify, BeginHandshake;
    if events != [] {
      SingleUse(u, events[..|events| - 1], t);
    }
  }

  /** Event `k` of the run was a successful check that opened session `st` for `user`. */
  ghost predicate Opened(u: Setup, events: seq<Event>, k: nat, st: string, user: string) {
    k < |events| && events[k].Complete? && events[k].sessionToken == st &&
    var a, e := RunEvents(u, events[..k]), events[k];
    Checked(u, a, e.token, e.clientFinal, e.at).Done? && a.handshakes[e.token].username == user
  }

  lemma OpenedExtends(u: Setup, events: seq<Event>, n: nat, k: nat, st: string, user: string)
    requires n <= |events| && Opened(u, events[..n], k, st, user)
    ensures Opened(u, events, k, st, user)
  {
    assert events[..n][..k] == events[..k];
  }

  /** Every live session was opened by an accepted proof for its user. */
  lemma {:induction false} SessionsAreEarned(u: Setup, events: seq<Event>, st: string)
    requires st in RunEvents(u, events).sessions
    ensures exists k :: Opened(u, events, k, st, RunEvents(u, events).sessions[st].username)
  {
    hide Verify, BeginHandshake;
    var k := |events| - 1;
    var a, e := RunEvents(u, events[..k]), events[k];
    var user := RunEvents(u, events).sessions[st].username;
    if e.Complete? && Checked(u, a, e.token, e.clientFinal, e.at).Done? && e.sessionToken == st {
      assert Opened(u, events, k, st, user);
    } else {
      SessionsAreEarned(u, events[..k], st);
      var j :| Opened(u, events[..k], j, st, user);
      OpenedExtends(u, events, k, j, st, user);
    }
  }

  // ----- An honest login from start to finish -----

  /** The completing half of an honest login, from any state that holds the handshake. */
  lemma HonestCompletion(u: Setup, a: Auth, username: string, password: string, nonce: string, serverNonce: string,
      token: string, t0: Instant, b: Auth, sessionToken: string, victim: string, t1: Instant)
    requires Base64(u.crypto) && NoComma(username) && NoComma(nonce) && NoComma(serverNonce)
    requires username in u.credentials
    requires var c := u.credentials[username];
      c.iterations <= U32_MAX && c == FromPassword(u.crypto, c.username, password, c.salt, c.iterations)
    requires var bare := ClientFirstBare(username, nonce);
      var begun := After(u, a, Begin("n,," + bare, serverNonce, token, t0));
      token in begun.handshakes && token in b.handshakes && b.handshakes[token] == begun.handshakes[token]
    requires Since(t1, t0) / NANOS_PER_SEC < HANDSHAKE_TIMEOUT_SECS
    ensures var h := b.handshakes[token];
      var m := ClientFinalMessage(u.crypto, password, nonce, ClientFirstBare(username, nonce), ServerFirst(u.crypto, h));
      m.Done? &&
      var after := After(u, b, Complete(token, m.value, sessionToken, victim, t1));
      sessionToken in after.sessions && after.sessions[sessionToken] == NewSession(sessionToken, username, t1) &&
      token !in after.handshakes
  {
    hide Verify, ClientFinalMessage, ServerFirst, ParseClientFirst, MakeRoom;
    var bare := ClientFirstBare(username, nonce);
    ClientFirstRecovered(username, nonce);
    var h := Handshake(username, nonce, serverNonce, bare, u.credentials[username], t0);
    assert BeginHandshake(u, "n,," + bare, serverNonce, t0) == Done(h);
    Completeness(u.crypto, password, h, t1);
  }

  /** The event uses another token and does not clear out the handshake as stale. */
  predicate Spares(e: Event, token: string, h: Handshake) {
    (e.Cleanup? || e.token != token) && (e.Complete? || !HandshakeExpired(h, e.at))
  }

  lemma RunMore(u: Setup, events: seq<Event>, e: Event)
    ensures RunEvents(u, events + [e]) == After(u, RunEvents(u, events), e)
  {
    hide After;
    assert (events + [e])[..|events|] == events;
  }

  lemma SparedStep(u: Setup, a: Auth, e: Event, token: string, h: Handshake)
    requires token in a.handshakes && a.handshakes[token] == h && Spares(e, token, h)
    ensures token in After(u, a, e).handshakes && After(u, a, e).handshakes[token] == h
  {
    hide Verify, BeginHandshake;
  }

  lemma {:induction false} HandshakeStays(u: Setup, before: seq<Event>, between: seq<Event>, token: string, h: Handshake)
    requires token in RunEvents(u, before).handshakes && RunEvents(u, before).handshakes[token] == h
    requires forall k :: 0 <= k < |between| ==> Spares(between[k], token, h)
    ensures var b := RunEvents(u, before + between); token in b.handshakes && b.handshakes[token] == h
  {
    hide RunEvents, After, Spares;
    if between == [] {
      assert before + between == before;
    } else {
      var k := |between| - 1;
      HandshakeStays(u, before, between[..k], token, h);
      assert before + between == before + between[..k] + [between[k]];
      RunMore(u, before + between[..k], between[k]);
      SparedStep(u, RunEvents(u, before + between[..k]), between[k], token, h);
    }
  }

  /** For a comma-free name and nonces, any password, salt and iteration count, and any run: once the
      client's first message is taken, and whatever else happens with other tokens while the
      handshake is not stale, the honest final message in time opens a session for that user. */
  lemma HonestLogin(u: Setup, before: seq<Event>, between: seq<Event>, username: string, password: string, nonce: string,
      serverNonce: string, token: string, t0: Instant, sessionToken: string, victim: string, t1: Instant)
    requires Base64(u.crypto) && NoComma(username) && NoComma(nonce) && NoComma(serverNonce)
    requires username in u.credentials
    requires var c := u.credentials[username];
      c.iterations <= U32_MAX && c == FromPassword(u.crypto, c.username, password, c.salt, c.iterations)
    requires var h := Handshake(username, nonce, serverNonce, ClientFirstBare(username, nonce), u.credentials[username], t0);
      !HandshakeExpired(h, t1) && forall k :: 0 <= k < |between| ==> Spares(between[k], token, h)
    ensures var bare := ClientFirstBare(username, nonce);
      var h := Handshake(username, nonce, serverNonce, bare, u.credentials[username], t0);
      var m := ClientFinalMessage(u.crypto, password, nonce, bare, ServerFirst(u.crypto, h));
      m.Done? &&
      var run := before + [Begin("n,," + bare, serverNonce, token, t0)] + between;
      var after := RunEvents(u, run + [Complete(token, m.value, sessionToken, victim, t1)]);
      sessionToken in after.sessions && after.sessions[sessionToken] == NewSession(sessionToken, username, t1) &&
      token !in after.handshakes
  {
    hide Verify, ClientFinalMessage, ServerFirst, ParseClientFirst, MakeRoom, Base64, FromPassword, RunEvents, Spares;
    var bare := ClientFirstBare(username, nonce);
    var h := Handshake(username, nonce, serverNonce, bare, u.credentials[username], t0);
    var begin := Begin("n,," + bare, serverNonce, token, t0);
    ClientFirstRecovered(username, nonce);
    assert BeginHandshake(u, "n,," + bare, serverNonce, t0) == Done(h);
    RunMore(u, before, begin);
    var a := RunEvents(u, before);
    assert After(u, a, begin).handshakes[token] == h;
    HandshakeStays(u, before + [begin], between, token, h);
    var run := before + [begin] + between;
    HonestCompletion(u, a, username, password, nonce, serverNonce, token, t0, RunEvents(u, run), sessionToken, victim, t1);
    var m := ClientFinalMessage(u.crypto, password, nonce, bare, ServerFirst(u.crypto, h));
    RunMore(u, run, Complete(token, m.value, sessionToken, victim, t1));
  }

  /** The session limit needs room for one: with a limit of 0, the run of one honest login exceeds it. */
  lemma ZeroLimitExceeded(u: Setup, username: string, password: string, nonce: string, serverNonce: string,
      token: string, sessionToken: string, victim: string, now: Instant)
    requires u.maxSessions == 0 && Base64(u.crypto) && NoComma(username) && NoComma(nonce) && NoComma(serverNonce)
    requires username in u.credentials
    requires var c := u.credentials[username];
      c.iterations <= U32_MAX && c == FromPassword(u.crypto, c.username, password, c.salt, c.iterations)
    ensures var bare := ClientFirstBare(username, nonce);
      var h := Handshake(username, nonce, serverNonce, bare, u.credentials[username], now);
      var m := ClientFinalMessage(u.crypto, password, nonce, bare, ServerFirst(u.crypto, h));
      m.Done? &&
      var events := [Begin("n,," + bare, serverNonce, token, now), Complete(token, m.value, sessionToken, victim, now)];
      |RunEvents(u, events).sessions| > u.maxSessions
  {
    hide Verify, ClientFinalMessage, ServerFirst, ParseClientFirst, MakeRoom, Base64, FromPassword;
    var bare := ClientFirstBare(username, nonce);
    var h := Handshake(username, nonce, serverNonce, bare, u.credentials[username], now);
    var begin := Begin("n,," + bare, serverNonce, token, now);
    ClientFirstRecovered(username, nonce);
    assert BeginHandshake(u, "n,," + bare, serverNonce, now) == Done(h);
    var b := After(u, Auth(map[], map[]), begin);
    assert b.handshakes[token] == h;
    HonestCompletion(u, Auth(map[], map[]), username, password, nonce, serverNonce, token, now, b, sessionToken, victim, now);
    var m := ClientFinalMessage(u.crypto, password, nonce, bare, ServerFirst(u.crypto, h));
    var complete := Complete(token, m.value, sessionToken, victim, now);
    TwoEvents(u, begin, complete);
    assert sessionToken in RunEvents(u, [begin, complete]).sessions;
  }

  lemma TwoEvents(u: Setup, a: Event, b: Event)
    ensures RunEvents(u, [a, b]) == After(u, After(u, Auth(map[], map[]), a), b)
  {
    hide After;
    assert [a, b][..1] == [a] && [a][..0] == [];
    assert RunEvents(u, [a]) == After(u, Auth(map[], map[]), a);
  }

  // ----- What goes, and when -----

  /** A session is valid for a day from its login. */
  lemma SessionLife(token: string, username: string, login: Instant, now: Instant)
    ensures SessionExpired(NewSession(token, username, login), now) <==> now >= login + 86_400_000_000_000
    ensures NewSession(token, username, login).token == token && NewSession(token, username, login).username == username
  {
  }

  /** Making room takes sessions only at capacity, and then only expired ones and the victim. */
  lemma MakeRoomTakes(sessions: Sessions, max: nat, now: Instant, victim: string, t: string)
    requires t in sessions
    ensures var kept := MakeRoom(sessions, max, now, victim);
      (t in kept ==> kept[t] == sessions[t]) &&
      (t !in kept ==> |sessions| >= max && (SessionExpired(sessions[t], now) || t == victim))
  {
  }

  /** No stale handshake is left after a login begins or a clean-up, nor a stale session after the
      clean-up; fresh ones stay. */
  lemma StaleOnesGo(u: Setup, a: Auth, e: Event)
    requires e.Cleanup? || (e.Begin? && BeginHandshake(u, e.clientFirst, e.serverNonce, e.at).Done?)
    ensures var b := After(u, a, e);
      (forall t :: t in b.handshakes ==> !HandshakeExpired(b.handshakes[t], e.at)) &&
      (forall t :: t in a.handshakes && !HandshakeExpired(a.handshakes[t], e.at) ==> t in b.handshakes) &&
      (e.Cleanup? ==> forall t :: t in b.sessions <==> t in a.sessions && !SessionExpired(a.sessions[t], e.at))
  {
    hide ParseClientFirst;
  }

  /** A login begins exactly for a well-formed first message of a known user, with that user's
      credential, its nonce and its text. */
  lemma BeginsIff(u: Setup, clientFirst: string, serverNonce: string, now: Instant)
    ensures var r, f := BeginHandshake(u, clientFirst, serverNonce, now), ParseClientFirst(clientFirst);
      (r.Done? <==> f.Done? && f.value.username in u.credentials) &&
      (r.Done? ==> r.value == Handshake(f.value.username, f.value.nonce, serverNonce, clientFirst[3..],
        u.credentials[f.value.username], now))
  {
    hide Split, LastField;
  }
}
