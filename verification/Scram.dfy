/** The SCRAM-SHA-256 exchange (section 3 of RFC 5802). PBKDF2, HMAC, SHA-256 and base64 are
    arbitrary functions; of base64 only the round trip and a comma-free alphabet are used. */
module Scram {
  import opened EngineTypes
  import opened Text

  type Bytes = seq<bv8>

  type Digest = d: Bytes | |d| == 32 witness seq(32, _ => 0)

  datatype Crypto = Crypto(
    hi: (string, Bytes, nat) -> Digest,
    hmac: (Digest, string) -> Digest,
    sha256: Digest -> Digest,
    encode: Bytes -> string,
    decode: string -> Option<Bytes>)

  ghost predicate Base64(k: Crypto) {
    forall b :: k.decode(k.encode(b)) == Some(b) && NoComma(k.encode(b))
  }

  // ----- Credentials and handshakes -----

  datatype Credential = Credential(username: string, salt: Bytes, iterations: nat, storedKey: Digest, serverKey: Digest)

  function ClientKey(k: Crypto, password: string, salt: Bytes, iterations: nat): Digest {
    k.hmac(k.hi(password, salt, iterations), "Client Key")
  }

  function FromPassword(k: Crypto, username: string, password: string, salt: Bytes, iterations: nat): Credential {
    Credential(username, salt, iterations, k.sha256(ClientKey(k, password, salt, iterations)),
      k.hmac(k.hi(password, salt, iterations), "Server Key"))
  }

  datatype Handshake = Handshake(
    username: string, clientNonce: string, serverNonce: string, clientFirstBare: string,
    stored: Credential, createdAt: Instant)

  const HANDSHAKE_TIMEOUT_SECS: nat := 30

  predicate HandshakeExpired(h: Handshake, now: Instant) {
    Since(now, h.createdAt) / NANOS_PER_SEC >= HANDSHAKE_TIMEOUT_SECS
  }

  function Xor(a: Digest, b: Digest): Digest {
    seq(32, i requires 0 <= i < 32 => a[i] ^ b[i])
  }

  lemma XorUndoes(a: Digest, b: Digest)
    ensures Xor(Xor(a, b), b) == a
  {
    forall i | 0 <= i < 32
      ensures (a[i] ^ b[i]) ^ b[i] == a[i]
    {
    }
  }

  // ----- Messages -----

  datatype ClientFirst = ClientFirst(username: string, nonce: string, bare: string)

  function ParseClientFirst(msg: string): Result<ClientFirst> {
    if !("n,," <= msg) then Error("missing GS2 header")
    else
      var bare := msg[3..];
      var user, nonce := LastField(Split(bare), 'n'), LastField(Split(bare), 'r');
      if user.None? then Error("missing n=")
      else if nonce.None? then Error("missing r=")
      else Done(ClientFirst(user.value, nonce.value, bare))
  }

  function ServerFirst(k: Crypto, h: Handshake): string {
    "r=" + (h.clientNonce + h.serverNonce) + "," + ("s=" + k.encode(h.stored.salt) + "," + ("i=" + Decimal(h.stored.iterations)))
  }

  datatype ClientFinal = ClientFinal(nonce: string, proof: Bytes, withoutProof: string)

  function ParseClientFinal(k: Crypto, msg: string): Result<ClientFinal> {
    var parts := Split(msg);
    var binding, nonce, proof := LastField(parts, 'c'), LastField(parts, 'r'), LastField(parts, 'p');
    if binding.None? then Error("missing c=")
    else if nonce.None? then Error("missing r=")
    else if proof.None? then Error("missing p=")
    else
      var bytes := k.decode(proof.value);
      if bytes.None? then Error("invalid proof base64")
      else
        var at := RFind(msg, ",p=", |msg|);
        if at.None? then Error("missing ,p=")
        else Done(ClientFinal(nonce.value, bytes.value, msg[..at.value]))
  }

  function AuthMessage(bare: string, serverFirst: string, withoutProof: string): string {
    bare + "," + serverFirst + "," + withoutProof
  }

  /** The server's check of the client proof; on success, its own signature. */
  function Verify(k: Crypto, h: Handshake, msg: string, now: Instant): Result<string> {
    if HandshakeExpired(h, now) then Error("handshake expired")
    else
      match ParseClientFinal(k, msg)
      case Error(e) => Error(e)
      case Done(f) =>
        if f.nonce != h.clientNonce + h.serverNonce then Error("nonce mismatch")
        else
          var text := AuthMessage(h.clientFirstBare, ServerFirst(k, h), f.withoutProof);
          if |f.proof| != 32 then Error("invalid proof length")
          else if k.sha256(Xor(f.proof, k.hmac(h.stored.storedKey, text))) != h.stored.storedKey then
            Error("invalid client proof")
          else Done(k.encode(k.hmac(h.stored.serverKey, text)))
  }

  function ClientFirstBare(username: string, nonce: string): string {
    "n=" + username + "," + ("r=" + nonce)
  }

  /** The client's final message for a server-first message. */
  function ClientFinalMessage(k: Crypto, password: string, clientNonce: string, bare: string, serverFirst: string): Result<string> {
    var parts := Split(serverFirst);
    var nonce, salt64, iter := LastField(parts, 'r'), LastField(parts, 's'), LastField(parts, 'i');
    if exists i :: 0 <= i < |parts| && HasKey(parts[i], 'i') && ParseU32(parts[i][2..]).None? then Error("bad iteration count")
    else if nonce.None? then Error("missing r=")
    else if salt64.None? then Error("missing s=")
    else if iter.None? || ParseU32(iter.value).None? then Error("missing i=")
    else if !(clientNonce <= nonce.value) then Error("server nonce doesn't start with client nonce")
    else
      var salt := k.decode(salt64.value);
      if salt.None? then Error("bad salt base64")
      else
        var key := ClientKey(k, password, salt.value, ParseU32(iter.value).value);
        var withoutProof := "c=biws," + ("r=" + nonce.value);
        var signature := k.hmac(k.sha256(key), AuthMessage(bare, serverFirst, withoutProof));
        Done(withoutProof + ",p=" + k.encode(Xor(key, signature)))
  }

  // ----- The parsers as loops -----

  method ParseClientFirstLoop(msg: string) returns (r: Result<ClientFirst>)
    ensures r == ParseClientFirst(msg)
  {
    if !("n,," <= msg) {
      return Error("missing GS2 header");
    }
    var bare := msg[3..];
    var parts := Split(bare);
    var username: Option<string>, nonce: Option<string> := None, None;
    for i := 0 to |parts|
      invariant username == LastField(parts[..i], 'n') && nonce == LastField(parts[..i], 'r')
    {
      assert parts[..i + 1][..i] == parts[..i];
      if HasKey(parts[i], 'n') {
        username := Some(parts[i][2..]);
      } else if HasKey(parts[i], 'r') {
        nonce := Some(parts[i][2..]);
      }
    }
    assert parts[..|parts|] == parts;
    if username.None? {
      return Error("missing n=");
    }
    if nonce.None? {
      return Error("missing r=");
    }
    r := Done(ClientFirst(username.value, nonce.value, bare));
  }

  method ParseClientFinalLoop(k: Crypto, msg: string) returns (r: Result<ClientFinal>)
    ensures r == ParseClientFinal(k, msg)
  {
    var parts := Split(msg);
    var binding: Option<string>, nonce: Option<string>, proof: Option<string> := None, None, None;
    for i := 0 to |parts|
      invariant binding == LastField(parts[..i], 'c')
      invariant nonce == LastField(parts[..i], 'r') && proof == LastField(parts[..i], 'p')
    {
      assert parts[..i + 1][..i] == parts[..i];
      if HasKey(parts[i], 'c') {
        binding := Some(parts[i][2..]);
      } else if HasKey(parts[i], 'r') {
        nonce := Some(parts[i][2..]);
      } else if HasKey(parts[i], 'p') {
        proof := Some(parts[i][2..]);
      }
    }
    assert parts[..|parts|] == parts;
    if binding.None? {
      return Error("missing c=");
    }
    if nonce.None? {
      return Error("missing r=");
    }
    if proof.None? {
      return Error("missing p=");
    }
    var bytes := k.decode(proof.value);
    if bytes.None? {
      return Error("invalid proof base64");
    }
    var at := RFind(msg, ",p=", |msg|);
    if at.None? {
      return Error("missing ,p=");
    }
    r := Done(ClientFinal(nonce.value, bytes.value, msg[..at.value]));
  }

  // ----- The parsers recover what was written -----

  lemma NoCommaConcat(a: string, b: string)
    requires NoComma(a) && NoComma(b)
    ensures NoComma(a + b)
  {
  }

  lemma ClientFirstRecovered(username: string, nonce: string)
    requires NoComma(username) && NoComma(nonce)
    ensures var bare := ClientFirstBare(username, nonce);
      ParseClientFirst("n,," + bare) == Done(ClientFirst(username, nonce, bare))
  {
    var bare := ClientFirstBare(username, nonce);
    assert ("n,," + bare)[3..] == bare;
    var n, r := "n=" + username, "r=" + nonce;
    SplitCons(n, r);
    SplitOne(r);
    assert [n] + [r] == [n, r];
    LastFieldTwo(n, r, 'n');
    LastFieldTwo(n, r, 'r');
    assert n[2..] == username && r[2..] == nonce;
  }

  lemma ServerFirstFields(k: Crypto, h: Handshake)
    requires Base64(k) && NoComma(h.clientNonce) && NoComma(h.serverNonce) && h.stored.iterations <= U32_MAX
    ensures Split(ServerFirst(k, h)) ==
      ["r=" + (h.clientNonce + h.serverNonce), "s=" + k.encode(h.stored.salt), "i=" + Decimal(h.stored.iterations)]
  {
    hide Split;
    var r, s, i := "r=" + (h.clientNonce + h.serverNonce), "s=" + k.encode(h.stored.salt), "i=" + Decimal(h.stored.iterations);
    DecimalRoundTrip(h.stored.iterations);
    assert NoComma(r) && NoComma(s) && NoComma(i);
    SplitOne(i);
    SplitCons(s, i);
    SplitCons(r, s + "," + i);
    assert [r] + ([s] + [i]) == [r, s, i];
  }

  lemma ClientFinalRecovered(k: Crypto, nonce: string, proof: Bytes)
    requires Base64(k) && NoComma(nonce)
    ensures var head := "c=biws," + ("r=" + nonce);
      ParseClientFinal(k, head + ",p=" + k.encode(proof)) == Done(ClientFinal(nonce, proof, head))
  {
    hide Split;
    var head, e := "c=biws," + ("r=" + nonce), k.encode(proof);
    var msg := head + ",p=" + e;
    var c, r, p := "c=biws", "r=" + nonce, "p=" + e;
    assert NoComma(c) && NoComma(r) && NoComma(p);
    assert msg == c + "," + (r + "," + p);
    SplitOne(p);
    SplitCons(r, p);
    SplitCons(c, r + "," + p);
    assert [c] + ([r] + [p]) == [c, r, p];
    LastFieldThree(c, r, p, 'c');
    LastFieldThree(c, r, p, 'r');
    LastFieldThree(c, r, p, 'p');
    assert r[2..] == nonce && p[2..] == e;
    ProofFieldFound(head, e);
    assert msg[..|head|] == head;
  }

  // ----- Completeness and soundness -----

  lemma HonestFinalMessage(k: Crypto, password: string, h: Handshake)
    requires Base64(k) && NoComma(h.clientNonce) && NoComma(h.serverNonce) && h.stored.iterations <= U32_MAX
    ensures var nonce := h.clientNonce + h.serverNonce;
      var key := ClientKey(k, password, h.stored.salt, h.stored.iterations);
      var head := "c=biws," + ("r=" + nonce);
      var text := AuthMessage(h.clientFirstBare, ServerFirst(k, h), head);
      ClientFinalMessage(k, password, h.clientNonce, h.clientFirstBare, ServerFirst(k, h)) ==
        Done(head + ",p=" + k.encode(Xor(key, k.hmac(k.sha256(key), text))))
  {
    hide Split, Xor, AuthMessage, ClientKey;
    var nonce := h.clientNonce + h.serverNonce;
    var r, s, i := "r=" + nonce, "s=" + k.encode(h.stored.salt), "i=" + Decimal(h.stored.iterations);
    ServerFirstFields(k, h);
    DecimalRoundTrip(h.stored.iterations);
    LastFieldThree(r, s, i, 'r');
    LastFieldThree(r, s, i, 's');
    LastFieldThree(r, s, i, 'i');
    assert r[2..] == nonce && s[2..] == k.encode(h.stored.salt) && i[2..] == Decimal(h.stored.iterations);
    assert h.clientNonce <= nonce;
    var parts := [r, s, i];
    assert forall j :: 0 <= j < |parts| && HasKey(parts[j], 'i') ==> j == 2;
  }

  /** An honest client's final message is accepted while the handshake is fresh, and the reply
      proves to the client that the server holds the same text and key. */
  lemma Completeness(k: Crypto, password: string, h: Handshake, now: Instant)
    requires Base64(k) && NoComma(h.clientNonce) && NoComma(h.serverNonce) && h.stored.iterations <= U32_MAX
    requires h.stored == FromPassword(k, h.stored.username, password, h.stored.salt, h.stored.iterations)
    requires !HandshakeExpired(h, now)
    ensures var m := ClientFinalMessage(k, password, h.clientNonce, h.clientFirstBare, ServerFirst(k, h));
      m.Done? &&
      Verify(k, h, m.value, now) == Done(k.encode(k.hmac(h.stored.serverKey,
        AuthMessage(h.clientFirstBare, ServerFirst(k, h), "c=biws," + ("r=" + (h.clientNonce + h.serverNonce))))))
  {
    hide Split, ParseClientFinal, ClientFinalMessage, Xor, ServerFirst, AuthMessage, ClientKey;
    var nonce := h.clientNonce + h.serverNonce;
    var key := ClientKey(k, password, h.stored.salt, h.stored.iterations);
    var head := "c=biws," + ("r=" + nonce);
    var text := AuthMessage(h.clientFirstBare, ServerFirst(k, h), head);
    var signature := k.hmac(k.sha256(key), text);
    HonestFinalMessage(k, password, h);
    NoCommaConcat(h.clientNonce, h.serverNonce);
    ClientFinalRecovered(k, nonce, Xor(key, signature));
    XorUndoes(key, signature);
  }

  /** The proof in a message opens the stored key: it hides a key whose hash is that key. */
  ghost predicate OpensStoredKey(k: Crypto, h: Handshake, f: ClientFinal) {
    exists key: Digest ::
      k.sha256(key) == h.stored.storedKey &&
      f.proof == Xor(key, k.hmac(h.stored.storedKey, AuthMessage(h.clientFirstBare, ServerFirst(k, h), f.withoutProof)))
  }

  /** A message is accepted exactly when it is in time, parses, carries both nonces, and hides
      under the signature of this very exchange a preimage of the stored key. */
  lemma AcceptedIff(k: Crypto, h: Handshake, msg: string, now: Instant)
    ensures Verify(k, h, msg, now).Done? <==>
      !HandshakeExpired(h, now) &&
      var f := ParseClientFinal(k, msg);
      f.Done? && f.value.nonce == h.clientNonce + h.serverNonce && OpensStoredKey(k, h, f.value)
  {
    hide ParseClientFinal, ServerFirst, AuthMessage, Xor;
    var f := ParseClientFinal(k, msg);
    if f.Done? {
      var sig := k.hmac(h.stored.storedKey, AuthMessage(h.clientFirstBare, ServerFirst(k, h), f.value.withoutProof));
      if |f.value.proof| == 32 {
        XorUndoes(f.value.proof, sig);
        assert f.value.proof == Xor(Xor(f.value.proof, sig), sig);
      }
      forall key: Digest | f.value.proof == Xor(key, sig)
        ensures Xor(f.value.proof, sig) == key
      {
        XorUndoes(key, sig);
      }
    }
  }

  // ----- The exchange written out -----

  /** The fields of the client's first, the server's first and the client's final message. */
  ghost function SignedFields(k: Crypto, username: string, h: Handshake): seq<string> {
    ["n=" + username, "r=" + h.clientNonce] +
    ["r=" + (h.clientNonce + h.serverNonce), "s=" + k.encode(h.stored.salt), "i=" + Decimal(h.stored.iterations)] +
    ["c=biws", "r=" + (h.clientNonce + h.serverNonce)]
  }

  /** The text both sides sign, for an honest exchange: those fields, separated by commas. */
  ghost function SignedText(k: Crypto, username: string, h: Handshake): string {
    Join(SignedFields(k, username, h))
  }

  lemma AuthMessageIs(k: Crypto, username: string, h: Handshake)
    requires h.clientFirstBare == ClientFirstBare(username, h.clientNonce)
    ensures AuthMessage(h.clientFirstBare, ServerFirst(k, h), "c=biws," + ("r=" + (h.clientNonce + h.serverNonce))) ==
      SignedText(k, username, h)
  {
    hide Join;
    var n, r, both := "n=" + username, "r=" + h.clientNonce, "r=" + (h.clientNonce + h.serverNonce);
    var s, i := "s=" + k.encode(h.stored.salt), "i=" + Decimal(h.stored.iterations);
    JoinTwo(n, r);
    JoinTwo("c=biws", both);
    assert "c=biws," + both == "c=biws" + "," + both;
    JoinThree(both, s, i);
    JoinConcat([n, r], [both, s, i]);
    JoinConcat([n, r] + [both, s, i], ["c=biws", both]);
  }

  /** It splits back into exactly those fields. */
  lemma SignedTextSplits(k: Crypto, username: string, h: Handshake)
    requires Base64(k) && NoComma(username) && NoComma(h.clientNonce) && NoComma(h.serverNonce)
    requires h.stored.iterations <= U32_MAX
    ensures Split(SignedText(k, username, h)) == SignedFields(k, username, h)
  {
    hide Split, Join;
    DecimalRoundTrip(h.stored.iterations);
    var fields := SignedFields(k, username, h);
    assert |fields| == 7;
    forall i | 0 <= i < 7
      ensures NoComma(fields[i])
    {
    }
    SplitJoin(fields);
  }

  /** Bit by bit exclusive or of two digests. */
  ghost predicate IsXor(p: Bytes, a: Digest, b: Digest) {
    |p| == 32 && forall i :: 0 <= i < 32 ==> p[i] == a[i] ^ b[i]
  }

  /** The honest final message and the server's answer, key by key as in section 3 of RFC 5802. */
  lemma ExchangeWrittenOut(k: Crypto, username: string, password: string, h: Handshake, now: Instant) returns (proof: Bytes)
    requires Base64(k) && NoComma(h.clientNonce) && NoComma(h.serverNonce) && h.stored.iterations <= U32_MAX
    requires h.stored == FromPassword(k, h.stored.username, password, h.stored.salt, h.stored.iterations)
    requires h.clientFirstBare == ClientFirstBare(username, h.clientNonce) && !HandshakeExpired(h, now)
    ensures var salted := k.hi(password, h.stored.salt, h.stored.iterations);
      var key, text := k.hmac(salted, "Client Key"), SignedText(k, username, h);
      var m := ClientFinalMessage(k, password, h.clientNonce, h.clientFirstBare, ServerFirst(k, h));
      IsXor(proof, key, k.hmac(k.sha256(key), text)) &&
      m == Done("c=biws,r=" + h.clientNonce + h.serverNonce + ",p=" + k.encode(proof)) &&
      Verify(k, h, m.value, now) == Done(k.encode(k.hmac(k.hmac(salted, "Server Key"), text)))
  {
    hide ClientFinalMessage, Verify, ServerFirst, AuthMessage, SignedText, Xor;
    AuthMessageIs(k, username, h);
    HonestFinalMessage(k, password, h);
    Completeness(k, password, h, now);
    var key := ClientKey(k, password, h.stored.salt, h.stored.iterations);
    proof := Xor(key, k.hmac(k.sha256(key), SignedText(k, username, h)));
    XorBits(key, k.hmac(k.sha256(key), SignedText(k, username, h)));
    assert "c=biws," + ("r=" + (h.clientNonce + h.serverNonce)) == "c=biws,r=" + h.clientNonce + h.serverNonce;
  }

  lemma XorBits(a: Digest, b: Digest)
    ensures IsXor(Xor(a, b), a, b)
  {
  }

  /** A handshake lives for 30 seconds. */
  lemma HandshakeLife(h: Handshake, now: Instant)
    requires h.createdAt <= now
    ensures HandshakeExpired(h, now) <==> now - h.createdAt >= 30_000_000_000
  {
  }

  // ----- What the parsers refuse -----

  ghost predicate HasField(msg: string, key: char) {
    exists i :: 0 <= i < |Split(msg)| && |Split(msg)[i]| >= 2 && Split(msg)[i][0] == key && Split(msg)[i][1] == '='
  }

  lemma {:induction false} LastFieldIff(parts: seq<string>, key: char)
    ensures LastField(parts, key).Some? <==>
      exists i :: 0 <= i < |parts| && |parts[i]| >= 2 && parts[i][0] == key && parts[i][1] == '='
  {
    if parts != [] {
      var k := |parts| - 1;
      LastFieldIff(parts[..k], key);
      if HasKey(parts[k], key) {
        assert parts[k][0] == key;
      } else if LastField(parts[..k], key).Some? {
        var i :| 0 <= i < k && |parts[..k][i]| >= 2 && parts[..k][i][0] == key && parts[..k][i][1] == '=';
        assert parts[i] == parts[..k][i];
      }
      forall i | 0 <= i < |parts| && |parts[i]| >= 2 && parts[i][0] == key && parts[i][1] == '='
        ensures i == k || parts[..k][i] == parts[i]
      {
      }
    }
  }

  /** A first message needs the header `n,,`, a name and a nonce, and nothing else. */
  lemma FirstParsesIff(msg: string)
    ensures ParseClientFirst(msg).Done? <==>
      |msg| >= 3 && msg[..3] == "n,," && HasField(msg[3..], 'n') && HasField(msg[3..], 'r')
  {
    hide Split;
    assert "n,," <= msg <==> |msg| >= 3 && msg[..3] == "n,,";
    if |msg| >= 3 {
      LastFieldIff(Split(msg[3..]), 'n');
      LastFieldIff(Split(msg[3..]), 'r');
    }
  }

  /** A final message needs binding, nonce and a proof that decodes, the proof not in first place. */
  lemma FinalParsesIff(k: Crypto, msg: string)
    ensures ParseClientFinal(k, msg).Done? <==>
      HasField(msg, 'c') && HasField(msg, 'r') && HasField(msg, 'p') &&
      LastField(Split(msg), 'p').Some? && k.decode(LastField(Split(msg), 'p').value).Some? &&
      exists i :: 0 <= i <= |msg| && OccursAt(msg, ",p=", i)
  {
    hide Split;
    LastFieldIff(Split(msg), 'c');
    LastFieldIff(Split(msg), 'r');
    LastFieldIff(Split(msg), 'p');
  }

  /** A client answers no server whose nonce does not begin with its own. */
  lemma ClientChecksNonce(k: Crypto, password: string, clientNonce: string, bare: string, serverFirst: string)
    requires ClientFinalMessage(k, password, clientNonce, bare, serverFirst).Done?
    ensures var nonce := LastField(Split(serverFirst), 'r');
      nonce.Some? && |clientNonce| <= |nonce.value| && nonce.value[..|clientNonce|] == clientNonce
  {
    hide Split;
  }
}
