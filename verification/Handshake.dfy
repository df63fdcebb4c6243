/** The handshake's steps on the table of pending handshakes (witan/src/handshake.rs,
    witan/src/session.rs). Tables are values here; HandshakeManager is the object that holds one. */
module Handshake {
  import opened Bytes
  import opened Wrappers
  import opened Identity
  import opened Messages

  const SIG_CTX_HANDSHAKE := Ascii("WITAN_GOSSIP_HANDSHAKE_V1")
  const HANDSHAKE_TIMEOUT_MS := 10_000
  const FRESHNESS_MS := 30_000

  // ── Sessions ──────────────────────────────────────────────────────────────

  datatype SessionRecord = SessionRecord(
    sessionId: Text, peerAddr: Text, peerNodeId: Text, peerSigPublicKey: Buffer, transcriptHash: Digest,
    establishedAtMs: u64, isActive: bool)

  function DeriveSessionId(c: Primitives, secret: Digest, clientNonce: Digest, serverNonce: Digest,
                           kemCiphertext: bytes, nodeId: Text): Text
  {
    Hex(c.hkdf(secret + clientNonce + serverNonce + kemCiphertext + nodeId))
  }

  function TranscriptHash(c: Primitives, probe: bytes, ack: bytes, finish: bytes): Digest {
    c.sha256(probe + ack + finish)
  }

  function ServerMac(c: Primitives, secret: Digest, transcriptHash: Digest): Digest {
    c.hmac(secret, transcriptHash)
  }

  // ── Pending handshakes ────────────────────────────────────────────────────

  // The states a pending entry can be in: a client waiting for an Ack or a FinishAck, a server waiting
  // for a Finish.
  datatype HandshakeContext =
    | ProbeSent(clientNonce: Digest, probe: bytes, sentAtMs: u64)
    | FinishSent(clientNonce: Digest, serverNonce: Digest, kemCiphertext: Buffer, secret: Digest, probe: bytes,
                 ack: bytes, finish: bytes, serverSigKey: Buffer, serverNodeId: Text, sentAtMs: u64)
    | AckSent(clientNonce: Digest, serverNonce: Digest, probe: bytes, ack: bytes, sentAtMs: u64)

  type Pending = map<Text, HandshakeContext>

  // now.saturating_sub(since): a time in the future has age 0.
  function Age(now: u64, since: u64): u64 {
    if now >= since then now - since else 0
  }

  predicate IsTimedOut(ctx: HandshakeContext, nowMs: u64) {
    Age(nowMs, ctx.sentAtMs) > HANDSHAKE_TIMEOUT_MS
  }

  // What a step leaves pending, and what it returns.
  datatype Step<+T> = Step(pending: Pending, result: Result<T, GossipError>)

  datatype Reply = Reply(finishAck: bytes, session: SessionRecord)

  // ── The steps ─────────────────────────────────────────────────────────────

  // Client, 1.
  function BuildProbe(p: Pending, addr: Text, id: NodeIdentity, nonce: Digest, nowMs: u64): Step<bytes> {
    var probe := EncodeProbe(HandshakeProbe(HANDSHAKE_PROBE_MAGIC, 1, nonce, addr, id.nodeId, nowMs));
    Step(p[addr := ProbeSent(nonce, probe, nowMs)], Success(probe))
  }

  // The checks every incoming message passes first.
  function CheckHeader(magic: bytes, expected: bytes, version: byte, timestampMs: u64, nowMs: u64): Outcome<GossipError> {
    if magic != expected then Fail(HandshakeError(BadMagic))
    else if version != 1 then Fail(HandshakeError(BadVersion))
    else if Age(nowMs, timestampMs) > FRESHNESS_MS then Fail(HandshakeError(OutOfWindow))
    else Pass
  }

  function CheckProbe(b: bytes, nowMs: u64): Result<HandshakeProbe, GossipError> {
    match DecodeProbe(b)
    case None => Failure(HandshakeError(Undecodable))
    case Some(m) =>
      match CheckHeader(m.magic, HANDSHAKE_PROBE_MAGIC, m.version, m.timestampUnixMs, nowMs)
      case Fail(e) => Failure(e)
      case Pass => Success(m)
  }

  function CheckAck(b: bytes, nowMs: u64): Result<HandshakeAck, GossipError> {
    match DecodeAck(b)
    case None => Failure(HandshakeError(Undecodable))
    case Some(m) =>
      match CheckHeader(m.magic, HANDSHAKE_ACK_MAGIC, m.version, m.timestampUnixMs, nowMs)
      case Fail(e) => Failure(e)
      case Pass => if |m.sigKey| != SIG_PK_LEN then Failure(HandshakeError(BadPeerKeyLength)) else Success(m)
  }

  function CheckFinish(b: bytes, nowMs: u64): Result<HandshakeFinish, GossipError> {
    match DecodeFinish(b)
    case None => Failure(HandshakeError(Undecodable))
    case Some(m) =>
      match CheckHeader(m.magic, HANDSHAKE_FINISH_MAGIC, m.version, m.timestampUnixMs, nowMs)
      case Fail(e) => Failure(e)
      case Pass => if |m.clientSigKey| != SIG_PK_LEN then Failure(HandshakeError(BadPeerKeyLength)) else Success(m)
  }

  function CheckFinishAck(b: bytes, nowMs: u64): Result<HandshakeFinishAck, GossipError> {
    match DecodeFinishAck(b)
    case None => Failure(HandshakeError(Undecodable))
    case Some(m) =>
      match CheckHeader(m.magic, HANDSHAKE_FINISH_ACK_MAGIC, m.version, m.timestampUnixMs, nowMs)
      case Fail(e) => Failure(e)
      case Pass => Success(m)
  }

  // Server, 1.
  function AnswerProbe(c: Primitives, p: Pending, addr: Text, b: bytes, id: NodeIdentity, nonce: Digest, nowMs: u64)
    : Step<bytes>
  {
    match CheckProbe(b, nowMs)
    case Failure(e) => Step(p, Failure(e))
    case Success(m) =>
      match c.kemPublicJson(id.kemSeed)
      case None => Step(p, Failure(CryptoError))
      case Some(json) =>
        var ack := EncodeAck(HandshakeAck(HANDSHAKE_ACK_MAGIC, 1, m.clientNonce, nonce, json, id.SigKey(c),
                                          id.nodeId, nowMs));
        Step(p[addr := AckSent(m.clientNonce, nonce, b, ack, nowMs)], Success(ack))
  }

  // Client, 2.
  function AnswerAck(c: Primitives, p: Pending, addr: Text, b: bytes, id: NodeIdentity, random: Digest, nowMs: u64)
    : Step<bytes>
  {
    match CheckAck(b, nowMs)
    case Failure(e) => Step(p, Failure(e))
    case Success(m) =>
      if !(addr in p && p[addr].ProbeSent?) then Step(p, Failure(HandshakeError(NothingPending)))
      else if m.clientNonce != p[addr].clientNonce then Step(p, Failure(HandshakeError(NonceMismatch)))
      else
        match c.encapsulate(m.kemKeyJson, random)
        case None => Step(p, Failure(CryptoError))
        case Some(e) =>
          var finish := EncodeFinish(HandshakeFinish(HANDSHAKE_FINISH_MAGIC, 1, e.json, id.SigKey(c), id.nodeId, nowMs));
          Step(p[addr := FinishSent(m.clientNonce, m.serverNonce, e.serialized, e.secret, p[addr].probe, b, finish,
                                    m.sigKey, m.serverNodeId, nowMs)],
               Success(finish))
  }

  // The server's answer to a Finish it holds a matching entry for.
  function FinishReply(c: Primitives, ctx: HandshakeContext, addr: Text, b: bytes, m: HandshakeFinish,
                       id: NodeIdentity, nowMs: u64): Result<Reply, GossipError>
    requires ctx.AckSent?
  {
    match c.decapsulate(id.kemSeed, m.kemCiphertextJson)
    case None => Failure(CryptoError)
    case Some(d) =>
      var hash := TranscriptHash(c, ctx.probe, ctx.ack, b);
      var mac := ServerMac(c, d.secret, hash);
      var signature :- id.Sign(c, hash, SIG_CTX_HANDSHAKE);
      var sessionId := DeriveSessionId(c, d.secret, ctx.clientNonce, ctx.serverNonce, d.serialized, id.nodeId);
      Success(Reply(
        EncodeFinishAck(HandshakeFinishAck(HANDSHAKE_FINISH_ACK_MAGIC, 1, sessionId, hash, mac, signature, nowMs)),
        SessionRecord(sessionId, addr, m.clientNodeId, m.clientSigKey, hash, nowMs, true)))
  }

  // Server, 2. The pending entry is gone as soon as it has been looked up, whatever its role.
  function AnswerFinish(c: Primitives, p: Pending, addr: Text, b: bytes, id: NodeIdentity, nowMs: u64): Step<Reply> {
    match CheckFinish(b, nowMs)
    case Failure(e) => Step(p, Failure(e))
    case Success(m) =>
      if !(addr in p && p[addr].AckSent?) then Step(p - {addr}, Failure(HandshakeError(NothingPending)))
      else Step(p - {addr}, FinishReply(c, p[addr], addr, b, m, id, nowMs))
  }

  // The client's verdict on a FinishAck it holds a matching entry for.
  function Confirm(c: Primitives, ctx: HandshakeContext, addr: Text, m: HandshakeFinishAck, nowMs: u64)
    : Result<SessionRecord, GossipError>
    requires ctx.FinishSent?
  {
    var hash := TranscriptHash(c, ctx.probe, ctx.ack, ctx.finish);
    if m.transcriptHash != hash then Failure(HandshakeError(TranscriptMismatch))
    else if m.serverMac != ServerMac(c, ctx.secret, hash) then Failure(HandshakeError(BadMac))
    else
      var valid :- VerifyExternal(c, ctx.serverSigKey, m.transcriptHash, m.transcriptSignature, SIG_CTX_HANDSHAKE);
      if !valid then Failure(HandshakeError(BadTranscriptSignature))
      else Success(SessionRecord(m.sessionId, addr, ctx.serverNodeId, ctx.serverSigKey, m.transcriptHash, nowMs, true))
  }

  // Client, 3. The pending entry is gone as soon as it has been looked up, whatever its role.
  function AnswerFinishAck(c: Primitives, p: Pending, addr: Text, b: bytes, nowMs: u64): Step<SessionRecord> {
    match CheckFinishAck(b, nowMs)
    case Failure(e) => Step(p, Failure(e))
    case Success(m) =>
      if !(addr in p && p[addr].FinishSent?) then Step(p - {addr}, Failure(HandshakeError(NothingPending)))
      else Step(p - {addr}, Confirm(c, p[addr], addr, m, nowMs))
  }

  // The addresses whose handshakes are over ten seconds old.
  function TimedOut(p: Pending, nowMs: u64): set<Text> {
    set addr | addr in p && IsTimedOut(p[addr], nowMs)
  }

  function Evict(p: Pending, nowMs: u64): Pending {
    p - TimedOut(p, nowMs)
  }
}
