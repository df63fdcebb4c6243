/** The object that holds a node's pending and completed handshakes (witan/src/handshake.rs,
    `HandshakeManager`). Each method is proved against the step of Handshake it performs. */
module Handshakes {
  import opened Bytes
  import opened Wrappers
  import opened Identity
  import opened Messages
  import opened Handshake
  import opened ConstantTime

  class HandshakeManager {
    var pending: map<Text, HandshakeContext>
    var completed: map<Text, SessionRecord>

    constructor ()
      ensures pending == map[] && completed == map[]
    {
      pending, completed := map[], map[];
    }

    method BuildProbe(addr: Text, id: NodeIdentity, nonce: Digest, nowMs: u64) returns (probe: bytes)
      modifies this`pending
      ensures Step(pending, Success(probe)) == Handshake.BuildProbe(old(pending), addr, id, nonce, nowMs)
    {
      probe := EncodeProbe(HandshakeProbe(HANDSHAKE_PROBE_MAGIC, 1, nonce, addr, id.nodeId, nowMs));
      pending := pending[addr := ProbeSent(nonce, probe, nowMs)];
    }

    method ProcessProbeBuildAck(c: Primitives, addr: Text, b: bytes, id: NodeIdentity, nonce: Digest, nowMs: u64)
      returns (r: Result<bytes, GossipError>)
      modifies this`pending
      ensures Step(pending, r) == AnswerProbe(c, old(pending), addr, b, id, nonce, nowMs)
    {
      var decoded := DecodeProbe(b);
      if decoded.None? {
        return Failure(HandshakeError(Undecodable));
      }
      var probe := decoded.value;
      if probe.magic != HANDSHAKE_PROBE_MAGIC {
        return Failure(HandshakeError(BadMagic));
      }
      if probe.version != 1 {
        return Failure(HandshakeError(BadVersion));
      }
      if Age(nowMs, probe.timestampUnixMs) > 30_000 {
        return Failure(HandshakeError(OutOfWindow));
      }
      var json := c.kemPublicJson(id.kemSeed);
      if json.None? {
        return Failure(CryptoError);
      }
      var ack := EncodeAck(HandshakeAck(HANDSHAKE_ACK_MAGIC, 1, probe.clientNonce, nonce, json.value, id.SigKey(c),
                                        id.nodeId, nowMs));
      pending := pending[addr := AckSent(probe.clientNonce, nonce, b, ack, nowMs)];
      return Success(ack);
    }

    method ProcessAckBuildFinish(c: Primitives, addr: Text, b: bytes, id: NodeIdentity, random: Digest, nowMs: u64)
      returns (r: Result<bytes, GossipError>)
      modifies this`pending
      ensures Step(pending, r) == AnswerAck(c, old(pending), addr, b, id, random, nowMs)
    {
      var decoded := DecodeAck(b);
      if decoded.None? {
        return Failure(HandshakeError(Undecodable));
      }
      var ack := decoded.value;
      if ack.magic != HANDSHAKE_ACK_MAGIC {
        return Failure(HandshakeError(BadMagic));
      }
      if ack.version != 1 {
        return Failure(HandshakeError(BadVersion));
      }
      if Age(nowMs, ack.timestampUnixMs) > 30_000 {
        return Failure(HandshakeError(OutOfWindow));
      }
      if |ack.sigKey| != 1952 {
        return Failure(HandshakeError(BadPeerKeyLength));
      }
      if addr !in pending || !pending[addr].ProbeSent? {
        return Failure(HandshakeError(NothingPending));
      }
      var entry := pending[addr];
      if ack.clientNonce != entry.clientNonce {
        return Failure(HandshakeError(NonceMismatch));
      }
      var e := c.encapsulate(ack.kemKeyJson, random);
      if e.None? {
        return Failure(CryptoError);
      }
      var finish := EncodeFinish(HandshakeFinish(HANDSHAKE_FINISH_MAGIC, 1, e.value.json, id.SigKey(c), id.nodeId, nowMs));
      pending := pending[addr := FinishSent(entry.clientNonce, ack.serverNonce, e.value.serialized, e.value.secret,
                                            entry.probe, b, finish, ack.sigKey, ack.serverNodeId, nowMs)];
      return Success(finish);
    }

    method ProcessFinishBuildFinishAck(c: Primitives, addr: Text, b: bytes, id: NodeIdentity, nowMs: u64)
      returns (r: Result<Reply, GossipError>)
      modifies this`pending
      ensures Step(pending, r) == AnswerFinish(c, old(pending), addr, b, id, nowMs)
    {
      var decoded := DecodeFinish(b);
      if decoded.None? {
        return Failure(HandshakeError(Undecodable));
      }
      var finish := decoded.value;
      if finish.magic != HANDSHAKE_FINISH_MAGIC {
        return Failure(HandshakeError(BadMagic));
      }
      if finish.version != 1 {
        return Failure(HandshakeError(BadVersion));
      }
      if Age(nowMs, finish.timestampUnixMs) > 30_000 {
        return Failure(HandshakeError(OutOfWindow));
      }
      if |finish.clientSigKey| != 1952 {
        return Failure(HandshakeError(BadPeerKeyLength));
      }
      var found := addr in pending && pending[addr].AckSent?;
      var entries := pending;
      pending := pending - {addr};
      if !found {
        return Failure(HandshakeError(NothingPending));
      }
      var entry := entries[addr];
      var d := c.decapsulate(id.kemSeed, finish.kemCiphertextJson);
      if d.None? {
        return Failure(CryptoError);
      }
      var hash := TranscriptHash(c, entry.probe, entry.ack, b);
      var mac := ServerMac(c, d.value.secret, hash);
      var signature := id.Sign(c, hash, SIG_CTX_HANDSHAKE);
      if signature.Failure? {
        return Failure(signature.error);
      }
      var sessionId := DeriveSessionId(c, d.value.secret, entry.clientNonce, entry.serverNonce, d.value.serialized,
                                       id.nodeId);
      var finishAck := EncodeFinishAck(HandshakeFinishAck(HANDSHAKE_FINISH_ACK_MAGIC, 1, sessionId, hash, mac,
                                                          signature.value, nowMs));
      return Success(Reply(finishAck, SessionRecord(sessionId, addr, finish.clientNodeId, finish.clientSigKey, hash,
                                                    nowMs, true)));
    }

    method ProcessFinishAck(c: Primitives, addr: Text, b: bytes, nowMs: u64)
      returns (r: Result<SessionRecord, GossipError>)
      modifies this`pending
      ensures Step(pending, r) == AnswerFinishAck(c, old(pending), addr, b, nowMs)
    {
      var decoded := DecodeFinishAck(b);
      if decoded.None? {
        return Failure(HandshakeError(Undecodable));
      }
      var finishAck := decoded.value;
      if finishAck.magic != HANDSHAKE_FINISH_ACK_MAGIC {
        return Failure(HandshakeError(BadMagic));
      }
      if finishAck.version != 1 {
        return Failure(HandshakeError(BadVersion));
      }
      if Age(nowMs, finishAck.timestampUnixMs) > 30_000 {
        return Failure(HandshakeError(OutOfWindow));
      }
      var found := addr in pending && pending[addr].FinishSent?;
      var entries := pending;
      pending := pending - {addr};
      if !found {
        return Failure(HandshakeError(NothingPending));
      }
      var entry := entries[addr];
      var expected := TranscriptHash(c, entry.probe, entry.ack, entry.finish);
      if finishAck.transcriptHash != expected {
        return Failure(HandshakeError(TranscriptMismatch));
      }
      var macOk := ConstantTimeEq(finishAck.serverMac, ServerMac(c, entry.secret, expected));
      if !macOk {
        return Failure(HandshakeError(BadMac));
      }
      var valid := VerifyExternal(c, entry.serverSigKey, finishAck.transcriptHash, finishAck.transcriptSignature,
                                  SIG_CTX_HANDSHAKE);
      if valid.Failure? {
        return Failure(valid.error);
      }
      if !valid.value {
        return Failure(HandshakeError(BadTranscriptSignature));
      }
      return Success(SessionRecord(finishAck.sessionId, addr, entry.serverNodeId, entry.serverSigKey,
                                   finishAck.transcriptHash, nowMs, true));
    }

    // Dispatch by magic; a completed session is kept under its address, replacing any earlier one.
    method ProcessIncoming(c: Primitives, addr: Text, b: bytes, id: NodeIdentity, random: Digest, nowMs: u64)
      returns (r: Result<bytes, GossipError>)
      modifies this
      ensures match ClassifyIncoming(b)
              case ProbeKind =>
                Step(pending, r) == AnswerProbe(c, old(pending), addr, b, id, random, nowMs) && completed == old(completed)
              case AckKind =>
                Step(pending, r) == AnswerAck(c, old(pending), addr, b, id, random, nowMs) && completed == old(completed)
              case FinishKind =>
                var s := AnswerFinish(c, old(pending), addr, b, id, nowMs);
                && pending == s.pending
                && (match s.result
                    case Success(reply) =>
                      r == Success(reply.finishAck) && completed == old(completed)[addr := reply.session]
                    case Failure(e) => r == Failure(e) && completed == old(completed))
              case FinishAckKind =>
                var s := AnswerFinishAck(c, old(pending), addr, b, nowMs);
                && pending == s.pending
                && (match s.result
                    case Success(session) => r == Success([]) && completed == old(completed)[addr := session]
                    case Failure(e) => r == Failure(e) && completed == old(completed))
              case EnvelopeKind =>
                r == Failure(HandshakeError(NotAHandshake)) && pending == old(pending) && completed == old(completed)
    {
      match ClassifyIncoming(b) {
        case ProbeKind =>
          r := ProcessProbeBuildAck(c, addr, b, id, random, nowMs);
        case AckKind =>
          r := ProcessAckBuildFinish(c, addr, b, id, random, nowMs);
        case FinishKind =>
          var reply := ProcessFinishBuildFinishAck(c, addr, b, id, nowMs);
          if reply.Failure? {
            return Failure(reply.error);
          }
          completed := completed[addr := reply.value.session];
          return Success(reply.value.finishAck);
        case FinishAckKind =>
          var session := ProcessFinishAck(c, addr, b, nowMs);
          if session.Failure? {
            return Failure(session.error);
          }
          completed := completed[addr := session.value];
          return Success([]);
        case EnvelopeKind =>
          return Failure(HandshakeError(NotAHandshake));
      }
    }

    method Remove(addr: Text)
      modifies this
      ensures pending == old(pending) - {addr} && completed == old(completed) - {addr}
    {
      pending := pending - {addr};
      completed := completed - {addr};
    }

    // Removes exactly the entries over ten seconds old and leaves the others as they are.
    method EvictTimedOut(nowMs: u64) returns (evicted: set<Text>)
      modifies this`pending
      ensures pending == Evict(old(pending), nowMs) && evicted == TimedOut(old(pending), nowMs)
      ensures forall addr :: addr in evicted <==> addr in old(pending) && Age(nowMs, old(pending)[addr].sentAtMs) > 10_000
      ensures forall addr :: addr in pending <==> addr in old(pending) && addr !in evicted
      ensures forall addr | addr in pending :: pending[addr] == old(pending)[addr]
    {
      evicted := set addr | addr in pending && IsTimedOut(pending[addr], nowMs);
      pending := map addr | addr in pending && !IsTimedOut(pending[addr], nowMs) :: pending[addr];
    }

    // A pending entry never holds a finished session, so taking one only drops the entry.
    method TakeSession(addr: Text) returns (s: Option<SessionRecord>)
      modifies this`pending
      ensures s == None && pending == old(pending) - {addr}
    {
      pending := pending - {addr};
      return None;
    }
  }
}
