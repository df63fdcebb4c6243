/** What each handshake step demands and produces, in terms of the messages themselves and the cryptographic
    functions: when it succeeds, what the message it sends says, and what it leaves pending. */
module HandshakeOutcomes {
  import opened Bytes
  import opened Wrappers
  import opened Identity
  import opened Messages
  import opened Handshake

  // Every address but this one is as it was.
  ghost predicate OthersKept(before: Pending, after: Pending, addr: Text) {
    forall other | other != addr :: (other in after <==> other in before) && (other in after ==> after[other] == before[other])
  }

  // ── The checks of every message ───────────────────────────────────────────

  // The header is right: this magic, version 1, and no more than 30 s old.
  predicate HeaderRight(magic: bytes, expected: bytes, version: byte, timestampMs: u64, nowMs: u64) {
    magic == expected && version == 1 && nowMs - timestampMs <= 30_000
  }

  lemma HeaderCheckedExactly(magic: bytes, expected: bytes, version: byte, timestampMs: u64, nowMs: u64)
    ensures var checked := CheckHeader(magic, expected, version, timestampMs, nowMs);
            && (checked == Pass <==> HeaderRight(magic, expected, version, timestampMs, nowMs))
            && (checked == Fail(HandshakeError(BadMagic)) <==> magic != expected)
            && (checked == Fail(HandshakeError(BadVersion)) <==> magic == expected && version != 1)
  {
  }

  // Each check accepts exactly the message that the bytes decode to, when its header is right and the key it
  // carries, if it does, has the length of a signing key.
  lemma ProbeCheckedExactly(b: bytes, nowMs: u64, m: HandshakeProbe)
    ensures CheckProbe(b, nowMs) == Success(m) <==>
            DecodeProbe(b) == Some(m) && HeaderRight(m.magic, HANDSHAKE_PROBE_MAGIC, m.version, m.timestampUnixMs, nowMs)
  {
    hide DecodeProbe;
  }

  lemma AckCheckedExactly(b: bytes, nowMs: u64, m: HandshakeAck)
    ensures CheckAck(b, nowMs) == Success(m) <==>
            DecodeAck(b) == Some(m) && HeaderRight(m.magic, HANDSHAKE_ACK_MAGIC, m.version, m.timestampUnixMs, nowMs) &&
            |m.sigKey| == 1952
  {
    hide DecodeAck;
  }

  lemma FinishCheckedExactly(b: bytes, nowMs: u64, m: HandshakeFinish)
    ensures CheckFinish(b, nowMs) == Success(m) <==>
            DecodeFinish(b) == Some(m) && HeaderRight(m.magic, HANDSHAKE_FINISH_MAGIC, m.version, m.timestampUnixMs, nowMs) &&
            |m.clientSigKey| == 1952
  {
    hide DecodeFinish;
  }

  lemma FinishAckCheckedExactly(b: bytes, nowMs: u64, m: HandshakeFinishAck)
    ensures CheckFinishAck(b, nowMs) == Success(m) <==>
            DecodeFinishAck(b) == Some(m) &&
            HeaderRight(m.magic, HANDSHAKE_FINISH_ACK_MAGIC, m.version, m.timestampUnixMs, nowMs)
  {
    hide DecodeFinishAck;
  }

  // ── Client, 1 ─────────────────────────────────────────────────────────────

  // The probe announces its own nonce, id and time, and the entry that waits for the answer holds that nonce
  // and that time.
  lemma ProbeSays(p: Pending, addr: Text, id: NodeIdentity, nonce: Digest, nowMs: u64)
    ensures var s := BuildProbe(p, addr, id, nonce, nowMs);
            && s.result.Success?
            && DecodeProbe(s.result.value) ==
               Some(HandshakeProbe(HANDSHAKE_PROBE_MAGIC, 1, nonce, addr, id.nodeId, nowMs))
            && addr in s.pending && s.pending[addr] == ProbeSent(nonce, s.result.value, nowMs)
            && OthersKept(p, s.pending, addr)
  {
    hide EncodeProbe, DecodeProbe;
    var m := HandshakeProbe(HANDSHAKE_PROBE_MAGIC, 1, nonce, addr, id.nodeId, nowMs);
    ProbeRoundTrip(m, []);
    assert EncodeProbe(m) + [] == EncodeProbe(m);
  }

  // ── Server, 1 ─────────────────────────────────────────────────────────────

  // A probe is answered exactly when it passes its checks. The ack echoes the client's nonce with one of the
  // server's, and carries its KEM key, signing key and id; the entry holds both nonces and both messages.
  lemma ProbeAnswered(c: Primitives, p: Pending, addr: Text, b: bytes, id: NodeIdentity, nonce: Digest, nowMs: u64)
    ensures var s := AnswerProbe(c, p, addr, b, id, nonce, nowMs);
            && (s.result.Success? <==> CheckProbe(b, nowMs).Success? && c.kemPublicJson(id.kemSeed).Some?)
            && (s.result.Failure? ==> s.pending == p)
            && (s.result.Success? ==>
                  var probe := CheckProbe(b, nowMs).value;
                  && DecodeAck(s.result.value) ==
                     Some(HandshakeAck(HANDSHAKE_ACK_MAGIC, 1, probe.clientNonce, nonce,
                                       c.kemPublicJson(id.kemSeed).value, c.sigPublic(id.sigSeed), id.nodeId, nowMs))
                  && addr in s.pending
                  && s.pending[addr] == AckSent(probe.clientNonce, nonce, b, s.result.value, nowMs)
                  && OthersKept(p, s.pending, addr))
  {
    hide EncodeAck, DecodeAck, CheckProbe;
    if CheckProbe(b, nowMs).Success? && c.kemPublicJson(id.kemSeed).Some? {
      var m := HandshakeAck(HANDSHAKE_ACK_MAGIC, 1, CheckProbe(b, nowMs).value.clientNonce, nonce,
                            c.kemPublicJson(id.kemSeed).value, c.sigPublic(id.sigSeed), id.nodeId, nowMs);
      AckRoundTrip(m, []);
      assert EncodeAck(m) + [] == EncodeAck(m);
    }
  }

  // ── Client, 2 ─────────────────────────────────────────────────────────────

  // An ack is answered exactly when it passes its checks, echoes the nonce of a probe sent to that address,
  // and its KEM key can be encapsulated to. The finish carries the ciphertext and the client's key and id; the
  // entry holds the nonces, ciphertext and secret, all three messages, and the server's key and id.
  lemma AckAnswered(c: Primitives, p: Pending, addr: Text, b: bytes, id: NodeIdentity, random: Digest, nowMs: u64)
    ensures var s, checked := AnswerAck(c, p, addr, b, id, random, nowMs), CheckAck(b, nowMs);
            && (s.result.Success? <==>
                && checked.Success? && addr in p && p[addr].ProbeSent?
                && checked.value.clientNonce == p[addr].clientNonce
                && c.encapsulate(checked.value.kemKeyJson, random).Some?)
            && (s.result.Failure? ==> s.pending == p)
            && (s.result.Success? ==>
                  var ack, e := checked.value, c.encapsulate(checked.value.kemKeyJson, random).value;
                  && DecodeFinish(s.result.value) ==
                     Some(HandshakeFinish(HANDSHAKE_FINISH_MAGIC, 1, e.json, c.sigPublic(id.sigSeed), id.nodeId, nowMs))
                  && addr in s.pending
                  && s.pending[addr] == FinishSent(ack.clientNonce, ack.serverNonce, e.serialized, e.secret,
                                                   p[addr].probe, b, s.result.value, ack.sigKey, ack.serverNodeId, nowMs)
                  && OthersKept(p, s.pending, addr))
  {
    hide EncodeFinish, DecodeFinish, CheckAck;
    if AnswerAck(c, p, addr, b, id, random, nowMs).result.Success? {
      var e := c.encapsulate(CheckAck(b, nowMs).value.kemKeyJson, random).value;
      var m := HandshakeFinish(HANDSHAKE_FINISH_MAGIC, 1, e.json, c.sigPublic(id.sigSeed), id.nodeId, nowMs);
      FinishRoundTrip(m, []);
      assert EncodeFinish(m) + [] == EncodeFinish(m);
    }
  }

  // ── Server, 2 ─────────────────────────────────────────────────────────────

  // A finish is answered exactly when it passes its checks, the address has an answered probe, its ciphertext
  // decapsulates and the transcript hash can be signed. The finish ack proves the secret by its MAC and the
  // signing key by its signature, both over the hash of the three messages; the session repeats its id and
  // hash.
  lemma FinishAnswered(c: Primitives, p: Pending, addr: Text, b: bytes, id: NodeIdentity, nowMs: u64)
    ensures var s, checked := AnswerFinish(c, p, addr, b, id, nowMs), CheckFinish(b, nowMs);
            && s.pending == (if checked.Success? then p - {addr} else p)
            && (s.result.Success? <==>
                && checked.Success? && addr in p && p[addr].AckSent?
                && c.decapsulate(id.kemSeed, checked.value.kemCiphertextJson).Some?
                && c.sign(id.sigSeed, Tagged(SIG_CTX_HANDSHAKE, c.sha256(p[addr].probe + p[addr].ack + b))).Some?)
            && (s.result.Success? ==>
                  var m, e := checked.value, p[addr];
                  var d := c.decapsulate(id.kemSeed, m.kemCiphertextJson).value;
                  var hash := c.sha256(e.probe + e.ack + b);
                  var sessionId := Hex(c.hkdf(d.secret + e.clientNonce + e.serverNonce + d.serialized + id.nodeId));
                  && DecodeFinishAck(s.result.value.finishAck) ==
                     Some(HandshakeFinishAck(HANDSHAKE_FINISH_ACK_MAGIC, 1, sessionId, hash, c.hmac(d.secret, hash),
                                             c.sign(id.sigSeed, Tagged(SIG_CTX_HANDSHAKE, hash)).value, nowMs))
                  && s.result.value.session ==
                     SessionRecord(sessionId, addr, m.clientNodeId, m.clientSigKey, hash, nowMs, true))
  {
    hide EncodeFinishAck, DecodeFinishAck, CheckFinish, Tagged, Hex;
    var s, checked := AnswerFinish(c, p, addr, b, id, nowMs), CheckFinish(b, nowMs);
    if s.result.Success? {
      var e, d := p[addr], c.decapsulate(id.kemSeed, checked.value.kemCiphertextJson).value;
      var hash := c.sha256(e.probe + e.ack + b);
      var sessionId := Hex(c.hkdf(d.secret + e.clientNonce + e.serverNonce + d.serialized + id.nodeId));
      var m := HandshakeFinishAck(HANDSHAKE_FINISH_ACK_MAGIC, 1, sessionId, hash, c.hmac(d.secret, hash),
                                  c.sign(id.sigSeed, Tagged(SIG_CTX_HANDSHAKE, hash)).value, nowMs);
      FinishAckRoundTrip(m, []);
      assert EncodeFinishAck(m) + [] == EncodeFinishAck(m);
    }
  }

  // ── Client, 3 ─────────────────────────────────────────────────────────────

  // A finish ack completes the handshake exactly when it passes its checks, a finish was sent to the address,
  // it has the hash of the three messages, its MAC is that hash's under the shared secret, and its signature
  // of that hash verifies under the key in the server's ack.
  lemma FinishAckAcceptedExactly(c: Primitives, p: Pending, addr: Text, b: bytes, nowMs: u64)
    ensures var s, checked := AnswerFinishAck(c, p, addr, b, nowMs), CheckFinishAck(b, nowMs);
            && s.pending == (if checked.Success? then p - {addr} else p)
            && (s.result.Success? <==>
                && checked.Success? && addr in p && p[addr].FinishSent?
                && var m, e := checked.value, p[addr];
                   var hash := c.sha256(e.probe + e.ack + e.finish);
                   && m.transcriptHash == hash && m.serverMac == c.hmac(e.secret, hash)
                   && c.verify(e.serverSigKey, Tagged(SIG_CTX_HANDSHAKE, hash), m.transcriptSignature) == Valid)
            && (s.result.Success? ==>
                  s.result.value ==
                  SessionRecord(checked.value.sessionId, addr, p[addr].serverNodeId, p[addr].serverSigKey,
                                c.sha256(p[addr].probe + p[addr].ack + p[addr].finish), nowMs, true))
  {
    hide CheckFinishAck, Tagged;
  }

  // The faults of the last step, in the program's order.
  lemma FinishAckRefusedExactly(c: Primitives, p: Pending, addr: Text, b: bytes, nowMs: u64)
    requires CheckFinishAck(b, nowMs).Success? && addr in p && p[addr].FinishSent?
    ensures var r, m, e := AnswerFinishAck(c, p, addr, b, nowMs).result, CheckFinishAck(b, nowMs).value, p[addr];
            var hash := c.sha256(e.probe + e.ack + e.finish);
            && (r == Failure(HandshakeError(TranscriptMismatch)) <==> m.transcriptHash != hash)
            && (r == Failure(HandshakeError(BadMac)) <==>
                m.transcriptHash == hash && m.serverMac != c.hmac(e.secret, hash))
  {
    hide CheckFinishAck, Tagged;
  }

  // ── Session ids ───────────────────────────────────────────────────────────

  // A session id pins the secret, both nonces, the ciphertext and the server's id, for ciphertexts of one
  // length, unless the key derivation collides.
  lemma SessionIdPins(c: Primitives, s1: Digest, c1: Digest, n1: Digest, k1: bytes, id1: Text,
                      s2: Digest, c2: Digest, n2: Digest, k2: bytes, id2: Text)
    requires |k1| == |k2|
    requires DeriveSessionId(c, s1, c1, n1, k1, id1) == DeriveSessionId(c, s2, c2, n2, k2, id2)
    ensures var i1, i2 := s1 + c1 + n1 + k1 + id1, s2 + c2 + n2 + k2 + id2;
            (s1 == s2 && c1 == c2 && n1 == n2 && k1 == k2 && id1 == id2) || (i1 != i2 && c.hkdf(i1) == c.hkdf(i2))
  {
    hide Hex, ValidUtf8;
    var i1, i2 := s1 + c1 + n1 + k1 + id1, s2 + c2 + n2 + k2 + id2;
    HexInjective(c.hkdf(i1), c.hkdf(i2));
    if i1 == i2 {
      assert s1 == i1[..32] && s2 == i2[..32];
      assert c1 == i1[32..64] && c2 == i2[32..64];
      assert n1 == i1[64..96] && n2 == i2[64..96];
      assert k1 == i1[96..96 + |k1|] && k2 == i2[96..96 + |k1|];
      assert id1 == i1[96 + |k1|..] && id2 == i2[96 + |k1|..];
    }
  }
}
