/** What the handshake does not authenticate: the session id of a FinishAck and the names in a Finish. When
    nevertheless the two sides of a handshake carry one session id, and what each record can claim. */
module SessionIds {
  import opened Bytes
  import opened Wrappers
  import opened Identity
  import opened Messages
  import opened Handshake
  import opened HandshakeRuns
  import opened HandshakeAgreement

  // ── What is taken unchecked ───────────────────────────────────────────────

  // Neither the MAC nor the signature of a FinishAck covers its session id: a client that accepts one would
  // accept it with any other id, and carry that id.
  lemma SessionIdUnchecked(c: Primitives, p: Pending, addr: Text, m: HandshakeFinishAck, t: Text, nowMs: u64)
    requires AnswerFinishAck(c, p, addr, EncodeFinishAck(m), nowMs).result.Success?
    ensures var step := AnswerFinishAck(c, p, addr, EncodeFinishAck(m), nowMs);
            && step.result.value.sessionId == m.sessionId
            && AnswerFinishAck(c, p, addr, EncodeFinishAck(m.(sessionId := t)), nowMs) ==
               Step(step.pending, Success(step.result.value.(sessionId := t)))
  {
    hide EncodeFinishAck, DecodeFinishAck, TranscriptHash, ServerMac, ValidUtf8;
    FinishAckRoundTrip(m, []);
    FinishAckRoundTrip(m.(sessionId := t), []);
    assert EncodeFinishAck(m) + [] == EncodeFinishAck(m);
    assert EncodeFinishAck(m.(sessionId := t)) + [] == EncodeFinishAck(m.(sessionId := t));
  }

  // A Finish is not signed: the server's session names the id and the key the Finish claims, and a server
  // that answers one would answer it with any other id and any other key of the right length.
  lemma ServerNamesTheClaim(c: Primitives, p: Pending, addr: Text, m: HandshakeFinish, id: NodeIdentity, nowMs: u64,
                            name: Text, key: Buffer)
    requires SignsCorrectly(c, id.sigSeed) && |key| == SIG_PK_LEN
    requires AnswerFinish(c, p, addr, EncodeFinish(m), id, nowMs).result.Success?
    ensures var session := AnswerFinish(c, p, addr, EncodeFinish(m), id, nowMs).result.value.session;
            session.peerNodeId == m.clientNodeId && session.peerSigPublicKey == m.clientSigKey
    ensures var other := AnswerFinish(c, p, addr, EncodeFinish(m.(clientNodeId := name, clientSigKey := key)), id, nowMs);
            && other.result.Success?
            && other.result.value.session.peerNodeId == name && other.result.value.session.peerSigPublicKey == key
  {
    hide EncodeFinish, DecodeFinish, EncodeFinishAck, TranscriptHash, ServerMac, DeriveSessionId, ValidUtf8;
    var m' := m.(clientNodeId := name, clientSigKey := key);
    FinishRoundTrip(m, []);
    FinishRoundTrip(m', []);
    assert EncodeFinish(m) + [] == EncodeFinish(m) && EncodeFinish(m') + [] == EncodeFinish(m');
    SignSucceeds(c, id, TranscriptHash(c, p[addr].probe, p[addr].ack, EncodeFinish(m')));
  }

  lemma SignSucceeds(c: Primitives, id: NodeIdentity, message: bytes)
    requires SignsCorrectly(c, id.sigSeed)
    ensures id.Sign(c, message, SIG_CTX_HANDSHAKE).Success?
  {
    assert c.sign(id.sigSeed, Tagged(SIG_CTX_HANDSHAKE, message)).Some?;
  }

  // ── Where the two sides' values come from ─────────────────────────────────

  ghost predicate ProbeCarries(probe: bytes, nonce: Digest) {
    exists m :: probe == EncodeProbe(m) && m.clientNonce == nonce
  }

  // A client's entries hold the nonce of its Probe; its FinishSent entry repeats its Ack and holds what it
  // encapsulated for its Finish; a server's entry holds the nonces of its Ack.
  ghost predicate EntryDerived(c: Primitives, ctx: HandshakeContext) {
    match ctx
    case ProbeSent(clientNonce, probe, _) => ProbeCarries(probe, clientNonce)
    case FinishSent(clientNonce, serverNonce, kemCiphertext, secret, probe, ack, finish, serverSigKey, serverNodeId, _) =>
      && ProbeCarries(probe, clientNonce)
      && DecodeAck(ack).Some? && DecodeFinish(finish).Some?
      && var m, f := DecodeAck(ack).value, DecodeFinish(finish).value;
         && clientNonce == m.clientNonce && serverNonce == m.serverNonce
         && serverNodeId == m.serverNodeId && serverSigKey == m.sigKey
         && exists random: Digest ::
              c.encapsulate(m.kemKeyJson, random) == Some(Encapsulation(f.kemCiphertextJson, kemCiphertext, secret))
    case AckSent(clientNonce, serverNonce, _, ack, _) =>
      && DecodeAck(ack).Some?
      && clientNonce == DecodeAck(ack).value.clientNonce && serverNonce == DecodeAck(ack).value.serverNonce
  }

  ghost predicate PendingDerived(c: Primitives, p: Pending) {
    forall addr | addr in p :: EntryDerived(c, p[addr])
  }

  // The server derived its session id from its Ack, and from what it decapsulated from the Finish; the names
  // in its session are those of the Finish.
  ghost predicate ServedDerived(c: Primitives, s: Served) {
    && DecodeAck(s.ack).Some? && DecodeFinish(s.finish).Some?
    && var m, f := DecodeAck(s.ack).value, DecodeFinish(s.finish).value;
       && s.session.peerNodeId == f.clientNodeId && s.session.peerSigPublicKey == f.clientSigKey
       && match c.decapsulate(s.identity.kemSeed, f.kemCiphertextJson)
          case None => false
          case Some(d) =>
            s.session.sessionId ==
            DeriveSessionId(c, d.secret, m.clientNonce, m.serverNonce, d.serialized, s.identity.nodeId)
  }

  ghost predicate WorldDerived(c: Primitives, w: World) {
    && (forall i | 0 <= i < |w.nodes| :: PendingDerived(c, w.nodes[i].pending))
    && (forall s | s in w.served :: ServedDerived(c, s))
  }

  lemma AnswerProbeDerived(c: Primitives, p: Pending, addr: Text, b: bytes, id: NodeIdentity, d: Digest, nowMs: u64)
    requires PendingDerived(c, p)
    ensures PendingDerived(c, AnswerProbe(c, p, addr, b, id, d, nowMs).pending)
  {
    hide EncodeAck, DecodeAck, CheckProbe, DecodeFinish, ProbeCarries, ValidUtf8;
    if AnswerProbe(c, p, addr, b, id, d, nowMs).result.Success? {
      var json := c.kemPublicJson(id.kemSeed).value;
      var m := HandshakeAck(HANDSHAKE_ACK_MAGIC, 1, CheckProbe(b, nowMs).value.clientNonce, d, json, id.SigKey(c),
                            id.nodeId, nowMs);
      AckRoundTrip(m, []);
      assert EncodeAck(m) + [] == EncodeAck(m);
    }
  }

  lemma AnswerAckDerived(c: Primitives, p: Pending, addr: Text, b: bytes, id: NodeIdentity, d: Digest, nowMs: u64)
    requires PendingDerived(c, p)
    ensures PendingDerived(c, AnswerAck(c, p, addr, b, id, d, nowMs).pending)
  {
    hide EncodeFinish, DecodeAck, DecodeFinish, ProbeCarries, ValidUtf8;
    if AnswerAck(c, p, addr, b, id, d, nowMs).result.Success? {
      var e := c.encapsulate(CheckAck(b, nowMs).value.kemKeyJson, d).value;
      var m := HandshakeFinish(HANDSHAKE_FINISH_MAGIC, 1, e.json, id.SigKey(c), id.nodeId, nowMs);
      FinishRoundTrip(m, []);
      assert EncodeFinish(m) + [] == EncodeFinish(m);
    }
  }

  lemma PerformDerived(c: Primitives, p: Pending, id: NodeIdentity, a: Action)
    requires PendingDerived(c, p)
    ensures PendingDerived(c, Perform(c, p, id, a))
  {
    hide EntryDerived, AnswerProbe, AnswerAck, FinishReply, Confirm, CheckFinish, CheckFinishAck, EncodeProbe, ValidUtf8;
    match a
    case SendProbe(addr, nonce, nowMs) => BuildProbeDerived(c, p, addr, id, nonce, nowMs);
    case OnProbe(addr, b, nonce, nowMs) => AnswerProbeDerived(c, p, addr, b, id, nonce, nowMs);
    case OnAck(addr, b, random, nowMs) => AnswerAckDerived(c, p, addr, b, id, random, nowMs);
    case _ =>
  }

  lemma BuildProbeDerived(c: Primitives, p: Pending, addr: Text, id: NodeIdentity, nonce: Digest, nowMs: u64)
    requires PendingDerived(c, p)
    ensures PendingDerived(c, BuildProbe(p, addr, id, nonce, nowMs).pending)
  {
    hide EncodeProbe, DecodeAck, DecodeFinish, ValidUtf8;
  }

  lemma ServedByDerived(c: Primitives, n: nat, node: Node, a: Action)
    requires PendingDerived(c, node.pending) && ServedBy(c, n, node, a).Some?
    ensures ServedDerived(c, ServedBy(c, n, node, a).value)
  {
    hide EncodeFinishAck, DecodeAck, DecodeFinish, TranscriptHash, ServerMac, DeriveSessionId, ValidUtf8;
    assert EntryDerived(c, node.pending[a.addr]);
  }

  lemma HappensKeepsDerived(c: Primitives, w: World, e: Event)
    requires WorldDerived(c, w)
    ensures WorldDerived(c, Happens(c, w, e))
  {
    hide Perform, ServedBy, Tagged, PendingDerived, ServedDerived, ValidUtf8;
    if e.node < |w.nodes| && e.Acts? {
      var node := w.nodes[e.node];
      PerformDerived(c, node.pending, node.identity, e.action);
      if ServedBy(c, e.node, node, e.action).Some? {
        ServedByDerived(c, e.node, node, e.action);
      }
    }
  }

  lemma {:induction false} RunDerived(c: Primitives, w: World, events: seq<Event>)
    requires WorldDerived(c, w)
    ensures WorldDerived(c, HappenAll(c, w, events))
    decreases |events|
  {
    hide WorldDerived, Happens;
    if |events| > 0 {
      HappensKeepsDerived(c, w, events[0]);
      RunDerived(c, Happens(c, w, events[0]), events[1..]);
    }
  }

  // ── When the session ids agree ────────────────────────────────────────────

  // The server answered the Finish under the id and the KEM key its Ack announced: it did not rotate in
  // between.
  ghost predicate AsAnnounced(c: Primitives, s: Served) {
    && DecodeAck(s.ack).Some?
    && c.kemPublicJson(s.identity.kemSeed) == Some(DecodeAck(s.ack).value.kemKeyJson)
    && DecodeAck(s.ack).value.serverNodeId == s.identity.nodeId
  }

  // The session id a client's stored fields derive.
  function OwnSessionId(c: Primitives, e: HandshakeContext): Text
    requires e.FinishSent?
  {
    DeriveSessionId(c, e.secret, e.clientNonce, e.serverNonce, e.kemCiphertext, e.serverNodeId)
  }

  // In every run: a client that completes a handshake over the same three messages as the server carries the
  // server's session id exactly when the id it received is the one its own stored fields derive. It could
  // compare the two before it accepts.
  lemma SessionIdsAgreeExactly(c: Primitives, start: World, events: seq<Event>, n: nat, addr: Text, b: bytes,
                               nowMs: u64, s: Served)
    requires Initial(c, start)
    requires var w := HappenAll(c, start, events);
             && n < |w.nodes| && s in w.served && KemWorks(c, s.identity) && AsAnnounced(c, s)
             && var p := w.nodes[n].pending;
                && AnswerFinishAck(c, p, addr, b, nowMs).result.Success?
                && addr in p && p[addr].FinishSent?
                && s.probe == p[addr].probe && s.ack == p[addr].ack && s.finish == p[addr].finish
    ensures var p := HappenAll(c, start, events).nodes[n].pending;
            var session := AnswerFinishAck(c, p, addr, b, nowMs).result.value;
            && CheckFinishAck(b, nowMs).Success? && session.sessionId == CheckFinishAck(b, nowMs).value.sessionId
            && s.session.sessionId == OwnSessionId(c, p[addr])
            && (session.sessionId == s.session.sessionId <==>
                CheckFinishAck(b, nowMs).value.sessionId == OwnSessionId(c, p[addr]))
  {
    hide Happens, Tagged, CheckFinishAck, DecodeAck, DecodeFinish, TranscriptHash, ServerMac, DeriveSessionId, ValidUtf8;
    assert WorldDerived(c, start);
    RunDerived(c, start, events);
    var w := HappenAll(c, start, events);
    var e := w.nodes[n].pending[addr];
    assert PendingDerived(c, w.nodes[n].pending);
    assert EntryDerived(c, e) && ServedDerived(c, s);
  }

  // ── Whom the records name ─────────────────────────────────────────────────

  // In every run: when a client completes a handshake over the same three messages as the server, the server's
  // session names the id and the key of the client's own Finish, and the client's session those of the
  // server's own Ack.
  lemma SessionsNameEachOther(c: Primitives, start: World, events: seq<Event>, n: nat, addr: Text, b: bytes,
                              nowMs: u64, s: Served)
    requires Initial(c, start)
    requires var w := HappenAll(c, start, events);
             && n < |w.nodes| && s in w.served
             && var p := w.nodes[n].pending;
                && AnswerFinishAck(c, p, addr, b, nowMs).result.Success?
                && addr in p && p[addr].FinishSent?
                && s.probe == p[addr].probe && s.ack == p[addr].ack && s.finish == p[addr].finish
    ensures var p := HappenAll(c, start, events).nodes[n].pending;
            var session := AnswerFinishAck(c, p, addr, b, nowMs).result.value;
            && DecodeFinish(p[addr].finish).Some? && DecodeAck(s.ack).Some?
            && var finish, ack := DecodeFinish(p[addr].finish).value, DecodeAck(s.ack).value;
               && s.session.peerNodeId == finish.clientNodeId && s.session.peerSigPublicKey == finish.clientSigKey
               && session.peerNodeId == ack.serverNodeId && session.peerSigPublicKey == ack.sigKey
  {
    hide Happens, Tagged, CheckFinishAck, DecodeAck, DecodeFinish, TranscriptHash, ServerMac, DeriveSessionId, ValidUtf8;
    assert WorldDerived(c, start);
    RunDerived(c, start, events);
    var w := HappenAll(c, start, events);
    assert PendingDerived(c, w.nodes[n].pending);
    assert EntryDerived(c, w.nodes[n].pending[addr]) && ServedDerived(c, s);
  }

  // ── One client session for one answered Finish ────────────────────────────

  lemma NonceInTranscript(p1: bytes, r1: bytes, n1: Digest, p2: bytes, r2: bytes, n2: Digest)
    requires ProbeCarries(p1, n1) && ProbeCarries(p2, n2) && p1 + r1 == p2 + r2
    ensures n1 == n2
  {
    hide EncodeProbe, DecodeProbe;
    var m1 :| p1 == EncodeProbe(m1) && m1.clientNonce == n1;
    var m2 :| p2 == EncodeProbe(m2) && m2.clientNonce == n2;
    ProbeRoundTrip(m1, r1);
    ProbeRoundTrip(m2, r2);
  }

  // Agreement is one-to-one: two client entries, of any nodes at any two points of a run or of two runs, that
  // agree with the same answered Finish have the same client nonce, or a collision of transcripts is at hand.
  lemma OneNoncePerAnswer(c: Primitives, start: World, events1: seq<Event>, events2: seq<Event>, n1: nat, addr1: Text,
                          n2: nat, addr2: Text, session1: SessionRecord, session2: SessionRecord, s: Served)
    requires Initial(c, start)
    requires var w := HappenAll(c, start, events1);
             && n1 < |w.nodes| && addr1 in w.nodes[n1].pending && w.nodes[n1].pending[addr1].FinishSent?
             && AgreesWith(c, w.nodes[n1].pending[addr1], session1, s)
    requires var w := HappenAll(c, start, events2);
             && n2 < |w.nodes| && addr2 in w.nodes[n2].pending && w.nodes[n2].pending[addr2].FinishSent?
             && AgreesWith(c, w.nodes[n2].pending[addr2], session2, s)
    ensures var e1 := HappenAll(c, start, events1).nodes[n1].pending[addr1];
            var e2 := HappenAll(c, start, events2).nodes[n2].pending[addr2];
            || e1.clientNonce == e2.clientNonce
            || Collision(c, s.probe + s.ack + s.finish, e1.probe + e1.ack + e1.finish)
            || Collision(c, s.probe + s.ack + s.finish, e2.probe + e2.ack + e2.finish)
  {
    hide Happens, ProbeCarries, DecodeAck, DecodeFinish, ValidUtf8;
    assert WorldDerived(c, start);
    RunDerived(c, start, events1);
    RunDerived(c, start, events2);
    var w1, w2 := HappenAll(c, start, events1), HappenAll(c, start, events2);
    assert PendingDerived(c, w1.nodes[n1].pending) && PendingDerived(c, w2.nodes[n2].pending);
    var e1, e2 := w1.nodes[n1].pending[addr1], w2.nodes[n2].pending[addr2];
    assert EntryDerived(c, e1) && EntryDerived(c, e2);
    Associative(e1.probe, e1.ack, e1.finish);
    Associative(e2.probe, e2.ack, e2.finish);
    if e1.probe + e1.ack + e1.finish == e2.probe + e2.ack + e2.finish {
      NonceInTranscript(e1.probe, e1.ack + e1.finish, e1.clientNonce, e2.probe, e2.ack + e2.finish, e2.clientNonce);
    }
  }
}
