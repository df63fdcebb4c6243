/** Agreement: on an arbitrary network, a client that completes a handshake with a node of the system has
    the same transcript as a step that node really took. */
module HandshakeAgreement {
  import opened Bytes
  import opened Wrappers
  import opened Identity
  import opened Messages
  import opened Handshake
  import opened HandshakeRuns

  datatype Node = Node(identity: NodeIdentity, pending: Pending)

  // A Finish that a node answered: under which identity, the key it signed with and the three messages it
  // hashed.
  datatype Served = Served(node: nat, identity: NodeIdentity, key: Buffer, probe: bytes, ack: bytes, finish: bytes,
                           session: SessionRecord)

  // All nodes of the system, the keys they have held, every message they have signed (as tagged) and
  // every Finish they have answered. The network is not part of the state: it may deliver any bytes.
  datatype World = World(
    nodes: seq<Node>, keys: set<Buffer>, signed: set<(Buffer, bytes)>, served: set<Served>)

  datatype Event =
    // A node makes a call on its handshakes.
    | Acts(node: nat, action: Action)
    // A node replaces its identity, by either kind of key rotation.
    | Rotates(node: nat, identity: NodeIdentity)
    // A node signs something other than a transcript: an envelope or a rotation record.
    | Signs(node: nat, context: bytes, message: bytes)

  function ServedBy(c: Primitives, n: nat, node: Node, a: Action): Option<Served> {
    match a
    case OnFinish(addr, b, nowMs) =>
      var step := AnswerFinish(c, node.pending, addr, b, node.identity, nowMs);
      if step.result.Success? then
        SessionConsumesEntry(c, node.pending, addr, b, node.identity, nowMs);
        var entry := node.pending[addr];
        Some(Served(n, node.identity, node.identity.SigKey(c), entry.probe, entry.ack, b, step.result.value.session))
      else None
    case _ => None
  }

  function Happens(c: Primitives, w: World, e: Event): World {
    if e.node >= |w.nodes| then w
    else
      var node := w.nodes[e.node];
      match e
      case Acts(n, a) =>
        var w' := w.(nodes := w.nodes[n := node.(pending := Perform(c, node.pending, node.identity, a))]);
        (match ServedBy(c, n, node, a)
         case None => w'
         case Some(s) =>
           w'.(signed := w.signed + {(s.key, Tagged(SIG_CTX_HANDSHAKE, s.session.transcriptHash))},
               served := w.served + {s}))
      case Rotates(n, id) =>
        w.(nodes := w.nodes[n := node.(identity := id)], keys := w.keys + {id.SigKey(c)})
      case Signs(n, context, message) =>
        if |context| > 255 || context == SIG_CTX_HANDSHAKE then w
        else w.(signed := w.signed + {(node.identity.SigKey(c), Tagged(context, message))})
  }

  function HappenAll(c: Primitives, w: World, events: seq<Event>): World
    decreases |events|
  {
    if |events| == 0 then w else HappenAll(c, Happens(c, w, events[0]), events[1..])
  }

  // Before anything has happened.
  ghost predicate Initial(c: Primitives, w: World) {
    && w.signed == {} && w.served == {}
    && forall i | 0 <= i < |w.nodes| :: w.nodes[i].pending == map[] && w.nodes[i].identity.SigKey(c) in w.keys
  }

  // A signed transcript hash comes from an answered Finish.
  ghost predicate Explained(w: World, key: Buffer, hash: Digest) {
    exists s | s in w.served :: s.key == key && s.session.transcriptHash == hash
  }

  ghost predicate OtherContext(message: bytes) {
    exists context: bytes, m: bytes ::
      |context| <= 255 && context != SIG_CTX_HANDSHAKE && message == Tagged(context, m)
  }

  ghost predicate Accounted(w: World, key: Buffer, message: bytes) {
    || OtherContext(message)
    || exists hash: Digest :: message == Tagged(SIG_CTX_HANDSHAKE, hash) && Explained(w, key, hash)
  }

  // The exact encodings a node builds itself: its probes as a client, its acks as a server.
  ghost predicate BuiltExactly(ctx: HandshakeContext) {
    match ctx
    case ProbeSent(_, probe, _) => exists m :: probe == EncodeProbe(m)
    case FinishSent(_, _, _, _, probe, _, _, _, _, _) => exists m :: probe == EncodeProbe(m)
    case AckSent(_, _, _, ack, _) => exists m :: ack == EncodeAck(m)
  }

  ghost predicate PendingExact(p: Pending) {
    forall addr | addr in p :: BuiltExactly(p[addr])
  }

  ghost predicate Truthful(c: Primitives, w: World, s: Served) {
    && s.node < |w.nodes| && s.key in w.keys
    && s.session.transcriptHash == TranscriptHash(c, s.probe, s.ack, s.finish)
    && exists m :: s.ack == EncodeAck(m)
  }

  ghost predicate Sound(c: Primitives, w: World) {
    && (forall i | 0 <= i < |w.nodes| :: w.nodes[i].identity.SigKey(c) in w.keys && PendingExact(w.nodes[i].pending))
    && (forall s | s in w.served :: Truthful(c, w, s))
    && (forall x | x in w.signed :: Accounted(w, x.0, x.1))
  }

  // ── Every step keeps it ───────────────────────────────────────────────────

  lemma BuildExact(p: Pending, addr: Text, id: NodeIdentity, nonce: Digest, nowMs: u64)
    requires PendingExact(p)
    ensures PendingExact(BuildProbe(p, addr, id, nonce, nowMs).pending)
  {
    hide EncodeProbe, EncodeAck;
  }

  lemma AnswersExact(c: Primitives, p: Pending, addr: Text, b: bytes, id: NodeIdentity, d: Digest, nowMs: u64)
    requires PendingExact(p)
    ensures PendingExact(AnswerProbe(c, p, addr, b, id, d, nowMs).pending)
    ensures PendingExact(AnswerAck(c, p, addr, b, id, d, nowMs).pending)
  {
    hide EncodeProbe, EncodeAck, EncodeFinish, CheckProbe, CheckAck;
  }

  lemma PerformExact(c: Primitives, p: Pending, id: NodeIdentity, a: Action)
    requires PendingExact(p)
    ensures PendingExact(Perform(c, p, id, a))
  {
    hide BuiltExactly, BuildProbe, AnswerProbe, AnswerAck, FinishReply, Confirm, CheckFinish, CheckFinishAck;
    match a
    case SendProbe(addr, nonce, nowMs) => BuildExact(p, addr, id, nonce, nowMs);
    case OnProbe(addr, b, nonce, nowMs) => AnswersExact(c, p, addr, b, id, nonce, nowMs);
    case OnAck(addr, b, random, nowMs) => AnswersExact(c, p, addr, b, id, random, nowMs);
    case _ =>
  }

  lemma ServedTruthful(c: Primitives, n: nat, node: Node, a: Action)
    requires PendingExact(node.pending) && ServedBy(c, n, node, a).Some?
    ensures var s := ServedBy(c, n, node, a).value;
            && s.node == n && s.key == node.identity.SigKey(c)
            && s.session.transcriptHash == TranscriptHash(c, s.probe, s.ack, s.finish)
            && exists m :: s.ack == EncodeAck(m)
  {
    hide EncodeAck, EncodeFinishAck, CheckFinish, TranscriptHash, DeriveSessionId;
    assert BuiltExactly(node.pending[a.addr]);
  }

  lemma StillAccounted(w: World, w': World)
    requires w.served <= w'.served
    ensures forall x | x in w.signed && Accounted(w, x.0, x.1) :: Accounted(w', x.0, x.1)
  {
    forall x | x in w.signed && Accounted(w, x.0, x.1)
      ensures Accounted(w', x.0, x.1)
    {
      if !OtherContext(x.1) {
        var hash: Digest :| x.1 == Tagged(SIG_CTX_HANDSHAKE, hash) && Explained(w, x.0, hash);
        assert Explained(w', x.0, hash);
      }
    }
  }

  lemma HappensKeepsSound(c: Primitives, w: World, e: Event)
    requires Sound(c, w)
    ensures Sound(c, Happens(c, w, e))
  {
    hide Perform, ServedBy, Tagged, TranscriptHash, PendingExact, EncodeAck;
    var w' := Happens(c, w, e);
    StillAccounted(w, w');
    if e.node < |w.nodes| {
      var node := w.nodes[e.node];
      match e
      case Acts(n, a) =>
        PerformExact(c, node.pending, node.identity, a);
        if ServedBy(c, n, node, a).Some? {
          ServedTruthful(c, n, node, a);
          var s := ServedBy(c, n, node, a).value;
          assert Explained(w', s.key, s.session.transcriptHash);
        }
      case Rotates(n, id) =>
      case Signs(n, context, message) =>
        assert |context| <= 255 && context != SIG_CTX_HANDSHAKE ==> OtherContext(Tagged(context, message));
    }
  }

  lemma InitialSound(c: Primitives, w: World)
    requires Initial(c, w)
    ensures Sound(c, w)
  {
  }

  lemma {:induction false} RunSound(c: Primitives, w: World, events: seq<Event>)
    requires Sound(c, w)
    ensures Sound(c, HappenAll(c, w, events))
    decreases |events|
  {
    if |events| > 0 {
      HappensKeepsSound(c, w, events[0]);
      RunSound(c, Happens(c, w, events[0]), events[1..]);
    }
  }

  // ── Agreement ─────────────────────────────────────────────────────────────

  // A step some node of the system took, that the client's entry and session agree with.
  ghost predicate AgreesWith(c: Primitives, entry: HandshakeContext, session: SessionRecord, s: Served)
    requires entry.FinishSent?
  {
    && s.key == session.peerSigPublicKey && s.session.transcriptHash == session.transcriptHash
    && (s.probe + s.ack + s.finish == entry.probe + entry.ack + entry.finish ||
        Collision(c, s.probe + s.ack + s.finish, entry.probe + entry.ack + entry.finish))
  }

  // Agreement over all runs: with any interleaving of calls, evictions and key rotations, and whatever
  // bytes the network delivers, if a client completes a handshake under the signing key of a node of the
  // system, then that key's holder answered a Finish with the same transcript, and both records carry the
  // same transcript hash; or else the signature in the FinishAck is forged.
  lemma HandshakeAgreement(c: Primitives, start: World, events: seq<Event>, n: nat, addr: Text, b: bytes, nowMs: u64)
    requires Initial(c, start)
    ensures var w := HappenAll(c, start, events);
            n < |w.nodes| ==>
              var p := w.nodes[n].pending;
              var r := AnswerFinishAck(c, p, addr, b, nowMs).result;
              r.Success? && r.value.peerSigPublicKey in w.keys ==>
                && addr in p && p[addr].FinishSent? && CheckFinishAck(b, nowMs).Success?
                && ((exists s | s in w.served :: s.node < |w.nodes| && AgreesWith(c, p[addr], r.value, s)) ||
                    Forged(c, w.keys, w.signed, r.value.peerSigPublicKey,
                           Tagged(SIG_CTX_HANDSHAKE, r.value.transcriptHash),
                           CheckFinishAck(b, nowMs).value.transcriptSignature))
  {
    hide Perform, ServedBy, Tagged, PendingExact, EncodeAck, CheckFinishAck;
    InitialSound(c, start);
    RunSound(c, start, events);
    var w := HappenAll(c, start, events);
    if n < |w.nodes| {
      var p := w.nodes[n].pending;
      var r := AnswerFinishAck(c, p, addr, b, nowMs).result;
      if r.Success? && r.value.peerSigPublicKey in w.keys {
        var entry, m := p[addr], CheckFinishAck(b, nowMs).value;
        var key, message := r.value.peerSigPublicKey, Tagged(SIG_CTX_HANDSHAKE, r.value.transcriptHash);
        if (key, message) in w.signed {
          var s := SignedByServer(w, key, r.value.transcriptHash);
          assert Truthful(c, w, s);
          assert AgreesWith(c, entry, r.value, s);
        } else {
          assert Forged(c, w.keys, w.signed, key, message, m.transcriptSignature);
        }
      }
    }
  }

  lemma SignedByServer(w: World, key: Buffer, hash: Digest) returns (s: Served)
    requires Accounted(w, key, Tagged(SIG_CTX_HANDSHAKE, hash))
    ensures s in w.served && s.key == key && s.session.transcriptHash == hash
  {
    var message := Tagged(SIG_CTX_HANDSHAKE, hash);
    if OtherContext(message) {
      var context: bytes, m: bytes :|
        |context| <= 255 && context != SIG_CTX_HANDSHAKE && message == Tagged(context, m);
      TaggedInjective(SIG_CTX_HANDSHAKE, hash, context, m);
    }
    var h: Digest :| message == Tagged(SIG_CTX_HANDSHAKE, h) && Explained(w, key, h);
    TaggedInjective(SIG_CTX_HANDSHAKE, hash, SIG_CTX_HANDSHAKE, h);
    s :| s in w.served && s.key == key && s.session.transcriptHash == hash;
  }

  // When the Probe the server received and the Ack the client received are exact encodings, with nothing
  // after them, equal transcripts mean the same three messages.
  lemma SameMessages(c: Primitives, start: World, events: seq<Event>, n: nat, addr: Text, s: Served)
    requires Initial(c, start)
    requires var w := HappenAll(c, start, events);
             && n < |w.nodes| && addr in w.nodes[n].pending && w.nodes[n].pending[addr].FinishSent?
             && s in w.served
             && var e := w.nodes[n].pending[addr];
                && s.probe + s.ack + s.finish == e.probe + e.ack + e.finish
                && (exists m :: s.probe == EncodeProbe(m)) && (exists m :: e.ack == EncodeAck(m))
    ensures var e := HappenAll(c, start, events).nodes[n].pending[addr];
            s.probe == e.probe && s.ack == e.ack && s.finish == e.finish
  {
    hide Perform, ServedBy, Tagged, EncodeAck, EncodeProbe;
    InitialSound(c, start);
    RunSound(c, start, events);
    var w := HappenAll(c, start, events);
    var e := w.nodes[n].pending[addr];
    assert Truthful(c, w, s) && BuiltExactly(e);
    var p1 :| s.probe == EncodeProbe(p1);
    var a1 :| s.ack == EncodeAck(a1);
    var p2 :| e.probe == EncodeProbe(p2);
    var a2 :| e.ack == EncodeAck(a2);
    TranscriptSplits(p1, a1, s.finish, p2, a2, e.finish);
  }
}
