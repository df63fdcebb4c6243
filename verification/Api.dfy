/** The node: one engine and one lineage, and the calls that create, rotate and restart them
    (witan/src/api.rs). The program's two global cells are the two fields of one object. */
module Api {
  import opened Bytes
  import opened Wrappers
  import opened Identity
  import opened Rotation
  import opened Chains
  import opened Succession
  import opened Messages
  import opened Handshake
  import opened Handshakes
  import opened Dedup
  import opened Quorum
  import opened Envelopes
  import opened Lineages
  import opened Engine
  import LineageCodec

  // ── What a node is made of ────────────────────────────────────────────────

  datatype Installation = Installation(identity: NodeIdentity, lineage: Lineage)

  // The lineage is the running identity's: same id, and its current keys are the ones in use.
  ghost predicate Coupled(c: Primitives, id: NodeIdentity, l: Lineage) {
    && ValidLineage(c, l)
    && l.nodeId == id.nodeId
    && l.current.sigPublicKey == id.SigKey(c)
    && l.current.kemPublicKey == id.KemKey(c)
  }

  function IdentityFromSeedBytes(c: Primitives, kemSeed: bytes, sigSeed: bytes, keyEpoch: Text)
    : Result<NodeIdentity, GossipError>
  {
    if |kemSeed| != 96 || |sigSeed| != 32 then Failure(InvalidInput)
    else Success(FromSeeds(c, kemSeed, sigSeed, keyEpoch))
  }

  function ParseCommitment(b: Option<bytes>): Result<Option<Digest>, GossipError> {
    if b.None? then Success(None)
    else if |b.value| != 32 then Failure(InvalidInput)
    else Success(Some(b.value))
  }

  // l' is l with one more record, made at this time onto the keys of these seeds, with this label and committing
  // to just what was asked for.
  ghost predicate Extends(c: Primitives, l: Lineage, l': Lineage, kemSeed: bytes, sigSeed: bytes, keyEpoch: Text,
                          commitment: Option<bytes>, nowMs: u64)
  {
    && |kemSeed| == 96 && |sigSeed| == 32
    && ValidLineage(c, l') && l'.nodeId == l.nodeId && l'.inception == l.inception
    && l.rotations < l'.rotations && |l'.rotations| == |l.rotations| + 1
    && l'.rotations[|l.rotations|].timestampUnixMs == nowMs
    && l'.current.kemPublicKey == c.kemPublic(kemSeed) && l'.current.sigPublicKey == c.sigPublic(sigSeed)
    && l'.current.keyEpoch == keyEpoch
    && (l'.current.nextKeyCommitment.Some? <==> commitment.Some?)
    && (commitment.Some? ==> l'.current.nextKeyCommitment.value == commitment.value)
  }

  // Seeds are taken exactly at their right lengths, and give the keys they generate, their id and the label.
  lemma SeedBytesExactly(c: Primitives, kemSeed: bytes, sigSeed: bytes, keyEpoch: Text)
    ensures var id := IdentityFromSeedBytes(c, kemSeed, sigSeed, keyEpoch);
            if |kemSeed| == 96 && |sigSeed| == 32 then
              id == Success(NodeIdentity(Hex(c.sha256(c.kemPublic(kemSeed) + c.sigPublic(sigSeed))), kemSeed, sigSeed,
                                         keyEpoch))
            else id == Failure(InvalidInput)
  {
    hide Hex;
  }

  // A commitment is taken exactly when it is absent or 32 bytes, and as it is.
  lemma CommitmentParsedExactly(b: Option<bytes>)
    ensures ParseCommitment(b).Success? <==> (b.Some? ==> |b.value| == 32)
    ensures ParseCommitment(b).Success? ==>
              && (ParseCommitment(b).value.Some? <==> b.Some?)
              && (b.Some? ==> ParseCommitment(b).value.value == b.value)
    ensures ParseCommitment(b).Failure? ==> ParseCommitment(b) == Failure(InvalidInput)
  {
  }

  // What a start with a stored lineage installs: the seeds must be those of its current keys, and the
  // node runs under its id.
  function Restarted(c: Primitives, config: ResolvedConfig, b: bytes): Result<Installation, GossipError> {
    if config.kemSeed.None? || config.sigSeed.None? then Failure(ConfigError)
    else
      var id := FromSeeds(c, config.kemSeed.value, config.sigSeed.value, config.keyEpoch);
      var l :- LineageCodec.Decode(c, b);
      if id.SigKey(c) != l.current.sigPublicKey || id.KemKey(c) != l.current.kemPublicKey then
        Failure(IdentityError(SeedsNotCurrent))
      else
        Success(Installation(id.(nodeId := l.nodeId), l))
  }

  // ── The object ────────────────────────────────────────────────────────────

  class Node {
    var engine: GossipEngine?
    var lineage: KeyLineage?

    ghost predicate Valid(c: Primitives)
      reads this, engine, lineage, if engine == null then {} else {engine.sessions, engine.dedup}
    {
      && (engine == null <==> lineage == null)
      && (engine != null ==> engine.Valid() && lineage.Valid(c) && Coupled(c, engine.identity, lineage.View()))
    }

    constructor ()
      ensures engine == null && lineage == null && forall c :: Valid(c)
    {
      engine, lineage := null, null;
    }

    // The node now runs what is installed; it did not run before.
    twostate predicate Runs(config: ResolvedConfig, installed: Installation)
      reads this, engine, lineage
    {
      && engine != null && fresh(engine) && lineage != null && fresh(lineage)
      && engine.config == config && engine.identity == installed.identity && engine.meshPeers == []
      && lineage.View() == installed.lineage
    }

    // A first start, with the configured seeds or with fresh ones.
    method Init(c: Primitives, config: ResolvedConfig, freshKem: KemSeed, freshSig: SigSeed)
      returns (out: Outcome<GossipError>)
      requires Valid(c)
      modifies this
      ensures Valid(c)
      ensures if old(engine) != null then
                out == Fail(AlreadyInitialized) && engine == old(engine) && lineage == old(lineage)
              else
                var given := config.kemSeed.Some? && config.sigSeed.Some?;
                var id := FromSeeds(c, if given then config.kemSeed.value else freshKem,
                                    if given then config.sigSeed.value else freshSig, config.keyEpoch);
                && out == Pass && FromIdentity(c, id).Success?
                && Runs(config, Installation(id, FromIdentity(c, id).value))
    {
      hide ValidLineage, FromIdentity, MeshWithin, UseAll, Guarded, ValidUtf8;
      if engine != null {
        return Fail(AlreadyInitialized);
      }
      var identity;
      if config.kemSeed.Some? && config.sigSeed.Some? {
        identity := FromSeeds(c, config.kemSeed.value, config.sigSeed.value, config.keyEpoch);
      } else {
        identity := FromSeeds(c, freshKem, freshSig, config.keyEpoch);
      }
      FreshIsCoupled(c, identity.kemSeed, identity.sigSeed, config.keyEpoch);
      var made := KeyLineage.FromIdentity(c, identity);
      assert made.Success?;
      Install(c, config, identity, made.value);
      return Pass;
    }

    method InitWithLineage(c: Primitives, config: ResolvedConfig, b: bytes) returns (out: Outcome<GossipError>)
      requires Valid(c)
      modifies this
      ensures Valid(c)
      ensures if old(engine) != null then
                out == Fail(AlreadyInitialized) && engine == old(engine) && lineage == old(lineage)
              else
                match Restarted(c, config, b)
                case Success(installed) => out == Pass && Runs(config, installed)
                case Failure(e) => out == Fail(e) && engine == null
    {
      hide ValidLineage, LineageCodec.Decode, MeshWithin, UseAll, Guarded, ValidUtf8;
      if engine != null {
        return Fail(AlreadyInitialized);
      }
      if config.kemSeed.None? || config.sigSeed.None? {
        return Fail(ConfigError);
      }
      var identity := FromSeeds(c, config.kemSeed.value, config.sigSeed.value, config.keyEpoch);
      var decoded := KeyLineage.Decode(c, b);
      if decoded.Failure? {
        return Fail(decoded.error);
      }
      var l := decoded.value;
      if identity.SigKey(c) != l.current.sigPublicKey || identity.KemKey(c) != l.current.kemPublicKey {
        return Fail(IdentityError(SeedsNotCurrent));
      }
      Install(c, config, identity.(nodeId := l.nodeId), l);
      return Pass;
    }

    method Install(c: Primitives, config: ResolvedConfig, identity: NodeIdentity, l: KeyLineage)
      requires Coupled(c, identity, l.View())
      modifies this
      ensures Valid(c) && lineage == l && engine != null && fresh(engine)
      ensures engine.config == config && engine.identity == identity && engine.meshPeers == []
    {
      hide ValidLineage, MeshWithin, UseAll, Guarded, ValidUtf8;
      engine := new GossipEngine(config, identity);
      lineage := l;
    }

    // ── Rotation ────────────────────────────────────────────────────────────

    // Fresh keys, a new id and a new lineage.
    method RotateKeys(c: Primitives, freshKem: KemSeed, freshSig: SigSeed) returns (r: Result<Text, GossipError>)
      requires Valid(c)
      modifies this`lineage, engine
      ensures Valid(c) && engine == old(engine)
      ensures if engine == null then r == Failure(NotInitialized)
              else
                var id := FromSeeds(c, freshKem, freshSig, engine.config.keyEpoch);
                && r == Success(id.nodeId) && engine.identity == id
                && FromIdentity(c, id) == Success(lineage.View())
    {
      hide ValidLineage, FromIdentity, MeshWithin, UseAll, Guarded, ValidUtf8;
      if engine == null {
        return Failure(NotInitialized);
      }
      FreshIsCoupled(c, freshKem, freshSig, engine.config.keyEpoch);
      var nodeId := engine.RotateKeys(c, freshKem, freshSig, engine.config.keyEpoch);
      var made := KeyLineage.FromIdentity(c, engine.identity);
      assert made.Success?;
      lineage := made.value;
      return Success(nodeId);
    }

    // New keys under the old id. A call that fails changes neither the identity nor the lineage.
    method RotateKeysUnderId(c: Primitives, kemSeed: bytes, sigSeed: bytes, keyEpoch: Text, commitment: Option<bytes>,
                             nowMs: u64) returns (r: Result<bytes, GossipError>)
      requires Valid(c)
      modifies this`lineage, engine
      ensures Valid(c) && engine == old(engine)
      ensures var next, parsed := IdentityFromSeedBytes(c, kemSeed, sigSeed, keyEpoch), ParseCommitment(commitment);
              if next.Failure? || parsed.Failure? then r == Failure(InvalidInput)
              else if engine == null then r == Failure(NotInitialized)
              else
                match Rotation.Rotate(c, old(lineage.View()), old(engine.identity), next.value, parsed.value, nowMs)
                case Failure(e) => r == Failure(e)
                case Success(built) =>
                  && lineage.View() == built.lineage
                  && engine.identity == next.value.(nodeId := old(engine.identity.nodeId))
                  && |built.lineage.rotations| < 0x1_0000_0000_0000_0000
                  && r == Success(LineageCodec.Encode(built.lineage))
      ensures r.Success? ==>
                && engine != null && Extends(c, old(lineage.View()), lineage.View(), kemSeed, sigSeed, keyEpoch, commitment, nowMs)
                && engine.identity == NodeIdentity(old(engine.identity.nodeId), kemSeed, sigSeed, keyEpoch)
      ensures r.Failure? ==> lineage == old(lineage)
      ensures r.Failure? && engine != null ==>
                engine.identity == old(engine.identity) && lineage.View() == old(lineage.View())
    {
      hide Extends, ValidLineage, Rotation.Rotate, LineageCodec.Encode, MeshWithin, UseAll, Guarded, ValidUtf8;
      var next := IdentityFromSeedBytes(c, kemSeed, sigSeed, keyEpoch);
      if next.Failure? {
        return Failure(next.error);
      }
      var parsed := ParseCommitment(commitment);
      if parsed.Failure? {
        return Failure(parsed.error);
      }
      if engine == null {
        return Failure(NotInitialized);
      }
      var updated := lineage.Clone();
      RotationInstalls(c, lineage.View(), engine.identity, next.value, parsed.value, nowMs);
      RotationExtends(c, lineage.View(), engine.identity, kemSeed, sigSeed, keyEpoch, commitment, nowMs);
      var rotation := engine.RotateKeysUnderId(c, updated, next.value, parsed.value, nowMs);
      if rotation.Failure? {
        return Failure(rotation.error);
      }
      var b := updated.Encode(c);
      lineage := updated;
      return Success(b);
    }

    method GetKeyLineage(c: Primitives) returns (r: Result<bytes, GossipError>)
      requires Valid(c)
      ensures if lineage == null then r == Failure(NotInitialized)
              else |lineage.rotations| < 0x1_0000_0000_0000_0000 && r == Success(LineageCodec.Encode(lineage.View()))
    {
      hide ValidLineage, LineageCodec.Encode, MeshWithin, UseAll, Guarded, ValidUtf8;
      if lineage == null {
        return Failure(NotInitialized);
      }
      var b := lineage.Encode(c);
      return Success(b);
    }

    // ── Calls that only use the engine ──────────────────────────────────────

    // Every one of them leaves the identity and the lineage alone, so the two stay coupled.
    method Publish(c: Primitives, payloadType: byte, payload: Buffer, nowMs: u64) returns (r: Result<Digest, GossipError>)
      requires Valid(c)
      modifies engine, if engine == null then {} else {engine.dedup}
      ensures Valid(c) && engine == old(engine)
      ensures if engine == null then r == Failure(NotInitialized)
              else engine.identity == old(engine.identity) && engine.Published(c, payloadType, payload, nowMs, r)
    {
      hide Coupled, GossipEngine.Published, MeshWithin, UseAll, Guarded, ValidLineage, ValidUtf8;
      if engine == null {
        return Failure(NotInitialized);
      }
      r := engine.Publish(c, payloadType, payload, nowMs);
    }

    method ConnectPeer(c: Primitives, addr: Text, nonce: Digest, nowMs: u64) returns (r: Result<bytes, GossipError>)
      requires Valid(c)
      modifies if engine == null then {} else {engine.handshakes}
      ensures Valid(c) && engine == old(engine)
      ensures if engine == null then r == Failure(NotInitialized) else engine.Connected(addr, nonce, nowMs, r)
    {
      hide Coupled, GossipEngine.Connected, MeshWithin, UseAll, Guarded, ValidLineage, ValidUtf8;
      if engine == null {
        return Failure(NotInitialized);
      }
      r := engine.ConnectPeer(addr, nonce, nowMs);
    }

    method DisconnectPeer(c: Primitives, addr: Text) returns (out: Outcome<GossipError>)
      requires Valid(c)
      modifies engine, if engine == null then {} else {engine.sessions, engine.handshakes}
      ensures Valid(c) && engine == old(engine)
      ensures if engine == null then out == Fail(NotInitialized)
              else engine.identity == old(engine.identity) && engine.Disconnected(addr, out)
    {
      hide Coupled, GossipEngine.Disconnected, MeshWithin, UseAll, Guarded, ValidLineage, ValidUtf8;
      if engine == null {
        return Fail(NotInitialized);
      }
      out := engine.DisconnectPeer(addr);
    }

    method ProcessHandshakeBytes(c: Primitives, addr: Text, b: bytes, random: Digest, nowMs: u64)
      returns (r: Result<Option<bytes>, GossipError>)
      requires Valid(c)
      modifies engine, if engine == null then {} else {engine.sessions, engine.handshakes}
      ensures Valid(c) && engine == old(engine)
      ensures if engine == null then r == Failure(NotInitialized)
              else engine.identity == old(engine.identity) && engine.Processed(c, addr, b, random, nowMs, r)
    {
      hide Coupled, GossipEngine.Processed, MeshWithin, UseAll, Guarded, ValidLineage, ValidUtf8;
      if engine == null {
        return Failure(NotInitialized);
      }
      r := engine.ProcessHandshakeBytes(c, addr, b, random, nowMs);
    }

    method VerifyEnvelope(c: Primitives, b: bytes, nowMs: u64) returns (r: Result<bool, GossipError>)
      requires Valid(c)
      modifies engine
      ensures Valid(c) && engine == old(engine)
      ensures if engine == null then r == Failure(NotInitialized)
              else engine.identity == old(engine.identity) && engine.Verified(c, b, nowMs, r)
    {
      hide Coupled, GossipEngine.Verified, MeshWithin, UseAll, Guarded, ValidLineage, ValidUtf8;
      if engine == null {
        return Failure(NotInitialized);
      }
      r := engine.VerifyEnvelopeBytes(c, b, nowMs);
    }

    method EncodeEnvelope(c: Primitives, payloadType: byte, payload: Buffer, nowMs: u64)
      returns (r: Result<bytes, GossipError>)
      requires Valid(c)
      ensures if engine == null then r == Failure(NotInitialized)
              else if FromU8(payloadType).None? then r == Failure(InvalidInput)
              else
                match BuildEnvelope(c, FromU8(payloadType).value, payload, engine.identity, engine.config.defaultTtl, nowMs)
                case Success(e) => r == Success(Envelopes.EncodeEnvelope(e))
                case Failure(error) => r == Failure(error)
    {
      hide Coupled, MeshWithin, UseAll, Guarded, ValidLineage, ValidUtf8, BuildEnvelope;
      if engine == null {
        return Failure(NotInitialized);
      }
      r := engine.EncodeEnvelope(c, payloadType, payload, nowMs);
    }

    // Reading the statistics is what drives maintenance.
    method GetStats(c: Primitives, nowMs: u64) returns (r: Result<GossipStats, GossipError>)
      requires Valid(c)
      modifies engine, if engine == null then {} else {engine.handshakes, engine.dedup, engine.quorum}
      ensures Valid(c) && engine == old(engine)
      ensures if engine == null then r == Failure(NotInitialized)
              else engine.identity == old(engine.identity) && engine.Beaten(nowMs) && r == Success(engine.stats)
    {
      hide Coupled, GossipEngine.Beaten, MeshWithin, UseAll, Guarded, ValidLineage, ValidUtf8;
      if engine == null {
        return Failure(NotInitialized);
      }
      engine.Heartbeat(nowMs);
      return Success(engine.stats);
    }

    // ── Envelopes from a pinned node ────────────────────────────────────────

    // The plain verification, plus: the sender is the lineage's node speaking with its current key.
    method VerifyEnvelopeFromLineage(c: Primitives, b: bytes, lineageBytes: bytes, nowMs: u64)
      returns (r: Result<bool, GossipError>)
      requires Valid(c)
      modifies engine
      ensures Valid(c) && engine == old(engine)
      ensures engine != null ==> engine.identity == old(engine.identity) && engine.meshPeers == old(engine.meshPeers)
      ensures match LineageCodec.Decode(c, lineageBytes)
              case Failure(e) => r == Failure(e) && (engine != null ==> engine.stats == old(engine.stats))
              case Success(l) =>
                if engine == null then r == Failure(NotInitialized)
                else
                  match DecodeEnvelope(b)
                  case Failure(e) => r == Failure(e) && engine.stats == old(engine.stats)
                  case Success(e) =>
                    && r == (match CheckEnvelopeSender(l, e)
                             case Fail(error) => Failure(error)
                             case Pass => Envelopes.VerifyEnvelope(c, e, engine.config.maxMessageBytes,
                                                                   engine.config.replayWindowMs, nowMs))
                    && engine.stats == if r == Success(true)
                                       then old(engine.stats).(messagesReceived := Wrap64(old(engine.stats.messagesReceived) + 1))
                                       else old(engine.stats).(messagesDropped := Wrap64(old(engine.stats.messagesDropped) + 1))
    {
      hide ValidLineage, LineageCodec.Decode, DecodeEnvelope, Envelopes.VerifyEnvelope, MeshWithin, UseAll, Guarded, ValidUtf8, Wrap64;
      var decoded := KeyLineage.Decode(c, lineageBytes);
      if decoded.Failure? {
        return Failure(decoded.error);
      }
      if engine == null {
        return Failure(NotInitialized);
      }
      var e := DecodeEnvelope(b);
      if e.Failure? {
        return Failure(e.error);
      }
      var sender := CheckEnvelopeSender(decoded.value.View(), e.value);
      if sender.Fail? {
        engine.stats := engine.stats.(messagesDropped := Wrap64(engine.stats.messagesDropped + 1));
        return Failure(sender.error);
      }
      r := engine.VerifyEnvelopeBytes(c, b, nowMs);
    }

    // ── Handshakes driven by the host ───────────────────────────────────────

    method BuildHandshakeAck(c: Primitives, addr: Text, b: bytes, nonce: Digest, nowMs: u64)
      returns (r: Result<bytes, GossipError>)
      requires Valid(c)
      modifies if engine == null then {} else {engine.handshakes}
      ensures Valid(c) && engine == old(engine)
      ensures if engine == null then r == Failure(NotInitialized)
              else Step(engine.handshakes.pending, r) ==
                   AnswerProbe(c, old(engine.handshakes.pending), addr, b, engine.identity, nonce, nowMs)
    {
      hide Coupled, AnswerProbe, MeshWithin, UseAll, Guarded, ValidLineage, ValidUtf8;
      if engine == null {
        return Failure(NotInitialized);
      }
      r := engine.handshakes.ProcessProbeBuildAck(c, addr, b, engine.identity, nonce, nowMs);
    }

    // Completes a handshake like a finish received by the engine, but leaves the mesh alone.
    method BuildFinishAck(c: Primitives, addr: Text, b: bytes, nowMs: u64) returns (r: Result<bytes, GossipError>)
      requires Valid(c)
      modifies engine, if engine == null then {} else {engine.handshakes, engine.sessions}
      ensures Valid(c) && engine == old(engine)
      ensures engine == null ==> r == Failure(NotInitialized)
      ensures engine != null ==>
                var s := AnswerFinish(c, old(engine.handshakes.pending), addr, b, old(engine.identity), nowMs);
                && engine.identity == old(engine.identity) && engine.meshPeers == old(engine.meshPeers)
                && engine.handshakes.pending == s.pending
                && match s.result
                   case Failure(e) =>
                     && r == Failure(e) && engine.stats == old(engine.stats)
                     && engine.sessions.sessions == old(engine.sessions.sessions)
                   case Success(reply) =>
                     && r == Success(reply.finishAck)
                     && engine.sessions.sessions == old(engine.sessions.sessions)[addr := reply.session]
                     && engine.stats == old(engine.stats).(
                          handshakesCompleted := Wrap32(old(engine.stats.handshakesCompleted) + 1),
                          activePeers := Wrap32(|engine.sessions.sessions|))
    {
      hide Coupled, ValidLineage, KeyLineage.View, DedupCache.Valid, AnswerFinish, MeshWithin, UseAll, Guarded, ValidUtf8, Wrap32;
      if engine == null {
        return Failure(NotInitialized);
      }
      FinishFiles(c, engine.handshakes.pending, addr, b, engine.identity, nowMs);
      var reply := engine.handshakes.ProcessFinishBuildFinishAck(c, addr, b, engine.identity, nowMs);
      if reply.Failure? {
        return Failure(reply.error);
      }
      InsertWithin(engine.meshPeers, engine.sessions.sessions, reply.value.session, engine.config.meshNHigh);
      engine.sessions.Insert(reply.value.session);
      engine.stats := engine.stats.(handshakesCompleted := Wrap32(engine.stats.handshakesCompleted + 1),
                                    activePeers := Wrap32(engine.sessions.Count()));
      return Success(reply.value.finishAck);
    }
  }

  lemma FinishFiles(c: Primitives, p: Pending, addr: Text, b: bytes, id: NodeIdentity, nowMs: u64)
    ensures var r := AnswerFinish(c, p, addr, b, id, nowMs).result;
            r.Success? ==> r.value.session.peerAddr == addr && r.value.session.isActive
  {
  }

  lemma InsertWithin(mesh: seq<Text>, peers: map<Text, SessionRecord>, session: SessionRecord, high: nat)
    requires MeshWithin(mesh, peers, high)
    ensures MeshWithin(mesh, peers[session.peerAddr := session], high)
  {
  }

  // ── Recovery, without a node ──────────────────────────────────────────────

  // Extends stored lineage bytes to the committed keys.
  method RecoverLineage(c: Primitives, b: bytes, kemSeed: bytes, sigSeed: bytes, keyEpoch: Text,
                        commitment: Option<bytes>, nowMs: u64) returns (r: Result<bytes, GossipError>)
    ensures r == Recovered(c, b, kemSeed, sigSeed, keyEpoch, commitment, nowMs)
    ensures r.Success? ==> RecoveredTo(c, b, r.value, kemSeed, sigSeed, keyEpoch, commitment, nowMs)
  {
    hide RecoveredTo, LineageCodec.Decode, LineageCodec.Encode, Rotation.Recover, ValidLineage, ValidUtf8;
    RecoveredExtends(c, b, kemSeed, sigSeed, keyEpoch, commitment, nowMs);
    var decoded := KeyLineage.Decode(c, b);
    if decoded.Failure? {
      return Failure(decoded.error);
    }
    var l := decoded.value;
    var next := IdentityFromSeedBytes(c, kemSeed, sigSeed, keyEpoch);
    if next.Failure? {
      return Failure(next.error);
    }
    var parsed := ParseCommitment(commitment);
    if parsed.Failure? {
      return Failure(parsed.error);
    }
    var record := l.Recover(c, next.value, parsed.value, nowMs);
    if record.Failure? {
      return Failure(record.error);
    }
    var extended := l.Encode(c);
    return Success(extended);
  }

  function Recovered(c: Primitives, b: bytes, kemSeed: bytes, sigSeed: bytes, keyEpoch: Text, commitment: Option<bytes>,
                     nowMs: u64): Result<bytes, GossipError>
  {
    var l :- LineageCodec.Decode(c, b);
    var next :- IdentityFromSeedBytes(c, kemSeed, sigSeed, keyEpoch);
    var parsed :- ParseCommitment(commitment);
    var built :- Rotation.Recover(c, l, next, parsed, nowMs);
    RecoveryInstalls(c, b, next, parsed, nowMs);
    Success(LineageCodec.Encode(built.lineage))
  }

  // The bytes are the encoding of an extension of the lineage that the given bytes hold.
  ghost predicate RecoveredTo(c: Primitives, b: bytes, extended: bytes, kemSeed: bytes, sigSeed: bytes, keyEpoch: Text,
                              commitment: Option<bytes>, nowMs: u64)
  {
    && LineageCodec.Decode(c, b).Success?
    && exists l' :: Extends(c, LineageCodec.Decode(c, b).value, l', kemSeed, sigSeed, keyEpoch, commitment, nowMs) &&
                    |l'.rotations| < 0x1_0000_0000_0000_0000 && LineageCodec.Encode(l') == extended
  }

  lemma RecoveredExtends(c: Primitives, b: bytes, kemSeed: bytes, sigSeed: bytes, keyEpoch: Text,
                         commitment: Option<bytes>, nowMs: u64)
    ensures var r := Recovered(c, b, kemSeed, sigSeed, keyEpoch, commitment, nowMs);
            r.Success? ==> RecoveredTo(c, b, r.value, kemSeed, sigSeed, keyEpoch, commitment, nowMs)
  {
    hide LineageCodec.Encode, LineageCodec.Decode, ValidLineage, Extends, BuildAndApply, ValidUtf8;
    if Recovered(c, b, kemSeed, sigSeed, keyEpoch, commitment, nowMs).Success? {
      LineageCodec.DecodeIsEncoding(c, b);
      var l := LineageCodec.Decode(c, b).value;
      var next := IdentityFromSeedBytes(c, kemSeed, sigSeed, keyEpoch).value;
      var parsed := ParseCommitment(commitment).value;
      RecoveryInstalls(c, b, next, parsed, nowMs);
      BuildExtends(c, l, None, kemSeed, sigSeed, keyEpoch, commitment, nowMs);
      var l' := Rotation.Recover(c, l, next, parsed, nowMs).value.lineage;
      assert Extends(c, l, l', kemSeed, sigSeed, keyEpoch, commitment, nowMs);
    }
  }

  // With signing that works, recovery succeeds exactly when the bytes hold a valid lineage whose current state
  // commits to the key of the given seed, and the inputs have their right lengths.
  lemma RecoverySucceedsExactly(c: Primitives, b: bytes, kemSeed: bytes, sigSeed: bytes, keyEpoch: Text,
                                commitment: Option<bytes>, nowMs: u64)
    requires |sigSeed| == 32 ==> SignsCorrectly(c, sigSeed)
    ensures Recovered(c, b, kemSeed, sigSeed, keyEpoch, commitment, nowMs).Success? <==>
            && LineageCodec.Decode(c, b).Success?
            && |kemSeed| == 96 && |sigSeed| == 32 && (commitment.Some? ==> |commitment.value| == 32)
            && LineageCodec.Decode(c, b).value.current.nextKeyCommitment ==
               Some(c.sha256(COMMITMENT_TAG + c.sigPublic(sigSeed)))
  {
    hide LineageCodec.Encode, LineageCodec.Decode, SignsCorrectly, BuildAndApply, ValidUtf8;
    if LineageCodec.Decode(c, b).Success? && |kemSeed| == 96 && |sigSeed| == 32
       && (commitment.Some? ==> |commitment.value| == 32) {
      LineageCodec.DecodeIsEncoding(c, b);
      var l := LineageCodec.Decode(c, b).value;
      LineageCodec.EncodedSize(c, l);
      SequenceIsIndex(c, l, |l.rotations|);
      RecoverSucceedsExactly(c, l, FromSeeds(c, kemSeed, sigSeed, keyEpoch), ParseCommitment(commitment).value, nowMs);
    }
  }

  // ── Engine and lineage stay coupled ───────────────────────────────────────

  // A node that just made its keys gets the lineage that starts from them.
  lemma FreshIsCoupled(c: Primitives, kemSeed: KemSeed, sigSeed: SigSeed, keyEpoch: Text)
    ensures var id := FromSeeds(c, kemSeed, sigSeed, keyEpoch);
            FromIdentity(c, id).Success? && Coupled(c, id, FromIdentity(c, id).value)
  {
    var id := FromSeeds(c, kemSeed, sigSeed, keyEpoch);
    InceptionValid(c, id.KemKey(c), id.SigKey(c), keyEpoch);
  }

  // A built record installs the new node's keys under the old id.
  lemma BuildInstalls(c: Primitives, l: Lineage, current: Option<NodeIdentity>, next: NodeIdentity,
                      commitment: Option<Digest>, nowMs: u64)
    requires ValidLineage(c, l)
    ensures var b := BuildAndApply(c, l, current, next, commitment, nowMs);
            b.Success? ==>
              && Coupled(c, next.(nodeId := l.nodeId), b.value.lineage)
              && b.value.lineage.rotations == l.rotations + [b.value.record]
              && |b.value.lineage.rotations| < 0x1_0000_0000_0000_0000
  {
    BuildIsApply(c, l, current, next, commitment, nowMs);
    var b := BuildAndApply(c, l, current, next, commitment, nowMs);
    if b.Success? {
      SequenceIsIndex(c, l, |l.rotations|);
      ApplyKeepsValid(c, l, b.value.record);
    }
  }

  lemma BuildExtends(c: Primitives, l: Lineage, current: Option<NodeIdentity>, kemSeed: bytes, sigSeed: bytes,
                     keyEpoch: Text, commitment: Option<bytes>, nowMs: u64)
    requires ValidLineage(c, l)
    requires |kemSeed| == 96 && |sigSeed| == 32 && ParseCommitment(commitment).Success?
    ensures var next, parsed := FromSeeds(c, kemSeed, sigSeed, keyEpoch), ParseCommitment(commitment).value;
            var b := BuildAndApply(c, l, current, next, parsed, nowMs);
            b.Success? ==> Extends(c, l, b.value.lineage, kemSeed, sigSeed, keyEpoch, commitment, nowMs)
  {
    hide Apply, ValidLineage, SigningInput, StateDigest, ValidUtf8;
    var next, parsed := FromSeeds(c, kemSeed, sigSeed, keyEpoch), ParseCommitment(commitment).value;
    var b := BuildAndApply(c, l, current, next, parsed, nowMs);
    if b.Success? {
      BuildInstalls(c, l, current, next, parsed, nowMs);
      BuildIsApply(c, l, current, next, parsed, nowMs);
      AppliedNew(c, l, b.value.record, b.value.lineage);
    }
  }

  lemma AppliedNew(c: Primitives, l: Lineage, r: KeyRotation, l': Lineage)
    requires Apply(c, l, r) == Success(l') && l'.rotations == l.rotations + [r]
    ensures l'.inception == l.inception && l'.current.nextKeyCommitment == r.nextKeyCommitment
    ensures l'.current.keyEpoch == r.newKeyEpoch
  {
    hide SigningInput, StateDigest, KeyCommitment, VerifyExternal, ValidUtf8;
    VerifyNextMeetsRules(c, l, r);
  }

  lemma RotationExtends(c: Primitives, l: Lineage, holder: NodeIdentity, kemSeed: bytes, sigSeed: bytes, keyEpoch: Text,
                        commitment: Option<bytes>, nowMs: u64)
    requires ValidLineage(c, l)
    requires |kemSeed| == 96 && |sigSeed| == 32 && ParseCommitment(commitment).Success?
    ensures var next, parsed := FromSeeds(c, kemSeed, sigSeed, keyEpoch), ParseCommitment(commitment).value;
            var b := Rotation.Rotate(c, l, holder, next, parsed, nowMs);
            b.Success? ==> Extends(c, l, b.value.lineage, kemSeed, sigSeed, keyEpoch, commitment, nowMs)
  {
    hide BuildAndApply, ValidLineage, Extends, ParseCommitment, FromSeeds;
    BuildExtends(c, l, Some(holder), kemSeed, sigSeed, keyEpoch, commitment, nowMs);
  }

  lemma RotationInstalls(c: Primitives, l: Lineage, holder: NodeIdentity, next: NodeIdentity, commitment: Option<Digest>,
                         nowMs: u64)
    requires ValidLineage(c, l)
    ensures var b := Rotation.Rotate(c, l, holder, next, commitment, nowMs);
            b.Success? ==>
              && Coupled(c, next.(nodeId := l.nodeId), b.value.lineage)
              && b.value.lineage.rotations == l.rotations + [b.value.record]
              && |b.value.lineage.rotations| < 0x1_0000_0000_0000_0000
  {
    hide BuildAndApply, ValidLineage;
    BuildInstalls(c, l, Some(holder), next, commitment, nowMs);
  }

  lemma RecoveryInstalls(c: Primitives, b: bytes, next: NodeIdentity, commitment: Option<Digest>, nowMs: u64)
    requires LineageCodec.Decode(c, b).Success?
    ensures var l := LineageCodec.Decode(c, b).value;
            var built := Rotation.Recover(c, l, next, commitment, nowMs);
            built.Success? ==>
              && Coupled(c, next.(nodeId := l.nodeId), built.value.lineage)
              && built.value.lineage.rotations == l.rotations + [built.value.record]
              && |built.value.lineage.rotations| < 0x1_0000_0000_0000_0000
  {
    hide BuildAndApply, ValidLineage, LineageCodec.Decode;
    LineageCodec.DecodeIsEncoding(c, b);
    BuildInstalls(c, LineageCodec.Decode(c, b).value, None, next, commitment, nowMs);
  }

  // A coupled node is never refused for its id or its key: it can rotate to new keys exactly when they
  // meet the commitment in force, if there is one.
  lemma CoupledNodeRotates(c: Primitives, id: NodeIdentity, l: Lineage, next: NodeIdentity, commitment: Option<Digest>,
                           nowMs: u64)
    requires Coupled(c, id, l) && |l.rotations| + 1 < 0x1_0000_0000_0000_0000
    requires SignsCorrectly(c, id.sigSeed) && SignsCorrectly(c, next.sigSeed)
    ensures Rotation.Rotate(c, l, id, next, commitment, nowMs).Success? <==> MeetsCommitment(c, l.current, next)
  {
    SequenceIsIndex(c, l, |l.rotations|);
    hide BuildAndApply, ValidLineage, MeetsCommitment, BuiltFor, SignsCorrectly;
    RotateSucceedsExactly(c, l, id, next, commitment, nowMs);
  }

  // ── Restarting ────────────────────────────────────────────────────────────

  predicate HasSeedsOf(config: ResolvedConfig, id: NodeIdentity) {
    config.kemSeed == Some(id.kemSeed) && config.sigSeed == Some(id.sigSeed) && config.keyEpoch == id.keyEpoch
  }

  // Starting from the current seeds and the stored bytes gives back the same id, keys and lineage,
  // exactly when the bytes are within the size limit.
  lemma RestartReproduces(c: Primitives, config: ResolvedConfig, id: NodeIdentity, l: Lineage)
    requires Coupled(c, id, l) && |l.rotations| < 0x1_0000_0000_0000_0000
    requires HasSeedsOf(config, id)
    ensures Restarted(c, config, LineageCodec.Encode(l)) == Success(Installation(id, l)) <==>
            |LineageCodec.Encode(l)| <= LineageCodec.MAX_LINEAGE_BYTES
  {
    hide LineageCodec.Encode, LineageCodec.Decode, ValidLineage;
    LineageCodec.RoundTrip(c, LineageCodec.Encode(l), l);
  }

  // A start with a stored lineage is refused for missing seeds, for bytes that do not decode, or for seeds that
  // are not its current keys'; and otherwise installs that lineage.
  lemma RestartRefusedExactly(c: Primitives, config: ResolvedConfig, b: bytes)
    ensures var r, decoded := Restarted(c, config, b), LineageCodec.Decode(c, b);
            if config.kemSeed.None? || config.sigSeed.None? then r == Failure(ConfigError)
            else if decoded.Failure? then r == Failure(decoded.error)
            else
              var s := decoded.value.current;
              if c.sigPublic(config.sigSeed.value) == s.sigPublicKey && c.kemPublic(config.kemSeed.value) == s.kemPublicKey
              then r.Success? && r.value.lineage == decoded.value
              else r == Failure(IdentityError(SeedsNotCurrent))
  {
    hide LineageCodec.Decode;
  }

  // Whatever a start with a lineage installs is coupled, and was stored in those bytes.
  lemma RestartedIsCoupled(c: Primitives, config: ResolvedConfig, b: bytes)
    requires Restarted(c, config, b).Success?
    ensures var i := Restarted(c, config, b).value;
            && Coupled(c, i.identity, i.lineage) && HasSeedsOf(config, i.identity)
            && |i.lineage.rotations| < 0x1_0000_0000_0000_0000 && LineageCodec.Encode(i.lineage) == b
  {
    hide LineageCodec.Encode, LineageCodec.Decode, ValidLineage;
    LineageCodec.DecodeIsEncoding(c, b);
  }

  // A plain start with the current seeds does not do: after a change of keys it gets another id, unless a
  // collision is at hand.
  lemma PlainStartLosesId(c: Primitives, id: NodeIdentity, l: Lineage)
    requires Coupled(c, id, l)
    requires l.current.kemPublicKey != l.inception.kemPublicKey || l.current.sigPublicKey != l.inception.sigPublicKey
    ensures FromSeeds(c, id.kemSeed, id.sigSeed, id.keyEpoch).nodeId != l.nodeId ||
            Collision(c, l.current.kemPublicKey + l.current.sigPublicKey,
                      l.inception.kemPublicKey + l.inception.sigPublicKey)
  {
    if FromSeeds(c, id.kemSeed, id.sigSeed, id.keyEpoch).nodeId == l.nodeId {
      NodeIdPinsKeys(c, l.current.kemPublicKey, l.current.sigPublicKey, l.inception.kemPublicKey,
                     l.inception.sigPublicKey);
    }
  }

  // What a node sends is accepted everywhere within the limits; a peer that pins the node and knows its
  // first k records takes it exactly when the key those end in is still the node's.
  lemma PinnedSenderAccepted(c: Primitives, id: NodeIdentity, l: Lineage, k: nat, t: PayloadType, payload: Buffer,
                             ttl: byte, sentMs: u64, maxBytes: nat, windowMs: u64, nowMs: u64)
    requires Coupled(c, id, l) && k <= |l.rotations| && SignsCorrectly(c, id.sigSeed)
    requires ttl > 0 && |payload| <= maxBytes && Age(nowMs, sentMs) <= windowMs
    ensures ValidLineage(c, Truncate(l, k))
    ensures var built := BuildEnvelope(c, t, payload, id, ttl, sentMs);
            && built.Success?
            && var decoded := DecodeEnvelope(EncodeEnvelope(built.value));
               && decoded.Success? && decoded.value.payloadType == t && decoded.value.payload == payload
               && VerifyEnvelope(c, decoded.value, maxBytes, windowMs, nowMs) == Success(true)
               && (CheckEnvelopeSender(Truncate(l, k), decoded.value) == Pass <==>
                   StateAt(l, k).sigPublicKey == id.SigKey(c))
  {
    TruncateValid(c, l, k);
    SentEnvelopeAccepted(c, t, payload, id, ttl, sentMs, maxBytes, windowMs, nowMs, Truncate(l, k));
  }

  // A recovered lineage starts a node: with the recovered seeds, under the id it always had, one record on.
  lemma RecoveredNodeStarts(c: Primitives, b: bytes, next: NodeIdentity, commitment: Option<bytes>, nowMs: u64,
                            config: ResolvedConfig)
    requires HasSeedsOf(config, next)
    ensures var recovered := Recovered(c, b, next.kemSeed, next.sigSeed, next.keyEpoch, commitment, nowMs);
            recovered.Success? && |recovered.value| <= LineageCodec.MAX_LINEAGE_BYTES ==>
              var before, started := LineageCodec.Decode(c, b), Restarted(c, config, recovered.value);
              && before.Success? && started.Success?
              && started.value.identity == next.(nodeId := before.value.nodeId)
              && before.value.rotations < started.value.lineage.rotations
              && |started.value.lineage.rotations| == |before.value.rotations| + 1
  {
    hide LineageCodec.Encode, LineageCodec.Decode, ValidLineage, Rotation.Recover;
    if Recovered(c, b, next.kemSeed, next.sigSeed, next.keyEpoch, commitment, nowMs).Success? {
      var made := FromSeeds(c, next.kemSeed, next.sigSeed, next.keyEpoch);
      var l := LineageCodec.Decode(c, b).value;
      var parsed := ParseCommitment(commitment).value;
      var built := Rotation.Recover(c, l, made, parsed, nowMs).value;
      RecoveryInstalls(c, b, made, parsed, nowMs);
      LineageCodec.RoundTrip(c, LineageCodec.Encode(built.lineage), built.lineage);
    }
  }
}
