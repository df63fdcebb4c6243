/** Gossip envelopes: building, encoding and verifying them, and checking the sender against a lineage
    (witan/src/envelope.rs, witan/src/types.rs, witan/src/rotation.rs). */
module Envelopes {
  import opened Bytes
  import opened Wrappers
  import opened Wire
  import opened Identity
  import opened Rotation
  import opened Chains
  import opened Messages
  import opened Handshake

  const SIG_CTX_MESSAGE := Ascii("WITAN_GOSSIP_MESSAGE_V1")

  datatype PayloadType = Transaction | BlockProposal | FinalityVote | StateSync | PeerDiscovery

  function FromU8(v: byte): Option<PayloadType> {
    match v
    case 0 => Some(Transaction)
    case 1 => Some(BlockProposal)
    case 2 => Some(FinalityVote)
    case 3 => Some(StateSync)
    case 4 => Some(PeerDiscovery)
    case _ => None
  }

  function AsU8(t: PayloadType): byte {
    match t
    case Transaction => 0
    case BlockProposal => 1
    case FinalityVote => 2
    case StateSync => 3
    case PeerDiscovery => 4
  }

  datatype GossipEnvelope = GossipEnvelope(
    version: byte, messageId: Digest, senderNodeId: Text, senderPublicKey: Buffer, payloadType: PayloadType,
    payload: Buffer, signature: Buffer, timestampUnixMs: u64, ttl: byte)

  // ── Bytes ─────────────────────────────────────────────────────────────────

  const ENVELOPE_KINDS := [KU8, KArray32, KStr, KBlob, KU32, KBlob, KBlob, KU64, KU8]

  // bincode writes the payload type as a four-byte variant index.
  function EnvelopeFields(e: GossipEnvelope): (fs: seq<Field>)
    ensures KindsOf(fs) == ENVELOPE_KINDS
  {
    [U8(e.version), Array32(e.messageId), Str(e.senderNodeId), Blob(e.senderPublicKey), U32(AsU8(e.payloadType)),
     Blob(e.payload), Blob(e.signature), U64(e.timestampUnixMs), U8(e.ttl)]
  }

  function EncodeEnvelope(e: GossipEnvelope): bytes {
    PutAll(Little, EnvelopeFields(e))
  }

  function DecodeEnvelope(b: bytes): Result<GossipEnvelope, GossipError> {
    match FieldsAt(ENVELOPE_KINDS, b)
    case None => Failure(SerializationError)
    case Some(fs) =>
      if fs[4].w > 4 then Failure(SerializationError)
      else Success(GossipEnvelope(fs[0].b, fs[1].d, fs[2].t, fs[3].v, FromU8(fs[4].w).value, fs[5].v, fs[6].v,
                                  fs[7].n, fs[8].b))
  }

  lemma EnvelopeRoundTrip(e: GossipEnvelope, trailing: bytes)
    ensures DecodeEnvelope(EncodeEnvelope(e) + trailing) == Success(e)
  {
    FieldsOfPut(EnvelopeFields(e), trailing);
  }

  // ── Building and verifying ────────────────────────────────────────────────

  function MessageId(c: Primitives, t: PayloadType, payload: bytes): Digest {
    c.sha256([AsU8(t)] + payload)
  }

  function EnvelopeSigningInput(e: GossipEnvelope): bytes {
    e.messageId + [AsU8(e.payloadType)] + e.payload
  }

  function BuildEnvelope(c: Primitives, t: PayloadType, payload: Buffer, id: NodeIdentity, ttl: byte, nowMs: u64)
    : Result<GossipEnvelope, GossipError>
  {
    var e := GossipEnvelope(1, MessageId(c, t, payload), id.nodeId, id.SigKey(c), t, payload, [], nowMs, ttl);
    var signature :- id.Sign(c, EnvelopeSigningInput(e), SIG_CTX_MESSAGE);
    Success(e.(signature := signature))
  }

  function VerifyEnvelope(c: Primitives, e: GossipEnvelope, maxBytes: nat, windowMs: u64, nowMs: u64)
    : Result<bool, GossipError>
  {
    if e.version != 1 then Failure(EnvelopeError(BadEnvelopeVersion))
    else if e.messageId != MessageId(c, e.payloadType, e.payload) then Failure(EnvelopeError(IdMismatch))
    else if Age(nowMs, e.timestampUnixMs) > windowMs then Failure(ReplayDetected)
    else if e.ttl == 0 then Failure(TtlExpired)
    else if |e.payload| > maxBytes then Failure(EnvelopeError(TooLarge))
    else
      var verified :- VerifyExternal(c, e.senderPublicKey, EnvelopeSigningInput(e), e.signature, SIG_CTX_MESSAGE);
      if verified then Success(true) else Failure(SignatureInvalid)
  }

  // The sender is the lineage's node, speaking with its current key.
  function CheckEnvelopeSender(l: Lineage, e: GossipEnvelope): Outcome<GossipError> {
    if e.senderNodeId != l.nodeId then Fail(IdentityError(OtherSender))
    else if e.senderPublicKey != l.current.sigPublicKey then Fail(IdentityError(StaleSenderKey))
    else Pass
  }

  // A message id pins the message: two payloads with one id are the same type and bytes, or a collision
  // is at hand.
  lemma MessageIdPins(c: Primitives, t1: PayloadType, p1: bytes, t2: PayloadType, p2: bytes)
    requires MessageId(c, t1, p1) == MessageId(c, t2, p2)
    ensures (t1 == t2 && p1 == p2) || Collision(c, [AsU8(t1)] + p1, [AsU8(t2)] + p2)
  {
    var m1, m2 := [AsU8(t1)] + p1, [AsU8(t2)] + p2;
    if m1 == m2 {
      assert m1[0] == m2[0] && m1[1..] == p1 && m2[1..] == p2;
    }
  }

  // ── What a verified envelope is, and what a built one carries ─────────────

  // Verification succeeds exactly for version 1, the id of this very message, an age within the window, hops
  // left, a payload within the limit, and a signature of the id and message under the sender's key. It never
  // answers false.
  lemma VerifiedExactly(c: Primitives, e: GossipEnvelope, maxBytes: nat, windowMs: u64, nowMs: u64)
    ensures VerifyEnvelope(c, e, maxBytes, windowMs, nowMs) == Success(true) <==>
            && e.version == 1
            && e.messageId == c.sha256([AsU8(e.payloadType)] + e.payload)
            && nowMs - e.timestampUnixMs <= windowMs
            && e.ttl > 0
            && |e.payload| <= maxBytes
            && c.verify(e.senderPublicKey,
                        Tagged(SIG_CTX_MESSAGE, e.messageId + [AsU8(e.payloadType)] + e.payload), e.signature) == Valid
    ensures VerifyEnvelope(c, e, maxBytes, windowMs, nowMs) != Success(false)
  {
    hide Tagged;
  }

  // An envelope is built exactly when its message can be signed, and carries that message: type, payload,
  // time and hops as given, the id of the message, the sender's id and key, and the sender's signature.
  lemma BuiltCarries(c: Primitives, t: PayloadType, payload: Buffer, id: NodeIdentity, ttl: byte, nowMs: u64)
    ensures var built := BuildEnvelope(c, t, payload, id, ttl, nowMs);
            var messageId := c.sha256([AsU8(t)] + payload);
            var signature := c.sign(id.sigSeed, Tagged(SIG_CTX_MESSAGE, messageId + [AsU8(t)] + payload));
            if signature.None? then built == Failure(CryptoError)
            else built == Success(GossipEnvelope(1, messageId, id.nodeId, c.sigPublic(id.sigSeed), t, payload,
                                                 signature.value, nowMs, ttl))
  {
    hide Tagged;
  }

  // The sender check: which node, then which key.
  lemma SenderCheckedExactly(l: Lineage, e: GossipEnvelope)
    ensures CheckEnvelopeSender(l, e) == Pass <==>
            e.senderNodeId == l.nodeId && e.senderPublicKey == l.current.sigPublicKey
    ensures CheckEnvelopeSender(l, e) == Fail(IdentityError(OtherSender)) <==> e.senderNodeId != l.nodeId
    ensures CheckEnvelopeSender(l, e) == Fail(IdentityError(StaleSenderKey)) <==>
            e.senderNodeId == l.nodeId && e.senderPublicKey != l.current.sigPublicKey
  {
  }

  // ── The replay window ─────────────────────────────────────────────────────

  // The integrity checks that come before the window.
  predicate Intact(c: Primitives, e: GossipEnvelope) {
    e.version == 1 && e.messageId == MessageId(c, e.payloadType, e.payload)
  }

  // The window has one side: an intact envelope is a replay exactly when it is from too long ago.
  lemma ReplayedExactly(c: Primitives, e: GossipEnvelope, maxBytes: nat, windowMs: u64, nowMs: u64)
    ensures VerifyEnvelope(c, e, maxBytes, windowMs, nowMs) == Failure(ReplayDetected) <==>
            Intact(c, e) && nowMs - e.timestampUnixMs > windowMs
  {
  }

  // The documented window has two: |now - timestamp| > window. The code meets that exactly when the
  // envelope is not an intact one from further ahead than the window.
  lemma DocumentedWindowExactly(c: Primitives, e: GossipEnvelope, maxBytes: nat, windowMs: u64, nowMs: u64)
    ensures var distance := if nowMs >= e.timestampUnixMs then nowMs - e.timestampUnixMs else e.timestampUnixMs - nowMs;
            (VerifyEnvelope(c, e, maxBytes, windowMs, nowMs) == Failure(ReplayDetected) <==>
             Intact(c, e) && distance > windowMs)
            <==> !(Intact(c, e) && e.timestampUnixMs - nowMs > windowMs)
  {
    ReplayedExactly(c, e, maxBytes, windowMs, nowMs);
  }

  // What a node sends, its peers accept: an envelope it builds within the limits, decoded from its bytes,
  // verifies anywhere within the window; and it passes the sender check against a lineage exactly when
  // that lineage has the node's id and ends in the node's signing key.
  lemma SentEnvelopeAccepted(c: Primitives, t: PayloadType, payload: Buffer, id: NodeIdentity, ttl: byte, sentMs: u64,
                             maxBytes: nat, windowMs: u64, nowMs: u64, l: Lineage)
    requires SignsCorrectly(c, id.sigSeed)
    requires ttl > 0 && |payload| <= maxBytes && Age(nowMs, sentMs) <= windowMs
    ensures var built := BuildEnvelope(c, t, payload, id, ttl, sentMs);
            && built.Success?
            && var decoded := DecodeEnvelope(EncodeEnvelope(built.value));
               && decoded == Success(built.value)
               && decoded.value.payloadType == t && decoded.value.payload == payload && decoded.value.ttl == ttl
               && decoded.value.timestampUnixMs == sentMs && decoded.value.senderNodeId == id.nodeId
               && decoded.value.senderPublicKey == id.SigKey(c)
               && VerifyEnvelope(c, decoded.value, maxBytes, windowMs, nowMs) == Success(true)
               && (CheckEnvelopeSender(l, decoded.value) == Pass <==>
                   l.nodeId == id.nodeId && l.current.sigPublicKey == id.SigKey(c))
  {
    hide EnvelopeFields;
    var e := GossipEnvelope(1, MessageId(c, t, payload), id.nodeId, id.SigKey(c), t, payload, [], sentMs, ttl);
    var signature := id.Sign(c, EnvelopeSigningInput(e), SIG_CTX_MESSAGE).value;
    assert EnvelopeSigningInput(e.(signature := signature)) == EnvelopeSigningInput(e);
    EnvelopeRoundTrip(e.(signature := signature), []);
    assert EncodeEnvelope(e.(signature := signature)) + [] == EncodeEnvelope(e.(signature := signature));
  }

  // The failing input: an envelope dated any distance in the future is accepted.
  lemma FutureEnvelopeAccepted(c: Primitives, t: PayloadType, payload: Buffer, id: NodeIdentity, ttl: byte, sentMs: u64,
                               maxBytes: nat, windowMs: u64, nowMs: u64)
    requires SignsCorrectly(c, id.sigSeed) && ttl > 0 && |payload| <= maxBytes
    requires sentMs - nowMs > windowMs
    ensures var built := BuildEnvelope(c, t, payload, id, ttl, sentMs);
            && built.Success? && built.value.payloadType == t && built.value.payload == payload
            && VerifyEnvelope(c, built.value, maxBytes, windowMs, nowMs) == Success(true)
  {
    var nowhere := KeyState(0, [], [], [], None);
    SentEnvelopeAccepted(c, t, payload, id, ttl, sentMs, maxBytes, windowMs, nowMs, Lineage([], nowhere, [], nowhere));
  }

  // Peers that are behind: against the first k records of the sender's own lineage the sender check
  // passes exactly when the key in force then is the one it signs with now.
  lemma SenderAgainstPrefix(c: Primitives, e: GossipEnvelope, l: Lineage, k: nat)
    requires ValidLineage(c, l) && k <= |l.rotations|
    requires e.senderNodeId == l.nodeId && e.senderPublicKey == l.current.sigPublicKey
    ensures ValidLineage(c, Truncate(l, k))
    ensures CheckEnvelopeSender(Truncate(l, k), e) ==
            if StateAt(l, k).sigPublicKey == l.current.sigPublicKey then Pass else Fail(IdentityError(StaleSenderKey))
  {
    TruncateValid(c, l, k);
  }
}
