/** The byte layouts, field by field: what the general codec writes for each signed, hashed or sent structure,
    and that decoding accepts exactly those bytes. */
module Layouts {
  import opened Bytes
  import opened Wrappers
  import opened Wire
  import opened Rotation
  import opened Messages
  import opened Envelopes
  import LineageCodec

  function Concat(parts: seq<bytes>): bytes {
    if |parts| == 0 then [] else parts[0] + Concat(parts[1..])
  }

  // bincode: a length in eight little-endian bytes, then the data.
  function Sized(v: bytes): bytes {
    IntBytes(Little, |v|, 8) + v
  }

  // Signed and hashed inputs: a length in eight big-endian bytes, then the data.
  function SizedBig(v: bytes): bytes {
    IntBytes(Big, |v|, 8) + v
  }

  function Optional(d: Option<Digest>): bytes {
    match d
    case None => [0]
    case Some(v) => [1] + v
  }

  // What the general codec writes is its fields one after another.
  lemma {:induction false} PutAllIsConcat(e: Endian, fs: seq<Field>, parts: seq<bytes>)
    requires |parts| == |fs| && forall i | 0 <= i < |fs| :: parts[i] == Put(e, fs[i])
    ensures PutAll(e, fs) == Concat(parts)
    decreases |fs|
  {
    hide Put;
    if |fs| > 0 {
      PutAllIsConcat(e, fs[1..], parts[1..]);
    }
  }

  // ── Signed and hashed ─────────────────────────────────────────────────────

  function SigningInputParts(r: KeyRotation): seq<bytes> {
    [[r.version], SizedBig(r.nodeId), IntBytes(Big, r.sequence, 8), r.prevStateDigest,
     SizedBig(r.newKemPublicKey), SizedBig(r.newSigPublicKey), SizedBig(r.newKeyEpoch),
     Optional(r.nextKeyCommitment), IntBytes(Big, r.timestampUnixMs, 8)]
  }

  lemma SigningInputLayout(r: KeyRotation)
    ensures SigningInput(r) == Ascii("WITAN_KEY_ROTATION_RECORD_V1") + Concat(SigningInputParts(r))
  {
    hide PutAll, Concat, IntBytes, ValidUtf8, Ascii;
    PutAllIsConcat(Big, SignedFields(r), SigningInputParts(r));
  }

  function DigestInputParts(nodeId: Text, s: KeyState): seq<bytes> {
    [SizedBig(nodeId), IntBytes(Big, s.sequence, 8), SizedBig(s.kemPublicKey),
     SizedBig(s.sigPublicKey), SizedBig(s.keyEpoch), Optional(s.nextKeyCommitment)]
  }

  lemma DigestInputLayout(nodeId: Text, s: KeyState)
    ensures DigestInput(nodeId, s) == Ascii("WITAN_KEY_STATE_V1") + Concat(DigestInputParts(nodeId, s))
  {
    hide PutAll, Concat, IntBytes, ValidUtf8, Ascii;
    PutAllIsConcat(Big, StateFields(nodeId, s), DigestInputParts(nodeId, s));
  }

  // ── Lineages ──────────────────────────────────────────────────────────────

  function RecordParts(r: KeyRotation): seq<bytes> {
    [[r.version], Sized(r.nodeId), IntBytes(Little, r.sequence, 8), r.prevStateDigest, Sized(r.newKemPublicKey),
     Sized(r.newSigPublicKey), Sized(r.newKeyEpoch), Optional(r.nextKeyCommitment),
     IntBytes(Little, r.timestampUnixMs, 8), Sized(r.authorization), Sized(r.possession)]
  }

  lemma RecordLayout(r: KeyRotation)
    ensures PutAll(Little, LineageCodec.RecordFields(r)) == Concat(RecordParts(r))
  {
    hide PutAll, Concat, IntBytes, ValidUtf8;
    PutAllIsConcat(Little, LineageCodec.RecordFields(r), RecordParts(r));
  }

  lemma {:induction false} RecordsLayout(rs: seq<KeyRotation>, parts: seq<bytes>)
    requires |parts| == |rs| && forall i | 0 <= i < |rs| :: parts[i] == Concat(RecordParts(rs[i]))
    ensures LineageCodec.PutRecords(rs) == Concat(parts)
    decreases |rs|
  {
    hide PutAll, RecordParts, LineageCodec.RecordFields;
    if |rs| > 0 {
      RecordLayout(rs[0]);
      RecordsLayout(rs[1..], parts[1..]);
    }
  }

  // A lineage travels as its inception keys and label, the number of its records, and the records.
  function HeaderParts(l: Lineage): seq<bytes> {
    [[1], Sized(l.inception.kemPublicKey), Sized(l.inception.sigPublicKey), Sized(l.inception.keyEpoch),
     IntBytes(Little, |l.rotations|, 8)]
  }

  lemma LineageLayout(l: Lineage, parts: seq<bytes>)
    requires |l.rotations| < 0x1_0000_0000_0000_0000
    requires |parts| == |l.rotations| && forall i | 0 <= i < |l.rotations| :: parts[i] == Concat(RecordParts(l.rotations[i]))
    ensures LineageCodec.Encode(l) == Concat(HeaderParts(l)) + Concat(parts)
  {
    hide PutAll, Concat, IntBytes, ValidUtf8, LineageCodec.PutRecords, RecordParts;
    RecordsLayout(l.rotations, parts);
    PutAllIsConcat(Little, LineageCodec.HeaderFields(LineageCodec.WireOf(l)), HeaderParts(l));
  }

  // ── Messages ──────────────────────────────────────────────────────────────

  function ProbeParts(m: HandshakeProbe): seq<bytes> {
    [Sized(m.magic), [m.version], m.clientNonce, Sized(m.endpoint), Sized(m.clientNodeId),
     IntBytes(Little, m.timestampUnixMs, 8)]
  }

  lemma ProbeLayout(m: HandshakeProbe)
    ensures EncodeProbe(m) == Concat(ProbeParts(m))
  {
    hide PutAll, Concat, IntBytes, ValidUtf8;
    PutAllIsConcat(Little, ProbeFields(m), ProbeParts(m));
  }

  function AckParts(m: HandshakeAck): seq<bytes> {
    [Sized(m.magic), [m.version], m.clientNonce, m.serverNonce, Sized(m.kemKeyJson), Sized(m.sigKey),
     Sized(m.serverNodeId), IntBytes(Little, m.timestampUnixMs, 8)]
  }

  lemma AckLayout(m: HandshakeAck)
    ensures EncodeAck(m) == Concat(AckParts(m))
  {
    hide PutAll, Concat, IntBytes, ValidUtf8;
    PutAllIsConcat(Little, AckFields(m), AckParts(m));
  }

  function FinishParts(m: HandshakeFinish): seq<bytes> {
    [Sized(m.magic), [m.version], Sized(m.kemCiphertextJson), Sized(m.clientSigKey),
     Sized(m.clientNodeId), IntBytes(Little, m.timestampUnixMs, 8)]
  }

  lemma FinishLayout(m: HandshakeFinish)
    ensures EncodeFinish(m) == Concat(FinishParts(m))
  {
    hide PutAll, Concat, IntBytes, ValidUtf8;
    PutAllIsConcat(Little, FinishFields(m), FinishParts(m));
  }

  function FinishAckParts(m: HandshakeFinishAck): seq<bytes> {
    [Sized(m.magic), [m.version], Sized(m.sessionId), m.transcriptHash, m.serverMac,
     Sized(m.transcriptSignature), IntBytes(Little, m.timestampUnixMs, 8)]
  }

  lemma FinishAckLayout(m: HandshakeFinishAck)
    ensures EncodeFinishAck(m) == Concat(FinishAckParts(m))
  {
    hide PutAll, Concat, IntBytes, ValidUtf8;
    PutAllIsConcat(Little, FinishAckFields(m), FinishAckParts(m));
  }

  function EnvelopeParts(e: GossipEnvelope): seq<bytes> {
    [[e.version], e.messageId, Sized(e.senderNodeId), Sized(e.senderPublicKey),
     IntBytes(Little, AsU8(e.payloadType), 4), Sized(e.payload), Sized(e.signature),
     IntBytes(Little, e.timestampUnixMs, 8), [e.ttl]]
  }

  lemma EnvelopeLayout(e: GossipEnvelope)
    ensures EncodeEnvelope(e) == Concat(EnvelopeParts(e))
  {
    hide PutAll, Concat, IntBytes, ValidUtf8;
    PutAllIsConcat(Little, EnvelopeFields(e), EnvelopeParts(e));
  }

  // ── Decoding accepts exactly the encodings, with anything after them ──────

  lemma FieldsAtRebuild(ks: seq<Kind>, b: bytes)
    requires FieldsAt(ks, b).Some?
    ensures KindsOf(FieldsAt(ks, b).value) == ks && PutAll(Little, FieldsAt(ks, b).value) <= b
  {
    PutAllTakeAll(Little, ks, b);
  }

  lemma ProbeDecodesExactly(b: bytes, m: HandshakeProbe)
    ensures DecodeProbe(b) == Some(m) <==> EncodeProbe(m) <= b
  {
    hide PutAll, TakeAll, ValidUtf8;
    if EncodeProbe(m) <= b {
      ProbeRoundTrip(m, b[|EncodeProbe(m)|..]);
      assert b == EncodeProbe(m) + b[|EncodeProbe(m)|..];
    }
    if DecodeProbe(b) == Some(m) {
      FieldsAtRebuild(PROBE_KINDS, b);
      var fs := FieldsAt(PROBE_KINDS, b).value;
      LineageCodec.FieldKinds(fs, PROBE_KINDS);
      assert fs == ProbeFields(m);
    }
  }

  lemma AckDecodesExactly(b: bytes, m: HandshakeAck)
    ensures DecodeAck(b) == Some(m) <==> EncodeAck(m) <= b
  {
    hide PutAll, TakeAll, ValidUtf8;
    if EncodeAck(m) <= b {
      AckRoundTrip(m, b[|EncodeAck(m)|..]);
      assert b == EncodeAck(m) + b[|EncodeAck(m)|..];
    }
    if DecodeAck(b) == Some(m) {
      FieldsAtRebuild(ACK_KINDS, b);
      var fs := FieldsAt(ACK_KINDS, b).value;
      LineageCodec.FieldKinds(fs, ACK_KINDS);
      assert fs == AckFields(m);
    }
  }

  lemma FinishDecodesExactly(b: bytes, m: HandshakeFinish)
    ensures DecodeFinish(b) == Some(m) <==> EncodeFinish(m) <= b
  {
    hide PutAll, TakeAll, ValidUtf8;
    if EncodeFinish(m) <= b {
      FinishRoundTrip(m, b[|EncodeFinish(m)|..]);
      assert b == EncodeFinish(m) + b[|EncodeFinish(m)|..];
    }
    if DecodeFinish(b) == Some(m) {
      FieldsAtRebuild(FINISH_KINDS, b);
      var fs := FieldsAt(FINISH_KINDS, b).value;
      LineageCodec.FieldKinds(fs, FINISH_KINDS);
      assert fs == FinishFields(m);
    }
  }

  lemma FinishAckDecodesExactly(b: bytes, m: HandshakeFinishAck)
    ensures DecodeFinishAck(b) == Some(m) <==> EncodeFinishAck(m) <= b
  {
    hide PutAll, TakeAll, ValidUtf8;
    if EncodeFinishAck(m) <= b {
      FinishAckRoundTrip(m, b[|EncodeFinishAck(m)|..]);
      assert b == EncodeFinishAck(m) + b[|EncodeFinishAck(m)|..];
    }
    if DecodeFinishAck(b) == Some(m) {
      FieldsAtRebuild(FINISH_ACK_KINDS, b);
      var fs := FieldsAt(FINISH_ACK_KINDS, b).value;
      LineageCodec.FieldKinds(fs, FINISH_ACK_KINDS);
      assert fs == FinishAckFields(m);
    }
  }

  lemma EnvelopeDecodesExactly(b: bytes, e: GossipEnvelope)
    ensures DecodeEnvelope(b) == Success(e) <==> EncodeEnvelope(e) <= b
  {
    hide PutAll, TakeAll, ValidUtf8;
    if EncodeEnvelope(e) <= b {
      EnvelopeRoundTrip(e, b[|EncodeEnvelope(e)|..]);
      assert b == EncodeEnvelope(e) + b[|EncodeEnvelope(e)|..];
    }
    if DecodeEnvelope(b) == Success(e) {
      FieldsAtRebuild(ENVELOPE_KINDS, b);
      var fs := FieldsAt(ENVELOPE_KINDS, b).value;
      LineageCodec.FieldKinds(fs, ENVELOPE_KINDS);
      assert fs == EnvelopeFields(e);
    }
  }

  // The five payload types and their codes, on the wire and at the interface; no other code is a type.
  lemma PayloadTypeCodes(v: byte, t: PayloadType)
    ensures FromU8(v) == Some(t) <==> AsU8(t) == v
    ensures FromU8(v).Some? <==> v < 5
    ensures AsU8(Transaction) == 0 && AsU8(BlockProposal) == 1 && AsU8(FinalityVote) == 2 && AsU8(StateSync) == 3
    ensures AsU8(PeerDiscovery) == 4
  {
  }
}
