/** The four handshake messages, their bytes, and telling them apart (witan/src/types.rs). */
module Messages {
  import opened Bytes
  import opened Wrappers
  import opened Wire

  const HANDSHAKE_PROBE_MAGIC := Ascii("WITAN_GOSSIP_HANDSHAKE_V1")
  const HANDSHAKE_ACK_MAGIC := Ascii("WITAN_GOSSIP_HANDSHAKE_ACK_V1")
  const HANDSHAKE_FINISH_MAGIC := Ascii("WITAN_GOSSIP_HANDSHAKE_FINISH_V1")
  const HANDSHAKE_FINISH_ACK_MAGIC := Ascii("WITAN_GOSSIP_HANDSHAKE_FINISH_ACK_V1")

  datatype HandshakeProbe = HandshakeProbe(
    magic: Buffer, version: byte, clientNonce: Digest, endpoint: Text, clientNodeId: Text, timestampUnixMs: u64)

  datatype HandshakeAck = HandshakeAck(
    magic: Buffer, version: byte, clientNonce: Digest, serverNonce: Digest, kemKeyJson: Text, sigKey: Buffer,
    serverNodeId: Text, timestampUnixMs: u64)

  datatype HandshakeFinish = HandshakeFinish(
    magic: Buffer, version: byte, kemCiphertextJson: Text, clientSigKey: Buffer, clientNodeId: Text,
    timestampUnixMs: u64)

  datatype HandshakeFinishAck = HandshakeFinishAck(
    magic: Buffer, version: byte, sessionId: Text, transcriptHash: Digest, serverMac: Digest,
    transcriptSignature: Buffer, timestampUnixMs: u64)

  // ── Bytes ─────────────────────────────────────────────────────────────────

  const PROBE_KINDS := [KBlob, KU8, KArray32, KStr, KStr, KU64]
  const ACK_KINDS := [KBlob, KU8, KArray32, KArray32, KStr, KBlob, KStr, KU64]
  const FINISH_KINDS := [KBlob, KU8, KStr, KBlob, KStr, KU64]
  const FINISH_ACK_KINDS := [KBlob, KU8, KStr, KArray32, KArray32, KBlob, KU64]

  function ProbeFields(m: HandshakeProbe): (fs: seq<Field>)
    ensures KindsOf(fs) == PROBE_KINDS
  {
    [Blob(m.magic), U8(m.version), Array32(m.clientNonce), Str(m.endpoint), Str(m.clientNodeId), U64(m.timestampUnixMs)]
  }

  function AckFields(m: HandshakeAck): (fs: seq<Field>)
    ensures KindsOf(fs) == ACK_KINDS
  {
    [Blob(m.magic), U8(m.version), Array32(m.clientNonce), Array32(m.serverNonce), Str(m.kemKeyJson), Blob(m.sigKey),
     Str(m.serverNodeId), U64(m.timestampUnixMs)]
  }

  function FinishFields(m: HandshakeFinish): (fs: seq<Field>)
    ensures KindsOf(fs) == FINISH_KINDS
  {
    [Blob(m.magic), U8(m.version), Str(m.kemCiphertextJson), Blob(m.clientSigKey), Str(m.clientNodeId),
     U64(m.timestampUnixMs)]
  }

  function FinishAckFields(m: HandshakeFinishAck): (fs: seq<Field>)
    ensures KindsOf(fs) == FINISH_ACK_KINDS
  {
    [Blob(m.magic), U8(m.version), Str(m.sessionId), Array32(m.transcriptHash), Array32(m.serverMac),
     Blob(m.transcriptSignature), U64(m.timestampUnixMs)]
  }

  function EncodeProbe(m: HandshakeProbe): bytes {
    PutAll(Little, ProbeFields(m))
  }

  function EncodeAck(m: HandshakeAck): bytes {
    PutAll(Little, AckFields(m))
  }

  function EncodeFinish(m: HandshakeFinish): bytes {
    PutAll(Little, FinishFields(m))
  }

  function EncodeFinishAck(m: HandshakeFinishAck): bytes {
    PutAll(Little, FinishAckFields(m))
  }

  // Reading fields of known kinds from the front; bincode ignores bytes after the last one.
  function FieldsAt(ks: seq<Kind>, b: bytes): (fs: Option<seq<Field>>)
    ensures fs.Some? ==> |fs.value| == |ks| && forall i | 0 <= i < |ks| :: KindOf(fs.value[i]) == ks[i]
  {
    match TakeAll(Little, ks, b)
    case Malformed => None
    case Parsed(fs, rest) =>
      PutAllTakeAll(Little, ks, b);
      assert forall i | 0 <= i < |fs| :: KindsOf(fs)[i] == KindOf(fs[i]);
      Some(fs)
  }

  function DecodeProbe(b: bytes): Option<HandshakeProbe> {
    match FieldsAt(PROBE_KINDS, b)
    case None => None
    case Some(fs) => Some(HandshakeProbe(fs[0].v, fs[1].b, fs[2].d, fs[3].t, fs[4].t, fs[5].n))
  }

  function DecodeAck(b: bytes): Option<HandshakeAck> {
    match FieldsAt(ACK_KINDS, b)
    case None => None
    case Some(fs) => Some(HandshakeAck(fs[0].v, fs[1].b, fs[2].d, fs[3].d, fs[4].t, fs[5].v, fs[6].t, fs[7].n))
  }

  function DecodeFinish(b: bytes): Option<HandshakeFinish> {
    match FieldsAt(FINISH_KINDS, b)
    case None => None
    case Some(fs) => Some(HandshakeFinish(fs[0].v, fs[1].b, fs[2].t, fs[3].v, fs[4].t, fs[5].n))
  }

  function DecodeFinishAck(b: bytes): Option<HandshakeFinishAck> {
    match FieldsAt(FINISH_ACK_KINDS, b)
    case None => None
    case Some(fs) => Some(HandshakeFinishAck(fs[0].v, fs[1].b, fs[2].t, fs[3].d, fs[4].d, fs[5].v, fs[6].n))
  }

  lemma FieldsOfPut(fs: seq<Field>, trailing: bytes)
    ensures FieldsAt(KindsOf(fs), PutAll(Little, fs) + trailing) == Some(fs)
  {
    TakeAllPutAll(Little, fs, trailing);
  }

  // An encoded message decodes to itself, whatever follows it.
  lemma ProbeRoundTrip(m: HandshakeProbe, trailing: bytes)
    ensures DecodeProbe(EncodeProbe(m) + trailing) == Some(m)
  {
    FieldsOfPut(ProbeFields(m), trailing);
  }

  lemma AckRoundTrip(m: HandshakeAck, trailing: bytes)
    ensures DecodeAck(EncodeAck(m) + trailing) == Some(m)
  {
    FieldsOfPut(AckFields(m), trailing);
  }

  lemma FinishRoundTrip(m: HandshakeFinish, trailing: bytes)
    ensures DecodeFinish(EncodeFinish(m) + trailing) == Some(m)
  {
    FieldsOfPut(FinishFields(m), trailing);
  }

  lemma FinishAckRoundTrip(m: HandshakeFinishAck, trailing: bytes)
    ensures DecodeFinishAck(EncodeFinishAck(m) + trailing) == Some(m)
  {
    FieldsOfPut(FinishAckFields(m), trailing);
  }

  // ── Dispatch ──────────────────────────────────────────────────────────────

  datatype MessageKind = ProbeKind | AckKind | FinishKind | FinishAckKind | EnvelopeKind

  function MagicOf(k: MessageKind): bytes
    requires k != EnvelopeKind
  {
    match k
    case ProbeKind => HANDSHAKE_PROBE_MAGIC
    case AckKind => HANDSHAKE_ACK_MAGIC
    case FinishKind => HANDSHAKE_FINISH_MAGIC
    case FinishAckKind => HANDSHAKE_FINISH_ACK_MAGIC
  }

  // Where the magic of an encoded message starts: after its eight length bytes.
  function Payload(b: bytes): bytes {
    if |b| > 8 then b[8..] else b
  }

  function ClassifyIncoming(b: bytes): MessageKind {
    var payload := Payload(b);
    if HANDSHAKE_FINISH_ACK_MAGIC <= payload then FinishAckKind
    else if HANDSHAKE_FINISH_MAGIC <= payload then FinishKind
    else if HANDSHAKE_ACK_MAGIC <= payload then AckKind
    else if HANDSHAKE_PROBE_MAGIC <= payload then ProbeKind
    else EnvelopeKind
  }

  // No two magics can both start the same bytes: they differ at their 24th or 31st byte.
  lemma OneMagic(payload: bytes, k1: MessageKind, k2: MessageKind)
    requires k1 != EnvelopeKind && k2 != EnvelopeKind
    requires MagicOf(k1) <= payload && MagicOf(k2) <= payload
    ensures k1 == k2
  {
    MagicBytes();
    assert payload[23] == MagicOf(k1)[23] == MagicOf(k2)[23];
    if k1 in {FinishKind, FinishAckKind} && k2 in {FinishKind, FinishAckKind} {
      assert payload[30] == MagicOf(k1)[30] == MagicOf(k2)[30];
    }
  }

  lemma MagicBytes()
    ensures |HANDSHAKE_PROBE_MAGIC| == 25 && |HANDSHAKE_ACK_MAGIC| == 29
    ensures |HANDSHAKE_FINISH_MAGIC| == 32 && |HANDSHAKE_FINISH_ACK_MAGIC| == 36
    ensures HANDSHAKE_PROBE_MAGIC[23] == 86 && HANDSHAKE_ACK_MAGIC[23] == 65
    ensures HANDSHAKE_FINISH_MAGIC[23] == 70 && HANDSHAKE_FINISH_ACK_MAGIC[23] == 70
    ensures HANDSHAKE_FINISH_MAGIC[30] == 86 && HANDSHAKE_FINISH_ACK_MAGIC[30] == 65
  {
  }

  // Dispatch does not depend on the order of its tests: bytes are classified as a handshake message
  // exactly when they start with that message's magic.
  lemma ClassifiedByMagic(b: bytes, k: MessageKind)
    requires k != EnvelopeKind
    ensures ClassifyIncoming(b) == k <==> MagicOf(k) <= Payload(b)
  {
    var k' := ClassifyIncoming(b);
    if k' != EnvelopeKind && MagicOf(k) <= Payload(b) {
      OneMagic(Payload(b), k, k');
    }
  }

  // Bytes whose first field is a message's magic, of whatever kinds the other fields are, go to that
  // message's handler.
  lemma MagicFirst(b: bytes, ks: seq<Kind>, k: MessageKind)
    requires k != EnvelopeKind && |ks| > 0 && ks[0] == KBlob
    requires FieldsAt(ks, b).Some? && FieldsAt(ks, b).value[0].v == MagicOf(k)
    ensures ClassifyIncoming(b) == k
  {
    hide PutAll;
    var magic := FieldsAt(ks, b).value[0].v;
    assert Take(Little, KBlob, b) == Parsed(Blob(magic), b[8 + |magic|..]);
    assert b[8..8 + |magic|] == magic;
    assert magic <= b[8..];
    MagicBytes();
    ClassifiedByMagic(b, k);
  }

  // Every handshake message that a handler would accept is dispatched to that handler.
  lemma DispatchIsCorrect(b: bytes)
    ensures DecodeProbe(b).Some? && DecodeProbe(b).value.magic == HANDSHAKE_PROBE_MAGIC
            ==> ClassifyIncoming(b) == ProbeKind
    ensures DecodeAck(b).Some? && DecodeAck(b).value.magic == HANDSHAKE_ACK_MAGIC
            ==> ClassifyIncoming(b) == AckKind
    ensures DecodeFinish(b).Some? && DecodeFinish(b).value.magic == HANDSHAKE_FINISH_MAGIC
            ==> ClassifyIncoming(b) == FinishKind
    ensures DecodeFinishAck(b).Some? && DecodeFinishAck(b).value.magic == HANDSHAKE_FINISH_ACK_MAGIC
            ==> ClassifyIncoming(b) == FinishAckKind
  {
    if DecodeProbe(b).Some? && DecodeProbe(b).value.magic == HANDSHAKE_PROBE_MAGIC {
      MagicFirst(b, PROBE_KINDS, ProbeKind);
    }
    if DecodeAck(b).Some? && DecodeAck(b).value.magic == HANDSHAKE_ACK_MAGIC {
      MagicFirst(b, ACK_KINDS, AckKind);
    }
    if DecodeFinish(b).Some? && DecodeFinish(b).value.magic == HANDSHAKE_FINISH_MAGIC {
      MagicFirst(b, FINISH_KINDS, FinishKind);
    }
    if DecodeFinishAck(b).Some? && DecodeFinishAck(b).value.magic == HANDSHAKE_FINISH_ACK_MAGIC {
      MagicFirst(b, FINISH_ACK_KINDS, FinishAckKind);
    }
  }

  // ── Transcripts ───────────────────────────────────────────────────────────

  // The three messages of a transcript can be read back from their concatenation: the first two are
  // exact encodings on both sides, so the cuts fall in the same places.
  lemma TranscriptSplits(p1: HandshakeProbe, a1: HandshakeAck, f1: bytes, p2: HandshakeProbe, a2: HandshakeAck, f2: bytes)
    requires EncodeProbe(p1) + EncodeAck(a1) + f1 == EncodeProbe(p2) + EncodeAck(a2) + f2
    ensures p1 == p2 && a1 == a2 && f1 == f2
  {
    var pf1, pf2, af1, af2 := ProbeFields(p1), ProbeFields(p2), AckFields(a1), AckFields(a2);
    hide PutAll;
    Associative(PutAll(Little, pf1), PutAll(Little, af1), f1);
    Associative(PutAll(Little, pf2), PutAll(Little, af2), f2);
    PutAllInjective(Little, pf1, PutAll(Little, af1) + f1, pf2, PutAll(Little, af2) + f2);
    PutAllInjective(Little, af1, f1, af2, f2);
    ProbeRoundTrip(p1, []);
    ProbeRoundTrip(p2, []);
    AckRoundTrip(a1, []);
    AckRoundTrip(a2, []);
  }
}
