/** Errors, the cryptographic primitives everything is parameterised by, and node identities
    (witan/src/error.rs, witan/src/identity.rs). */
module Identity {
  import opened Bytes
  import opened Wrappers

  // ── Errors: the kind, and for the kinds that carry a message, which message ──

  datatype GossipError =
    | NotInitialized
    | AlreadyInitialized
    | ConfigError
    | IdentityError(identityFault: IdentityFault)
    | HandshakeError(handshakeFault: HandshakeFault)
    | EnvelopeError(envelopeFault: EnvelopeFault)
    | SignatureInvalid
    | ReplayDetected
    | TtlExpired
    | PeerNotFound
    | SerializationError
    | CryptoError
    | InvalidInput

  datatype IdentityFault =
    | BadKeyLength
    | NotDerivedFromKeys
    | LineageFork
    | BadRecordVersion
    | OtherNode
    | BadSequence
    | BadPrevState
    | NoPossession
    | NotCommittedKey
    | NeedlessAuthorization
    | NoAuthorization
    | NotCurrentKey
    | NeedsCurrentKey
    | NoCommitment
    | BadLineageVersion
    | OutOfOrder
    | OtherSender
    | StaleSenderKey
    | ForeignLineage
    | SeedsNotCurrent

  datatype HandshakeFault =
    | Undecodable
    | BadMagic
    | BadVersion
    | OutOfWindow
    | BadPeerKeyLength
    | NothingPending
    | NonceMismatch
    | TranscriptMismatch
    | BadMac
    | BadTranscriptSignature
    | NotAHandshake
    | AlreadyConnected

  datatype EnvelopeFault = BadEnvelopeVersion | IdMismatch | TooLarge | Duplicate

  // ── Primitives ────────────────────────────────────────────────────────────

  const SIG_PK_LEN := 1952
  const KEM_PK_LEN := 32 + 1184

  // ML-DSA-65 public keys (FIPS 204, table 2), and X25519 || ML-KEM-768 public keys (FIPS 203, table 3).
  type SigPublic = b: bytes | |b| == SIG_PK_LEN witness seq(SIG_PK_LEN, _ => 0)
  type KemPublic = b: bytes | |b| == KEM_PK_LEN witness seq(KEM_PK_LEN, _ => 0)

  // Key pairs are represented by the seeds that generate them.
  type SigSeed = b: bytes | |b| == 32 witness seq(32, _ => 0)
  type KemSeed = b: bytes | |b| == 96 witness seq(96, _ => 0)

  // What the signature library answers: valid, VerificationFailed, or any other error.
  datatype Verdict = Valid | Invalid | Unreadable

  // A KEM ciphertext, as JSON text and as the bytes the session id is derived from, and its secret.
  datatype Encapsulation = Encapsulation(json: Text, serialized: Buffer, secret: Digest)
  datatype Decapsulation = Decapsulation(serialized: Buffer, secret: Digest)

  // The foreign cryptographic functions. Nothing is assumed about them here: every theorem is for all
  // values of this record, and says what it needs of them.
  datatype Primitives = Primitives(
    sha256: bytes -> Digest,
    hmac: (Digest, Digest) -> Digest,
    hkdf: bytes -> Digest,
    sigPublic: SigSeed -> SigPublic,
    sign: (SigSeed, bytes) -> Option<Buffer>,
    verify: (Buffer, bytes, Buffer) -> Verdict,
    kemPublic: KemSeed -> KemPublic,
    kemPublicJson: KemSeed -> Option<Text>,
    encapsulate: (Text, Digest) -> Option<Encapsulation>,
    decapsulate: (KemSeed, Text) -> Option<Decapsulation>)

  // Two different inputs with one hash: what a conclusion falls back on instead of assuming that
  // SHA-256 is injective.
  ghost predicate Collision(c: Primitives, a: bytes, b: bytes) {
    a != b && c.sha256(a) == c.sha256(b)
  }

  // Signing with this seed always succeeds and the result verifies under its public key.
  ghost predicate SignsCorrectly(c: Primitives, seed: SigSeed) {
    forall m: bytes :: c.sign(seed, m).Some? && c.verify(c.sigPublic(seed), m, c.sign(seed, m).value) == Valid
  }

  // ── Context-tagged signatures ─────────────────────────────────────────────

  // The message actually signed: 0x00, the context's length, the context, the message
  // (section 5.2 of FIPS 204).
  function Tagged(context: bytes, message: bytes): bytes
    requires |context| <= 255
  {
    [0, |context|] + context + message
  }

  // A tagged message determines both its context and its message, so a signature made under one
  // context can never stand in for one under another.
  lemma TaggedInjective(c1: bytes, m1: bytes, c2: bytes, m2: bytes)
    requires |c1| <= 255 && |c2| <= 255
    requires Tagged(c1, m1) == Tagged(c2, m2)
    ensures c1 == c2 && m1 == m2
  {
    var t1, t2 := Tagged(c1, m1), Tagged(c2, m2);
    assert t1[1] == t2[1];
    assert t1[2..2 + |c1|] == c1 && t2[2..2 + |c2|] == c2;
    assert t1[2 + |c1|..] == m1 && t2[2 + |c2|..] == m2;
  }

  function VerifyExternal(c: Primitives, publicKey: Buffer, message: bytes, signature: Buffer, context: bytes)
    : Result<bool, GossipError>
  {
    if |context| > 255 then Failure(CryptoError)
    else
      match c.verify(publicKey, Tagged(context, message), signature)
      case Valid => Success(true)
      case Invalid => Success(false)
      case Unreadable => Failure(CryptoError)
  }

  // A forged signature is at hand: it verifies under one of these keys, whose holders have never signed the
  // message.
  ghost predicate Forged(c: Primitives, keys: set<Buffer>, signed: set<(Buffer, bytes)>, key: Buffer, message: bytes,
                         signature: Buffer)
  {
    key in keys && c.verify(key, message, signature) == Valid && (key, message) !in signed
  }

  // ── Node identities ───────────────────────────────────────────────────────

  datatype NodeIdentity = NodeIdentity(nodeId: Text, kemSeed: KemSeed, sigSeed: SigSeed, keyEpoch: Text) {
    function SigKey(c: Primitives): SigPublic {
      c.sigPublic(sigSeed)
    }

    function KemKey(c: Primitives): KemPublic {
      c.kemPublic(kemSeed)
    }

    function Sign(c: Primitives, message: bytes, context: bytes): Result<Buffer, GossipError> {
      if |context| > 255 then Failure(CryptoError)
      else
        match c.sign(sigSeed, Tagged(context, message))
        case Some(s) => Success(s)
        case None => Failure(CryptoError)
    }
  }

  function DeriveNodeId(c: Primitives, kemKey: bytes, sigKey: bytes): Text {
    Hex(c.sha256(kemKey + sigKey))
  }

  // The identity a pair of seeds generates.
  function FromSeeds(c: Primitives, kemSeed: KemSeed, sigSeed: SigSeed, keyEpoch: Text): NodeIdentity {
    NodeIdentity(DeriveNodeId(c, c.kemPublic(kemSeed), c.sigPublic(sigSeed)), kemSeed, sigSeed, keyEpoch)
  }

  // A node id pins its inception keys: keys of the right lengths with equal ids are equal, unless a
  // collision of SHA-256 is at hand.
  lemma NodeIdPinsKeys(c: Primitives, kem1: bytes, sig1: bytes, kem2: bytes, sig2: bytes)
    requires |kem1| == |kem2|
    requires DeriveNodeId(c, kem1, sig1) == DeriveNodeId(c, kem2, sig2)
    ensures (kem1 == kem2 && sig1 == sig2) || Collision(c, kem1 + sig1, kem2 + sig2)
  {
    HexInjective(c.sha256(kem1 + sig1), c.sha256(kem2 + sig2));
    if kem1 + sig1 == kem2 + sig2 {
      assert kem1 == (kem1 + sig1)[..|kem1|] && kem2 == (kem2 + sig2)[..|kem2|];
      assert sig1 == (kem1 + sig1)[|kem1|..] && sig2 == (kem2 + sig2)[|kem2|..];
    }
  }
}
