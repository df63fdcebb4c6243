/** Key-rotation records, the state they replace, and the rule that accepts the next one
    (witan/src/rotation.rs). A lineage is a value here; KeyLineage is the object that holds one. */
module Rotation {
  import opened Bytes
  import opened Wrappers
  import opened Wire
  import opened Identity

  const SIG_CTX_KEY_ROTATION := Ascii("WITAN_KEY_ROTATION_V1")
  const SIG_CTX_KEY_POSSESSION := Ascii("WITAN_KEY_POSSESSION_V1")
  const STATE_DIGEST_TAG := Ascii("WITAN_KEY_STATE_V1")
  const ROTATION_SIGNING_TAG := Ascii("WITAN_KEY_ROTATION_RECORD_V1")
  const COMMITMENT_TAG := Ascii("WITAN_NEXT_KEY_COMMITMENT_V1")

  datatype KeyRotation = KeyRotation(
    version: byte,
    nodeId: Text,
    sequence: u64,
    prevStateDigest: Digest,
    newKemPublicKey: Buffer,
    newSigPublicKey: Buffer,
    newKeyEpoch: Text,
    nextKeyCommitment: Option<Digest>,
    timestampUnixMs: u64,
    authorization: Buffer,
    possession: Buffer)
  {
    // Everything the two signatures cover.
    function Unsigned(): KeyRotation {
      this.(authorization := [], possession := [])
    }
  }

  datatype KeyState = KeyState(
    sequence: u64,
    kemPublicKey: Buffer,
    sigPublicKey: Buffer,
    keyEpoch: Text,
    nextKeyCommitment: Option<Digest>)

  datatype Lineage = Lineage(nodeId: Text, inception: KeyState, rotations: seq<KeyRotation>, current: KeyState)

  // ── Hashed and signed bytes ───────────────────────────────────────────────

  function KeyCommitment(c: Primitives, sigKey: bytes): Digest {
    c.sha256(COMMITMENT_TAG + sigKey)
  }

  const SIGNED_KINDS := [KU8, KBlob, KU64, KArray32, KBlob, KBlob, KBlob, KOpt32, KU64]

  function SignedFields(r: KeyRotation): (fs: seq<Field>)
    ensures KindsOf(fs) == SIGNED_KINDS
  {
    [U8(r.version), Blob(r.nodeId), U64(r.sequence), Array32(r.prevStateDigest), Blob(r.newKemPublicKey),
     Blob(r.newSigPublicKey), Blob(r.newKeyEpoch), Opt32(r.nextKeyCommitment), U64(r.timestampUnixMs)]
  }

  function SigningInput(r: KeyRotation): bytes {
    ROTATION_SIGNING_TAG + PutAll(Big, SignedFields(r))
  }

  const STATE_KINDS := [KBlob, KU64, KBlob, KBlob, KBlob, KOpt32]

  function StateFields(nodeId: Text, s: KeyState): (fs: seq<Field>)
    ensures KindsOf(fs) == STATE_KINDS
  {
    [Blob(nodeId), U64(s.sequence), Blob(s.kemPublicKey), Blob(s.sigPublicKey), Blob(s.keyEpoch),
     Opt32(s.nextKeyCommitment)]
  }

  function DigestInput(nodeId: Text, s: KeyState): bytes {
    STATE_DIGEST_TAG + PutAll(Big, StateFields(nodeId, s))
  }

  function StateDigest(c: Primitives, nodeId: Text, s: KeyState): Digest {
    c.sha256(DigestInput(nodeId, s))
  }

  // ── These bytes are unambiguous ───────────────────────────────────────────

  lemma TagKept(tag: bytes, a: bytes, b: bytes)
    requires tag + a == tag + b
    ensures a == b
  {
    assert a == (tag + a)[|tag|..] && b == (tag + b)[|tag|..];
  }

  // Two records signed over the same bytes agree on everything but their signatures.
  lemma SigningInputInjective(r1: KeyRotation, r2: KeyRotation)
    requires SigningInput(r1) == SigningInput(r2)
    ensures r1.Unsigned() == r2.Unsigned()
  {
    var f1, f2 := SignedFields(r1), SignedFields(r2);
    TagKept(ROTATION_SIGNING_TAG, PutAll(Big, f1), PutAll(Big, f2));
    PutAllInjective(Big, f1, [], f2, []);
    assert f1[0] == f2[0] && f1[1] == f2[1] && f1[2] == f2[2] && f1[3] == f2[3] && f1[4] == f2[4]
        && f1[5] == f2[5] && f1[6] == f2[6] && f1[7] == f2[7] && f1[8] == f2[8];
  }

  lemma DigestInputInjective(id1: Text, s1: KeyState, id2: Text, s2: KeyState)
    requires DigestInput(id1, s1) == DigestInput(id2, s2)
    ensures id1 == id2 && s1 == s2
  {
    var f1, f2 := StateFields(id1, s1), StateFields(id2, s2);
    TagKept(STATE_DIGEST_TAG, PutAll(Big, f1), PutAll(Big, f2));
    PutAllInjective(Big, f1, [], f2, []);
    assert f1[0] == f2[0] && f1[1] == f2[1] && f1[2] == f2[2] && f1[3] == f2[3] && f1[4] == f2[4] && f1[5] == f2[5];
  }

  // ── Inception, verification, application ──────────────────────────────────

  predicate KeyLengthsOk(kemKey: bytes, sigKey: bytes) {
    |kemKey| == KEM_PK_LEN && |sigKey| == SIG_PK_LEN
  }

  function Inception(c: Primitives, kemKey: Buffer, sigKey: Buffer, keyEpoch: Text): Result<Lineage, GossipError> {
    if !KeyLengthsOk(kemKey, sigKey) then Failure(IdentityError(BadKeyLength))
    else
      var state := KeyState(0, kemKey, sigKey, keyEpoch, None);
      Success(Lineage(DeriveNodeId(c, kemKey, sigKey), state, [], state))
  }

  function FromIdentity(c: Primitives, id: NodeIdentity): Result<Lineage, GossipError> {
    var l :- Inception(c, id.KemKey(c), id.SigKey(c), id.keyEpoch);
    if l.nodeId == id.nodeId then Success(l) else Failure(IdentityError(NotDerivedFromKeys))
  }

  // The state a record installs.
  function Installed(r: KeyRotation): KeyState {
    KeyState(r.sequence, r.newKemPublicKey, r.newSigPublicKey, r.newKeyEpoch, r.nextKeyCommitment)
  }

  function VerifyNext(c: Primitives, l: Lineage, r: KeyRotation): Result<KeyState, GossipError> {
    if r.version != 1 then Failure(IdentityError(BadRecordVersion))
    else if r.nodeId != l.nodeId then Failure(IdentityError(OtherNode))
    else if r.sequence != l.current.sequence + 1 then Failure(IdentityError(BadSequence))
    else if r.prevStateDigest != StateDigest(c, l.nodeId, l.current) then Failure(IdentityError(BadPrevState))
    else if !KeyLengthsOk(r.newKemPublicKey, r.newSigPublicKey) then Failure(IdentityError(BadKeyLength))
    else
      var input := SigningInput(r);
      var possessed :- VerifyExternal(c, r.newSigPublicKey, input, r.possession, SIG_CTX_KEY_POSSESSION);
      if !possessed then Failure(IdentityError(NoPossession))
      else
        match l.current.nextKeyCommitment
        case Some(commitment) =>
          if KeyCommitment(c, r.newSigPublicKey) != commitment then Failure(IdentityError(NotCommittedKey))
          else if r.authorization != [] then Failure(IdentityError(NeedlessAuthorization))
          else Success(Installed(r))
        case None =>
          var authorized :- VerifyExternal(c, l.current.sigPublicKey, input, r.authorization, SIG_CTX_KEY_ROTATION);
          if authorized then Success(Installed(r)) else Failure(IdentityError(NoAuthorization))
  }

  // The lineage after a record is applied, or why it is refused.
  function Apply(c: Primitives, l: Lineage, r: KeyRotation): Result<Lineage, GossipError> {
    if 1 <= r.sequence <= l.current.sequence then
      if r.sequence <= |l.rotations| && l.rotations[r.sequence - 1] == r then Success(l)
      else Failure(IdentityError(LineageFork))
    else
      var next :- VerifyNext(c, l, r);
      Success(l.(rotations := l.rotations + [r], current := next))
  }

  // ── Building records ──────────────────────────────────────────────────────

  datatype Built = Built(lineage: Lineage, record: KeyRotation)

  function Draft(c: Primitives, l: Lineage, next: NodeIdentity, commitment: Option<Digest>, nowMs: u64): KeyRotation
    requires l.current.sequence + 1 < 0x1_0000_0000_0000_0000
  {
    KeyRotation(1, l.nodeId, l.current.sequence + 1, StateDigest(c, l.nodeId, l.current), next.KemKey(c),
                next.SigKey(c), next.keyEpoch, commitment, nowMs, [], [])
  }

  function BuildAndApply(c: Primitives, l: Lineage, current: Option<NodeIdentity>, next: NodeIdentity,
                         commitment: Option<Digest>, nowMs: u64): Result<Built, GossipError>
  {
    if l.current.sequence + 1 >= 0x1_0000_0000_0000_0000 then Failure(IdentityError(BadSequence))
    else
      var draft := Draft(c, l, next, commitment, nowMs);
      var input := SigningInput(draft);
      var authorization :-
        if l.current.nextKeyCommitment.Some? then Success([])
        else if current.None? then Failure(IdentityError(NeedsCurrentKey))
        else current.value.Sign(c, input, SIG_CTX_KEY_ROTATION);
      var possession :- next.Sign(c, input, SIG_CTX_KEY_POSSESSION);
      var record := draft.(authorization := authorization, possession := possession);
      var l' :- Apply(c, l, record);
      Success(Built(l', record))
  }

  function Rotate(c: Primitives, l: Lineage, current: NodeIdentity, next: NodeIdentity,
                  commitment: Option<Digest>, nowMs: u64): Result<Built, GossipError>
  {
    if current.SigKey(c) != l.current.sigPublicKey then Failure(IdentityError(NotCurrentKey))
    else BuildAndApply(c, l, Some(current), next, commitment, nowMs)
  }

  function Recover(c: Primitives, l: Lineage, next: NodeIdentity, commitment: Option<Digest>, nowMs: u64)
    : Result<Built, GossipError>
  {
    if l.current.nextKeyCommitment.None? then Failure(IdentityError(NoCommitment))
    else BuildAndApply(c, l, None, next, commitment, nowMs)
  }
}
