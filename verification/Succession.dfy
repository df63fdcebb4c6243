/** Who let each key in: authorization, commitments, what a record pins, and the builders. */
module Succession {
  import opened Bytes
  import opened Wrappers
  import opened Wire
  import opened Identity
  import opened Rotation
  import opened Chains

  // ── What a record pins ────────────────────────────────────────────────────

  // A record pins the id and the state it replaces: two lineages that both accept it as their next step
  // have the same id, current state and inception keys, or a collision is at hand. It pins nothing of
  // how that state was reached: lineages that agree on id and state accept exactly the same records.
  lemma RecordPinsState(c: Primitives, l1: Lineage, l2: Lineage, r: KeyRotation)
    requires ValidLineage(c, l1) && ValidLineage(c, l2)
    ensures Succeeds(c, l1.nodeId, l1.current, r) && Succeeds(c, l2.nodeId, l2.current, r) ==>
              && l1.nodeId == l2.nodeId
              && (l1.current == l2.current ||
                  Collision(c, DigestInput(l1.nodeId, l1.current), DigestInput(l2.nodeId, l2.current)))
              && ((l1.inception.kemPublicKey == l2.inception.kemPublicKey &&
                   l1.inception.sigPublicKey == l2.inception.sigPublicKey) ||
                  Collision(c, l1.inception.kemPublicKey + l1.inception.sigPublicKey,
                            l2.inception.kemPublicKey + l2.inception.sigPublicKey))
    ensures l1.nodeId == l2.nodeId && l1.current == l2.current ==>
              VerifyNext(c, l1, r) == VerifyNext(c, l2, r)
  {
    hide SigningInput, PutAll;
    if Succeeds(c, l1.nodeId, l1.current, r) && Succeeds(c, l2.nodeId, l2.current, r) {
      var d1, d2 := DigestInput(l1.nodeId, l1.current), DigestInput(l2.nodeId, l2.current);
      if d1 == d2 {
        DigestInputInjective(l1.nodeId, l1.current, l2.nodeId, l2.current);
      }
      NodeIdPinsKeys(c, l1.inception.kemPublicKey, l1.inception.sigPublicKey,
                     l2.inception.kemPublicKey, l2.inception.sigPublicKey);
    }
  }

  // So a record that is the next one of a lineage is the next one of another exactly when the two have the
  // same id and current state, or a collision is at hand.
  lemma ReplayedOntoExactly(c: Primitives, l1: Lineage, l2: Lineage, r: KeyRotation)
    requires ValidLineage(c, l1) && ValidLineage(c, l2) && Succeeds(c, l1.nodeId, l1.current, r)
    ensures Collision(c, DigestInput(l1.nodeId, l1.current), DigestInput(l2.nodeId, l2.current)) ||
            (Succeeds(c, l2.nodeId, l2.current, r) <==> l1.nodeId == l2.nodeId && l1.current == l2.current)
  {
    RecordPinsState(c, l1, l2, r);
  }

  // ── What the signatures endorse ───────────────────────────────────────────

  lemma ContextsDiffer()
    ensures SIG_CTX_KEY_ROTATION != SIG_CTX_KEY_POSSESSION
  {
    assert |SIG_CTX_KEY_ROTATION| == 21 && |SIG_CTX_KEY_POSSESSION| == 23;
  }

  // One endorsement is for one purpose and one record: a proof of possession never doubles as an
  // authorization, and neither can be moved to a record that differs in any signed field.
  lemma EndorsementIsExact(ctx1: bytes, r1: KeyRotation, ctx2: bytes, r2: KeyRotation)
    requires |ctx1| <= 255 && |ctx2| <= 255
    ensures Tagged(ctx1, SigningInput(r1)) == Tagged(ctx2, SigningInput(r2)) <==>
            ctx1 == ctx2 && r1.Unsigned() == r2.Unsigned()
  {
    if Tagged(ctx1, SigningInput(r1)) == Tagged(ctx2, SigningInput(r2)) {
      TaggedInjective(ctx1, SigningInput(r1), ctx2, SigningInput(r2));
      SigningInputInjective(r1, r2);
    }
    assert SignedFields(r1) == SignedFields(r1.Unsigned());
    assert SignedFields(r2) == SignedFields(r2.Unsigned());
  }

  // A proof of possession is never an authorization, whatever the two records.
  lemma PossessionIsNotAuthorization(r1: KeyRotation, r2: KeyRotation)
    ensures Tagged(SIG_CTX_KEY_ROTATION, SigningInput(r1)) != Tagged(SIG_CTX_KEY_POSSESSION, SigningInput(r2))
  {
    ContextsDiffer();
    EndorsementIsExact(SIG_CTX_KEY_ROTATION, r1, SIG_CTX_KEY_POSSESSION, r2);
  }

  // ── Commitments ───────────────────────────────────────────────────────────

  // Lock-out: once a state carries a commitment, every way of extending it, in any two replicas, reveals
  // the same signing key (or a collision is at hand) and carries no authorization.
  lemma CommitmentLockOut(c: Primitives, l1: Lineage, i: nat, l2: Lineage, j: nat)
    requires ValidLineage(c, l1) && i < |l1.rotations|
    requires ValidLineage(c, l2) && j < |l2.rotations|
    requires StateAt(l1, i) == StateAt(l2, j) && StateAt(l1, i).nextKeyCommitment.Some?
    ensures var r1, r2 := l1.rotations[i], l2.rotations[j];
            && r1.authorization == [] && r2.authorization == []
            && (r1.newSigPublicKey == r2.newSigPublicKey ||
                Collision(c, COMMITMENT_TAG + r1.newSigPublicKey, COMMITMENT_TAG + r2.newSigPublicKey))
  {
    assert Linked(c, l1, i) && Linked(c, l2, j);
    var k1, k2 := l1.rotations[i].newSigPublicKey, l2.rotations[j].newSigPublicKey;
    if COMMITMENT_TAG + k1 == COMMITMENT_TAG + k2 {
      TagKept(COMMITMENT_TAG, k1, k2);
    }
  }

  // ── Builders ──────────────────────────────────────────────────────────────

  // The next identity's key may succeed the current state.
  ghost predicate MeetsCommitment(c: Primitives, s: KeyState, next: NodeIdentity) {
    match s.nextKeyCommitment
    case None => true
    case Some(h) => KeyCommitment(c, next.SigKey(c)) == h
  }

  // What a successful builder call produced, and that anyone holding the same lineage accepts it.
  ghost predicate BuiltFor(c: Primitives, l: Lineage, next: NodeIdentity, commitment: Option<Digest>, nowMs: u64,
                           b: Built)
  {
    && b.record.newSigPublicKey == next.SigKey(c) && b.record.newKemPublicKey == next.KemKey(c)
    && b.record.newKeyEpoch == next.keyEpoch && b.record.nextKeyCommitment == commitment
    && b.record.timestampUnixMs == nowMs
    && b.lineage == Lineage(l.nodeId, l.inception, l.rotations + [b.record], Installed(b.record))
    && Apply(c, l, b.record) == Success(b.lineage)
  }

  lemma DraftSignedAlike(draft: KeyRotation, authorization: Buffer, possession: Buffer)
    ensures SigningInput(draft.(authorization := authorization, possession := possession)) == SigningInput(draft)
  {
  }

  lemma SignedBy(c: Primitives, id: NodeIdentity, message: bytes, context: bytes)
    requires SignsCorrectly(c, id.sigSeed) && |context| <= 255
    ensures id.Sign(c, message, context).Success?
    ensures Signed(c, id.SigKey(c), message, id.Sign(c, message, context).value, context)
  {
  }

  lemma BuildSucceeds(c: Primitives, l: Lineage, current: Option<NodeIdentity>, next: NodeIdentity,
                      commitment: Option<Digest>, nowMs: u64)
    requires l.current.sequence + 1 < 0x1_0000_0000_0000_0000
    requires SignsCorrectly(c, next.sigSeed)
    requires current.Some? ==> SignsCorrectly(c, current.value.sigSeed) &&
                               current.value.SigKey(c) == l.current.sigPublicKey
    requires current.None? ==> l.current.nextKeyCommitment.Some?
    ensures var b := BuildAndApply(c, l, current, next, commitment, nowMs);
            if MeetsCommitment(c, l.current, next) then b.Success? && BuiltFor(c, l, next, commitment, nowMs, b.value)
            else b == Failure(IdentityError(NotCommittedKey))
  {
    var draft := Draft(c, l, next, commitment, nowMs);
    var input := SigningInput(draft);
    SignedBy(c, next, input, SIG_CTX_KEY_POSSESSION);
    var possession := next.Sign(c, input, SIG_CTX_KEY_POSSESSION).value;
    var authorization: Buffer := [];
    if l.current.nextKeyCommitment.None? {
      SignedBy(c, current.value, input, SIG_CTX_KEY_ROTATION);
      authorization := current.value.Sign(c, input, SIG_CTX_KEY_ROTATION).value;
    }
    var record := draft.(authorization := authorization, possession := possession);
    DraftSignedAlike(draft, authorization, possession);
    hide SigningInput, StateDigest, KeyCommitment;
    if MeetsCommitment(c, l.current, next) {
      ApplySuccessor(c, l, record);
    }
  }

  // Rotating with keys that sign correctly succeeds exactly when the caller holds the current key and
  // the next key meets the commitment, if there is one.
  lemma RotateSucceedsExactly(c: Primitives, l: Lineage, current: NodeIdentity, next: NodeIdentity,
                              commitment: Option<Digest>, nowMs: u64)
    requires l.current.sequence + 1 < 0x1_0000_0000_0000_0000
    requires SignsCorrectly(c, current.sigSeed) && SignsCorrectly(c, next.sigSeed)
    ensures var b := Rotate(c, l, current, next, commitment, nowMs);
            && (b.Success? <==> current.SigKey(c) == l.current.sigPublicKey && MeetsCommitment(c, l.current, next))
            && (b.Success? ==> BuiltFor(c, l, next, commitment, nowMs, b.value))
  {
    hide BuildAndApply;
    if current.SigKey(c) == l.current.sigPublicKey {
      BuildSucceeds(c, l, Some(current), next, commitment, nowMs);
    }
  }

  // Recovering needs no current key: it succeeds exactly when a commitment exists and is met.
  lemma RecoverSucceedsExactly(c: Primitives, l: Lineage, next: NodeIdentity, commitment: Option<Digest>, nowMs: u64)
    requires l.current.sequence + 1 < 0x1_0000_0000_0000_0000
    requires SignsCorrectly(c, next.sigSeed)
    ensures var b := Recover(c, l, next, commitment, nowMs);
            && (b.Success? <==> l.current.nextKeyCommitment.Some? && MeetsCommitment(c, l.current, next))
            && (b.Success? ==> BuiltFor(c, l, next, commitment, nowMs, b.value))
  {
    hide BuildAndApply;
    if l.current.nextKeyCommitment.Some? {
      BuildSucceeds(c, l, None, next, commitment, nowMs);
    }
  }

  // ── One record on two chains ──────────────────────────────────────────────

  // Different histories can lead to one state, and then one record continues both: two chains of a node whose
  // first rotations differ only in when they were made.
  lemma RecordOnTwoChains(c: Primitives, kemSeed: KemSeed, sigSeed: SigSeed, keyEpoch: Text, second: NodeIdentity,
                          third: NodeIdentity, t1: u64, t2: u64, t3: u64)
    requires SignsCorrectly(c, sigSeed) && SignsCorrectly(c, second.sigSeed) && SignsCorrectly(c, third.sigSeed)
    requires t1 != t2
    ensures var first := FromSeeds(c, kemSeed, sigSeed, keyEpoch);
            && FromIdentity(c, first).Success?
            && var l := FromIdentity(c, first).value;
               var b1, b2 := Rotate(c, l, first, second, None, t1), Rotate(c, l, first, second, None, t2);
               && b1.Success? && b2.Success?
               && var l1, l2 := b1.value.lineage, b2.value.lineage;
                  && ValidLineage(c, l1) && ValidLineage(c, l2)
                  && l1.rotations != l2.rotations && l1.current == l2.current
                  && var next := Rotate(c, l1, second, third, None, t3);
                     && next.Success?
                     && Succeeds(c, l1.nodeId, l1.current, next.value.record)
                     && Succeeds(c, l2.nodeId, l2.current, next.value.record)
  {
    hide Rotate, BuiltFor, Succeeds, VerifyNext, ValidLineage, SignsCorrectly, MeetsCommitment, ValidUtf8;
    var first := FromSeeds(c, kemSeed, sigSeed, keyEpoch);
    InceptionValid(c, first.KemKey(c), first.SigKey(c), keyEpoch);
    var l := FromIdentity(c, first).value;
    RotatedOnce(c, l, first, second, t1);
    RotatedOnce(c, l, first, second, t2);
    var l1, l2 := Rotate(c, l, first, second, None, t1).value.lineage, Rotate(c, l, first, second, None, t2).value.lineage;
    assert l1.rotations[0].timestampUnixMs == t1 && l2.rotations[0].timestampUnixMs == t2;
    RotatedOnce(c, l1, second, third, t3);
    RecordPinsState(c, l1, l2, Rotate(c, l1, second, third, None, t3).value.record);
    VerifyNextMeetsRules(c, l1, Rotate(c, l1, second, third, None, t3).value.record);
    VerifyNextMeetsRules(c, l2, Rotate(c, l1, second, third, None, t3).value.record);
  }

  lemma RotatedOnce(c: Primitives, l: Lineage, holder: NodeIdentity, next: NodeIdentity, t: u64)
    requires ValidLineage(c, l) && |l.rotations| <= 1 && l.current.nextKeyCommitment.None?
    requires holder.SigKey(c) == l.current.sigPublicKey
    requires SignsCorrectly(c, holder.sigSeed) && SignsCorrectly(c, next.sigSeed)
    ensures var b := Rotate(c, l, holder, next, None, t);
            && b.Success? && b.value.record.timestampUnixMs == t
            && Succeeds(c, l.nodeId, l.current, b.value.record)
            && ValidLineage(c, b.value.lineage)
            && b.value.lineage ==
               Lineage(l.nodeId, l.inception, l.rotations + [b.value.record],
                       KeyState(l.current.sequence + 1, next.KemKey(c), next.SigKey(c), next.keyEpoch, None))
  {
    hide Rotate, Succeeds, SignsCorrectly, StateDigest, SigningInput, ValidUtf8;
    SequenceIsIndex(c, l, |l.rotations|);
    RotateSucceedsExactly(c, l, holder, next, None, t);
    var b := Rotate(c, l, holder, next, None, t).value;
    ApplyKeepsValid(c, l, b.record);
    VerifyNextMeetsRules(c, l, b.record);
  }
}
