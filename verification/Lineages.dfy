/** The object that holds a node's lineage and moves it forward (witan/src/rotation.rs, `KeyLineage`).
    Each method is proved against the function of Rotation or LineageCodec that says what it does. */
module Lineages {
  import opened Bytes
  import opened Wrappers
  import opened Identity
  import opened Rotation
  import opened Chains
  import opened LineageCodec

  class KeyLineage {
    var nodeId: Text
    var inception: KeyState
    var rotations: seq<KeyRotation>
    var current: KeyState

    // The lineage this object currently is.
    function View(): Lineage
      reads this
    {
      Lineage(nodeId, inception, rotations, current)
    }

    ghost predicate Valid(c: Primitives)
      reads this
    {
      ValidLineage(c, View())
    }

    constructor Of(l: Lineage)
      ensures View() == l
    {
      nodeId, inception, rotations, current := l.nodeId, l.inception, l.rotations, l.current;
    }

    static method Inception(c: Primitives, kemKey: Buffer, sigKey: Buffer, keyEpoch: Text)
      returns (r: Result<KeyLineage, GossipError>)
      ensures match Rotation.Inception(c, kemKey, sigKey, keyEpoch)
              case Success(l) => r.Success? && fresh(r.value) && r.value.View() == l && r.value.Valid(c)
              case Failure(e) => r == Failure(e)
    {
      InceptionValid(c, kemKey, sigKey, keyEpoch);
      if !KeyLengthsOk(kemKey, sigKey) {
        return Failure(IdentityError(BadKeyLength));
      }
      var state := KeyState(0, kemKey, sigKey, keyEpoch, None);
      var k := new KeyLineage.Of(Lineage(DeriveNodeId(c, kemKey, sigKey), state, [], state));
      return Success(k);
    }

    static method FromIdentity(c: Primitives, id: NodeIdentity) returns (r: Result<KeyLineage, GossipError>)
      ensures match Rotation.FromIdentity(c, id)
              case Success(l) => r.Success? && fresh(r.value) && r.value.View() == l && r.value.Valid(c)
              case Failure(e) => r == Failure(e)
    {
      r := Inception(c, id.KemKey(c), id.SigKey(c), id.keyEpoch);
      if r.Success? && r.value.nodeId != id.nodeId {
        r := Failure(IdentityError(NotDerivedFromKeys));
      }
    }

    method Clone() returns (k: KeyLineage)
      ensures fresh(k) && k.View() == View()
    {
      k := new KeyLineage.Of(View());
    }

    method Apply(c: Primitives, r: KeyRotation) returns (out: Outcome<GossipError>)
      requires Valid(c)
      modifies this
      ensures Valid(c)
      ensures match Rotation.Apply(c, old(View()), r)
              case Success(l) => out == Pass && View() == l
              case Failure(e) => out == Fail(e) && View() == old(View())
    {
      ApplyKeepsValid(c, View(), r);
      SequenceIsIndex(c, View(), |rotations|);
      if 1 <= r.sequence && r.sequence <= current.sequence {
        var existing := rotations[r.sequence - 1];
        if existing == r {
          return Pass;
        }
        return Fail(IdentityError(LineageFork));
      }
      var next := VerifyNext(c, View(), r);
      if next.Failure? {
        return Fail(next.error);
      }
      rotations := rotations + [r];
      current := next.value;
      return Pass;
    }

    method Encode(c: Primitives) returns (b: bytes)
      requires Valid(c)
      ensures |rotations| < 0x1_0000_0000_0000_0000 && b == LineageCodec.Encode(View())
    {
      SequenceIsIndex(c, View(), |rotations|);
      b := PutWire(LineageWire(LINEAGE_VERSION, inception.kemPublicKey, inception.sigPublicKey,
                               inception.keyEpoch, rotations));
    }

    static method Decode(c: Primitives, b: bytes) returns (r: Result<KeyLineage, GossipError>)
      ensures match LineageCodec.Decode(c, b)
              case Success(l) => r.Success? && fresh(r.value) && r.value.View() == l && r.value.Valid(c)
              case Failure(e) => r == Failure(e)
    {
      var parsed := ParseLineage(b);
      if parsed.Failure? {
        return Failure(parsed.error);
      }
      var wire := parsed.value;
      if wire.version != LINEAGE_VERSION {
        return Failure(IdentityError(BadLineageVersion));
      }
      r := Inception(c, wire.kemKey, wire.sigKey, wire.keyEpoch);
      if r.Failure? {
        return;
      }
      var lineage := r.value;
      ghost var whole := Replay(c, lineage.View(), wire.rotations);
      var i := 0;
      while i < |wire.rotations|
        invariant 0 <= i <= |wire.rotations|
        invariant fresh(lineage) && lineage.Valid(c)
        invariant Replay(c, lineage.View(), wire.rotations[i..]) == whole
      {
        var rotation := wire.rotations[i];
        assert wire.rotations[i..][0] == rotation && wire.rotations[i..][1..] == wire.rotations[i + 1..];
        if rotation.sequence != lineage.current.sequence + 1 {
          return Failure(IdentityError(OutOfOrder));
        }
        var out := lineage.Apply(c, rotation);
        if out.Fail? {
          return Failure(out.error);
        }
        i := i + 1;
      }
      return Success(lineage);
    }

    method Rotate(c: Primitives, holder: NodeIdentity, next: NodeIdentity, commitment: Option<Digest>, nowMs: u64)
      returns (r: Result<KeyRotation, GossipError>)
      requires Valid(c)
      modifies this
      ensures Valid(c)
      ensures match Rotation.Rotate(c, old(View()), holder, next, commitment, nowMs)
              case Success(b) => r == Success(b.record) && View() == b.lineage
              case Failure(e) => r == Failure(e) && View() == old(View())
    {
      if holder.SigKey(c) != current.sigPublicKey {
        return Failure(IdentityError(NotCurrentKey));
      }
      r := BuildAndApply(c, Some(holder), next, commitment, nowMs);
    }

    method Recover(c: Primitives, next: NodeIdentity, commitment: Option<Digest>, nowMs: u64)
      returns (r: Result<KeyRotation, GossipError>)
      requires Valid(c)
      modifies this
      ensures Valid(c)
      ensures match Rotation.Recover(c, old(View()), next, commitment, nowMs)
              case Success(b) => r == Success(b.record) && View() == b.lineage
              case Failure(e) => r == Failure(e) && View() == old(View())
    {
      if current.nextKeyCommitment.None? {
        return Failure(IdentityError(NoCommitment));
      }
      r := BuildAndApply(c, None, next, commitment, nowMs);
    }

    method BuildAndApply(c: Primitives, holder: Option<NodeIdentity>, next: NodeIdentity,
                         commitment: Option<Digest>, nowMs: u64) returns (r: Result<KeyRotation, GossipError>)
      requires Valid(c)
      modifies this
      ensures Valid(c)
      ensures match Rotation.BuildAndApply(c, old(View()), holder, next, commitment, nowMs)
              case Success(b) => r == Success(b.record) && View() == b.lineage
              case Failure(e) => r == Failure(e) && View() == old(View())
    {
      hide SigningInput, StateDigest, Rotation.Apply, ValidLineage;
      if current.sequence + 1 >= 0x1_0000_0000_0000_0000 {
        return Failure(IdentityError(BadSequence));
      }
      var rotation := KeyRotation(1, nodeId, current.sequence + 1, StateDigest(c, nodeId, current),
                                  next.KemKey(c), next.SigKey(c), next.keyEpoch, commitment, nowMs, [], []);
      var input := SigningInput(rotation);
      if current.nextKeyCommitment.None? {
        if holder.None? {
          return Failure(IdentityError(NeedsCurrentKey));
        }
        var authorization := holder.value.Sign(c, input, SIG_CTX_KEY_ROTATION);
        if authorization.Failure? {
          return Failure(authorization.error);
        }
        rotation := rotation.(authorization := authorization.value);
      }
      var possession := next.Sign(c, input, SIG_CTX_KEY_POSSESSION);
      if possession.Failure? {
        return Failure(possession.error);
      }
      rotation := rotation.(possession := possession.value);
      var out := Apply(c, rotation);
      if out.Fail? {
        return Failure(out.error);
      }
      return Success(rotation);
    }

    // The signing key the current one replaced.
    method PreviousKey(c: Primitives) returns (k: Option<Buffer>)
      requires Valid(c)
      ensures k == if |rotations| == 0 then None else Some(StateAt(View(), |rotations| - 1).sigPublicKey)
    {
      if |rotations| == 0 {
        return None;
      }
      if |rotations| == 1 {
        return Some(inception.sigPublicKey);
      }
      return Some(rotations[|rotations| - 2].newSigPublicKey);
    }
  }
}
