/** Where records come from: over any run of a system of replicas, on a network that may deliver any records
    and any lineage bytes, a record that a key of the system stands behind was drafted by its holder's own
    rotate or recover step. */
module Provenance {
  import opened Bytes
  import opened Wrappers
  import opened Identity
  import opened Rotation
  import opened Chains
  import opened Succession
  import LineageCodec

  // ── The system ────────────────────────────────────────────────────────────

  // A rotate or recover step that was taken: the current identity, if it takes part, the next one, and the
  // record they were asked to sign.
  datatype Made = Made(holder: Option<NodeIdentity>, next: NodeIdentity, draft: KeyRotation)

  // All replicas of lineages, the keys the nodes have used, every message they have signed (as tagged) and
  // every step they have taken.
  datatype World = World(replicas: seq<Lineage>, keys: set<Buffer>, signed: set<(Buffer, bytes)>, made: set<Made>)

  datatype Event =
    // A replica applies a record from the network.
    | Receives(replica: nat, record: KeyRotation)
    // A replica is replaced by the lineage in some bytes from the network.
    | Loads(replica: nat, b: bytes)
    | Rotates(replica: nat, holder: NodeIdentity, next: NodeIdentity, commitment: Option<Digest>, nowMs: u64)
    | Recovers(replica: nat, next: NodeIdentity, commitment: Option<Digest>, nowMs: u64)
    // A node signs a transcript or an envelope.
    | Signs(replica: nat, signer: NodeIdentity, context: bytes, message: bytes)

  // The messages signed in a step, in the order of the program: the current key authorizes unless there is a
  // commitment, and then the next key proves possession.
  function SignedIn(c: Primitives, l: Lineage, m: Made): set<(Buffer, bytes)> {
    var input := SigningInput(m.draft);
    var authorized :=
      l.current.nextKeyCommitment.None? && m.holder.Some? && m.holder.value.Sign(c, input, SIG_CTX_KEY_ROTATION).Success?;
    var possessed :=
      (l.current.nextKeyCommitment.Some? || authorized) && m.next.Sign(c, input, SIG_CTX_KEY_POSSESSION).Success?;
    (if authorized then {(m.holder.value.SigKey(c), Tagged(SIG_CTX_KEY_ROTATION, input))} else {}) +
    (if possessed then {(m.next.SigKey(c), Tagged(SIG_CTX_KEY_POSSESSION, input))} else {})
  }

  function Builds(c: Primitives, w: World, n: nat, m: Made, r: Result<Built, GossipError>): World
    requires n < |w.replicas|
  {
    World(if r.Success? then w.replicas[n := r.value.lineage] else w.replicas,
          w.keys + {m.next.SigKey(c)} + (if m.holder.Some? then {m.holder.value.SigKey(c)} else {}),
          w.signed + SignedIn(c, w.replicas[n], m),
          w.made + {m})
  }

  function Happens(c: Primitives, w: World, e: Event): World {
    if e.replica >= |w.replicas| then w
    else
      var l := w.replicas[e.replica];
      match e
      case Receives(n, record) =>
        var r := Apply(c, l, record);
        if r.Success? then w.(replicas := w.replicas[n := r.value]) else w
      case Loads(n, b) =>
        var r := LineageCodec.Decode(c, b);
        if r.Success? then w.(replicas := w.replicas[n := r.value]) else w
      case Rotates(n, holder, next, commitment, nowMs) =>
        if holder.SigKey(c) != l.current.sigPublicKey || l.current.sequence + 1 >= 0x1_0000_0000_0000_0000 then w
        else
          Builds(c, w, n, Made(Some(holder), next, Draft(c, l, next, commitment, nowMs)),
                 Rotate(c, l, holder, next, commitment, nowMs))
      case Recovers(n, next, commitment, nowMs) =>
        if l.current.nextKeyCommitment.None? || l.current.sequence + 1 >= 0x1_0000_0000_0000_0000 then w
        else
          Builds(c, w, n, Made(None, next, Draft(c, l, next, commitment, nowMs)),
                 Recover(c, l, next, commitment, nowMs))
      case Signs(_, signer, context, message) =>
        if |context| > 255 || context == SIG_CTX_KEY_ROTATION || context == SIG_CTX_KEY_POSSESSION then w
        else w.(keys := w.keys + {signer.SigKey(c)},
                signed := w.signed + {(signer.SigKey(c), Tagged(context, message))})
  }

  function HappenAll(c: Primitives, w: World, events: seq<Event>): World
    decreases |events|
  {
    if |events| == 0 then w else HappenAll(c, Happens(c, w, events[0]), events[1..])
  }

  // Before anything has happened every replica is at its inception.
  ghost predicate Initial(c: Primitives, w: World) {
    && w.signed == {} && w.made == {}
    && forall i | 0 <= i < |w.replicas| :: ValidLineage(c, w.replicas[i]) && w.replicas[i].rotations == []
  }

  // ── Every signature is accounted for ──────────────────────────────────────

  ghost predicate OtherPurpose(message: bytes) {
    exists context: bytes, m: bytes ::
      && |context| <= 255 && context != SIG_CTX_KEY_ROTATION && context != SIG_CTX_KEY_POSSESSION
      && message == Tagged(context, m)
  }

  ghost predicate Authorizes(c: Primitives, m: Made, key: Buffer, message: bytes) {
    && m.holder.Some? && key == m.holder.value.SigKey(c)
    && message == Tagged(SIG_CTX_KEY_ROTATION, SigningInput(m.draft))
  }

  ghost predicate Possesses(c: Primitives, m: Made, key: Buffer, message: bytes) {
    key == m.next.SigKey(c) && message == Tagged(SIG_CTX_KEY_POSSESSION, SigningInput(m.draft))
  }

  ghost predicate Accounted(c: Primitives, w: World, key: Buffer, message: bytes) {
    OtherPurpose(message) || exists m :: m in w.made && (Authorizes(c, m, key, message) || Possesses(c, m, key, message))
  }

  // A draft names its next identity's key, and is not signed yet.
  ghost predicate Drafted(c: Primitives, w: World, m: Made) {
    m.draft.newSigPublicKey == m.next.SigKey(c) && m.next.SigKey(c) in w.keys && m.draft.Unsigned() == m.draft
  }

  ghost predicate Sound(c: Primitives, w: World) {
    && (forall i | 0 <= i < |w.replicas| :: ValidLineage(c, w.replicas[i]))
    && (forall x | x in w.signed :: Accounted(c, w, x.0, x.1))
    && (forall m | m in w.made :: Drafted(c, w, m))
  }

  lemma StillAccounted(c: Primitives, w: World, w': World)
    requires w.made <= w'.made
    ensures forall x | x in w.signed && Accounted(c, w, x.0, x.1) :: Accounted(c, w', x.0, x.1)
  {
    hide Authorizes, Possesses;
  }

  lemma SignedInAccounted(c: Primitives, l: Lineage, m: Made, w: World)
    requires m in w.made
    ensures forall x | x in SignedIn(c, l, m) :: Accounted(c, w, x.0, x.1)
  {
    hide Tagged, SigningInput;
    forall x | x in SignedIn(c, l, m)
      ensures Accounted(c, w, x.0, x.1)
    {
      assert Authorizes(c, m, x.0, x.1) || Possesses(c, m, x.0, x.1);
    }
  }

  lemma BuildsKeepsSound(c: Primitives, w: World, n: nat, m: Made, r: Result<Built, GossipError>)
    requires Sound(c, w) && n < |w.replicas|
    requires m.draft.newSigPublicKey == m.next.SigKey(c) && m.draft.Unsigned() == m.draft
    requires r.Success? ==> ValidLineage(c, r.value.lineage)
    ensures Sound(c, Builds(c, w, n, m, r))
  {
    hide ValidLineage, Accounted, SignedIn;
    var w' := Builds(c, w, n, m, r);
    StillAccounted(c, w, w');
    SignedInAccounted(c, w.replicas[n], m, w');
  }

  lemma HappensKeepsSound(c: Primitives, w: World, e: Event)
    requires Sound(c, w)
    ensures Sound(c, Happens(c, w, e))
  {
    hide ValidLineage, Apply, Rotate, Recover, BuildAndApply, LineageCodec.Decode, Builds, Accounted, StateDigest,
         Tagged, ValidUtf8;
    if e.replica < |w.replicas| {
      var l := w.replicas[e.replica];
      match e
      case Receives(n, record) =>
        ApplyKeepsValid(c, l, record);
        StillAccounted(c, w, Happens(c, w, e));
      case Loads(n, b) =>
        if LineageCodec.Decode(c, b).Success? {
          LineageCodec.DecodeIsEncoding(c, b);
        }
        StillAccounted(c, w, Happens(c, w, e));
      case Rotates(n, holder, next, commitment, nowMs) =>
        if l.current.sequence + 1 < 0x1_0000_0000_0000_0000 {
          RotateKeepsValid(c, l, holder, next, commitment, nowMs);
          BuildsKeepsSound(c, w, n, Made(Some(holder), next, Draft(c, l, next, commitment, nowMs)),
                           Rotate(c, l, holder, next, commitment, nowMs));
        }
      case Recovers(n, next, commitment, nowMs) =>
        if l.current.sequence + 1 < 0x1_0000_0000_0000_0000 {
          RecoverKeepsValid(c, l, next, commitment, nowMs);
          BuildsKeepsSound(c, w, n, Made(None, next, Draft(c, l, next, commitment, nowMs)),
                           Recover(c, l, next, commitment, nowMs));
        }
      case Signs(_, signer, context, message) =>
        SignsKeepsSound(c, w, e);
    }
  }

  lemma SignsKeepsSound(c: Primitives, w: World, e: Event)
    requires Sound(c, w) && e.Signs?
    ensures Sound(c, Happens(c, w, e))
  {
    hide ValidLineage, Tagged, Authorizes, Possesses, ValidUtf8;
    StillAccounted(c, w, Happens(c, w, e));
    assert |e.context| <= 255 && e.context != SIG_CTX_KEY_ROTATION && e.context != SIG_CTX_KEY_POSSESSION ==>
        OtherPurpose(Tagged(e.context, e.message));
  }

  lemma RotateKeepsValid(c: Primitives, l: Lineage, holder: NodeIdentity, next: NodeIdentity, commitment: Option<Digest>,
                         nowMs: u64)
    requires ValidLineage(c, l)
    ensures var r := Rotate(c, l, holder, next, commitment, nowMs); r.Success? ==> ValidLineage(c, r.value.lineage)
  {
    hide ValidLineage, Apply, BuildAndApply;
    BuildIsApply(c, l, Some(holder), next, commitment, nowMs);
    var r := Rotate(c, l, holder, next, commitment, nowMs);
    if r.Success? {
      ApplyKeepsValid(c, l, r.value.record);
    }
  }

  lemma RecoverKeepsValid(c: Primitives, l: Lineage, next: NodeIdentity, commitment: Option<Digest>, nowMs: u64)
    requires ValidLineage(c, l)
    ensures var r := Recover(c, l, next, commitment, nowMs); r.Success? ==> ValidLineage(c, r.value.lineage)
  {
    hide ValidLineage, Apply, BuildAndApply;
    BuildIsApply(c, l, None, next, commitment, nowMs);
    var r := Recover(c, l, next, commitment, nowMs);
    if r.Success? {
      ApplyKeepsValid(c, l, r.value.record);
    }
  }

  lemma {:induction false} RunSound(c: Primitives, w: World, events: seq<Event>)
    requires Sound(c, w)
    ensures Sound(c, HappenAll(c, w, events))
    decreases |events|
  {
    hide Sound, Happens;
    if |events| > 0 {
      HappensKeepsSound(c, w, events[0]);
      RunSound(c, Happens(c, w, events[0]), events[1..]);
    }
  }

  // ── Records come from their holders ───────────────────────────────────────

  // The signatures a record shows: its authorization by the key it replaces, and its proof of possession.
  ghost predicate ForgedAuthorization(c: Primitives, w: World, key: Buffer, r: KeyRotation) {
    Forged(c, w.keys, w.signed, key, Tagged(SIG_CTX_KEY_ROTATION, SigningInput(r)), r.authorization)
  }

  ghost predicate ForgedPossession(c: Primitives, w: World, r: KeyRotation) {
    Forged(c, w.keys, w.signed, r.newSigPublicKey, Tagged(SIG_CTX_KEY_POSSESSION, SigningInput(r)), r.possession)
  }

  // The holder of the key rotated away from it by this very record.
  ghost predicate RotatedBy(c: Primitives, w: World, key: Buffer, r: KeyRotation) {
    exists m :: m in w.made && m.holder.Some? && m.holder.value.SigKey(c) == key && m.draft == r.Unsigned()
  }

  // The holder of the key moved onto it by this very record.
  ghost predicate TakenUpBy(c: Primitives, w: World, key: Buffer, r: KeyRotation) {
    exists m :: m in w.made && m.next.SigKey(c) == key && m.draft == r.Unsigned()
  }

  lemma SignedAuthorization(c: Primitives, w: World, key: Buffer, r: KeyRotation)
    requires Sound(c, w) && (key, Tagged(SIG_CTX_KEY_ROTATION, SigningInput(r))) in w.signed
    ensures RotatedBy(c, w, key, r)
  {
    hide ValidLineage, SigningInput, Tagged;
    var message := Tagged(SIG_CTX_KEY_ROTATION, SigningInput(r));
    assert Accounted(c, w, key, message);
    if OtherPurpose(message) {
      NotOther(SIG_CTX_KEY_ROTATION, SigningInput(r));
    }
    var m :| m in w.made && (Authorizes(c, m, key, message) || Possesses(c, m, key, message));
    PossessionIsNotAuthorization(r, m.draft);
    EndorsementIsExact(SIG_CTX_KEY_ROTATION, r, SIG_CTX_KEY_ROTATION, m.draft);
    assert Drafted(c, w, m);
  }

  lemma SignedPossession(c: Primitives, w: World, key: Buffer, r: KeyRotation)
    requires Sound(c, w) && (key, Tagged(SIG_CTX_KEY_POSSESSION, SigningInput(r))) in w.signed
    ensures TakenUpBy(c, w, key, r)
  {
    hide ValidLineage, SigningInput, Tagged;
    var message := Tagged(SIG_CTX_KEY_POSSESSION, SigningInput(r));
    assert Accounted(c, w, key, message);
    if OtherPurpose(message) {
      NotOther(SIG_CTX_KEY_POSSESSION, SigningInput(r));
    }
    var m :| m in w.made && (Authorizes(c, m, key, message) || Possesses(c, m, key, message));
    PossessionIsNotAuthorization(m.draft, r);
    EndorsementIsExact(SIG_CTX_KEY_POSSESSION, r, SIG_CTX_KEY_POSSESSION, m.draft);
    assert Drafted(c, w, m);
  }

  lemma NotOther(context: bytes, message: bytes)
    requires context == SIG_CTX_KEY_ROTATION || context == SIG_CTX_KEY_POSSESSION
    ensures |context| <= 255 && !OtherPurpose(Tagged(context, message))
  {
    ContextsDiffer();
    forall other: bytes, m: bytes | |other| <= 255 && Tagged(context, message) == Tagged(other, m)
      ensures other == context
    {
      TaggedInjective(context, message, other, m);
    }
  }

  // One link of a chain, as far as keys of the system stand behind it: the new key took itself up, and the
  // key it replaces rotated to it or the state it replaces had committed to it.
  ghost predicate OwnLink(c: Primitives, w: World, s: KeyState, r: KeyRotation) {
    && (r.newSigPublicKey in w.keys ==> TakenUpBy(c, w, r.newSigPublicKey, r) || ForgedPossession(c, w, r))
    && match s.nextKeyCommitment
       case None =>
         s.sigPublicKey in w.keys ==> RotatedBy(c, w, s.sigPublicKey, r) || ForgedAuthorization(c, w, s.sigPublicKey, r)
       case Some(h) => KeyCommitment(c, r.newSigPublicKey) == h && r.authorization == []
  }

  lemma SuccessorIsOwn(c: Primitives, w: World, nodeId: Text, s: KeyState, r: KeyRotation)
    requires Sound(c, w) && Succeeds(c, nodeId, s, r)
    ensures OwnLink(c, w, s, r)
  {
    hide Sound, TakenUpBy, RotatedBy, SigningInput, Tagged, StateDigest, KeyCommitment;
    if (r.newSigPublicKey, Tagged(SIG_CTX_KEY_POSSESSION, SigningInput(r))) in w.signed {
      SignedPossession(c, w, r.newSigPublicKey, r);
    }
    if (s.sigPublicKey, Tagged(SIG_CTX_KEY_ROTATION, SigningInput(r))) in w.signed {
      SignedAuthorization(c, w, s.sigPublicKey, r);
    }
  }

  lemma LinkIsOwn(c: Primitives, w: World, l: Lineage, i: nat)
    requires Sound(c, w) && ValidLineage(c, l) && i < |l.rotations|
    ensures OwnLink(c, w, StateAt(l, i), l.rotations[i])
  {
    hide Sound, OwnLink, Succeeds;
    assert Linked(c, l, i);
    SuccessorIsOwn(c, w, l.nodeId, StateAt(l, i), l.rotations[i]);
  }

  // Provenance over all runs: in every replica, whatever records and bytes the network delivers, a path of
  // records leads from the inception keys to the current ones. Each record onto a key of the system was
  // drafted by a step that moved its holder onto it, and each record that replaces a key of the system was
  // drafted by its holder's own rotate step or reveals a key its state had committed to; or else the
  // signature it shows is forged.
  lemma RecordsComeFromHolders(c: Primitives, start: World, events: seq<Event>, n: nat)
    requires Initial(c, start)
    ensures var w := HappenAll(c, start, events);
            n < |w.replicas| ==>
              var l := w.replicas[n];
              && ValidLineage(c, l) && StateAt(l, 0) == l.inception && StateAt(l, |l.rotations|) == l.current
              && forall i | 0 <= i < |l.rotations| :: OwnLink(c, w, StateAt(l, i), l.rotations[i])
  {
    hide Happens, OwnLink;
    assert Sound(c, start);
    RunSound(c, start, events);
    var w := HappenAll(c, start, events);
    if n < |w.replicas| {
      var l := w.replicas[n];
      forall i | 0 <= i < |l.rotations|
        ensures OwnLink(c, w, StateAt(l, i), l.rotations[i])
      {
        LinkIsOwn(c, w, l, i);
      }
    }
  }

  // A holder that never rotated keeps its node where it is: with no commitment in force, and no rotate step
  // taken by the holder of the current key, a lineage accepts the records it has, and no new one unless it
  // shows a forged authorization.
  lemma NoSuccessorWithoutConsent(c: Primitives, w: World, l: Lineage, r: KeyRotation)
    requires Sound(c, w) && ValidLineage(c, l) && l.current.nextKeyCommitment.None? && l.current.sigPublicKey in w.keys
    requires forall m | m in w.made && m.holder.Some? :: m.holder.value.SigKey(c) != l.current.sigPublicKey
    ensures Apply(c, l, r).Success? ==> r in l.rotations || ForgedAuthorization(c, w, l.current.sigPublicKey, r)
    ensures r in l.rotations ==> Apply(c, l, r) == Success(l)
  {
    hide Sound, VerifyNext, StateDigest, SigningInput, Tagged, ForgedAuthorization, ValidUtf8;
    SequenceIsIndex(c, l, |l.rotations|);
    VerifyNextMeetsRules(c, l, r);
    if Apply(c, l, r).Success? && r !in l.rotations {
      SuccessorIsOwn(c, w, l.nodeId, l.current, r);
    }
    if r in l.rotations {
      var j: nat :| j < |l.rotations| && l.rotations[j] == r;
      ApplyOwnRecord(c, l, |l.rotations|, j);
      assert Truncate(l, |l.rotations|) == l by { assert l.rotations[..|l.rotations|] == l.rotations; }
    }
  }

  // ── Chains that stay in the system ────────────────────────────────────────

  // The commitment in force at state i, if any, is to a key of the system.
  ghost predicate CommitsWithin(c: Primitives, w: World, l: Lineage, i: nat)
    requires i < |l.rotations|
  {
    match StateAt(l, i).nextKeyCommitment
    case None => true
    case Some(h) => exists key :: key in w.keys && KeyCommitment(c, key) == h
  }

  // The signature that record i rests on is not forged: its authorization, or with a commitment its proof of
  // possession.
  ghost predicate Genuine(c: Primitives, w: World, l: Lineage, i: nat)
    requires i < |l.rotations|
  {
    match StateAt(l, i).nextKeyCommitment
    case None => !ForgedAuthorization(c, w, StateAt(l, i).sigPublicKey, l.rotations[i])
    case Some(_) => !ForgedPossession(c, w, l.rotations[i])
  }

  // Record i was its holder's own step: the holder of the key it replaces rotated, or the holder of the
  // committed key took over.
  ghost predicate OwnStep(c: Primitives, w: World, l: Lineage, i: nat)
    requires i < |l.rotations|
  {
    match StateAt(l, i).nextKeyCommitment
    case None => RotatedBy(c, w, StateAt(l, i).sigPublicKey, l.rotations[i])
    case Some(_) => TakenUpBy(c, w, l.rotations[i].newSigPublicKey, l.rotations[i])
  }

  // Record i reveals another key with the same commitment as a key of the system.
  ghost predicate CommitmentCollides(c: Primitives, w: World, l: Lineage, i: nat)
    requires i < |l.rotations|
  {
    exists key :: key in w.keys && StateAt(l, i).nextKeyCommitment == Some(KeyCommitment(c, key)) &&
                  Collision(c, COMMITMENT_TAG + key, COMMITMENT_TAG + l.rotations[i].newSigPublicKey)
  }

  lemma StaysOwn(c: Primitives, w: World, l: Lineage, i: nat)
    requires Sound(c, w) && ValidLineage(c, l) && i < |l.rotations| && StateAt(l, i).sigPublicKey in w.keys
    requires CommitsWithin(c, w, l, i) && Genuine(c, w, l, i)
    ensures CommitmentCollides(c, w, l, i) || (OwnStep(c, w, l, i) && StateAt(l, i + 1).sigPublicKey in w.keys)
  {
    hide ForgedAuthorization, ForgedPossession, ValidLineage, Accounted, Tagged, SigningInput;
    LinkIsOwn(c, w, l, i);
    var s, r := StateAt(l, i), l.rotations[i];
    match s.nextKeyCommitment
    case None =>
      var m :| m in w.made && m.holder.Some? && m.holder.value.SigKey(c) == s.sigPublicKey && m.draft == r.Unsigned();
      assert Drafted(c, w, m);
    case Some(h) =>
      var key :| key in w.keys && KeyCommitment(c, key) == h;
      if COMMITMENT_TAG + key == COMMITMENT_TAG + r.newSigPublicKey {
        TagKept(COMMITMENT_TAG, key, r.newSigPublicKey);
      } else {
        assert Collision(c, COMMITMENT_TAG + key, COMMITMENT_TAG + r.newSigPublicKey);
      }
  }

  // A chain that starts from a key of the system, commits only to keys of the system and rests on no forged
  // signature never leaves it: every record up to k was its holder's own step, onto another key of the
  // system; or a collision with a commitment is at hand.
  lemma {:induction false} ChainStaysOwn(c: Primitives, w: World, l: Lineage, k: nat)
    requires Sound(c, w) && ValidLineage(c, l) && l.inception.sigPublicKey in w.keys && k <= |l.rotations|
    requires forall i | 0 <= i < k :: CommitsWithin(c, w, l, i) && Genuine(c, w, l, i)
    ensures || (exists i :: 0 <= i < k && CommitmentCollides(c, w, l, i))
            || (StateAt(l, k).sigPublicKey in w.keys && forall i | 0 <= i < k :: OwnStep(c, w, l, i))
  {
    hide Sound, OwnStep, CommitsWithin, Genuine, CommitmentCollides, ValidLineage;
    if k > 0 {
      ChainStaysOwn(c, w, l, k - 1);
      if StateAt(l, k - 1).sigPublicKey in w.keys {
        StaysOwn(c, w, l, k - 1);
      }
    }
  }
}
