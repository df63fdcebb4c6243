/** What every reachable lineage is, and what holding one proves about its keys. */
module Chains {
  import opened Bytes
  import opened Wrappers
  import opened Wire
  import opened Identity
  import opened Rotation

  // ── Valid chains ──────────────────────────────────────────────────────────

  ghost predicate Signed(c: Primitives, key: Buffer, message: bytes, signature: Buffer, context: bytes)
    requires |context| <= 255
  {
    c.verify(key, Tagged(context, message), signature) == Valid
  }

  // The documented rules: r replaces state s of node id.
  ghost predicate Succeeds(c: Primitives, nodeId: Text, s: KeyState, r: KeyRotation) {
    && r.version == 1 && r.nodeId == nodeId && r.sequence == s.sequence + 1
    && r.prevStateDigest == StateDigest(c, nodeId, s)
    && |r.newKemPublicKey| == KEM_PK_LEN && |r.newSigPublicKey| == SIG_PK_LEN
    && Signed(c, r.newSigPublicKey, SigningInput(r), r.possession, SIG_CTX_KEY_POSSESSION)
    && match s.nextKeyCommitment
       case Some(h) => KeyCommitment(c, r.newSigPublicKey) == h && r.authorization == []
       case None => Signed(c, s.sigPublicKey, SigningInput(r), r.authorization, SIG_CTX_KEY_ROTATION)
  }

  // The state after the first i records.
  ghost function StateAt(l: Lineage, i: nat): KeyState
    requires i <= |l.rotations|
  {
    if i == 0 then l.inception else Installed(l.rotations[i - 1])
  }

  // Record i replaces the state the first i records lead to.
  ghost predicate Linked(c: Primitives, l: Lineage, i: nat)
    requires i < |l.rotations|
  {
    Succeeds(c, l.nodeId, StateAt(l, i), l.rotations[i])
  }

  ghost predicate ValidInception(c: Primitives, l: Lineage) {
    && l.inception.sequence == 0 && l.inception.nextKeyCommitment == None
    && |l.inception.kemPublicKey| == KEM_PK_LEN && |l.inception.sigPublicKey| == SIG_PK_LEN
    && l.nodeId == DeriveNodeId(c, l.inception.kemPublicKey, l.inception.sigPublicKey)
  }

  ghost predicate ValidLineage(c: Primitives, l: Lineage) {
    && ValidInception(c, l)
    && l.current == StateAt(l, |l.rotations|)
    && forall i | 0 <= i < |l.rotations| :: Linked(c, l, i)
  }

  // The same lineage when only its first k records were known.
  ghost function Truncate(l: Lineage, k: nat): Lineage
    requires k <= |l.rotations|
  {
    Lineage(l.nodeId, l.inception, l.rotations[..k], StateAt(l, k))
  }

  lemma VerifyNextMeetsRules(c: Primitives, l: Lineage, r: KeyRotation)
    ensures VerifyNext(c, l, r).Success? <==> Succeeds(c, l.nodeId, l.current, r)
    ensures VerifyNext(c, l, r).Success? ==> VerifyNext(c, l, r).value == Installed(r)
  {
  }

  // Record i sits at sequence i + 1.
  lemma {:induction false} SequenceIsIndex(c: Primitives, l: Lineage, i: nat)
    requires ValidLineage(c, l) && i <= |l.rotations|
    ensures StateAt(l, i).sequence == i
  {
    if i > 0 {
      SequenceIsIndex(c, l, i - 1);
      assert Linked(c, l, i - 1);
    }
  }

  lemma TruncateValid(c: Primitives, l: Lineage, k: nat)
    requires ValidLineage(c, l) && k <= |l.rotations|
    ensures ValidLineage(c, Truncate(l, k)) && Truncate(l, k).current.sequence == k
  {
    SequenceIsIndex(c, l, k);
    var t := Truncate(l, k);
    forall i | 0 <= i < k
      ensures Linked(c, t, i)
    {
      assert StateAt(t, i) == StateAt(l, i) && Linked(c, l, i);
    }
  }

  // ── Runs ──────────────────────────────────────────────────────────────────

  datatype LineageStep =
    | ApplyRecord(record: KeyRotation)
    | RotateKeys(holder: NodeIdentity, next: NodeIdentity, commitment: Option<Digest>, nowMs: u64)
    | RecoverKeys(next: NodeIdentity, commitment: Option<Digest>, nowMs: u64)

  // One call, a refused one changing nothing.
  function Advance(c: Primitives, l: Lineage, step: LineageStep): Lineage {
    match step
    case ApplyRecord(r) => (match Apply(c, l, r) case Success(l') => l' case Failure(_) => l)
    case RotateKeys(holder, next, commitment, nowMs) =>
      (match Rotate(c, l, holder, next, commitment, nowMs) case Success(b) => b.lineage case Failure(_) => l)
    case RecoverKeys(next, commitment, nowMs) =>
      (match Recover(c, l, next, commitment, nowMs) case Success(b) => b.lineage case Failure(_) => l)
  }

  function Run(c: Primitives, l: Lineage, steps: seq<LineageStep>): Lineage
    decreases |steps|
  {
    if |steps| == 0 then l else Run(c, Advance(c, l, steps[0]), steps[1..])
  }

  lemma InceptionValid(c: Primitives, kemKey: Buffer, sigKey: Buffer, keyEpoch: Text)
    ensures var r := Inception(c, kemKey, sigKey, keyEpoch);
            r.Success? <==> |kemKey| == KEM_PK_LEN && |sigKey| == SIG_PK_LEN
    ensures var r := Inception(c, kemKey, sigKey, keyEpoch); r.Success? ==> ValidLineage(c, r.value)
  {
  }

  // An identity has a lineage exactly when its id is derived from its keys: the one of no records that starts
  // from them.
  lemma FromIdentityExactly(c: Primitives, id: NodeIdentity)
    ensures var s := KeyState(0, c.kemPublic(id.kemSeed), c.sigPublic(id.sigSeed), id.keyEpoch, None);
            if id.nodeId == Hex(c.sha256(c.kemPublic(id.kemSeed) + c.sigPublic(id.sigSeed))) then
              FromIdentity(c, id) == Success(Lineage(id.nodeId, s, [], s))
            else FromIdentity(c, id) == Failure(IdentityError(NotDerivedFromKeys))
  {
    hide Hex;
  }

  // A record is accepted either because it is already in the chain, or by appending it.
  lemma ApplyKeepsValid(c: Primitives, l: Lineage, r: KeyRotation)
    requires ValidLineage(c, l)
    ensures var res := Apply(c, l, r);
            res.Success? ==> ValidLineage(c, res.value) && r in res.value.rotations &&
                             (res.value == l || res.value.rotations == l.rotations + [r])
    ensures 1 <= r.sequence <= l.current.sequence ==> r.sequence <= |l.rotations|
  {
    hide SigningInput, StateDigest, KeyCommitment, VerifyNext, VerifyExternal, Succeeds, ValidUtf8;
    SequenceIsIndex(c, l, |l.rotations|);
    VerifyNextMeetsRules(c, l, r);
    var res := Apply(c, l, r);
    if res.Success? && res.value != l {
      var l' := res.value;
      assert l'.current == StateAt(l', |l'.rotations|);
      forall i | 0 <= i < |l'.rotations|
        ensures Linked(c, l', i)
      {
        if i < |l.rotations| {
          assert StateAt(l', i) == StateAt(l, i) && Linked(c, l, i);
        } else {
          assert StateAt(l', i) == l.current;
        }
      }
    }
  }

  lemma BuildIsApply(c: Primitives, l: Lineage, current: Option<NodeIdentity>, next: NodeIdentity,
                     commitment: Option<Digest>, nowMs: u64)
    ensures var b := BuildAndApply(c, l, current, next, commitment, nowMs);
            b.Success? ==> Apply(c, l, b.value.record) == Success(b.value.lineage)
  {
  }

  // Every call that changes a lineage does it by applying a record.
  lemma AdvanceIsApply(c: Primitives, l: Lineage, step: LineageStep)
    ensures Advance(c, l, step) == l || exists r :: Apply(c, l, r) == Success(Advance(c, l, step))
  {
    match step
    case ApplyRecord(record) =>
    case RotateKeys(holder, next, commitment, nowMs) =>
      BuildIsApply(c, l, Some(holder), next, commitment, nowMs);
    case RecoverKeys(next, commitment, nowMs) =>
      BuildIsApply(c, l, None, next, commitment, nowMs);
  }

  lemma AdvanceKeepsValid(c: Primitives, l: Lineage, step: LineageStep)
    requires ValidLineage(c, l)
    ensures ValidLineage(c, Advance(c, l, step))
    ensures l.rotations <= Advance(c, l, step).rotations
    ensures Advance(c, l, step).inception == l.inception && Advance(c, l, step).nodeId == l.nodeId
  {
    AdvanceIsApply(c, l, step);
    if Advance(c, l, step) != l {
      var r :| Apply(c, l, r) == Success(Advance(c, l, step));
      ApplyKeepsValid(c, l, r);
    }
  }

  // The chain invariant: whatever sequence of calls is made, accepted or refused, the lineage stays a
  // valid chain from the same inception, and records are only ever appended.
  lemma {:induction false} ChainInvariant(c: Primitives, l: Lineage, steps: seq<LineageStep>)
    requires ValidLineage(c, l)
    ensures var l' := Run(c, l, steps);
            && ValidLineage(c, l')
            && l'.nodeId == l.nodeId && l'.inception == l.inception && l.rotations <= l'.rotations
            && l'.current.sequence == |l'.rotations|
    decreases |steps|
  {
    if |steps| > 0 {
      AdvanceKeepsValid(c, l, steps[0]);
      ChainInvariant(c, Advance(c, l, steps[0]), steps[1..]);
    } else {
      SequenceIsIndex(c, l, |l.rotations|);
    }
  }

  // ── Delivery ──────────────────────────────────────────────────────────────

  lemma ApplySuccessor(c: Primitives, l: Lineage, r: KeyRotation)
    requires Succeeds(c, l.nodeId, l.current, r)
    ensures Apply(c, l, r) == Success(l.(rotations := l.rotations + [r], current := Installed(r)))
  {
    VerifyNextMeetsRules(c, l, r);
  }

  lemma ApplyAhead(c: Primitives, l: Lineage, r: KeyRotation)
    requires r.version == 1 && r.nodeId == l.nodeId && r.sequence > l.current.sequence + 1
    ensures Apply(c, l, r) == Failure(IdentityError(BadSequence))
  {
  }

  // What a prefix of a chain makes of any record of that chain: known records change nothing, the next
  // one advances it, and one from further ahead is refused.
  lemma ApplyOwnRecord(c: Primitives, l: Lineage, k: nat, j: nat)
    requires ValidLineage(c, l) && k <= |l.rotations| && j < |l.rotations|
    ensures Apply(c, Truncate(l, k), l.rotations[j]) ==
            if j < k then Success(Truncate(l, k))
            else if j == k then Success(Truncate(l, k + 1))
            else Failure(IdentityError(BadSequence))
  {
    hide Succeeds, VerifyNext;
    var t, r := Truncate(l, k), l.rotations[j];
    TruncateValid(c, l, k);
    SequenceIsIndex(c, l, j + 1);
    assert Linked(c, l, j);
    if j == k {
      ApplySuccessor(c, t, r);
      assert l.rotations[..k] + [r] == l.rotations[..k + 1];
    } else if j > k {
      LinkedRecord(c, l, j);
      ApplyAhead(c, t, r);
    }
  }

  lemma LinkedRecord(c: Primitives, l: Lineage, i: nat)
    requires i < |l.rotations| && Linked(c, l, i)
    ensures l.rotations[i].version == 1 && l.rotations[i].nodeId == l.nodeId
  {
  }

  // Applying records one after another, ignoring the refusals.
  function Deliver(c: Primitives, l: Lineage, records: seq<KeyRotation>): Lineage
    decreases |records|
  {
    if |records| == 0 then l else Deliver(c, Advance(c, l, ApplyRecord(records[0])), records[1..])
  }

  // `at` picks out the chain's records k, k + 1, ... in order from what was delivered.
  ghost predicate PicksOut(at: seq<nat>, records: seq<KeyRotation>, chain: seq<KeyRotation>, k: nat) {
    && k + |at| == |chain|
    && (forall i | 0 <= i < |at| :: at[i] < |records| && records[at[i]] == chain[k + i])
    && (forall i, j | 0 <= i < j < |at| :: at[i] < at[j])
  }

  // The delivered records contain those of the chain from k on, as a subsequence in chain order.
  ghost predicate DeliversFrom(records: seq<KeyRotation>, chain: seq<KeyRotation>, k: nat) {
    exists at: seq<nat> :: PicksOut(at, records, chain, k)
  }

  lemma PickedTail(at: seq<nat>, records: seq<KeyRotation>, chain: seq<KeyRotation>, k: nat)
    requires |records| > 0 && k < |chain| && PicksOut(at, records, chain, k)
    ensures DeliversFrom(records[1..], chain, k + 1)
  {
    assert forall i | 0 < i < |at| :: at[0] < at[i];
    var rest: seq<nat> := seq(|at| - 1, i requires 0 <= i < |at| - 1 => at[i + 1] - 1);
    forall i | 0 <= i < |rest|
      ensures rest[i] < |records| - 1 && records[1..][rest[i]] == chain[k + 1 + i]
    {
      assert records[at[i + 1]] == chain[k + (i + 1)];
    }
    forall i, j | 0 <= i < j < |rest|
      ensures rest[i] < rest[j]
    {
      assert at[i + 1] < at[j + 1];
    }
    assert PicksOut(rest, records[1..], chain, k + 1);
  }

  lemma PickedCons(at: seq<nat>, records: seq<KeyRotation>, chain: seq<KeyRotation>, k: nat)
    requires |records| > 0 && k < |chain| && records[0] == chain[k] && PicksOut(at, records[1..], chain, k + 1)
    ensures DeliversFrom(records, chain, k)
  {
    var all: seq<nat> := [0] + seq(|at|, i requires 0 <= i < |at| => at[i] + 1);
    forall i | 0 <= i < |all|
      ensures all[i] < |records| && records[all[i]] == chain[k + i]
    {
      if i > 0 {
        assert records[1..][at[i - 1]] == chain[k + 1 + (i - 1)];
      }
    }
    forall i, j | 0 <= i < j < |all|
      ensures all[i] < all[j]
    {
      if i > 0 {
        assert at[i - 1] < at[j - 1];
      }
    }
    assert PicksOut(all, records, chain, k);
  }

  lemma PickedHead(records: seq<KeyRotation>, chain: seq<KeyRotation>, k: nat)
    requires |records| > 0 && k < |chain| && records[0] == chain[k]
    ensures DeliversFrom(records, chain, k) <==> DeliversFrom(records[1..], chain, k + 1)
  {
    if DeliversFrom(records, chain, k) {
      var at :| PicksOut(at, records, chain, k);
      PickedTail(at, records, chain, k);
    }
    if DeliversFrom(records[1..], chain, k + 1) {
      var at :| PicksOut(at, records[1..], chain, k + 1);
      PickedCons(at, records, chain, k);
    }
  }

  lemma UnpickedHead(records: seq<KeyRotation>, chain: seq<KeyRotation>, k: nat)
    requires |records| > 0 && k <= |chain| && (k < |chain| ==> records[0] != chain[k])
    ensures DeliversFrom(records, chain, k) <==> DeliversFrom(records[1..], chain, k)
  {
    if DeliversFrom(records, chain, k) {
      var at :| PicksOut(at, records, chain, k);
      assert forall i | 0 <= i < |at| :: at[i] > 0 by {
        if |at| > 0 {
          assert at[0] > 0;
        }
      }
      var rest: seq<nat> := seq(|at|, i requires 0 <= i < |at| => at[i] - 1);
      assert PicksOut(rest, records[1..], chain, k);
    }
    if DeliversFrom(records[1..], chain, k) {
      var at :| PicksOut(at, records[1..], chain, k);
      var all: seq<nat> := seq(|at|, i requires 0 <= i < |at| => at[i] + 1);
      assert PicksOut(all, records, chain, k);
    }
  }

  lemma NothingPicked(records: seq<KeyRotation>, chain: seq<KeyRotation>, k: nat)
    requires |records| == 0 && k <= |chain|
    ensures DeliversFrom(records, chain, k) <==> k == |chain|
  {
    if k == |chain| {
      assert PicksOut([], records, chain, k);
    } else {
      forall at: seq<nat> | |at| == |chain| - k
        ensures !PicksOut(at, records, chain, k)
      {
        assert at[0] >= |records|;
      }
    }
  }

  lemma RecordsDistinct(c: Primitives, l: Lineage)
    requires ValidLineage(c, l)
    ensures forall i, j | 0 <= i < j < |l.rotations| :: l.rotations[i] != l.rotations[j]
  {
    forall i, j | 0 <= i < j < |l.rotations|
      ensures l.rotations[i] != l.rotations[j]
    {
      SequenceIsIndex(c, l, i + 1);
      SequenceIsIndex(c, l, j + 1);
    }
  }

  // One delivery: the replica advances if it gets the record it lacks next, and stays put otherwise.
  lemma DeliverOne(c: Primitives, l: Lineage, k: nat, r: KeyRotation) returns (k': nat)
    requires ValidLineage(c, l) && k <= |l.rotations| && r in l.rotations
    ensures k' == if k < |l.rotations| && r == l.rotations[k] then k + 1 else k
    ensures Advance(c, Truncate(l, k), ApplyRecord(r)) == Truncate(l, k')
  {
    hide Apply;
    var j: nat :| j < |l.rotations| && l.rotations[j] == r;
    ApplyOwnRecord(c, l, k, j);
    RecordsDistinct(c, l);
    k' := if j == k then k + 1 else k;
  }

  // Convergence: a replica holding a prefix of a chain and given any of that chain's records, lost,
  // repeated and reordered at will, always holds a prefix; and it ends with the whole chain exactly
  // when the records it lacked were delivered as a subsequence in chain order.
  lemma {:induction false} Convergence(c: Primitives, l: Lineage, k: nat, records: seq<KeyRotation>)
    returns (k': nat)
    requires ValidLineage(c, l) && k <= |l.rotations|
    requires forall r | r in records :: r in l.rotations
    ensures k <= k' <= |l.rotations| && Deliver(c, Truncate(l, k), records) == Truncate(l, k')
    ensures k' == |l.rotations| <==> DeliversFrom(records, l.rotations, k)
    ensures k' == |l.rotations| <==> Deliver(c, Truncate(l, k), records) == l
    decreases |records|
  {
    hide Advance;
    if |records| == 0 {
      k' := k;
      NothingPicked(records, l.rotations, k);
    } else {
      assert records[0] in l.rotations;
      var next := DeliverOne(c, l, k, records[0]);
      if next > k {
        RecordsDistinct(c, l);
        PickedHead(records, l.rotations, k);
      } else {
        UnpickedHead(records, l.rotations, k);
      }
      k' := Convergence(c, l, next, records[1..]);
    }
    assert |Truncate(l, k').rotations| == k';
    assert k' == |l.rotations| ==> l.rotations[..k'] == l.rotations;
  }

  // ── Forks ─────────────────────────────────────────────────────────────────

  ghost predicate FirstDifference(a: seq<KeyRotation>, b: seq<KeyRotation>, i: nat) {
    i < |a| && i < |b| && a[i] != b[i] && a[..i] == b[..i]
  }

  lemma {:induction false} Diverge(a: seq<KeyRotation>, b: seq<KeyRotation>, from: nat) returns (i: nat)
    requires from <= |a| && from <= |b| && a[..from] == b[..from]
    ensures FirstDifference(a, b, i) || a <= b || b <= a
    decreases |a| - from
  {
    i := from;
    if from == |a| {
      assert a[..from] == a;
    } else if from == |b| {
      assert b[..from] == b;
    } else if a[from] == b[from] {
      assert a[..from + 1] == a[..from] + [a[from]] == b[..from + 1];
      i := Diverge(a, b, from + 1);
    }
  }

  // Why a fork happened: one state endorsed two successors. Either two different inputs were signed, or the
  // records differ in nothing but their signatures.
  ghost predicate Accountable(c: Primitives, s: KeyState, r1: KeyRotation, r2: KeyRotation) {
    && (SigningInput(r1) != SigningInput(r2) || r1.Unsigned() == r2.Unsigned())
    && match s.nextKeyCommitment
    case None =>
      && Signed(c, s.sigPublicKey, SigningInput(r1), r1.authorization, SIG_CTX_KEY_ROTATION)
      && Signed(c, s.sigPublicKey, SigningInput(r2), r2.authorization, SIG_CTX_KEY_ROTATION)
    case Some(_) =>
      && (r1.newSigPublicKey == r2.newSigPublicKey ||
          Collision(c, COMMITMENT_TAG + r1.newSigPublicKey, COMMITMENT_TAG + r2.newSigPublicKey))
      && Signed(c, r1.newSigPublicKey, SigningInput(r1), r1.possession, SIG_CTX_KEY_POSSESSION)
      && Signed(c, r2.newSigPublicKey, SigningInput(r2), r2.possession, SIG_CTX_KEY_POSSESSION)
  }

  lemma SharedStateAccounts(c: Primitives, nodeId: Text, s: KeyState, r1: KeyRotation, r2: KeyRotation)
    requires Succeeds(c, nodeId, s, r1) && Succeeds(c, nodeId, s, r2)
    ensures Accountable(c, s, r1, r2)
  {
    hide SigningInput;
    if SigningInput(r1) == SigningInput(r2) {
      SigningInputInjective(r1, r2);
    }
    if r1.newSigPublicKey != r2.newSigPublicKey
       && COMMITMENT_TAG + r1.newSigPublicKey == COMMITMENT_TAG + r2.newSigPublicKey {
      TagKept(COMMITMENT_TAG, r1.newSigPublicKey, r2.newSigPublicKey);
    }
  }

  // Fork accountability: two valid lineages of one inception, neither extending the other, part at a
  // state both share; either that state's one signing key authorized both successors, or both reveal
  // the one key it committed to (or a hash collision is at hand). Each lineage refuses the other's
  // record as a fork.
  lemma ForkAccountability(c: Primitives, l1: Lineage, l2: Lineage) returns (i: nat)
    requires ValidLineage(c, l1) && ValidLineage(c, l2) && l1.inception == l2.inception
    requires !(l1.rotations <= l2.rotations) && !(l2.rotations <= l1.rotations)
    ensures FirstDifference(l1.rotations, l2.rotations, i)
    ensures l1.nodeId == l2.nodeId && StateAt(l1, i) == StateAt(l2, i)
    ensures Succeeds(c, l1.nodeId, StateAt(l1, i), l1.rotations[i])
    ensures Succeeds(c, l1.nodeId, StateAt(l1, i), l2.rotations[i])
    ensures Accountable(c, StateAt(l1, i), l1.rotations[i], l2.rotations[i])
    ensures Apply(c, l1, l2.rotations[i]) == Failure(IdentityError(LineageFork))
    ensures Apply(c, l2, l1.rotations[i]) == Failure(IdentityError(LineageFork))
  {
    hide Succeeds, Apply, Accountable, VerifyNext, ValidUtf8;
    i := Diverge(l1.rotations, l2.rotations, 0);
    if i > 0 {
      assert l1.rotations[..i][i - 1] == l2.rotations[..i][i - 1];
    }
    var s, r1, r2 := StateAt(l1, i), l1.rotations[i], l2.rotations[i];
    assert Linked(c, l1, i) && Linked(c, l2, i);
    SharedStateAccounts(c, l1.nodeId, s, r1, r2);
    SequenceIsIndex(c, l1, i + 1);
    SequenceIsIndex(c, l2, i + 1);
    ForkReportedExactly(c, l1, r2);
    ForkReportedExactly(c, l2, r1);
  }

  // A fork is reported exactly when the chain already has a different record at that sequence, whether
  // or not the new one is valid.
  lemma ForkReportedExactly(c: Primitives, l: Lineage, r: KeyRotation)
    requires ValidLineage(c, l)
    ensures Apply(c, l, r) == Failure(IdentityError(LineageFork)) <==>
            1 <= r.sequence <= |l.rotations| && l.rotations[r.sequence - 1] != r
  {
    SequenceIsIndex(c, l, |l.rotations|);
  }
}
