/** Lineages as bytes: bincode's layout of the inception keys and the records, and decoding, which
    rebuilds the current state by verifying every record again (witan/src/rotation.rs). */
module LineageCodec {
  import opened Bytes
  import opened Wrappers
  import opened Wire
  import opened Identity
  import opened Rotation
  import opened Chains

  const LINEAGE_VERSION := 1
  const MAX_LINEAGE_BYTES := 4 * 1024 * 1024

  datatype LineageWire = LineageWire(
    version: byte, kemKey: Buffer, sigKey: Buffer, keyEpoch: Text, rotations: seq<KeyRotation>)

  // ── Records ───────────────────────────────────────────────────────────────

  const RECORD_KINDS := [KU8, KStr, KU64, KArray32, KBlob, KBlob, KStr, KOpt32, KU64, KBlob, KBlob]

  function RecordFields(r: KeyRotation): (fs: seq<Field>)
    ensures KindsOf(fs) == RECORD_KINDS
  {
    [U8(r.version), Str(r.nodeId), U64(r.sequence), Array32(r.prevStateDigest), Blob(r.newKemPublicKey),
     Blob(r.newSigPublicKey), Str(r.newKeyEpoch), Opt32(r.nextKeyCommitment), U64(r.timestampUnixMs),
     Blob(r.authorization), Blob(r.possession)]
  }

  function RecordOf(fs: seq<Field>): (r: KeyRotation)
    requires KindsOf(fs) == RECORD_KINDS
    ensures RecordFields(r) == fs
  {
    FieldKinds(fs, RECORD_KINDS);
    KeyRotation(fs[0].b, fs[1].t, fs[2].n, fs[3].d, fs[4].v, fs[5].v, fs[6].t, fs[7].o, fs[8].n, fs[9].v, fs[10].v)
  }

  lemma FieldKinds(fs: seq<Field>, ks: seq<Kind>)
    requires KindsOf(fs) == ks
    ensures |fs| == |ks| && forall i | 0 <= i < |ks| :: KindOf(fs[i]) == ks[i]
  {
    assert forall i | 0 <= i < |fs| :: KindsOf(fs)[i] == KindOf(fs[i]);
  }

  function PutRecords(rs: seq<KeyRotation>): bytes {
    if |rs| == 0 then [] else PutAll(Little, RecordFields(rs[0])) + PutRecords(rs[1..])
  }

  function TakeRecords(n: nat, b: bytes): Parsed<seq<KeyRotation>> {
    if n == 0 then Parsed([], b)
    else
      match TakeAll(Little, RECORD_KINDS, b)
      case Malformed => Malformed
      case Parsed(fs, rest) =>
        PutAllTakeAll(Little, RECORD_KINDS, b);
        match TakeRecords(n - 1, rest)
        case Malformed => Malformed
        case Parsed(rs, rest') => Parsed([RecordOf(fs)] + rs, rest')
  }

  lemma RecordOfFields(r: KeyRotation)
    ensures RecordOf(RecordFields(r)) == r
  {
  }

  lemma {:induction false} TakePutRecords(rs: seq<KeyRotation>, rest: bytes)
    ensures TakeRecords(|rs|, PutRecords(rs) + rest) == Parsed(rs, rest)
  {
    hide PutAll, TakeAll, RecordOf, RecordFields;
    if |rs| == 0 {
      assert PutRecords(rs) + rest == rest;
    } else {
      var fs, tail := RecordFields(rs[0]), PutRecords(rs[1..]) + rest;
      assert PutRecords(rs) + rest == PutAll(Little, fs) + tail;
      TakeAllPutAll(Little, fs, tail);
      TakePutRecords(rs[1..], rest);
      RecordOfFields(rs[0]);
      assert [rs[0]] + rs[1..] == rs;
    }
  }

  lemma {:induction false} PutTakeRecords(n: nat, b: bytes)
    requires TakeRecords(n, b).Parsed?
    ensures |TakeRecords(n, b).value| == n
    ensures b == PutRecords(TakeRecords(n, b).value) + TakeRecords(n, b).rest
  {
    hide PutAll, TakeAll, RecordOf, RecordFields;
    if n == 0 {
      assert b == [] + b;
    } else {
      PutAllTakeAll(Little, RECORD_KINDS, b);
      var Parsed(fs, rest) := TakeAll(Little, RECORD_KINDS, b);
      PutTakeRecords(n - 1, rest);
      var Parsed(rs, rest') := TakeRecords(n - 1, rest);
      assert ([RecordOf(fs)] + rs)[1..] == rs;
      assert b == (PutAll(Little, fs) + PutRecords(rs)) + rest';
    }
  }

  // ── Lineages ──────────────────────────────────────────────────────────────

  const HEADER_KINDS := [KU8, KBlob, KBlob, KStr, KU64]

  function HeaderFields(w: LineageWire): (fs: seq<Field>)
    requires |w.rotations| < 0x1_0000_0000_0000_0000
    ensures KindsOf(fs) == HEADER_KINDS
  {
    [U8(w.version), Blob(w.kemKey), Blob(w.sigKey), Str(w.keyEpoch), U64(|w.rotations|)]
  }

  function PutWire(w: LineageWire): bytes
    requires |w.rotations| < 0x1_0000_0000_0000_0000
  {
    PutAll(Little, HeaderFields(w)) + PutRecords(w.rotations)
  }

  function TakeWire(b: bytes): Parsed<LineageWire> {
    match TakeAll(Little, HEADER_KINDS, b)
    case Malformed => Malformed
    case Parsed(fs, rest) =>
      PutAllTakeAll(Little, HEADER_KINDS, b);
      FieldKinds(fs, HEADER_KINDS);
      match TakeRecords(fs[4].n, rest)
      case Malformed => Malformed
      case Parsed(rs, rest') => Parsed(LineageWire(fs[0].b, fs[1].v, fs[2].v, fs[3].t, rs), rest')
  }

  lemma TakePutWire(w: LineageWire, rest: bytes)
    requires |w.rotations| < 0x1_0000_0000_0000_0000
    ensures TakeWire(PutWire(w) + rest) == Parsed(w, rest)
  {
    hide PutAll, TakeAll, PutRecords, TakeRecords, ValidUtf8;
    var fs := HeaderFields(w);
    assert PutWire(w) + rest == PutAll(Little, fs) + (PutRecords(w.rotations) + rest);
    TakeAllPutAll(Little, fs, PutRecords(w.rotations) + rest);
    TakePutRecords(w.rotations, rest);
  }

  lemma PutTakeWire(b: bytes)
    requires TakeWire(b).Parsed?
    ensures |TakeWire(b).value.rotations| < 0x1_0000_0000_0000_0000
    ensures b == PutWire(TakeWire(b).value) + TakeWire(b).rest
  {
    hide PutAll, TakeAll, PutRecords, TakeRecords;
    PutAllTakeAll(Little, HEADER_KINDS, b);
    var Parsed(fs, rest) := TakeAll(Little, HEADER_KINDS, b);
    FieldKinds(fs, HEADER_KINDS);
    PutTakeRecords(fs[4].n, rest);
    var Parsed(w, rest') := TakeWire(b);
    assert HeaderFields(w) == fs;
    assert b == (PutAll(Little, fs) + PutRecords(w.rotations)) + rest';
  }

  function WireOf(l: Lineage): LineageWire {
    LineageWire(LINEAGE_VERSION, l.inception.kemPublicKey, l.inception.sigPublicKey, l.inception.keyEpoch, l.rotations)
  }

  function Encode(l: Lineage): bytes
    requires |l.rotations| < 0x1_0000_0000_0000_0000
  {
    PutWire(WireOf(l))
  }

  // Bytes that parse as one lineage with nothing after it.
  function ParseLineage(b: bytes): Result<LineageWire, GossipError> {
    if |b| > MAX_LINEAGE_BYTES then Failure(InvalidInput)
    else
      match TakeWire(b)
      case Malformed => Failure(SerializationError)
      case Parsed(w, rest) => if rest == [] then Success(w) else Failure(SerializationError)
  }

  // Verifying records one by one onto a lineage.
  function Replay(c: Primitives, l: Lineage, rs: seq<KeyRotation>): Result<Lineage, GossipError>
    decreases |rs|
  {
    if |rs| == 0 then Success(l)
    else if rs[0].sequence != l.current.sequence + 1 then Failure(IdentityError(OutOfOrder))
    else
      var l' :- Apply(c, l, rs[0]);
      Replay(c, l', rs[1..])
  }

  function Decode(c: Primitives, b: bytes): Result<Lineage, GossipError> {
    var w :- ParseLineage(b);
    if w.version != LINEAGE_VERSION then Failure(IdentityError(BadLineageVersion))
    else
      var base :- Inception(c, w.kemKey, w.sigKey, w.keyEpoch);
      Replay(c, base, w.rotations)
  }

  // ── Round trip ────────────────────────────────────────────────────────────

  lemma {:induction false} ReplayRebuilds(c: Primitives, l: Lineage, k: nat)
    requires ValidLineage(c, l) && k <= |l.rotations|
    ensures Replay(c, Truncate(l, k), l.rotations[k..]) == Success(l)
    decreases |l.rotations| - k
  {
    hide Apply, ValidUtf8;
    if k == |l.rotations| {
      assert l.rotations[..k] == l.rotations;
    } else {
      TruncateValid(c, l, k);
      SequenceIsIndex(c, l, k + 1);
      ApplyOwnRecord(c, l, k, k);
      assert l.rotations[k..][1..] == l.rotations[k + 1..];
      ReplayRebuilds(c, l, k + 1);
    }
  }

  lemma {:induction false} ReplayKeepsValid(c: Primitives, l: Lineage, rs: seq<KeyRotation>)
    requires ValidLineage(c, l) && Replay(c, l, rs).Success?
    ensures var l' := Replay(c, l, rs).value;
            ValidLineage(c, l') && l'.rotations == l.rotations + rs && l'.inception == l.inception
    decreases |rs|
  {
    hide Apply;
    if |rs| > 0 {
      ApplyKeepsValid(c, l, rs[0]);
      var l' := Apply(c, l, rs[0]).value;
      ApplyAppends(c, l, rs[0]);
      ReplayKeepsValid(c, l', rs[1..]);
      assert (l.rotations + [rs[0]]) + rs[1..] == l.rotations + rs;
    }
  }

  lemma ApplyAppends(c: Primitives, l: Lineage, r: KeyRotation)
    requires r.sequence == l.current.sequence + 1 && Apply(c, l, r).Success?
    ensures Apply(c, l, r).value.rotations == l.rotations + [r]
    ensures Apply(c, l, r).value.inception == l.inception
  {
  }

  // Decoding accepts exactly the encodings of valid lineages that fit the size limit, and gives each one
  // back whole: id, records, sequence and current state. So every reachable lineage survives the trip
  // through bytes, and any bytes that decode are the ones that encoding the result gives.
  lemma RoundTrip(c: Primitives, b: bytes, l: Lineage)
    requires |l.rotations| < 0x1_0000_0000_0000_0000
    ensures Decode(c, b) == Success(l) <==>
            ValidLineage(c, l) && Encode(l) == b && |b| <= MAX_LINEAGE_BYTES
  {
    if Decode(c, b) == Success(l) {
      DecodeIsEncoding(c, b);
    }
    if ValidLineage(c, l) && Encode(l) == b && |b| <= MAX_LINEAGE_BYTES {
      EncodeDecodes(c, l);
    }
  }

  lemma EncodeDecodes(c: Primitives, l: Lineage)
    requires ValidLineage(c, l) && |l.rotations| < 0x1_0000_0000_0000_0000
    requires |Encode(l)| <= MAX_LINEAGE_BYTES
    ensures Decode(c, Encode(l)) == Success(l)
  {
    TakePutWire(WireOf(l), []);
    assert Encode(l) + [] == Encode(l);
    ReplayRebuilds(c, l, 0);
    assert l.rotations[0..] == l.rotations && l.rotations[..0] == [];
  }

  lemma DecodeIsEncoding(c: Primitives, b: bytes)
    requires Decode(c, b).Success?
    ensures var l := Decode(c, b).value;
            && |l.rotations| < 0x1_0000_0000_0000_0000
            && ValidLineage(c, l) && Encode(l) == b && |b| <= MAX_LINEAGE_BYTES
  {
    PutTakeWire(b);
    var w := TakeWire(b).value;
    InceptionValid(c, w.kemKey, w.sigKey, w.keyEpoch);
    var base := Inception(c, w.kemKey, w.sigKey, w.keyEpoch).value;
    ReplayKeepsValid(c, base, w.rotations);
    assert base.rotations + w.rotations == w.rotations;
    assert PutWire(w) + [] == PutWire(w);
    assert WireOf(Decode(c, b).value) == w;
  }

  // Two lineages with the same bytes are the same lineage.
  lemma EncodeInjective(c: Primitives, l1: Lineage, l2: Lineage)
    requires ValidLineage(c, l1) && |l1.rotations| < 0x1_0000_0000_0000_0000
    requires ValidLineage(c, l2) && |l2.rotations| < 0x1_0000_0000_0000_0000
    requires Encode(l1) == Encode(l2)
    ensures l1 == l2
  {
    TakePutWire(WireOf(l1), []);
    TakePutWire(WireOf(l2), []);
    assert Encode(l1) + [] == Encode(l2) + [];
    ReplayRebuilds(c, l1, 0);
    ReplayRebuilds(c, l2, 0);
    assert l1.rotations[0..] == l1.rotations && l2.rotations[0..] == l2.rotations;
    assert Truncate(l1, 0) == Truncate(l2, 0);
  }

  // ── Size ──────────────────────────────────────────────────────────────────

  function Size(f: Field): nat {
    match f
    case U8(_) => 1
    case U32(_) => 4
    case U64(_) => 8
    case Array32(_) => 32
    case Blob(v) => 8 + |v|
    case Str(t) => 8 + |t|
    case Opt32(o) => if o.None? then 1 else 33
  }

  // Total size of the first n fields.
  function SizeOf(fs: seq<Field>, n: nat): nat
    requires n <= |fs|
    decreases n
  {
    if n == 0 then 0 else SizeOf(fs, n - 1) + Size(fs[n - 1])
  }

  lemma {:induction false} PutAllSnoc(e: Endian, fs: seq<Field>, f: Field)
    ensures |PutAll(e, fs + [f])| == |PutAll(e, fs)| + Size(f)
    decreases |fs|
  {
    if |fs| > 0 {
      PutAllSnoc(e, fs[1..], f);
      assert (fs + [f])[1..] == fs[1..] + [f];
    }
  }

  lemma {:induction false} PutAllSize(e: Endian, fs: seq<Field>, n: nat)
    requires n <= |fs|
    ensures |PutAll(e, fs[..n])| == SizeOf(fs, n)
  {
    if n > 0 {
      PutAllSize(e, fs, n - 1);
      PutAllSnoc(e, fs[..n - 1], fs[n - 1]);
      assert fs[..n] == fs[..n - 1] + [fs[n - 1]];
    }
  }

  // Bytes of the labels, commitments and signatures in the records: all that varies between records.
  function Variable(rs: seq<KeyRotation>): nat {
    if |rs| == 0 then 0
    else |rs[0].newKeyEpoch| + |rs[0].authorization| + |rs[0].possession|
         + (if rs[0].nextKeyCommitment.None? then 0 else 32) + Variable(rs[1..])
  }

  lemma RecordSize(r: KeyRotation)
    requires |r.nodeId| == 64 && |r.newKemPublicKey| == KEM_PK_LEN && |r.newSigPublicKey| == SIG_PK_LEN
    ensures |PutAll(Little, RecordFields(r))| ==
            3330 + |r.newKeyEpoch| + |r.authorization| + |r.possession|
            + if r.nextKeyCommitment.None? then 0 else 32
  {
    hide PutAll;
    var fs := RecordFields(r);
    PutAllSize(Little, fs, 11);
    assert fs[..11] == fs;
    assert SizeOf(fs, 4) == 113;
    assert SizeOf(fs, 7) == 3305 + |r.newKeyEpoch|;
  }

  lemma {:induction false} RecordsSize(rs: seq<KeyRotation>)
    requires forall r | r in rs :: |r.nodeId| == 64 && |r.newKemPublicKey| == KEM_PK_LEN && |r.newSigPublicKey| == SIG_PK_LEN
    ensures |PutRecords(rs)| == 3330 * |rs| + Variable(rs)
  {
    if |rs| > 0 {
      hide PutAll, RecordFields;
      RecordSize(rs[0]);
      RecordsSize(rs[1..]);
    }
  }

  lemma RecordLengths(c: Primitives, l: Lineage)
    requires ValidLineage(c, l)
    ensures forall r | r in l.rotations ::
              |r.nodeId| == 64 && |r.newKemPublicKey| == KEM_PK_LEN && |r.newSigPublicKey| == SIG_PK_LEN
  {
    hide StateDigest, SigningInput, VerifyExternal;
    forall r | r in l.rotations
      ensures |r.nodeId| == 64 && |r.newKemPublicKey| == KEM_PK_LEN && |r.newSigPublicKey| == SIG_PK_LEN
    {
      var i: nat :| i < |l.rotations| && l.rotations[i] == r;
      assert Linked(c, l, i);
    }
  }

  lemma HeaderSize(c: Primitives, l: Lineage)
    requires ValidLineage(c, l) && |l.rotations| < 0x1_0000_0000_0000_0000
    ensures |PutAll(Little, HeaderFields(WireOf(l)))| == 3201 + |l.inception.keyEpoch|
  {
    hide PutAll;
    var fs := HeaderFields(WireOf(l));
    PutAllSize(Little, fs, 5);
    assert fs[..5] == fs;
  }

  // The exact size of an encoded lineage, and so the exact lineages that fit the limit: it grows by 3330
  // bytes a record, plus the record's label, commitment and signatures.
  lemma EncodedSize(c: Primitives, l: Lineage)
    requires ValidLineage(c, l) && |l.rotations| < 0x1_0000_0000_0000_0000
    ensures |Encode(l)| == 3201 + |l.inception.keyEpoch| + 3330 * |l.rotations| + Variable(l.rotations)
  {
    hide PutAll, PutRecords, Variable, ValidLineage, HeaderFields, RecordFields;
    HeaderSize(c, l);
    RecordLengths(c, l);
    RecordsSize(l.rotations);
  }
}
