/** One codec for every byte layout in the system: bincode's fixed-width little-endian encoding of the
    wire messages, and the big-endian length-prefixed layout that key rotations sign and hash. */
module Wire {
  import opened Bytes
  import opened Wrappers

  datatype Field =
    | U8(b: byte)
    | U32(w: u32)
    | U64(n: u64)
    | Array32(d: Digest)
    | Blob(v: Buffer)
    | Str(t: Text)
    | Opt32(o: Option<Digest>)

  datatype Kind = KU8 | KU32 | KU64 | KArray32 | KBlob | KStr | KOpt32

  datatype Parsed<+T> = Parsed(value: T, rest: bytes) | Malformed

  function KindOf(f: Field): Kind {
    match f
    case U8(_) => KU8
    case U32(_) => KU32
    case U64(_) => KU64
    case Array32(_) => KArray32
    case Blob(_) => KBlob
    case Str(_) => KStr
    case Opt32(_) => KOpt32
  }

  function KindsOf(fs: seq<Field>): (ks: seq<Kind>)
    ensures |ks| == |fs|
  {
    seq(|fs|, i requires 0 <= i < |fs| => KindOf(fs[i]))
  }

  // ── Writing ───────────────────────────────────────────────────────────────

  // Variable-length data carries its length in eight bytes.
  function PutSized(e: Endian, v: Buffer): bytes {
    IntBytes(e, |v|, 8) + v
  }

  function Put(e: Endian, f: Field): bytes {
    match f
    case U8(b) => [b]
    case U32(w) => IntBytes(e, w, 4)
    case U64(n) => IntBytes(e, n, 8)
    case Array32(d) => d
    case Blob(v) => PutSized(e, v)
    case Str(t) => PutSized(e, t)
    case Opt32(None) => [0]
    case Opt32(Some(d)) => [1] + d
  }

  function PutAll(e: Endian, fs: seq<Field>): bytes {
    if |fs| == 0 then [] else Put(e, fs[0]) + PutAll(e, fs[1..])
  }

  // ── Reading ───────────────────────────────────────────────────────────────

  function TakeSized(e: Endian, b: bytes): Parsed<Buffer> {
    if |b| < 8 then Malformed
    else
      var len := IntValue(e, b[..8]);
      if len > |b| - 8 || len > MAX_LEN then Malformed
      else Parsed(b[8..8 + len], b[8 + len..])
  }

  function Take(e: Endian, k: Kind, b: bytes): Parsed<Field> {
    match k
    case KU8 =>
      if |b| < 1 then Malformed else Parsed(U8(b[0]), b[1..])
    case KU32 =>
      if |b| < 4 then Malformed
      else
        BytesOfIntValue(e, b[..4]);
        Pow256Values();
        Parsed(U32(IntValue(e, b[..4])), b[4..])
    case KU64 =>
      if |b| < 8 then Malformed
      else
        BytesOfIntValue(e, b[..8]);
        Pow256Values();
        Parsed(U64(IntValue(e, b[..8])), b[8..])
    case KArray32 =>
      if |b| < 32 then Malformed else Parsed(Array32(b[..32]), b[32..])
    case KBlob =>
      (match TakeSized(e, b)
       case Parsed(v, rest) => Parsed(Blob(v), rest)
       case Malformed => Malformed)
    case KStr =>
      (match TakeSized(e, b)
       case Parsed(v, rest) => if ValidUtf8(v) then Parsed(Str(v), rest) else Malformed
       case Malformed => Malformed)
    case KOpt32 =>
      if |b| >= 1 && b[0] == 0 then Parsed(Opt32(None), b[1..])
      else if |b| >= 33 && b[0] == 1 then Parsed(Opt32(Some(b[1..33])), b[33..])
      else Malformed
  }

  function TakeAll(e: Endian, ks: seq<Kind>, b: bytes): Parsed<seq<Field>> {
    if |ks| == 0 then Parsed([], b)
    else
      match Take(e, ks[0], b)
      case Malformed => Malformed
      case Parsed(f, rest) =>
        match TakeAll(e, ks[1..], rest)
        case Malformed => Malformed
        case Parsed(fs, rest') => Parsed([f] + fs, rest')
  }

  // ── Round trips ───────────────────────────────────────────────────────────

  lemma TakePutSized(e: Endian, v: Buffer, rest: bytes)
    ensures TakeSized(e, PutSized(e, v) + rest) == Parsed(v, rest)
  {
    var b := PutSized(e, v) + rest;
    assert b[..8] == IntBytes(e, |v|, 8);
    Pow256Values();
    IntValueOfBytes(e, |v|, 8);
    assert b[8..8 + |v|] == v;
    assert b[8 + |v|..] == rest;
  }

  lemma PutTakeSized(e: Endian, b: bytes)
    requires TakeSized(e, b).Parsed?
    ensures b == PutSized(e, TakeSized(e, b).value) + TakeSized(e, b).rest
  {
    BytesOfIntValue(e, b[..8]);
    var len := IntValue(e, b[..8]);
    assert b == b[..8] + b[8..8 + len] + b[8 + len..];
  }

  lemma TakePut(e: Endian, f: Field, rest: bytes)
    ensures Take(e, KindOf(f), Put(e, f) + rest) == Parsed(f, rest)
  {
    var b := Put(e, f) + rest;
    Pow256Values();
    match f
    case U8(_) =>
      assert b[1..] == rest;
    case U32(w) =>
      assert b[..4] == IntBytes(e, w, 4) && b[4..] == rest;
      IntValueOfBytes(e, w, 4);
    case U64(n) =>
      assert b[..8] == IntBytes(e, n, 8) && b[8..] == rest;
      IntValueOfBytes(e, n, 8);
    case Array32(d) =>
      assert b[..32] == d && b[32..] == rest;
    case Blob(v) =>
      TakePutSized(e, v, rest);
    case Str(t) =>
      TakePutSized(e, t, rest);
    case Opt32(None) =>
      assert b[1..] == rest;
    case Opt32(Some(d)) =>
      assert b[1..33] == d && b[33..] == rest;
  }

  lemma PutTake(e: Endian, k: Kind, b: bytes)
    requires Take(e, k, b).Parsed?
    ensures KindOf(Take(e, k, b).value) == k
    ensures b == Put(e, Take(e, k, b).value) + Take(e, k, b).rest
  {
    hide IntBytes, IntValue, CharLen;
    match k
    case KU8 => assert b == [b[0]] + b[1..];
    case KU32 =>
      BytesOfIntValue(e, b[..4]);
      assert b == b[..4] + b[4..];
    case KU64 =>
      BytesOfIntValue(e, b[..8]);
      assert b == b[..8] + b[8..];
    case KArray32 => assert b == b[..32] + b[32..];
    case KBlob => PutTakeSized(e, b);
    case KStr => PutTakeSized(e, b);
    case KOpt32 =>
      if b[0] == 0 {
        assert b == [0] + b[1..];
      } else {
        assert b == [1] + b[1..33] + b[33..];
      }
  }

  // Reading what was written returns the fields and leaves whatever followed them.
  lemma {:induction false} TakeAllPutAll(e: Endian, fs: seq<Field>, rest: bytes)
    ensures TakeAll(e, KindsOf(fs), PutAll(e, fs) + rest) == Parsed(fs, rest)
  {
    if |fs| == 0 {
      assert PutAll(e, fs) + rest == rest;
    } else {
      var tail := PutAll(e, fs[1..]) + rest;
      assert PutAll(e, fs) + rest == Put(e, fs[0]) + tail;
      TakePut(e, fs[0], tail);
      TakeAllPutAll(e, fs[1..], rest);
      assert KindsOf(fs)[1..] == KindsOf(fs[1..]);
      assert [fs[0]] + fs[1..] == fs;
    }
  }

  lemma PutAllCons(e: Endian, f: Field, fs: seq<Field>, rest: bytes)
    ensures PutAll(e, [f] + fs) + rest == Put(e, f) + (PutAll(e, fs) + rest)
    ensures KindsOf([f] + fs) == [KindOf(f)] + KindsOf(fs)
  {
    assert ([f] + fs)[1..] == fs;
  }

  // Whatever reads successfully is exactly what writing the fields would have produced.
  lemma {:induction false} PutAllTakeAll(e: Endian, ks: seq<Kind>, b: bytes)
    requires TakeAll(e, ks, b).Parsed?
    ensures KindsOf(TakeAll(e, ks, b).value) == ks
    ensures b == PutAll(e, TakeAll(e, ks, b).value) + TakeAll(e, ks, b).rest
  {
    if |ks| == 0 {
      assert b == [] + b;
    } else {
      var Parsed(f, rest) := Take(e, ks[0], b);
      var Parsed(fs, rest') := TakeAll(e, ks[1..], rest);
      PutTake(e, ks[0], b);
      PutAllTakeAll(e, ks[1..], rest);
      PutAllCons(e, f, fs, rest');
      assert ks == [ks[0]] + ks[1..];
    }
  }

  // Layouts are prefix-free: two field lists of the same kinds followed by anything can only give the
  // same bytes if the fields and what follows them are the same.
  lemma PutAllInjective(e: Endian, fs: seq<Field>, t1: bytes, gs: seq<Field>, t2: bytes)
    requires KindsOf(fs) == KindsOf(gs)
    requires PutAll(e, fs) + t1 == PutAll(e, gs) + t2
    ensures fs == gs && t1 == t2
  {
    TakeAllPutAll(e, fs, t1);
    TakeAllPutAll(e, gs, t2);
  }
}
