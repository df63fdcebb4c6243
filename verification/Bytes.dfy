/** Bytes, fixed-width integers, UTF-8 text and hexadecimal: the vocabulary every wire format here is
    written in. */
module Bytes {

  type byte = n: int | 0 <= n < 256
  type bytes = seq<byte>

  type u32 = n: int | 0 <= n < 0x1_0000_0000
  type u64 = n: int | 0 <= n < 0x1_0000_0000_0000_0000

  // Unchecked arithmetic wraps at its width.
  function Wrap32(n: nat): u32 {
    if n < 0x1_0000_0000 then n else n % 0x1_0000_0000
  }

  function Wrap64(n: nat): u64 {
    if n < 0x1_0000_0000_0000_0000 then n else n % 0x1_0000_0000_0000_0000
  }

  lemma WrapIsModulo(n: nat)
    ensures Wrap32(n) == n % 0x1_0000_0000 && Wrap64(n) == n % 0x1_0000_0000_0000_0000
  {
  }

  // The longest allocation Rust allows: isize::MAX bytes.
  const MAX_LEN := 0x7fff_ffff_ffff_ffff

  // A byte vector that a program can hold.
  type Buffer = b: bytes | |b| <= MAX_LEN

  // A Rust `String`: its bytes are well-formed UTF-8.
  type Text = b: bytes | |b| <= MAX_LEN && ValidUtf8(b)

  // A 32-byte array: hashes, nonces, MACs and shared secrets.
  type Digest = b: bytes | |b| == 32 witness seq(32, _ => 0)

  datatype Endian = Little | Big

  lemma Associative(a: bytes, b: bytes, c: bytes)
    ensures (a + b) + c == a + (b + c)
  {
  }

  // ── Fixed-width integers ──────────────────────────────────────────────────

  ghost function Pow256(k: nat): (p: nat)
    ensures p > 0
  {
    if k == 0 then 1 else 256 * Pow256(k - 1)
  }

  lemma Pow256Values()
    ensures Pow256(4) == 0x1_0000_0000
    ensures Pow256(8) == 0x1_0000_0000_0000_0000
  {
    assert Pow256(2) == 0x1_0000;
    assert Pow256(4) == 0x1_0000_0000;
    assert Pow256(6) == 0x1_0000_0000_0000;
  }

  // The low k bytes of n.
  function IntBytes(e: Endian, n: nat, k: nat): (b: bytes)
    ensures |b| == k
  {
    if k == 0 then []
    else if e == Little then [n % 256] + IntBytes(e, n / 256, k - 1)
    else IntBytes(e, n / 256, k - 1) + [n % 256]
  }

  function IntValue(e: Endian, b: bytes): nat {
    if |b| == 0 then 0
    else if e == Little then b[0] + 256 * IntValue(e, b[1..])
    else b[|b| - 1] + 256 * IntValue(e, b[..|b| - 1])
  }

  // The least byte comes first or last.
  lemma LeastByte(n: nat, k: nat)
    requires k > 0
    ensures IntBytes(Little, n, k)[0] == n % 256 && IntBytes(Big, n, k)[k - 1] == n % 256
  {
  }

  // Writing then reading gives the number back when it fits in k bytes.
  lemma {:induction false} IntValueOfBytes(e: Endian, n: nat, k: nat)
    requires n < Pow256(k)
    ensures IntValue(e, IntBytes(e, n, k)) == n
  {
    if k > 0 {
      IntValueOfBytes(e, n / 256, k - 1);
      var b := IntBytes(e, n, k);
      if e == Little {
        assert b[1..] == IntBytes(e, n / 256, k - 1);
      } else {
        assert b[..k - 1] == IntBytes(e, n / 256, k - 1);
      }
    }
  }

  lemma SplitLowByte(low: byte, high: nat)
    ensures (low + 256 * high) % 256 == low && (low + 256 * high) / 256 == high
  {
  }

  // Reading then writing gives the bytes back.
  lemma BytesOfIntValue(e: Endian, b: bytes)
    ensures IntValue(e, b) < Pow256(|b|)
    ensures IntBytes(e, IntValue(e, b), |b|) == b
  {
    hide IntValue, IntBytes, Pow256;
    if e == Little {
      BytesOfLittle(b);
    } else {
      BytesOfBig(b);
    }
  }

  lemma {:induction false} BytesOfLittle(b: bytes)
    ensures IntValue(Little, b) < Pow256(|b|)
    ensures IntBytes(Little, IntValue(Little, b), |b|) == b
  {
    if |b| > 0 {
      BytesOfLittle(b[1..]);
      SplitLowByte(b[0], IntValue(Little, b[1..]));
      assert b == [b[0]] + b[1..];
    }
  }

  lemma {:induction false} BytesOfBig(b: bytes)
    ensures IntValue(Big, b) < Pow256(|b|)
    ensures IntBytes(Big, IntValue(Big, b), |b|) == b
  {
    if |b| > 0 {
      var low, high := b[|b| - 1], b[..|b| - 1];
      BytesOfBig(high);
      SplitLowByte(low, IntValue(Big, high));
      assert b == high + [low];
    }
  }

  // ── UTF-8 (section 4 of RFC 3629) ─────────────────────────────────────────

  predicate Continues(b: bytes, i: nat) {
    i < |b| && 0x80 <= b[i] <= 0xBF
  }

  predicate Within(b: bytes, i: nat, lo: int, hi: int) {
    i < |b| && lo <= b[i] <= hi
  }

  // Length of the well-formed character that b starts with; 0 if there is none.
  function CharLen(b: bytes): (n: nat)
    requires |b| > 0
    ensures n <= |b|
  {
    var x := b[0];
    if x < 0x80 then 1
    else if 0xC2 <= x <= 0xDF && Continues(b, 1) then 2
    else if ((x == 0xE0 && Within(b, 1, 0xA0, 0xBF)) || (0xE1 <= x <= 0xEC && Continues(b, 1)) ||
             (x == 0xED && Within(b, 1, 0x80, 0x9F)) || (0xEE <= x <= 0xEF && Continues(b, 1)))
            && Continues(b, 2) then 3
    else if ((x == 0xF0 && Within(b, 1, 0x90, 0xBF)) || (0xF1 <= x <= 0xF3 && Continues(b, 1)) ||
             (x == 0xF4 && Within(b, 1, 0x80, 0x8F)))
            && Continues(b, 2) && Continues(b, 3) then 4
    else 0
  }

  predicate ValidUtf8(b: bytes) {
    |b| == 0 || (CharLen(b) > 0 && ValidUtf8(b[CharLen(b)..]))
  }

  lemma {:induction false} AsciiIsUtf8(b: bytes)
    requires forall i :: 0 <= i < |b| ==> b[i] < 0x80
    ensures ValidUtf8(b)
  {
    if |b| > 0 {
      AsciiIsUtf8(b[1..]);
    }
  }

  // ── Literals and hexadecimal ──────────────────────────────────────────────

  // The bytes of an ASCII literal.
  function Ascii(s: string): (b: bytes)
    ensures |b| == |s|
  {
    seq(|s|, i requires 0 <= i < |s| => s[i] as int % 128)
  }

  function HexDigit(n: int): (d: byte)
    requires 0 <= n < 16
    ensures d < 0x80
  {
    if n < 10 then 48 + n else 87 + n
  }

  // Lower-case hexadecimal, two characters a byte.
  function Hex(d: Digest): (t: Text)
    ensures |t| == 64
  {
    var t := seq(64, i requires 0 <= i < 64 => HexDigit(if i % 2 == 0 then d[i / 2] / 16 else d[i / 2] % 16));
    AsciiIsUtf8(t);
    t
  }

  lemma HexDigitSpelling(n: int)
    requires 0 <= n < 16
    ensures HexDigit(n) == "0123456789abcdef"[n] as int
  {
  }

  // Each byte is spelt by its high and its low digit.
  lemma HexSpelling(d: Digest, i: nat)
    requires i < 32
    ensures Hex(d)[2 * i] == HexDigit(d[i] / 16) && Hex(d)[2 * i + 1] == HexDigit(d[i] % 16)
  {
    hide HexDigit, ValidUtf8;
  }

  lemma HexInjective(d1: Digest, d2: Digest)
    requires Hex(d1) == Hex(d2)
    ensures d1 == d2
  {
    forall i | 0 <= i < 32
      ensures d1[i] == d2[i]
    {
      assert Hex(d1)[2 * i] == Hex(d2)[2 * i];
      assert Hex(d1)[2 * i + 1] == Hex(d2)[2 * i + 1];
    }
  }
}
