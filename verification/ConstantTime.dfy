/** Comparing two byte strings without stopping at the first difference (witan/src/handshake.rs,
    `constant_time_eq`). */
module ConstantTime {
  import opened Bytes

  // Eight bits as a word.
  function Pack(b7: bool, b6: bool, b5: bool, b4: bool, b3: bool, b2: bool, b1: bool, b0: bool): bv8 {
    (if b7 then 128 else 0) | (if b6 then 64 else 0) | (if b5 then 32 else 0) | (if b4 then 16 else 0) |
    (if b3 then 8 else 0) | (if b2 then 4 else 0) | (if b1 then 2 else 0) | (if b0 then 1 else 0)
  }

  // The byte without its k lowest bits.
  function High(x: byte, k: nat): (h: byte)
    ensures h <= x
  {
    if k == 0 then x else High(x, k - 1) / 2
  }

  predicate Bit(x: byte, k: nat) {
    High(x, k) % 2 == 1
  }

  // A byte as a word.
  function Bits(x: byte): bv8 {
    Pack(Bit(x, 7), Bit(x, 6), Bit(x, 5), Bit(x, 4), Bit(x, 3), Bit(x, 2), Bit(x, 1), Bit(x, 0))
  }

  lemma PackInjective(a7: bool, a6: bool, a5: bool, a4: bool, a3: bool, a2: bool, a1: bool, a0: bool,
                      b7: bool, b6: bool, b5: bool, b4: bool, b3: bool, b2: bool, b1: bool, b0: bool)
    requires Pack(a7, a6, a5, a4, a3, a2, a1, a0) == Pack(b7, b6, b5, b4, b3, b2, b1, b0)
    ensures a7 == b7 && a6 == b6 && a5 == b5 && a4 == b4 && a3 == b3 && a2 == b2 && a1 == b1 && a0 == b0
  {
  }

  lemma {:induction false} SameHigh(x: byte, y: byte, k: nat)
    requires k <= 8 && High(x, 8) == High(y, 8)
    requires forall i | 0 <= i < 8 :: Bit(x, i) == Bit(y, i)
    ensures High(x, k) == High(y, k)
    decreases 8 - k
  {
    if k < 8 {
      SameHigh(x, y, k + 1);
      assert Bit(x, k) == Bit(y, k);
    }
  }

  lemma HighShrinks(x: byte, k: nat)
    ensures k == 0 ==> High(x, k) == x
    ensures k > 0 ==> High(x, k) == High(x, k - 1) / 2
  {
  }

  lemma HighEmpties(x: byte)
    ensures High(x, 8) == 0
  {
    hide *;
    HighShrinks(x, 0);
    HighShrinks(x, 1);
    HighShrinks(x, 2);
    HighShrinks(x, 3);
    HighShrinks(x, 4);
    HighShrinks(x, 5);
    HighShrinks(x, 6);
    HighShrinks(x, 7);
    HighShrinks(x, 8);
  }

  lemma BitsInjective(x: byte, y: byte)
    requires Bits(x) == Bits(y)
    ensures x == y
  {
    PackInjective(Bit(x, 7), Bit(x, 6), Bit(x, 5), Bit(x, 4), Bit(x, 3), Bit(x, 2), Bit(x, 1), Bit(x, 0),
                  Bit(y, 7), Bit(y, 6), Bit(y, 5), Bit(y, 4), Bit(y, 3), Bit(y, 2), Bit(y, 1), Bit(y, 0));
    hide *;
    HighEmpties(x);
    HighEmpties(y);
    forall i | 0 <= i < 8
      ensures Bit(x, i) == Bit(y, i)
    {
    }
    SameHigh(x, y, 0);
    HighShrinks(x, 0);
    HighShrinks(y, 0);
  }

  lemma XorIsZero(diff: bv8, x: byte, y: byte)
    ensures diff | (Bits(x) ^ Bits(y)) == 0 <==> diff == 0 && x == y
  {
    hide Bits;
    OrXor(diff, Bits(x), Bits(y));
    if Bits(x) == Bits(y) {
      BitsInjective(x, y);
    }
  }

  lemma OrXor(diff: bv8, x: bv8, y: bv8)
    ensures diff | (x ^ y) == 0 <==> diff == 0 && x == y
  {
  }

  // Compares without stopping early: every byte is looked at, whatever the earlier ones were.
  method ConstantTimeEq(a: bytes, b: bytes) returns (eq: bool)
    ensures eq <==> a == b
  {
    if |a| != |b| {
      return false;
    }
    var diff: bv8 := 0;
    var i := 0;
    while i < |a|
      invariant 0 <= i <= |a|
      invariant diff == 0 <==> a[..i] == b[..i]
    {
      XorIsZero(diff, a[i], b[i]);
      assert a[..i + 1] == a[..i] + [a[i]] && b[..i + 1] == b[..i] + [b[i]];
      diff := diff | (Bits(a[i]) ^ Bits(b[i]));
      i := i + 1;
    }
    assert a[..i] == a && b[..i] == b;
    return diff == 0;
  }
}
