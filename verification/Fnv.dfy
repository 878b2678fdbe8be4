/**
  The 64-bit FNV-1a hash that the build scripts run over header names and contents: one
  exclusive or with a byte and one wrapping multiplication by the FNV prime per step.
*/
module Fnv {
  import opened Bits

  const MODULUS: nat := 0x1_0000_0000_0000_0000
  const PRIME: nat := 1099511628211
  const OFFSET_BASIS: nat := 14695981039346656037

  type Byte = b: nat | b < 256
  type Word = w: nat | w < 0x1_0000_0000_0000_0000

  function WrappingMul(a: Word): Word {
    (a * 1099511628211) % 0x1_0000_0000_0000_0000
  }

  function Step(hash: Word, byte: Byte): Word {
    XorBound(hash, byte);
    WrappingMul(Xor(hash, byte))
  }

  function HashBytes(hash: Word, bytes: seq<Byte>): Word
    decreases |bytes|
  {
    if bytes == [] then hash else HashBytes(Step(hash, bytes[0]), bytes[1..])
  }

  /** Both build scripts run this loop over one string of bytes. */
  method UpdateHash(hash: Word, bytes: seq<Byte>) returns (r: Word)
    ensures r == HashBytes(hash, bytes)
  {
    r := hash;
    for i := 0 to |bytes|
      invariant HashBytes(hash, bytes) == HashBytes(r, bytes[i..])
    {
      var byte := bytes[i];
      assert bytes[i..][0] == byte && bytes[i..][1..] == bytes[i + 1..];
      XorBound(r, byte);
      r := Xor(r, byte);
      r := (r * PRIME) % MODULUS;
    }
  }

  lemma XorBound(hash: Word, byte: Byte)
    ensures Xor(hash, byte) < 0x1_0000_0000_0000_0000
  {
    XorHighBits(hash, byte);
  }

  // ---------------------------------------------------------------- the step can be undone

  /** The prime is odd, so it has an inverse modulo 2^64. */
  lemma MulUndo(a: Word)
    ensures (WrappingMul(a) as nat * 0xce965057aff6957b) % 0x1_0000_0000_0000_0000 == a
  {
    var q: nat := (a * 1099511628211) / 0x1_0000_0000_0000_0000;
    var r: nat := WrappingMul(a);
    var t: int := (a as int) * 887285111055 - q * 0xce965057aff6957b;
    assert r * 0xce965057aff6957b == (a as int) + t * 0x1_0000_0000_0000_0000;
  }

  lemma StepInjectiveInState(h: Word, k: Word, byte: Byte)
    requires Step(h, byte) == Step(k, byte)
    ensures h == k
  {
    XorBound(h, byte);
    XorBound(k, byte);
    MulUndo(Xor(h, byte));
    MulUndo(Xor(k, byte));
    XorUndo(h, byte);
    XorUndo(k, byte);
  }

  lemma StepInjectiveInByte(h: Word, a: Byte, b: Byte)
    requires Step(h, a) == Step(h, b)
    ensures a == b
  {
    XorBound(h, a);
    XorBound(h, b);
    MulUndo(Xor(h, a));
    MulUndo(Xor(h, b));
    XorCommutes(h, a);
    XorCommutes(h, b);
    XorUndo(a, h);
    XorUndo(b, h);
  }

  /** Different states stay different under any common input. */
  lemma {:induction false} HashInjectiveInState(h: Word, k: Word, bytes: seq<Byte>)
    ensures HashBytes(h, bytes) == HashBytes(k, bytes) <==> h == k
    decreases |bytes|
  {
    if bytes != [] {
      HashInjectiveInState(Step(h, bytes[0]), Step(k, bytes[0]), bytes[1..]);
      if Step(h, bytes[0]) == Step(k, bytes[0]) { StepInjectiveInState(h, k, bytes[0]); }
    }
  }

  /** Changing one byte of a string changes its hash, from any state. */
  lemma {:induction false} OneByteChangesHash(h: Word, bytes: seq<Byte>, i: nat, b: Byte)
    requires i < |bytes| && bytes[i] != b
    ensures HashBytes(h, bytes[i := b]) != HashBytes(h, bytes)
    decreases |bytes|
  {
    var other := bytes[i := b];
    if i == 0 {
      assert other[1..] == bytes[1..];
      if Step(h, b) == Step(h, bytes[0]) { StepInjectiveInByte(h, b, bytes[0]); }
      HashInjectiveInState(Step(h, b), Step(h, bytes[0]), bytes[1..]);
    } else {
      assert other[1..] == bytes[1..][i - 1 := b];
      OneByteChangesHash(Step(h, bytes[0]), bytes[1..], i - 1, b);
    }
  }

  lemma Halves(h: nat, x: nat, y: nat, r: nat)
    requires Xor(h / 2, x / 2) == y && r == 2 * y + (if h % 2 == x % 2 then 0 else 1)
    ensures Xor(h, x) == r
  {
    XorBits(h, x);
  }

  lemma KnownXor()
    ensures Xor(14695981039346656037, 0x61) == 14695981039346656068
  {
    assert Xor(114812351869895750, 0) == 114812351869895750;
    Halves(229624703739791500, 1, 114812351869895750, 229624703739791501);
    Halves(459249407479583001, 3, 229624703739791501, 459249407479583002);
    Halves(918498814959166002, 6, 459249407479583002, 918498814959166004);
    Halves(1836997629918332004, 12, 918498814959166004, 1836997629918332008);
    Halves(3673995259836664009, 24, 1836997629918332008, 3673995259836664017);
    Halves(7347990519673328018, 48, 3673995259836664017, 7347990519673328034);
    Halves(14695981039346656037, 97, 7347990519673328034, 14695981039346656068);
  }

  lemma KnownProduct()
    ensures WrappingMul(14695981039346656068) == 0xaf63dc4c8601ec8c
  {
    assert 14695981039346656068 * 1099511628211 == 875948729822 * 0x1_0000_0000_0000_0000 + 0xaf63dc4c8601ec8c;
  }

  lemma OneByte(hash: Word, byte: Byte)
    ensures Xor(hash, byte) < 0x1_0000_0000_0000_0000 && HashBytes(hash, [byte]) == WrappingMul(Xor(hash, byte))
  {
    XorBound(hash, byte);
    assert [byte][1..] == [];
  }

  /** The published test value for the one-byte string "a". */
  lemma KnownAnswer()
    ensures HashBytes(OFFSET_BASIS, [0x61]) == 0xaf63dc4c8601ec8c
  {
    OneByte(OFFSET_BASIS, 0x61);
    KnownXor();
    KnownProduct();
  }
}
