/** The bitwise operators on unsigned words, bit by bit, for words seen as natural numbers. */
module Bits {

  function Or(a: nat, b: nat): nat {
    if a == 0 then b
    else if b == 0 then a
    else (if a % 2 == 1 || b % 2 == 1 then 1 else 0) + 2 * Or(a / 2, b / 2)
  }

  function And(a: nat, b: nat): nat {
    if a == 0 || b == 0 then 0
    else (if a % 2 == 1 && b % 2 == 1 then 1 else 0) + 2 * And(a / 2, b / 2)
  }

  lemma OrBit(d: nat, x: nat, y: nat)
    requires d < 2
    ensures Or(d + 2 * x, 2 * y) == d + 2 * Or(x, y)
  {
  }

  lemma OrPair(d: nat, x: nat, y: nat)
    requires d < 4
    ensures Or(d + 4 * x, 4 * y) == d + 4 * Or(x, y)
  {
    OrBit(d % 2, d / 2 + 2 * x, 2 * y);
    OrBit(d / 2, x, y);
  }

  /** Low digits pass through an "or" with something shifted above them. */
  lemma OrNibble(d: nat, x: nat, y: nat)
    requires d < 16
    ensures Or(d + 16 * x, 16 * y) == d + 16 * Or(x, y)
  {
    OrPair(d % 4, d / 4 + 4 * x, 4 * y);
    OrPair(d / 4, x, y);
  }

  lemma OrByte(d: nat, x: nat, y: nat)
    requires d < 256
    ensures Or(d + 256 * x, 256 * y) == d + 256 * Or(x, y)
  {
    OrNibble(d % 16, d / 16 + 16 * x, 16 * y);
    OrNibble(d / 16, x, y);
  }

  lemma AndBit(d: nat, x: nat, m: nat)
    requires d < 2
    ensures And(d + 2 * x, 1 + 2 * m) == d + 2 * And(x, m)
  {
  }

  lemma AndPair(d: nat, x: nat, m: nat)
    requires d < 4
    ensures And(d + 4 * x, 3 + 4 * m) == d + 4 * And(x, m)
  {
    AndBit(d % 2, d / 2 + 2 * x, 1 + 2 * m);
    AndBit(d / 2, x, m);
  }

  /** A mask of ones keeps the low digits. */
  lemma AndNibble(d: nat, x: nat, m: nat)
    requires d < 16
    ensures And(d + 16 * x, 15 + 16 * m) == d + 16 * And(x, m)
  {
    AndPair(d % 4, d / 4 + 4 * x, 3 + 4 * m);
    AndPair(d / 4, x, m);
  }

  lemma AndByte(d: nat, x: nat)
    requires d < 256
    ensures And(d + 256 * x, 255) == d
  {
    AndNibble(d % 16, d / 16 + 16 * x, 15);
    AndNibble(d / 16, x, 0);
  }

  function Xor(a: nat, b: nat): nat {
    if a == 0 then b
    else if b == 0 then a
    else (if a % 2 == b % 2 then 0 else 1) + 2 * Xor(a / 2, b / 2)
  }

  lemma XorBits(a: nat, b: nat)
    ensures Xor(a, b) / 2 == Xor(a / 2, b / 2)
    ensures Xor(a, b) % 2 == if a % 2 == b % 2 then 0 else 1
  {
  }

  lemma {:induction false} XorUndo(a: nat, b: nat)
    ensures Xor(Xor(a, b), b) == a
    decreases a + b
  {
    if a + b > 0 {
      XorBits(a, b);
      XorBits(Xor(a, b), b);
      XorUndo(a / 2, b / 2);
    }
  }

  lemma {:induction false} XorCommutes(a: nat, b: nat)
    ensures Xor(a, b) == Xor(b, a)
    decreases a + b
  {
    if a + b > 0 {
      XorBits(a, b);
      XorBits(b, a);
      XorCommutes(a / 2, b / 2);
    }
  }

  lemma DivideTwice(x: nat)
    ensures x / 2 / 2 == x / 4 && x / 4 / 4 == x / 16 && x / 16 / 16 == x / 256
  {
  }

  lemma XorPair(a: nat, b: nat)
    ensures Xor(a, b) / 4 == Xor(a / 4, b / 4)
  {
    XorBits(a, b);
    XorBits(a / 2, b / 2);
    DivideTwice(a);
    DivideTwice(b);
    DivideTwice(Xor(a, b));
  }

  lemma XorNibble(a: nat, b: nat)
    ensures Xor(a, b) / 16 == Xor(a / 16, b / 16)
  {
    XorPair(a, b);
    XorPair(a / 4, b / 4);
    DivideTwice(a);
    DivideTwice(b);
    DivideTwice(Xor(a, b));
  }

  /** A byte only reaches the low eight bits. */
  lemma XorHighBits(a: nat, b: nat)
    requires b < 256
    ensures Xor(a, b) / 256 == a / 256
  {
    XorNibble(a, b);
    XorNibble(a / 16, b / 16);
    DivideTwice(a);
    DivideTwice(b);
    DivideTwice(Xor(a, b));
    assert b / 256 == 0;
  }
}
