/**
 * 32-bit unsigned words (`uint32_t`) as naturals below 2^32, with the
 * wrap-around addition and subtraction of C's unsigned arithmetic written
 * out, and bitwise exclusive-or defined bit by bit.
 */
module Word32 {

  const MODULUS: nat := 0x1_0000_0000

  type u32 = x: nat | x < MODULUS

  /** `a + b` on uint32_t: the sum, less 2^32 when it carries out of 32 bits. */
  function Add(a: u32, b: u32): (r: u32)
    ensures r == if a + b < MODULUS then a + b else a + b - MODULUS
  {
    (a + b) % MODULUS
  }

  /** `a - b` on uint32_t: the difference modulo 2^32, never negative. */
  function Sub(a: u32, b: u32): (r: u32)
    ensures r == if b <= a then a - b else a - b + MODULUS
  {
    (a - b) % MODULUS
  }

  /** A size_t value (32 bits on the target) as a uint32 operand. */
  function FromNat(i: nat): (r: u32)
    ensures i < MODULUS ==> r == i
  {
    i % MODULUS
  }

  /** Adding the same word on both sides is injective. */
  lemma AddCancel(a: u32, b: u32, c: u32)
    ensures Add(a, c) == Add(b, c) ==> a == b
  {
  }

  function Pow2(k: nat): nat
  {
    if k == 0 then 1 else 2 * Pow2(k - 1)
  }

  lemma Pow2Word()
    ensures Pow2(32) == MODULUS
  {
    assert Pow2(8) == 0x100;
    assert Pow2(16) == 0x1_0000;
    assert Pow2(24) == 0x100_0000;
  }

  /** Bitwise exclusive-or on naturals: the low bits combine, the rest recurses. */
  function Xor(a: nat, b: nat): nat
    decreases a + b
  {
    if a == 0 && b == 0 then 0 else 2 * Xor(a / 2, b / 2) + (a + b) % 2
  }

  lemma XorBits(a: nat, b: nat)
    ensures Xor(a, b) % 2 == (a + b) % 2
    ensures Xor(a, b) / 2 == Xor(a / 2, b / 2)
  {
    if a != 0 || b != 0 {
      var x, r := Xor(a / 2, b / 2), (a + b) % 2;
      assert Xor(a, b) == 2 * x + r;
      assert (2 * x + r) / 2 == x;
    }
  }

  lemma {:induction false} XorZero(a: nat)
    ensures Xor(a, 0) == a
    decreases a
  {
    if a != 0 {
      XorZero(a / 2);
    }
  }

  lemma {:induction false} XorSelf(a: nat)
    ensures Xor(a, a) == 0
    decreases a
  {
    if a != 0 {
      XorSelf(a / 2);
    }
  }

  lemma {:induction false} XorComm(a: nat, b: nat)
    ensures Xor(a, b) == Xor(b, a)
    decreases a + b
  {
    if a != 0 || b != 0 {
      XorComm(a / 2, b / 2);
    }
  }

  /** Two naturals with the same low bit and the same upper bits are equal. */
  lemma SameBits(x: nat, y: nat)
    requires x % 2 == y % 2 && x / 2 == y / 2
    ensures x == y
  {
  }

  lemma SumOdd(a: nat, b: nat)
    ensures ((a + b) % 2 == 1) <==> ((a % 2 == 1) != (b % 2 == 1))
  {
  }

  /** The low bit of an exclusive-or is set exactly when the operands' low bits differ. */
  lemma XorLowBit(a: nat, b: nat)
    ensures (Xor(a, b) % 2 == 1) <==> ((a % 2 == 1) != (b % 2 == 1))
  {
    XorBits(a, b);
    SumOdd(a, b);
  }

  lemma XorAssocLowBit(a: nat, b: nat, c: nat)
    ensures Xor(Xor(a, b), c) % 2 == Xor(a, Xor(b, c)) % 2
  {
    XorLowBit(a, b);
    XorLowBit(b, c);
    XorLowBit(Xor(a, b), c);
    XorLowBit(a, Xor(b, c));
  }

  lemma {:induction false} XorAssoc(a: nat, b: nat, c: nat)
    ensures Xor(Xor(a, b), c) == Xor(a, Xor(b, c))
    decreases a + b + c
  {
    if a != 0 || b != 0 || c != 0 {
      var ab, bc := Xor(a, b), Xor(b, c);
      XorAssocLowBit(a, b, c);
      XorBits(a, b);
      XorBits(b, c);
      XorBits(ab, c);
      XorBits(a, bc);
      XorAssoc(a / 2, b / 2, c / 2);
      SameBits(Xor(ab, c), Xor(a, bc));
    }
  }

  /** Only equal operands cancel to zero. */
  lemma {:induction false} XorZeroOnlyEqual(a: nat, b: nat)
    ensures Xor(a, b) == 0 ==> a == b
    decreases a + b
  {
    if Xor(a, b) == 0 && (a != 0 || b != 0) {
      XorLowBit(a, b);
      assert Xor(a / 2, b / 2) == 0;
      XorZeroOnlyEqual(a / 2, b / 2);
      SameBits(a, b);
    }
  }

  /** Exclusive-or of two k-bit values is a k-bit value. */
  lemma {:induction false} XorBound(a: nat, b: nat, k: nat)
    requires a < Pow2(k) && b < Pow2(k)
    ensures Xor(a, b) < Pow2(k)
    decreases k
  {
    if k > 0 && (a != 0 || b != 0) {
      XorBound(a / 2, b / 2, k - 1);
    }
  }

  /** `a ^ b` on uint32_t. */
  function Xor32(a: u32, b: u32): (r: u32)
    ensures r == Xor(a, b)
  {
    Pow2Word();
    XorBound(a, b, 32);
    Xor(a, b)
  }

  /** Folding in a word and then the same word again gives back the start. */
  lemma XorUndo(x: nat, t: nat)
    ensures Xor(Xor(x, t), t) == x
  {
    XorAssoc(x, t, t);
    XorSelf(t);
    XorZero(x);
  }
}
