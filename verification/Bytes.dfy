// Bytes as unsigned 8-bit numbers, with the operations the C code applies to them: addition
// that wraps, exclusive or and complement.
module Bytes {

  type Byte = x: int | 0 <= x < 256

  // uint8_t addition
  function Plus(a: Byte, b: Byte): (r: Byte) { if a + b < 256 then a + b else a + b - 256 }

  function Zeros(n: nat): (z: seq<Byte>)
    ensures |z| == n
  {
    seq(n, _ => 0)
  }

  // uint8_t complement
  function Not(a: Byte): (r: Byte) { 255 - a }

  // Binary digit i of a, counted from the least significant one.
  predicate Digit(a: nat, i: nat) {
    if i == 0 then a % 2 == 1 else Digit(a / 2, i - 1)
  }

  predicate IsXor(a: Byte, b: Byte, r: Byte) {
    forall i | 0 <= i < 8 :: Digit(r, i) == (Digit(a, i) != Digit(b, i))
  }

  // Exclusive or: the byte whose digits are those on which a and b differ.
  function Xor(a: Byte, b: Byte): (r: Byte) {
    XorExists(a, b);
    XorUnique(a, b);
    var r: Byte :| IsXor(a, b, r);
    r
  }

  function Pow2(n: nat): nat { if n == 0 then 1 else 2 * Pow2(n - 1) }

  // A number below 2^n is determined by its n lowest digits.
  lemma {:induction false} DigitsDetermine(a: nat, b: nat, n: nat)
    requires a < Pow2(n) && b < Pow2(n)
    requires forall i | 0 <= i < n :: Digit(a, i) == Digit(b, i)
    ensures a == b
    decreases n
  {
    if n != 0 {
      assert Digit(a, 0) == Digit(b, 0);
      forall i | 0 <= i < n - 1
        ensures Digit(a / 2, i) == Digit(b / 2, i)
      {
        assert Digit(a, i + 1) == Digit(b, i + 1);
      }
      DigitsDetermine(a / 2, b / 2, n - 1);
    }
  }

  lemma {:induction false} NumberWithDigits(a: nat, b: nat, n: nat) returns (r: nat)
    ensures r < Pow2(n)
    ensures forall i | 0 <= i < n :: Digit(r, i) == (Digit(a, i) != Digit(b, i))
    decreases n
  {
    if n == 0 {
      r := 0;
    } else {
      var h := NumberWithDigits(a / 2, b / 2, n - 1);
      r := 2 * h + if a % 2 == b % 2 then 0 else 1;
      assert r / 2 == h && (r % 2 == 1) == (a % 2 != b % 2);
      forall i | 0 <= i < n
        ensures Digit(r, i) == (Digit(a, i) != Digit(b, i))
      {
        if i != 0 {
          assert Digit(h, i - 1) == (Digit(a / 2, i - 1) != Digit(b / 2, i - 1));
        }
      }
    }
  }

  lemma XorExists(a: Byte, b: Byte)
    ensures exists r: Byte :: IsXor(a, b, r)
  {
    var r := NumberWithDigits(a, b, 8);
    assert Pow2(8) == 256;
    assert IsXor(a, b, r);
  }

  lemma XorUnique(a: Byte, b: Byte)
    ensures forall r: Byte, s: Byte :: IsXor(a, b, r) && IsXor(a, b, s) ==> r == s
  {
    forall r: Byte, s: Byte | IsXor(a, b, r) && IsXor(a, b, s)
      ensures r == s
    {
      SameDigits(r, s);
    }
  }

  lemma SameDigits(a: Byte, b: Byte)
    requires forall i | 0 <= i < 8 :: Digit(a, i) == Digit(b, i)
    ensures a == b
  {
    assert Pow2(8) == 256;
    DigitsDetermine(a, b, 8);
  }

  lemma XorAssociates(a: Byte, b: Byte, c: Byte)
    ensures Xor(Xor(a, b), c) == Xor(a, Xor(b, c))
  {
    SameDigits(Xor(Xor(a, b), c), Xor(a, Xor(b, c)));
  }

  lemma XorCommutes(a: Byte, b: Byte)
    ensures Xor(a, b) == Xor(b, a)
  {
    SameDigits(Xor(a, b), Xor(b, a));
  }

  lemma {:induction false} ZeroDigits(i: nat)
    ensures !Digit(0, i)
    decreases i
  {
    if i != 0 { ZeroDigits(i - 1); }
  }

  lemma XorZero(z: Byte)
    ensures Xor(z, 0) == z && Xor(0, z) == z && Xor(z, z) == 0
  {
    forall i | 0 <= i < 8
      ensures !Digit(0, i)
    {
      ZeroDigits(i);
    }
    SameDigits(Xor(z, 0), z);
    SameDigits(Xor(0, z), z);
    SameDigits(Xor(z, z), 0);
  }

  // Applying the same byte twice gives the first operand back.
  lemma XorCancels(z: Byte, k: Byte)
    ensures Xor(Xor(z, k), k) == z
    ensures Xor(k, Xor(k, z)) == z
    ensures Xor(z, k) == Xor(k, z)
  {
    XorAssociates(z, k, k);
    XorAssociates(k, k, z);
    XorZero(k);
    XorZero(z);
    XorCommutes(z, k);
  }

  lemma {:induction false} OnesDigits(a: nat, n: nat, i: nat)
    requires a < Pow2(n) && i < n
    ensures Digit(Pow2(n) - 1 - a, i) == !Digit(a, i)
    decreases i
  {
    assert (Pow2(n) - 1 - a) / 2 == Pow2(n - 1) - 1 - a / 2;
    if i != 0 { OnesDigits(a / 2, n - 1, i - 1); }
  }

  // Complement commutes with exclusive or.
  lemma NotXor(a: Byte, b: Byte)
    ensures Not(Xor(a, b)) == Xor(a, Not(b)) && Not(Not(a)) == a
  {
    assert Pow2(8) == 256;
    forall i | 0 <= i < 8
      ensures Digit(Not(b), i) == !Digit(b, i) && Digit(Not(Xor(a, b)), i) == !Digit(Xor(a, b), i)
    {
      OnesDigits(b, 8, i);
      OnesDigits(Xor(a, b), 8, i);
    }
    SameDigits(Not(Xor(a, b)), Xor(a, Not(b)));
  }
}
