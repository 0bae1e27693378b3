/** A 32-bit register seen as a polynomial over GF(2): halving, doubling, exclusive
    or and single bits. Later proofs use the laws below and not the bits. */
module CrcRegister {

  function Xor(x: bv32, y: bv32): bv32 {
    x ^ y
  }

  function Odd(x: bv32): bool {
    x & 1 == 1
  }

  function Half(x: bv32): bv32 {
    x >> 1
  }

  function Double(x: bv32): bv32 {
    x << 1
  }

  /** Bit `i`, counted from the least significant one. */
  function Bit(x: bv32, i: nat): bool {
    if i == 0 then Odd(x) else Bit(Half(x), i - 1)
  }

  /** No bit at position `n` or above is set. */
  predicate Short(x: bv32, n: nat) {
    if n == 0 then x == 0 else Short(Half(x), n - 1)
  }

  // ---------- Laws of exclusive or ----------

  lemma XorComm(x: bv32, y: bv32)
    ensures Xor(x, y) == Xor(y, x)
  {
  }

  lemma XorAssoc(x: bv32, y: bv32, z: bv32)
    ensures Xor(Xor(x, y), z) == Xor(x, Xor(y, z))
  {
  }

  lemma XorZero(x: bv32)
    ensures Xor(x, 0) == x && Xor(0, x) == x && Xor(x, x) == 0
  {
  }

  lemma XorSwap(w: bv32, x: bv32, y: bv32, z: bv32)
    ensures Xor(Xor(w, x), Xor(y, z)) == Xor(Xor(w, y), Xor(x, z))
  {
    hide *;
    XorAssoc(w, x, Xor(y, z));
    XorAssoc(x, y, z);
    XorComm(x, y);
    XorAssoc(y, x, z);
    XorAssoc(w, y, Xor(x, z));
  }

  lemma XorCancels(x: bv32, y: bv32, z: bv32)
    requires Xor(x, z) == Xor(y, z)
    ensures x == y
  {
    hide *;
    XorAssoc(x, z, z);
    XorAssoc(y, z, z);
    XorZero(x);
    XorZero(y);
    XorZero(z);
  }

  lemma XorCancelsLeft(x: bv32, y: bv32, z: bv32)
    requires Xor(z, x) == Xor(z, y)
    ensures x == y
  {
    hide *;
    XorComm(x, z);
    XorComm(y, z);
    XorCancels(x, y, z);
  }

  // ---------- Halving and doubling ----------

  lemma XorHalves(x: bv32, y: bv32)
    ensures Half(Xor(x, y)) == Xor(Half(x), Half(y))
  {
  }

  lemma XorOdd(x: bv32, y: bv32)
    ensures Odd(Xor(x, y)) == (Odd(x) != Odd(y))
  {
  }

  lemma HalfAndOddDetermine(x: bv32, y: bv32)
    requires Half(x) == Half(y) && Odd(x) == Odd(y)
    ensures x == y
  {
  }

  lemma DoubleHalves(x: bv32)
    requires x < 0x8000_0000
    ensures Half(Double(x)) == x && !Odd(Double(x))
  {
  }

  // ---------- Bits ----------

  lemma {:induction false} XorBit(x: bv32, y: bv32, i: nat)
    ensures Bit(Xor(x, y), i) == (Bit(x, i) != Bit(y, i))
    decreases i
  {
    hide Xor, Odd, Half;
    XorOdd(x, y);
    XorHalves(x, y);
    if i > 0 {
      XorBit(Half(x), Half(y), i - 1);
    }
  }

  lemma {:induction false} ShortBit(x: bv32, n: nat, i: nat)
    requires Short(x, n) && n <= i
    ensures !Bit(x, i)
    decreases i
  {
    ZeroIsShort(i);
    if n > 0 {
      ShortBit(Half(x), n - 1, i - 1);
    }
  }

  lemma {:induction false} ZeroIsShort(n: nat)
    ensures Short(0, n) && !Bit(0, n)
    decreases n
  {
    if n > 0 {
      ZeroIsShort(n - 1);
    }
  }

  lemma {:induction false} XorShort(x: bv32, y: bv32, n: nat)
    requires Short(x, n) && Short(y, n)
    ensures Short(Xor(x, y), n)
    decreases n
  {
    hide Xor, Odd, Half;
    if n == 0 {
      XorZero(x);
    } else {
      XorHalves(x, y);
      XorShort(Half(x), Half(y), n - 1);
    }
  }

  lemma {:induction false} LongerIsShort(x: bv32, m: nat, n: nat)
    requires Short(x, m) && m <= n
    ensures Short(x, n)
    decreases n
  {
    ZeroIsShort(n);
    if m > 0 {
      LongerIsShort(Half(x), m - 1, n - 1);
    }
  }

  function Shr4(x: bv32): bv32 {
    x >> 4
  }

  function Shr16(x: bv32): bv32 {
    x >> 16
  }

  lemma FourHalves(x: bv32)
    ensures Half(Half(Half(Half(x)))) == Shr4(x)
  {
  }

  lemma FourShifts(x: bv32)
    ensures Shr4(Shr4(Shr4(Shr4(x)))) == Shr16(x)
  {
  }

  lemma ShortByFour(x: bv32, n: nat)
    requires n >= 4
    ensures Short(x, n) <==> Short(Shr4(x), n - 4)
  {
    hide Half, Shr4;
    FourHalves(x);
    assert Short(x, n) <==> Short(Half(x), n - 1);
    assert Short(Half(x), n - 1) <==> Short(Half(Half(x)), n - 2);
    assert Short(Half(Half(x)), n - 2) <==> Short(Half(Half(Half(x))), n - 3);
    assert Short(Half(Half(Half(x))), n - 3) <==> Short(Half(Half(Half(Half(x)))), n - 4);
  }

  lemma ShortBySixteen(x: bv32, n: nat)
    requires n >= 16
    ensures Short(x, n) <==> Short(Shr16(x), n - 16)
  {
    hide *;
    ShortByFour(x, n);
    ShortByFour(Shr4(x), n - 4);
    ShortByFour(Shr4(Shr4(x)), n - 8);
    ShortByFour(Shr4(Shr4(Shr4(x))), n - 12);
    FourShifts(x);
  }

  /** Shortness is a bound on the number, at the widths the checks use. */
  lemma ShortMeansSmall(x: bv32)
    ensures Short(x, 8) <==> x < 0x100
    ensures Short(x, 16) <==> x < 0x1_0000
    ensures Short(x, 32)
  {
    ShortMeansSmall8(x);
    ShortMeansSmall16(x);
    ShortMeansSmall32(x);
  }

  lemma ShortMeansSmall8(x: bv32)
    ensures Short(x, 8) <==> x < 0x100
  {
    hide Half;
    ShortByFour(x, 8);
    ShortByFour(Shr4(x), 4);
  }

  lemma ShortMeansSmall16(x: bv32)
    ensures Short(x, 16) <==> x < 0x1_0000
  {
    hide Half;
    ShortBySixteen(x, 16);
  }

  lemma ShortMeansSmall32(x: bv32)
    ensures Short(x, 32)
  {
    hide Half;
    ShortBySixteen(x, 32);
    ShortBySixteen(Shr16(x), 16);
  }

  const WIDTH: nat := 32

  lemma ShortIsSmall(x: bv32, n: nat)
    requires Short(x, n) && n < WIDTH
    ensures x < 0x8000_0000
  {
    hide Shr4, Shr16, Half;
    LongerIsShort(x, n, 31);
    ShortBySixteen(x, 31);
    ShortByFour(Shr16(x), 15);
    ShortByFour(Shr4(Shr16(x)), 11);
    ShortByFour(Shr4(Shr4(Shr16(x))), 7);
    LastHalves(x);
  }

  lemma LastHalves(x: bv32)
    requires Short(Shr4(Shr4(Shr4(Shr16(x)))), 3)
    ensures x < 0x8000_0000
  {
    var z := Shr4(Shr4(Shr4(Shr16(x))));
    assert Short(Half(z), 2) && Short(Half(Half(z)), 1) && Short(Half(Half(Half(z))), 0);
    assert Half(Half(Half(z))) == 0;
  }
}
