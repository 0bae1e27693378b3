/** What the checks promise: every burst no longer than the check is detected, and
    the reflected checks are the plain ones seen in a mirror. */
module CrcGuarantees {
  import opened CrcRegister
  import opened CrcTheory
  import opened CrcMirror
  import opened CrcBytes
  import opened Checksum

  // ---------- Messages and their bits ----------

  lemma LsbFirstDetermines(a: bv8, b: bv8)
    requires LsbFirst(a) == LsbFirst(b)
    ensures a == b
  {
    hide LsbFirst, Value;
    ValueOfByte(a);
    ValueOfByte(b);
    SameBytes(a, b);
  }

  lemma SameBytes(a: bv8, b: bv8)
    requires a as bv32 == b as bv32
    ensures a == b
  {
  }

  lemma {:induction false} LsbBitsDetermine(a: seq<bv8>, b: seq<bv8>)
    requires |a| == |b| && LsbBits(a) == LsbBits(b)
    ensures a == b
    decreases |a|
  {
    hide LsbFirst;
    if a != [] {
      assert LsbFirst(a[0]) == LsbBits(a)[..8] && LsbFirst(b[0]) == LsbBits(b)[..8];
      assert LsbBits(a[1..]) == LsbBits(a)[8..] && LsbBits(b[1..]) == LsbBits(b)[8..];
      LsbFirstDetermines(a[0], b[0]);
      LsbBitsDetermine(a[1..], b[1..]);
      assert a == [a[0]] + a[1..] && b == [b[0]] + b[1..];
    }
  }

  lemma RevBytesTwice(data: seq<bv8>)
    ensures RevBytes(RevBytes(data)) == data
  {
    hide Rev8;
    forall i | 0 <= i < |data|
      ensures Rev8(Rev8(data[i])) == data[i]
    {
      Rev8Twice(data[i]);
    }
  }

  lemma MsbBitsDetermine(a: seq<bv8>, b: seq<bv8>)
    requires |a| == |b| && MsbBits(a) == MsbBits(b)
    ensures a == b
  {
    hide RevBytes, LsbBits, MsbBits;
    MsbBitsOfRevBytes(a);
    MsbBitsOfRevBytes(b);
    LsbBitsDetermine(RevBytes(a), RevBytes(b));
    RevBytesTwice(a);
    RevBytesTwice(b);
  }

  // ---------- The polynomials ----------

  lemma BitByFour(x: bv32, i: nat)
    requires i >= 4
    ensures Bit(x, i) == Bit(Shr4(x), i - 4)
  {
    hide Half, Shr4, Odd;
    FourHalves(x);
    assert Bit(x, i) == Bit(Half(x), i - 1);
    assert Bit(Half(x), i - 1) == Bit(Half(Half(x)), i - 2);
    assert Bit(Half(Half(x)), i - 2) == Bit(Half(Half(Half(x))), i - 3);
    assert Bit(Half(Half(Half(x))), i - 3) == Bit(Half(Half(Half(Half(x)))), i - 4);
  }

  lemma Bit3(x: bv32)
    ensures Bit(x, 3) == (x & 8 != 0)
  {
    assert Bit(x, 3) == Bit(Half(x), 2) == Bit(Half(Half(x)), 1) == Bit(Half(Half(Half(x))), 0);
  }

  lemma Shr4Bits(x: bv32)
    ensures Shr4(x) & 8 != 0 <==> x & 0x80 != 0
    ensures Shr4(Shr4(Shr4(x))) & 8 != 0 <==> x & 0x8000 != 0
    ensures Shr4(Shr4(Shr4(Shr16(x)))) & 8 != 0 <==> x & 0x8000_0000 != 0
  {
  }

  /** The top bits of the three register widths. */
  lemma TopBits(x: bv32)
    ensures Bit(x, 7) == (x & 0x80 != 0)
    ensures Bit(x, 15) == (x & 0x8000 != 0)
    ensures Bit(x, 31) == (x & 0x8000_0000 != 0)
  {
    hide *;
    Shr4Bits(x);
    BitByFour(x, 7);
    Bit3(Shr4(x));
    BitByFour(x, 15);
    BitByFour(Shr4(x), 11);
    BitByFour(Shr4(Shr4(x)), 7);
    Bit3(Shr4(Shr4(Shr4(x))));
    BitByFour(x, 31);
    BitByFour(Shr4(x), 27);
    BitByFour(Shr4(Shr4(x)), 23);
    BitByFour(Shr4(Shr4(Shr4(x))), 19);
    FourShifts(x);
    BitByFour(Shr16(x), 15);
    BitByFour(Shr4(Shr16(x)), 11);
    BitByFour(Shr4(Shr4(Shr16(x))), 7);
    Bit3(Shr4(Shr4(Shr4(Shr16(x)))));
  }

  lemma MirroredLifts8(x: bv8)
    ensures Rev32(Lift8(x)) < 0x100 && (Rev32(Lift8(x)) & 0x80 != 0 <==> x & 1 != 0)
  {
  }

  lemma MirroredLifts16(x: bv16)
    ensures Rev32(Lift16(x)) < 0x1_0000 && (Rev32(Lift16(x)) & 0x8000 != 0 <==> x & 1 != 0)
  {
  }

  lemma MirroredTop(x: bv32)
    ensures Rev32(x) & 0x8000_0000 != 0 <==> x & 1 != 0
  {
  }

  /** A polynomial with a constant term has the degree its register can hold. */
  lemma MirroredDegrees(p8: bv8, p16: bv16, p32: bv32)
    ensures p8 & 1 != 0 ==> Degree(Rev32(Lift8(p8)), 8)
    ensures p16 & 1 != 0 ==> Degree(Rev32(Lift16(p16)), 16)
    ensures p32 & 1 != 0 ==> Degree(Rev32(p32), 32)
  {
    hide Rev32, Short, Bit, Lift8, Lift16;
    var x, y, z := Rev32(Lift8(p8)), Rev32(Lift16(p16)), Rev32(p32);
    MirroredLifts8(p8);
    MirroredLifts16(p16);
    MirroredTop(p32);
    ShortMeansSmall(x);
    ShortMeansSmall(y);
    ShortMeansSmall(z);
    TopBits(x);
    TopBits(y);
    TopBits(z);
  }

  /** The register of a narrow check has nothing outside its own bits. */
  lemma NarrowRegister8(x: bv32, y: bv32)
    requires Rev32(x) < 0x100 && Rev32(y) < 0x100 && High8(x) == High8(y)
    ensures x == y
  {
  }

  lemma NarrowRegister16(x: bv32, y: bv32)
    requires Rev32(x) < 0x1_0000 && Rev32(y) < 0x1_0000 && High16(x) == High16(y)
    ensures x == y
  {
  }

  lemma NarrowReflectedRegister16(x: bv32, y: bv32)
    requires x < 0x1_0000 && y < 0x1_0000 && Low16(x) == Low16(y)
    ensures x == y
  {
  }

  // ---------- Bursts ----------

  /** Two messages differ, but only inside `n` consecutive bits starting at bit `k`. */
  ghost predicate Burst(a: seq<bool>, b: seq<bool>, k: nat, n: nat) {
    && |a| == |b| && k + n <= |a|
    && a != b && a[..k] == b[..k] && a[k + n..] == b[k + n..]
  }

  lemma MsbBurst(p: bv32, w: nat, r: bv32, a: seq<bool>, b: seq<bool>, k: nat, n: nat)
    requires Degree(Rev32(p), w) && Short(Rev32(r), w) && n <= w && Burst(a, b, k, n)
    ensures MsbDivided(p, r, a) != MsbDivided(p, r, b)
    ensures Short(Rev32(MsbDivided(p, r, a)), w) && Short(Rev32(MsbDivided(p, r, b)), w)
  {
    hide Degree, Short, Rev32, MsbDivided, Divided;
    BurstDetected(Rev32(p), w, Rev32(r), a, b, k, n);
    Mirrored(p, r, a);
    Mirrored(p, r, b);
    DividedInjective(Rev32(p), w, Rev32(r), Rev32(r), a);
    DividedInjective(Rev32(p), w, Rev32(r), Rev32(r), b);
  }

  lemma PlainCrc8DetectsBursts(poly: bv8, init: bv8, a: seq<bv8>, b: seq<bv8>, k: nat, n: nat)
    requires poly & 1 != 0
    requires Burst(MsbBits(a), MsbBits(b), k, n) && n <= 8
    ensures PlainCrc8(poly, init, a) != PlainCrc8(poly, init, b)
  {
    hide Degree, Short, Rev32, MsbDivided, Burst, Lift8, High8, MsbBits;
    var p, r := Lift8(poly), Lift8(init);
    MirroredDegrees(poly, 1, 1);
    MirroredLifts8(init);
    ShortMeansSmall(Rev32(r));
    MsbBurst(p, 8, r, MsbBits(a), MsbBits(b), k, n);
    var x, y := MsbDivided(p, r, MsbBits(a)), MsbDivided(p, r, MsbBits(b));
    ShortMeansSmall(Rev32(x));
    ShortMeansSmall(Rev32(y));
    if High8(x) == High8(y) {
      NarrowRegister8(x, y);
    }
  }

  lemma PlainCrc16DetectsBursts(poly: bv16, init: bv16, a: seq<bv8>, b: seq<bv8>, k: nat, n: nat)
    requires poly & 1 != 0
    requires Burst(MsbBits(a), MsbBits(b), k, n) && n <= 16
    ensures PlainCrc16(poly, init, a) != PlainCrc16(poly, init, b)
  {
    hide Degree, Short, Rev32, MsbDivided, Burst, Lift16, High16, MsbBits;
    var p, r := Lift16(poly), Lift16(init);
    MirroredDegrees(1, poly, 1);
    MirroredLifts16(init);
    ShortMeansSmall(Rev32(r));
    MsbBurst(p, 16, r, MsbBits(a), MsbBits(b), k, n);
    var x, y := MsbDivided(p, r, MsbBits(a)), MsbDivided(p, r, MsbBits(b));
    ShortMeansSmall(Rev32(x));
    ShortMeansSmall(Rev32(y));
    if High16(x) == High16(y) {
      NarrowRegister16(x, y);
    }
  }

  lemma PlainCrc32DetectsBursts(poly: bv32, init: bv32, a: seq<bv8>, b: seq<bv8>, k: nat, n: nat)
    requires poly & 1 != 0
    requires Burst(MsbBits(a), MsbBits(b), k, n) && n <= 32
    ensures PlainCrc32(poly, init, a) != PlainCrc32(poly, init, b)
  {
    hide Degree, Short, Rev32, MsbDivided, Burst, MsbBits;
    MirroredDegrees(1, 1, poly);
    ShortMeansSmall(Rev32(init));
    MsbBurst(poly, 32, init, MsbBits(a), MsbBits(b), k, n);
  }

  lemma Rev32Raised(x: bv32)
    ensures Rev32(x << 16) == Rev32(x) >> 16
  {
  }

  lemma UpperHalf(x: bv32)
    ensures ((x >> 16) as bv16) as bv32 == x >> 16
  {
  }

  lemma GrownRev16(x: bv16)
    ensures Grow16(Rev16(x)) == Rev32(Lift16(x))
  {
    hide Rev32;
    Rev32Raised(x as bv32);
    UpperHalf(Rev32(x as bv32));
  }

  lemma LiftedRev16(x: bv16)
    ensures Rev32(Lift16(Rev16(x))) == Grow16(x)
  {
  }

  lemma GrownIsSmall(x: bv16)
    ensures Grow16(x) < 0x1_0000
  {
  }

  lemma Rev16IsMirroredLift(x: bv16)
    ensures Grow16(Rev16(x)) == Rev32(Lift16(x))
    ensures Rev32(Lift16(Rev16(x))) == Grow16(x)
    ensures Grow16(x) < 0x1_0000
  {
    hide *;
    GrownRev16(x);
    LiftedRev16(x);
    GrownIsSmall(x);
  }

  lemma ReflectedCrc16DetectsBursts(poly: bv16, init: bv16, a: seq<bv8>, b: seq<bv8>, k: nat, n: nat)
    requires poly & 1 != 0
    requires Burst(LsbBits(a), LsbBits(b), k, n) && n <= 16
    ensures ReflectedCrc16(poly, init, a) != ReflectedCrc16(poly, init, b)
  {
    hide Degree, Short, Rev32, Rev16, Divided, Lift16, Grow16, Low16, LsbBits;
    var p, r := Grow16(Rev16(poly)), Grow16(init);
    MirroredDegrees(1, poly, 1);
    Rev16IsMirroredLift(poly);
    Rev16IsMirroredLift(init);
    ShortMeansSmall(r);
    BurstDetected(p, 16, r, LsbBits(a), LsbBits(b), k, n);
    DividedInjective(p, 16, r, r, LsbBits(a));
    DividedInjective(p, 16, r, r, LsbBits(b));
    var x, y := Divided(p, r, LsbBits(a)), Divided(p, r, LsbBits(b));
    ShortMeansSmall(x);
    ShortMeansSmall(y);
    if Low16(x) == Low16(y) {
      NarrowReflectedRegister16(x, y);
    }
  }

  lemma ReflectedCrc32DetectsBursts(poly: bv32, init: bv32, a: seq<bv8>, b: seq<bv8>, k: nat, n: nat)
    requires poly & 1 != 0
    requires Burst(LsbBits(a), LsbBits(b), k, n) && n <= 32
    ensures ReflectedCrc32(poly, init, a) != ReflectedCrc32(poly, init, b)
  {
    hide Degree, Short, Rev32, Divided, LsbBits;
    MirroredDegrees(1, 1, poly);
    ShortMeansSmall(init);
    BurstDetected(Rev32(poly), 32, init, LsbBits(a), LsbBits(b), k, n);
  }

  /** Different messages have different bits, in either order, so `Burst` covers every
      pair of messages that agree outside the window. */
  lemma DifferentMessagesDifferInBits(a: seq<bv8>, b: seq<bv8>)
    requires |a| == |b| && a != b
    ensures MsbBits(a) != MsbBits(b) && LsbBits(a) != LsbBits(b)
  {
    hide MsbBits, LsbBits;
    if MsbBits(a) == MsbBits(b) {
      MsbBitsDetermine(a, b);
    }
    if LsbBits(a) == LsbBits(b) {
      LsbBitsDetermine(a, b);
    }
  }

  // ---------- Mirror symmetry ----------

  /** The reflected 16-bit check is the mirror image of the plain one, run on
      bit-reversed bytes from the mirrored start value. */
  lemma Crc16MirrorSymmetry(poly: bv16, init: bv16, data: seq<bv8>)
    ensures ReflectedCrc16(poly, init, data) == Rev16(PlainCrc16(poly, Rev16(init), RevBytes(data)))
  {
    hide Rev32, Rev16, Divided, MsbDivided, Lift16, Grow16, High16, Low16, LsbBits, MsbBits, RevBytes;
    var p, r := Lift16(poly), Lift16(Rev16(init));
    MsbBitsOfRevBytes(RevBytes(data));
    RevBytesTwice(data);
    Mirrored(p, r, LsbBits(data));
    Rev16IsMirroredLift(poly);
    Rev16IsMirroredLift(init);
    Rev16OfHigh(MsbDivided(p, r, LsbBits(data)));
  }

  lemma Rev16OfHigh(x: bv32)
    ensures Low16(Rev32(x)) == Rev16(High16(x))
  {
    hide Rev32;
    Rev32HalvesSwap(x);
    assert High16(x) as bv32 == x >> 16;
  }

  lemma Rev32HalvesSwap(x: bv32)
    ensures Rev32(x >> 16) == Rev32(x) << 16
  {
  }

  lemma Crc32MirrorSymmetry(poly: bv32, init: bv32, data: seq<bv8>)
    ensures ReflectedCrc32(poly, init, data) == Rev32(PlainCrc32(poly, Rev32(init), RevBytes(data)))
  {
    hide Rev32, Divided, MsbDivided, LsbBits, MsbBits, RevBytes;
    MsbBitsOfRevBytes(RevBytes(data));
    RevBytesTwice(data);
    Mirrored(poly, Rev32(init), LsbBits(data));
    Rev32Twice(init);
  }
}
