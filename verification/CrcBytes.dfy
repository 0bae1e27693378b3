/** Division by whole bytes: eight steps at once, which is what a table entry holds. */
module CrcBytes {
  import opened CrcRegister
  import opened CrcTheory
  import opened CrcMirror

  const BYTE_BITS: nat := 8

  // ---------- Reflected ----------

  function Lowest(x: bv32): bv32 {
    x & 0xFF
  }

  function Shr8(x: bv32): bv32 {
    x >> 8
  }

  function Shl8(x: bv32): bv32 {
    Double(Double(Double(Double(Double(Double(Double(Double(x))))))))
  }

  lemma SplitLowest(x: bv32)
    ensures x == Xor(Lowest(x), Shl8(Shr8(x)))
  {
  }

  lemma DoubleShifts(p: bv32, v: bv32)
    requires v < 0x8000_0000
    ensures Shift(p, Double(v)) == v
  {
    hide Half, Odd, Double, Xor;
    DoubleHalves(v);
  }

  lemma DoublesStaySmall(x: bv32)
    ensures var v := Shr8(x);
      && v < 0x8000_0000 && Double(v) < 0x8000_0000 && Double(Double(v)) < 0x8000_0000
      && Double(Double(Double(v))) < 0x8000_0000 && Double(Double(Double(Double(v)))) < 0x8000_0000
      && Double(Double(Double(Double(Double(v))))) < 0x8000_0000
      && Double(Double(Double(Double(Double(Double(v)))))) < 0x8000_0000
      && Double(Double(Double(Double(Double(Double(Double(v))))))) < 0x8000_0000
  {
  }

  /** Eight steps drop eight zero bits. */
  lemma ShiftsUndoShl8(p: bv32, x: bv32)
    ensures Shifts(p, Shl8(Shr8(x)), BYTE_BITS) == Shr8(x)
  {
    hide Double, Shr8, Shift;
    DoublesStaySmall(x);
    var v0 := Shr8(x);
    var v1 := Double(v0);
    var v2 := Double(v1);
    var v3 := Double(v2);
    var v4 := Double(v3);
    var v5 := Double(v4);
    var v6 := Double(v5);
    var v7 := Double(v6);
    DoubleShifts(p, v0);
    DoubleShifts(p, v1);
    DoubleShifts(p, v2);
    DoubleShifts(p, v3);
    DoubleShifts(p, v4);
    DoubleShifts(p, v5);
    DoubleShifts(p, v6);
    DoubleShifts(p, v7);
  }

  lemma ValueOfByte(b: bv8)
    ensures Value(LsbFirst(b)) == b as bv32
  {
    hide Value, Xor;
    var s := LsbFirst(b);
    ValueOfEight(s);
    ByteOfBits(b);
  }

  function Eight(s: seq<bool>): bv32
    requires |s| == 8
  {
    Xor(Low(s[0]), Double(Xor(Low(s[1]), Double(Xor(Low(s[2]), Double(Xor(Low(s[3]), Double(
    Xor(Low(s[4]), Double(Xor(Low(s[5]), Double(Xor(Low(s[6]), Double(Xor(Low(s[7]), Double(0))))))))))))))))
  }

  lemma ValueOfEight(s: seq<bool>)
    requires |s| == 8
    ensures Value(s) == Eight(s)
  {
    hide Xor, Double, Low;
    ValueFrom(s, 7);
    ValueFrom(s, 6);
    ValueFrom(s, 5);
    ValueFrom(s, 4);
    ValueFrom(s, 3);
    ValueFrom(s, 2);
    ValueFrom(s, 1);
    assert s[8..] == [];
  }

  lemma ValueFrom(s: seq<bool>, i: nat)
    requires i < |s|
    ensures Value(s[i..]) == Xor(Low(s[i]), Double(Value(s[i + 1..])))
  {
    hide Xor, Double, Low;
    assert s[i..][1..] == s[i + 1..];
  }

  lemma ByteOfBits(b: bv8)
    ensures Eight(LsbFirst(b)) == b as bv32
  {
  }

  lemma Shr8IgnoresByte(r: bv32, b: bv8)
    ensures Shr8(Xor(r, b as bv32)) == Shr8(r)
  {
  }

  /** Dividing by one byte: the low byte goes through eight steps, the rest moves down. */
  lemma ByteStep(p: bv32, r: bv32, b: bv8)
    ensures Divided(p, r, LsbFirst(b)) == Xor(Shifts(p, Lowest(Xor(r, b as bv32)), BYTE_BITS), Shr8(r))
  {
    hide Xor, Shifts, Divided, LsbFirst, Value, Shr8, Shl8, Lowest;
    var x := Xor(r, b as bv32);
    DividedByValue(p, r, LsbFirst(b));
    ValueOfByte(b);
    SplitLowest(x);
    ShiftsXor(p, Lowest(x), Shl8(Shr8(x)), BYTE_BITS);
    ShiftsUndoShl8(p, x);
    Shr8IgnoresByte(r, b);
  }

  lemma DividedByOneMore(p: bv32, r: bv32, data: seq<bv8>, b: bv8)
    ensures Divided(p, r, LsbBits(data + [b])) ==
            (var c := Divided(p, r, LsbBits(data)); Xor(Shifts(p, Lowest(Xor(c, b as bv32)), BYTE_BITS), Shr8(c)))
  {
    hide Xor, Shifts, Divided, LsbFirst, Shr8, Lowest;
    LsbBitsSum(data, [b]);
    assert [b][1..] == [] && LsbBits([b]) == LsbFirst(b) + [] == LsbFirst(b);
    DividedSum(p, r, LsbBits(data), LsbFirst(b));
    ByteStep(p, Divided(p, r, LsbBits(data)), b);
  }

  // ---------- Plain, in the mirror ----------

  function Highest(x: bv32): bv32 {
    x & 0xFF00_0000
  }

  function Up8(x: bv32): bv32 {
    x << 8
  }

  function Up24(b: bv8): bv32 {
    (b as bv32) << 24
  }

  lemma Rev32OfByte(b: bv8)
    ensures Rev32(Up24(b)) == Rev8(b) as bv32
  {
  }

  lemma Rev32OfParts(x: bv32)
    ensures Lowest(Rev32(x)) == Rev32(Highest(x))
    ensures Shr8(Rev32(x)) == Rev32(Up8(x))
  {
  }

  lemma MsbByteStep(p: bv32, r: bv32, b: bv8)
    ensures MsbDivided(p, r, MsbFirst(b)) == Xor(MsbShifts(p, Highest(Xor(r, Up24(b))), BYTE_BITS), Up8(r))
  {
    hide *;
    var x := Xor(r, Up24(b));
    Mirrored(p, r, MsbFirst(b));
    LsbFirstOfRev8(b);
    ByteStep(Rev32(p), Rev32(r), Rev8(b));
    Rev32OfByte(b);
    Rev32Xor(r, Up24(b));
    Rev32OfParts(x);
    Rev32OfParts(r);
    MirroredShifts(p, Highest(x), BYTE_BITS);
    Rev32Xor(MsbShifts(p, Highest(x), BYTE_BITS), Up8(r));
    Rev32Twice(MsbDivided(p, r, MsbFirst(b)));
    Rev32Twice(Xor(MsbShifts(p, Highest(x), BYTE_BITS), Up8(r)));
  }

  lemma {:induction false} MsbDividedSum(p: bv32, r: bv32, a: seq<bool>, b: seq<bool>)
    ensures MsbDivided(p, r, a + b) == MsbDivided(p, MsbDivided(p, r, a), b)
    decreases |a|
  {
    hide MsbShift, High, Xor;
    if a == [] {
      assert a + b == b;
    } else {
      assert (a + b)[1..] == a[1..] + b;
      MsbDividedSum(p, MsbShift(p, Xor(r, High(a[0]))), a[1..], b);
    }
  }

  lemma MsbDividedByOneMore(p: bv32, r: bv32, data: seq<bv8>, b: bv8)
    ensures MsbDivided(p, r, MsbBits(data + [b])) ==
            (var c := MsbDivided(p, r, MsbBits(data)); Xor(MsbShifts(p, Highest(Xor(c, Up24(b))), BYTE_BITS), Up8(c)))
  {
    hide Xor, MsbShifts, MsbDivided, MsbFirst, Up8, Up24, Highest;
    MsbBitsSum(data, [b]);
    assert [b][1..] == [] && MsbBits([b]) == MsbFirst(b) + [] == MsbFirst(b);
    MsbDividedSum(p, r, MsbBits(data), MsbFirst(b));
    MsbByteStep(p, MsbDivided(p, r, MsbBits(data)), b);
  }
}
