/** Messages that carry their own check at the end: no burst goes unnoticed, wherever in
    the message or in the check it is. */
module CrcAppended {
  import opened CrcRegister
  import opened CrcTheory
  import opened CrcMirror
  import opened CrcBytes
  import opened CrcTables
  import opened Checksum
  import opened CrcGuarantees

  function LowByte(x: bv16): bv8 {
    (x & 0xFF) as bv8
  }

  function HighByte(x: bv16): bv8 {
    (x >> 8) as bv8
  }

  function Flip(b: bv8): bv8 {
    b ^ 0xFF
  }

  function Inverted(x: bv16): bv16 {
    x ^ 0xFFFF
  }

  /** The last two bytes are the inverted reflected check of the others, low byte first. */
  predicate CarriesCheck(poly: bv16, init: bv16, data: seq<bv8>) {
    |data| >= 2 &&
      var n := |data| - 2;
      var check := Inverted(ReflectedCrc16(poly, init, data[..n]));
      data[n] == LowByte(check) && data[n + 1] == HighByte(check)
  }

  // ---------- Dividing a message with its check leaves nothing ----------

  lemma FlippedCheck(r: bv16)
    ensures Flip(LowByte(Inverted(r))) == LowByte(r) && Flip(HighByte(Inverted(r))) == HighByte(r)
  {
  }

  lemma BytesOfRegister(x: bv32)
    requires x < 0x1_0000
    ensures Lowest(Xor(x, LowByte(Low16(x)) as bv32)) == 0
    ensures Lowest(Xor(Shr8(x), HighByte(Low16(x)) as bv32)) == 0
    ensures Shr8(Shr8(x)) == 0
  {
  }

  lemma ZeroStays(p: bv32, x: bv32)
    ensures Shifts(p, 0, BYTE_BITS) == 0 && Xor(0, x) == x
  {
    hide Shifts;
    ShiftsUndoShl8(p, 0);
    ZeroShifted();
    XorComm(0, x);
    XorZero(x);
  }

  lemma ZeroShifted()
    ensures Shl8(Shr8(0)) == 0 && Shr8(0) == 0
  {
  }

  lemma RegisterVanishes(p: bv32, x: bv32)
    requires x < 0x1_0000
    ensures Divided(p, x, LsbFirst(LowByte(Low16(x))) + LsbFirst(HighByte(Low16(x)))) == 0
  {
    hide *;
    var lo, hi := LowByte(Low16(x)), HighByte(Low16(x));
    BytesOfRegister(x);
    ByteStep(p, x, lo);
    ZeroStays(p, Shr8(x));
    ByteStep(p, Shr8(x), hi);
    ZeroStays(p, Shr8(Shr8(x)));
    DividedSum(p, x, LsbFirst(lo), LsbFirst(hi));
  }

  /** A message with the bits of its check inverted back. */
  function Sealed(data: seq<bv8>): (s: seq<bv8>)
    requires |data| >= 2
    ensures |s| == |data|
  {
    var n := |data| - 2;
    data[..n] + [Flip(data[n]), Flip(data[n + 1])]
  }

  lemma BitsOfTwo(a: seq<bv8>, b: bv8, c: bv8)
    ensures LsbBits(a + [b, c]) == LsbBits(a) + (LsbFirst(b) + LsbFirst(c))
  {
    hide LsbFirst;
    LsbBitsSum(a, [b, c]);
    assert [b, c][1..] == [c] && [c][1..] == [];
  }

  lemma SealedVanishes(poly: bv16, init: bv16, data: seq<bv8>)
    requires poly & 1 != 0 && CarriesCheck(poly, init, data)
    ensures Divided(Grow16(Rev16(poly)), Grow16(init), LsbBits(Sealed(data))) == 0
  {
    hide Degree, Short, Rev32, Rev16, Divided, Lift16, Grow16, Low16, LsbBits, LsbFirst;
    hide LowByte, HighByte, Flip, Inverted;
    var n := |data| - 2;
    var body, p, r := data[..n], Grow16(Rev16(poly)), Grow16(init);
    var x := Divided(p, r, LsbBits(body));
    MirroredDegrees(1, poly, 1);
    Rev16IsMirroredLift(poly);
    Rev16IsMirroredLift(init);
    ShortMeansSmall(r);
    DividedInjective(p, 16, r, r, LsbBits(body));
    ShortMeansSmall(x);
    FlippedCheck(Low16(x));
    RegisterVanishes(p, x);
    BitsOfTwo(body, Flip(data[n]), Flip(data[n + 1]));
    DividedSum(p, r, LsbBits(body), LsbFirst(Flip(data[n])) + LsbFirst(Flip(data[n + 1])));
  }

  // ---------- Bursts survive the inversion ----------

  function Negated(s: seq<bool>): (t: seq<bool>)
    ensures |t| == |s|
  {
    seq(|s|, i requires 0 <= i < |s| => !s[i])
  }

  lemma FlippedBits(b: bv8, c: bv8)
    ensures LsbFirst(Flip(b)) + LsbFirst(Flip(c)) == Negated(LsbFirst(b) + LsbFirst(c))
  {
    FlippedByte(b);
    FlippedByte(c);
  }

  lemma FlippedByte(b: bv8)
    ensures LsbFirst(Flip(b)) == Negated(LsbFirst(b))
  {
    hide Flip, Negated;
    FlippedMasks(b);
    NegatedEight(b & 0x01 != 0, b & 0x02 != 0, b & 0x04 != 0, b & 0x08 != 0,
                 b & 0x10 != 0, b & 0x20 != 0, b & 0x40 != 0, b & 0x80 != 0);
  }

  lemma NegatedEight(a: bool, b: bool, c: bool, d: bool, e: bool, f: bool, g: bool, h: bool)
    ensures Negated([a, b, c, d, e, f, g, h]) == [!a, !b, !c, !d, !e, !f, !g, !h]
  {
  }

  lemma FlippedMasks(b: bv8)
    ensures (Flip(b) & 0x01 != 0 <==> b & 0x01 == 0) && (Flip(b) & 0x02 != 0 <==> b & 0x02 == 0)
    ensures (Flip(b) & 0x04 != 0 <==> b & 0x04 == 0) && (Flip(b) & 0x08 != 0 <==> b & 0x08 == 0)
    ensures (Flip(b) & 0x10 != 0 <==> b & 0x10 == 0) && (Flip(b) & 0x20 != 0 <==> b & 0x20 == 0)
    ensures (Flip(b) & 0x40 != 0 <==> b & 0x40 == 0) && (Flip(b) & 0x80 != 0 <==> b & 0x80 == 0)
  {
  }

  lemma NegatedBurst(a: seq<bool>, b: seq<bool>, u: seq<bool>, v: seq<bool>, k: nat, n: nat)
    requires |a| == |b| && |u| == |v| && Burst(a + u, b + v, k, n)
    ensures Burst(a + Negated(u), b + Negated(v), k, n)
  {
    var s, t, s', t' := a + u, b + v, a + Negated(u), b + Negated(v);
    forall i | 0 <= i < |s|
      ensures s'[i] == t'[i] <==> s[i] == t[i]
    {
    }
    assert forall i | 0 <= i < k :: s[..k][i] == t[..k][i];
    assert forall i | 0 <= i < k :: s'[..k][i] == t'[..k][i];
    forall i | k + n <= i < |s|
      ensures s[i] == t[i]
    {
      assert s[k + n..][i - (k + n)] == t[k + n..][i - (k + n)];
    }
    assert s'[k + n..] == t'[k + n..];
  }

  lemma SealedBurst(a: seq<bv8>, b: seq<bv8>, k: nat, n: nat)
    requires |a| == |b| >= 2 && Burst(LsbBits(a), LsbBits(b), k, n)
    ensures Burst(LsbBits(Sealed(a)), LsbBits(Sealed(b)), k, n)
  {
    hide Burst, LsbBits, LsbFirst, Flip, Negated;
    var m := |a| - 2;
    assert a == a[..m] + [a[m], a[m + 1]] && b == b[..m] + [b[m], b[m + 1]];
    BitsOfTwo(a[..m], a[m], a[m + 1]);
    BitsOfTwo(b[..m], b[m], b[m + 1]);
    BitsOfTwo(a[..m], Flip(a[m]), Flip(a[m + 1]));
    BitsOfTwo(b[..m], Flip(b[m]), Flip(b[m + 1]));
    FlippedBits(a[m], a[m + 1]);
    FlippedBits(b[m], b[m + 1]);
    NegatedBurst(LsbBits(a[..m]), LsbBits(b[..m]), LsbFirst(a[m]) + LsbFirst(a[m + 1]),
                 LsbFirst(b[m]) + LsbFirst(b[m + 1]), k, n);
  }

  /** A message that carries its check does not any more once a burst of at most sixteen
      bits has hit it, in the message, in the check, or across both. */
  lemma AppendedDetectsBursts(poly: bv16, init: bv16, a: seq<bv8>, b: seq<bv8>, k: nat, n: nat)
    requires poly & 1 != 0 && CarriesCheck(poly, init, a) && |a| == |b|
    requires n <= 16 && Burst(LsbBits(a), LsbBits(b), k, n)
    ensures !CarriesCheck(poly, init, b)
  {
    hide Degree, Short, Rev32, Rev16, Divided, Lift16, Grow16, LsbBits, Sealed, CarriesCheck;
    var p, r := Grow16(Rev16(poly)), Grow16(init);
    MirroredDegrees(1, poly, 1);
    Rev16IsMirroredLift(poly);
    Rev16IsMirroredLift(init);
    ShortMeansSmall(r);
    AtLeastTwo(poly, init, a);
    SealedBurst(a, b, k, n);
    SealedVanishes(poly, init, a);
    if CarriesCheck(poly, init, b) {
      SealedVanishes(poly, init, b);
      BurstDetected(p, 16, r, LsbBits(Sealed(a)), LsbBits(Sealed(b)), k, n);
    }
  }

  lemma AtLeastTwo(poly: bv16, init: bv16, data: seq<bv8>)
    requires CarriesCheck(poly, init, data)
    ensures |data| >= 2
  {
  }

  // ---------- The plain check of eight bits ----------

  lemma LiftOfHigh(x: bv32)
    requires Rev32(x) < 0x100
    ensures Lift8(High8(x)) == x
  {
  }

  lemma NothingNext(c: bv8)
    ensures Lift8(Msb8Next(c, Crc8Entry(Msb8Index(c, c)))) == 0 && High8(0) == 0
  {
  }

  /** A message followed by its plain check has the check zero. */
  lemma PlainCheckVanishes(init: bv8, data: seq<bv8>)
    ensures PlainCrc8(CRC8, init, data + [PlainCrc8(CRC8, init, data)]) == 0
  {
    hide Degree, Short, Rev32, MsbDivided, Lift8, High8, MsbBits, Crc8Entry, Msb8Next, Msb8Index;
    var p, r := Lift8(CRC8), Lift8(init);
    var x, c := MsbDivided(p, r, MsbBits(data)), PlainCrc8(CRC8, init, data);
    MirroredDegrees(CRC8, 1, 1);
    MirroredLifts8(init);
    ShortMeansSmall(Rev32(r));
    Mirrored(p, r, MsbBits(data));
    DividedInjective(Rev32(p), 8, Rev32(r), Rev32(r), MsbBits(data));
    ShortMeansSmall(Rev32(x));
    LiftOfHigh(x);
    Crc8Step(init, data, c, c);
    NothingNext(c);
  }
}
