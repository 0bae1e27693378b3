/** Plain registers, which shift left, and the mirror image that takes them to
    reflected ones. */
module CrcMirror {
  import opened CrcRegister
  import opened CrcTheory

  // ---------- Reversing bits ----------

  /** The bits of a byte in reverse order: swap neighbours, pairs, nibbles. */
  function Rev8(b: bv8): bv8 {
    var b := ((b & 0x55) << 1) | ((b >> 1) & 0x55);
    var b := ((b & 0x33) << 2) | ((b >> 2) & 0x33);
    (b << 4) | (b >> 4)
  }

  /** The bits of a word in reverse order: swap neighbours, pairs, nibbles, bytes, halves. */
  function Rev32(x: bv32): bv32 {
    var x := ((x & 0x5555_5555) << 1) | ((x >> 1) & 0x5555_5555);
    var x := ((x & 0x3333_3333) << 2) | ((x >> 2) & 0x3333_3333);
    var x := ((x & 0x0F0F_0F0F) << 4) | ((x >> 4) & 0x0F0F_0F0F);
    var x := ((x & 0x00FF_00FF) << 8) | ((x >> 8) & 0x00FF_00FF);
    (x << 16) | (x >> 16)
  }

  function Rev16(x: bv16): bv16 {
    (Rev32(x as bv32) >> 16) as bv16
  }

  function RevBytes(data: seq<bv8>): (r: seq<bv8>)
    ensures |r| == |data|
  {
    seq(|data|, i requires 0 <= i < |data| => Rev8(data[i]))
  }

  lemma Rev8Bits(b: bv8)
    ensures Rev8(b) & 0x01 != 0 <==> b & 0x80 != 0
    ensures Rev8(b) & 0x02 != 0 <==> b & 0x40 != 0
    ensures Rev8(b) & 0x04 != 0 <==> b & 0x20 != 0
    ensures Rev8(b) & 0x08 != 0 <==> b & 0x10 != 0
    ensures Rev8(b) & 0x10 != 0 <==> b & 0x08 != 0
    ensures Rev8(b) & 0x20 != 0 <==> b & 0x04 != 0
    ensures Rev8(b) & 0x40 != 0 <==> b & 0x02 != 0
    ensures Rev8(b) & 0x80 != 0 <==> b & 0x01 != 0
  {
  }

  lemma Rev8Twice(b: bv8)
    ensures Rev8(Rev8(b)) == b
  {
  }

  function Top(x: bv32): bool {
    x & 0x8000_0000 != 0
  }

  lemma Rev32DoubleBits(x: bv32)
    ensures Rev32(x << 1) == Rev32(x) >> 1
  {
  }

  lemma Rev32Double(x: bv32)
    ensures Rev32(Double(x)) == Half(Rev32(x))
  {
    hide Rev32;
    Rev32DoubleBits(x);
  }

  lemma Rev32Top(x: bv32)
    ensures Odd(Rev32(x)) == Top(x)
  {
  }

  lemma Rev32Xor(x: bv32, y: bv32)
    ensures Rev32(Xor(x, y)) == Xor(Rev32(x), Rev32(y))
  {
  }

  lemma Rev32Twice(x: bv32)
    ensures Rev32(Rev32(x)) == x
  {
  }

  lemma Rev32High(b: bool)
    ensures Rev32(High(b)) == Low(b)
  {
  }

  /** Reversing every byte of a message reverses its bits within each byte. */
  lemma {:induction false} MsbBitsOfRevBytes(data: seq<bv8>)
    ensures LsbBits(RevBytes(data)) == MsbBits(data)
    decreases |data|
  {
    hide LsbFirst, MsbFirst, Rev8;
    if data != [] {
      LsbFirstOfRev8(data[0]);
      assert RevBytes(data)[1..] == RevBytes(data[1..]);
      MsbBitsOfRevBytes(data[1..]);
    }
  }

  lemma LsbFirstOfRev8(b: bv8)
    ensures LsbFirst(Rev8(b)) == MsbFirst(b)
  {
    hide Rev8;
    Rev8Bits(b);
  }

  // ---------- Plain registers ----------

  /** One division step of a plain register. */
  function MsbShift(p: bv32, r: bv32): bv32 {
    if Top(r) then Xor(Double(r), p) else Double(r)
  }

  function MsbShifts(p: bv32, r: bv32, n: nat): bv32
    decreases n
  {
    if n == 0 then r else MsbShifts(p, MsbShift(p, r), n - 1)
  }

  function High(b: bool): bv32 {
    if b then 0x8000_0000 else 0
  }

  /** Division of a bit string: each bit is added to the high end, then the register shifts. */
  function MsbDivided(p: bv32, r: bv32, bits: seq<bool>): bv32
    decreases |bits|
  {
    if bits == [] then r
    else MsbDivided(p, MsbShift(p, Xor(r, High(bits[0]))), bits[1..])
  }

  /** The bits of a byte, most significant first. */
  function MsbFirst(b: bv8): (s: seq<bool>)
    ensures |s| == 8
  {
    [b & 0x80 != 0, b & 0x40 != 0, b & 0x20 != 0, b & 0x10 != 0,
     b & 0x08 != 0, b & 0x04 != 0, b & 0x02 != 0, b & 0x01 != 0]
  }

  function MsbBits(data: seq<bv8>): (s: seq<bool>)
    ensures |s| == 8 * |data|
  {
    if data == [] then [] else MsbFirst(data[0]) + MsbBits(data[1..])
  }

  lemma {:induction false} MsbBitsSum(a: seq<bv8>, b: seq<bv8>)
    ensures MsbBits(a + b) == MsbBits(a) + MsbBits(b)
    decreases |a|
  {
    hide MsbFirst;
    if a == [] {
      assert a + b == b;
    } else {
      assert (a + b)[1..] == a[1..] + b;
      MsbBitsSum(a[1..], b);
    }
  }

  lemma MirroredShift(p: bv32, r: bv32)
    ensures Rev32(MsbShift(p, r)) == Shift(Rev32(p), Rev32(r))
  {
    hide Rev32, Xor, Half, Double, Odd, Top;
    Rev32Double(r);
    Rev32Top(r);
    Rev32Xor(Double(r), p);
  }

  lemma {:induction false} MirroredShifts(p: bv32, r: bv32, n: nat)
    ensures Rev32(MsbShifts(p, r, n)) == Shifts(Rev32(p), Rev32(r), n)
    decreases n
  {
    hide Rev32, MsbShift, Shift;
    if n > 0 {
      MirroredShift(p, r);
      MirroredShifts(p, MsbShift(p, r), n - 1);
    }
  }

  /** Plain division, seen in a mirror, is reflected division of the same bits by the
      mirrored polynomial from the mirrored register. */
  lemma {:induction false} Mirrored(p: bv32, r: bv32, bits: seq<bool>)
    ensures Rev32(MsbDivided(p, r, bits)) == Divided(Rev32(p), Rev32(r), bits)
    decreases |bits|
  {
    hide Rev32, MsbShift, Shift, Xor, High, Low;
    if bits != [] {
      var x := Xor(r, High(bits[0]));
      Rev32Xor(r, High(bits[0]));
      Rev32High(bits[0]);
      MirroredShift(p, x);
      Mirrored(p, MsbShift(p, x), bits[1..]);
    }
  }
}
