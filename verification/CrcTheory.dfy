/** Cyclic redundancy checks as division of a bit string by a polynomial, one bit
    at a time. A reflected register shifts right and sits in the low bits; a plain
    register shifts left and sits in the high bits. */
module CrcTheory {
  import opened CrcRegister

  // ---------- The register ----------

  /** One division step of a reflected register. */
  function Shift(p: bv32, r: bv32): bv32 {
    if Odd(r) then Xor(Half(r), p) else Half(r)
  }

  function Shifts(p: bv32, r: bv32, n: nat): bv32
    decreases n
  {
    if n == 0 then r else Shifts(p, Shift(p, r), n - 1)
  }

  function Low(b: bool): bv32 {
    if b then 1 else 0
  }

  /** Division of a bit string: each bit is added to the low end, then the register shifts. */
  function Divided(p: bv32, r: bv32, bits: seq<bool>): bv32
    decreases |bits|
  {
    if bits == [] then r
    else Divided(p, Shift(p, Xor(r, Low(bits[0]))), bits[1..])
  }

  /** The bits of a byte, least significant first. */
  function LsbFirst(b: bv8): (s: seq<bool>)
    ensures |s| == 8
  {
    [b & 0x01 != 0, b & 0x02 != 0, b & 0x04 != 0, b & 0x08 != 0,
     b & 0x10 != 0, b & 0x20 != 0, b & 0x40 != 0, b & 0x80 != 0]
  }

  function LsbBits(data: seq<bv8>): (s: seq<bool>)
    ensures |s| == 8 * |data|
  {
    if data == [] then [] else LsbFirst(data[0]) + LsbBits(data[1..])
  }

  lemma {:induction false} DividedSum(p: bv32, r: bv32, a: seq<bool>, b: seq<bool>)
    ensures Divided(p, r, a + b) == Divided(p, Divided(p, r, a), b)
    decreases |a|
  {
    hide Shift, Low, Xor;
    if a == [] {
      assert a + b == b;
    } else {
      assert (a + b)[1..] == a[1..] + b;
      DividedSum(p, Shift(p, Xor(r, Low(a[0]))), a[1..], b);
    }
  }

  lemma {:induction false} LsbBitsSum(a: seq<bv8>, b: seq<bv8>)
    ensures LsbBits(a + b) == LsbBits(a) + LsbBits(b)
    decreases |a|
  {
    hide LsbFirst;
    if a == [] {
      assert a + b == b;
    } else {
      assert (a + b)[1..] == a[1..] + b;
      LsbBitsSum(a[1..], b);
    }
  }

  // ---------- Linearity ----------

  function Fold(p: bv32, b: bool): bv32 {
    if b then p else 0
  }

  lemma ShiftIsSum(p: bv32, r: bv32)
    ensures Shift(p, r) == Xor(Half(r), Fold(p, Odd(r)))
  {
    hide Odd, Half, Xor;
    XorZero(Half(r));
  }

  lemma FoldXor(p: bv32, b: bool, c: bool)
    ensures Xor(Fold(p, b), Fold(p, c)) == Fold(p, b != c)
  {
    hide Xor;
    XorZero(p);
    XorZero(0);
  }

  lemma ShiftXor(p: bv32, x: bv32, y: bv32)
    ensures Shift(p, Xor(x, y)) == Xor(Shift(p, x), Shift(p, y))
  {
    hide *;
    ShiftIsSum(p, x);
    ShiftIsSum(p, y);
    ShiftIsSum(p, Xor(x, y));
    XorHalves(x, y);
    XorOdd(x, y);
    FoldXor(p, Odd(x), Odd(y));
    XorSwap(Half(x), Fold(p, Odd(x)), Half(y), Fold(p, Odd(y)));
  }

  lemma {:induction false} ShiftsXor(p: bv32, x: bv32, y: bv32, n: nat)
    ensures Shifts(p, Xor(x, y), n) == Xor(Shifts(p, x, n), Shifts(p, y, n))
    decreases n
  {
    hide Shift, Xor;
    if n > 0 {
      ShiftXor(p, x, y);
      ShiftsXor(p, Shift(p, x), Shift(p, y), n - 1);
    }
  }

  lemma LowXor(b: bool, c: bool)
    ensures Low(b != c) == Xor(Low(b), Low(c))
  {
  }

  /** Bitwise exclusive or of two bit strings. */
  function XorBits(a: seq<bool>, b: seq<bool>): (c: seq<bool>)
    requires |a| == |b|
    ensures |c| == |a|
  {
    seq(|a|, i requires 0 <= i < |a| => a[i] != b[i])
  }

  /** Division is linear over exclusive or, jointly in the register and the message. */
  lemma {:induction false} DividedLinear(p: bv32, r: bv32, s: bv32, a: seq<bool>, b: seq<bool>)
    requires |a| == |b|
    ensures Divided(p, Xor(r, s), XorBits(a, b)) == Xor(Divided(p, r, a), Divided(p, s, b))
    decreases |a|
  {
    hide Shift, Low, Xor;
    if a != [] {
      assert XorBits(a, b)[1..] == XorBits(a[1..], b[1..]);
      LowXor(a[0], b[0]);
      XorSwap(r, s, Low(a[0]), Low(b[0]));
      var x, y := Xor(r, Low(a[0])), Xor(s, Low(b[0]));
      ShiftXor(p, x, y);
      DividedLinear(p, Shift(p, x), Shift(p, y), a[1..], b[1..]);
    }
  }

  // ---------- A short bit string enters the register as one number ----------

  /** The number whose bit i is bits[i]. */
  function Value(bits: seq<bool>): bv32 {
    if bits == [] then 0 else Xor(Low(bits[0]), Double(Value(bits[1..])))
  }

  lemma LowHalves(b: bool)
    ensures Half(Low(b)) == 0 && Odd(Low(b)) == b
  {
  }

  lemma {:induction false} ValueIsShort(bits: seq<bool>)
    requires |bits| <= WIDTH
    ensures Short(Value(bits), |bits|)
    ensures bits != [] ==> Odd(Value(bits)) == bits[0] && Half(Value(bits)) == Value(bits[1..])
    ensures bits != [] ==> Value(bits[1..]) < 0x8000_0000
  {
    hide Xor, Half, Odd, Double, Low;
    if bits != [] {
      var v := Value(bits[1..]);
      ValueIsShort(bits[1..]);
      ShortIsSmall(v, |bits| - 1);
      DoubleHalves(v);
      LowHalves(bits[0]);
      XorHalves(Low(bits[0]), Double(v));
      XorOdd(Low(bits[0]), Double(v));
      XorZero(v);
    }
  }

  /** Equal values come from equal strings. */
  lemma {:induction false} ValueDetermines(a: seq<bool>, b: seq<bool>)
    requires |a| == |b| <= WIDTH && Value(a) == Value(b)
    ensures a == b
  {
    hide Value;
    if a != [] {
      ValueIsShort(a);
      ValueIsShort(b);
      ValueDetermines(a[1..], b[1..]);
      assert a == [a[0]] + a[1..] && b == [b[0]] + b[1..];
    }
  }

  /** Adding after a shift is adding the double before it. */
  lemma ShiftAbsorbs(p: bv32, x: bv32, v: bv32)
    requires v < 0x8000_0000
    ensures Xor(Shift(p, x), v) == Shift(p, Xor(x, Double(v)))
  {
    hide Xor, Half, Odd, Double, Shift;
    ShiftXor(p, x, Double(v));
    DoubleHalves(v);
    ShiftIsSum(p, Double(v));
    XorZero(v);
  }

  lemma {:induction false} DividedByValue(p: bv32, r: bv32, bits: seq<bool>)
    requires |bits| <= WIDTH
    ensures Divided(p, r, bits) == Shifts(p, Xor(r, Value(bits)), |bits|)
    decreases |bits|
  {
    hide Xor, Half, Odd, Double, Low, Shift;
    if bits == [] {
      XorZero(r);
    } else {
      var x, v := Xor(r, Low(bits[0])), Value(bits[1..]);
      DividedByValue(p, Shift(p, x), bits[1..]);
      ValueIsShort(bits);
      ShiftAbsorbs(p, x, v);
      XorAssoc(r, Low(bits[0]), Double(v));
    }
  }

  // ---------- Division loses nothing ----------

  /** A reflected polynomial of degree `w`: its low end, the constant term, sits at bit w - 1. */
  predicate Degree(p: bv32, w: nat) {
    1 <= w <= WIDTH && Short(p, w) && Bit(p, w - 1)
  }

  lemma ShiftStaysShort(p: bv32, w: nat, r: bv32)
    requires Degree(p, w) && Short(r, w)
    ensures Short(Shift(p, r), w)
  {
    hide Xor, Half, Odd;
    LongerIsShort(Half(r), w - 1, w);
    XorShort(Half(r), p, w);
  }

  /** The bit that is shifted out can be read back from the top of the register. */
  lemma ShiftedOut(p: bv32, w: nat, r: bv32)
    requires Degree(p, w) && Short(r, w)
    ensures Bit(Shift(p, r), w - 1) == Odd(r)
  {
    hide Xor, Half, Odd;
    ShortBit(Half(r), w - 1, w - 1);
    XorBit(Half(r), p, w - 1);
  }

  lemma ShiftInjective(p: bv32, w: nat, r: bv32, s: bv32)
    requires Degree(p, w) && Short(r, w) && Short(s, w)
    requires Shift(p, r) == Shift(p, s)
    ensures r == s
  {
    hide Xor, Half, Odd;
    ShiftedOut(p, w, r);
    ShiftedOut(p, w, s);
    if Odd(r) {
      XorCancels(Half(r), Half(s), p);
    }
    HalfAndOddDetermine(r, s);
  }

  lemma {:induction false} ShiftsInjective(p: bv32, w: nat, r: bv32, s: bv32, n: nat)
    requires Degree(p, w) && Short(r, w) && Short(s, w)
    requires Shifts(p, r, n) == Shifts(p, s, n)
    ensures r == s
    decreases n
  {
    hide Shift, Degree;
    if n > 0 {
      ShiftStaysShort(p, w, r);
      ShiftStaysShort(p, w, s);
      ShiftsInjective(p, w, Shift(p, r), Shift(p, s), n - 1);
      ShiftInjective(p, w, r, s);
    }
  }

  lemma LowIsShort(b: bool, w: nat)
    requires 1 <= w
    ensures Short(Low(b), w)
  {
    hide Half, Low;
    LowHalves(b);
    ZeroIsShort(w - 1);
  }

  /** Registers that differ keep differing under the same bits. */
  lemma {:induction false} DividedInjective(p: bv32, w: nat, r: bv32, s: bv32, bits: seq<bool>)
    requires Degree(p, w) && Short(r, w) && Short(s, w)
    ensures Short(Divided(p, r, bits), w)
    ensures Divided(p, r, bits) == Divided(p, s, bits) ==> r == s
    decreases |bits|
  {
    hide Shift, Degree, Low, Xor, Short;
    if bits != [] {
      assert 1 <= w by { DegreeIsPositive(p, w); }
      LowIsShort(bits[0], w);
      var x, y := Xor(r, Low(bits[0])), Xor(s, Low(bits[0]));
      XorShort(r, Low(bits[0]), w);
      XorShort(s, Low(bits[0]), w);
      ShiftStaysShort(p, w, x);
      ShiftStaysShort(p, w, y);
      DividedInjective(p, w, Shift(p, x), Shift(p, y), bits[1..]);
      if Divided(p, r, bits) == Divided(p, s, bits) {
        ShiftInjective(p, w, x, y);
        XorCancels(r, s, Low(bits[0]));
      }
    }
  }

  lemma DegreeIsPositive(p: bv32, w: nat)
    requires Degree(p, w)
    ensures 1 <= w <= WIDTH
  {
  }

  /** A window no longer than the register is recovered from the result. */
  lemma WindowInjective(p: bv32, w: nat, r: bv32, a: seq<bool>, b: seq<bool>)
    requires Degree(p, w) && Short(r, w) && |a| == |b| <= w
    requires Divided(p, r, a) == Divided(p, r, b)
    ensures a == b
  {
    hide Shift, Degree, Xor, Short, Value, Divided, Shifts;
    DegreeIsPositive(p, w);
    ValueIsShort(a);
    ValueIsShort(b);
    LongerIsShort(Value(a), |a|, w);
    LongerIsShort(Value(b), |b|, w);
    XorShort(r, Value(a), w);
    XorShort(r, Value(b), w);
    DividedByValue(p, r, a);
    DividedByValue(p, r, b);
    ShiftsInjective(p, w, Xor(r, Value(a)), Xor(r, Value(b)), |a|);
    XorCancelsLeft(Value(a), Value(b), r);
    ValueDetermines(a, b);
  }

  /** Burst detection: strings that differ, but only inside `n <= w` consecutive
      bits starting at `k`, leave different remainders. */
  lemma BurstDetected(p: bv32, w: nat, r: bv32, a: seq<bool>, b: seq<bool>, k: nat, n: nat)
    requires Degree(p, w) && Short(r, w)
    requires |a| == |b| && n <= w && k + n <= |a|
    requires a[..k] == b[..k] && a[k + n..] == b[k + n..]
    requires a != b
    ensures Divided(p, r, a) != Divided(p, r, b)
  {
    hide Degree, Short, Divided;
    var before, after := a[..k], a[k + n..];
    var u, v := a[k..k + n], b[k..k + n];
    assert a == before + (u + after) && b == before + (v + after);
    var s := Divided(p, r, before);
    DividedInjective(p, w, r, r, before);
    DividedSum(p, r, before, u + after);
    DividedSum(p, r, before, v + after);
    DividedSum(p, s, u, after);
    DividedSum(p, s, v, after);
    DividedInjective(p, w, s, s, u);
    DividedInjective(p, w, s, s, v);
    DividedInjective(p, w, Divided(p, s, u), Divided(p, s, v), after);
    if Divided(p, s, u) == Divided(p, s, v) {
      WindowInjective(p, w, s, u, v);
    }
  }
}
