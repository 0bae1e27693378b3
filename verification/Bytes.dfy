/** Bytes as small integers, and the little-endian fields built from them. */
module Bytes {
  type byte = x: int | 0 <= x < 0x100

  /** Return codes of the library that the models need. */
  datatype Status = Success | InvalidArgs | Timeout | Io | Protocol | NoMemory | DataFormat

  datatype Outcome<T> = Ok(value: T) | Failed(status: Failure)

  type Failure = s: Status | s != Success witness Protocol

  function Le16(x: nat): (s: seq<byte>)
    requires x < 0x1_0000
    ensures |s| == 2
  {
    [x % 0x100, x / 0x100]
  }

  function U16(lo: byte, hi: byte): (x: nat)
    ensures x < 0x1_0000
  {
    lo + 0x100 * hi
  }

  lemma U16OfLe16(x: nat)
    requires x < 0x1_0000
    ensures U16(Le16(x)[0], Le16(x)[1]) == x
  {
  }

  /** The two bytes at `i`. */
  function Word(s: seq<byte>, i: nat): nat
    requires i + 1 < |s|
  {
    U16(s[i], s[i + 1])
  }

  function U32(b0: byte, b1: byte, b2: byte, b3: byte): (x: nat)
    ensures x < 0x1_0000_0000
  {
    U16(b0, b1) + 0x1_0000 * U16(b2, b3)
  }

  function Le32(x: nat): (s: seq<byte>)
    requires x < 0x1_0000_0000
    ensures |s| == 4
  {
    Le16(x % 0x1_0000) + Le16(x / 0x1_0000)
  }

  lemma U32OfLe32(x: nat)
    requires x < 0x1_0000_0000
    ensures U32(Le32(x)[0], Le32(x)[1], Le32(x)[2], Le32(x)[3]) == x
  {
  }

  // ---------- Division ----------

  lemma Quotient(x: nat, n: nat, q: nat, rest: nat)
    requires x == n * q + rest && rest < n
    ensures x / n == q && x % n == rest
  {
    Multiples(n, x / n, q);
    Multiples(n, q, x / n);
  }

  lemma Multiples(n: nat, a: nat, b: nat)
    ensures a < b ==> n * a + n <= n * b
  {
    if a < b {
      assert n * b == n * (a + 1) + n * (b - a - 1);
    }
  }

  // ---------- Checks as numbers ----------

  function Number8(x: bv8): byte {
    x as byte
  }

  function Number16(x: bv16): (n: nat)
    ensures n < 0x1_0000
  {
    x as nat
  }

  function Bits8(n: byte): bv8 {
    n as bv8
  }

  lemma Number8ReadBack(x: bv8)
    ensures Bits8(Number8(x)) == x
  {
  }

  function Bits16(n: nat): bv16
    requires n < 0x1_0000
  {
    n as bv16
  }

  lemma Number16ReadBack(x: bv16)
    ensures Bits16(Number16(x)) == x
  {
  }

  /** Different checks are different numbers. */
  lemma NumbersDiffer(x: bv16, y: bv16)
    requires x != y
    ensures Number16(x) != Number16(y)
  {
    hide Number16, Bits16;
    Number16ReadBack(x);
    Number16ReadBack(y);
  }

  /** The same bytes as bit vectors, for the checksums. */
  function Octets(data: seq<byte>): (s: seq<bv8>)
    ensures |s| == |data|
  {
    seq(|data|, i requires 0 <= i < |data| => data[i] as bv8)
  }

  lemma OctetsParts(data: seq<byte>, i: nat, j: nat)
    requires i <= j <= |data|
    ensures Octets(data)[i..j] == Octets(data[i..j])
    ensures i < |data| ==> Octets(data)[i] == Bits8(data[i])
  {
  }
}
