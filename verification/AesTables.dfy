/** The byte substitution tables of AES, the finite field they are built on, and
    the proof that the two tables undo each other. */
module AesTables {

  /** Entry `j` of a table row; a row holds sixteen bytes, first entry leftmost. */
  function Column(row: bv128, j: bv8): bv8
    requires j < 16
  {
    ((row >> (8 * (15 - j))) & 0xFF) as bv8
  }

  function SboxRow(i: bv8): bv128 {
    if i == 0x0 then 0x637c777bf26b6fc53001672bfed7ab76
    else if i == 0x1 then 0xca82c97dfa5947f0add4a2af9ca472c0
    else if i == 0x2 then 0xb7fd9326363ff7cc34a5e5f171d83115
    else if i == 0x3 then 0x04c723c31896059a071280e2eb27b275
    else if i == 0x4 then 0x09832c1a1b6e5aa0523bd6b329e32f84
    else if i == 0x5 then 0x53d100ed20fcb15b6acbbe394a4c58cf
    else if i == 0x6 then 0xd0efaafb434d338545f9027f503c9fa8
    else if i == 0x7 then 0x51a3408f929d38f5bcb6da2110fff3d2
    else if i == 0x8 then 0xcd0c13ec5f974417c4a77e3d645d1973
    else if i == 0x9 then 0x60814fdc222a908846eeb814de5e0bdb
    else if i == 0xa then 0xe0323a0a4906245cc2d3ac629195e479
    else if i == 0xb then 0xe7c8376d8dd54ea96c56f4ea657aae08
    else if i == 0xc then 0xba78252e1ca6b4c6e8dd741f4bbd8b8a
    else if i == 0xd then 0x703eb5664803f60e613557b986c11d9e
    else if i == 0xe then 0xe1f8981169d98e949b1e87e9ce5528df
    else 0x8ca1890dbfe6426841992d0fb054bb16
  }

  /** The substitution table used by encryption and by the key schedule. */
  function Sbox(x: bv8): bv8 {
    Column(SboxRow(x >> 4), x & 0x0F)
  }

  function RsboxRow(i: bv8): bv128 {
    if i == 0x0 then 0x52096ad53036a538bf40a39e81f3d7fb
    else if i == 0x1 then 0x7ce339829b2fff87348e4344c4dee9cb
    else if i == 0x2 then 0x547b9432a6c2233dee4c950b42fac34e
    else if i == 0x3 then 0x082ea16628d924b2765ba2496d8bd125
    else if i == 0x4 then 0x72f8f66486689816d4a45ccc5d65b692
    else if i == 0x5 then 0x6c704850fdedb9da5e154657a78d9d84
    else if i == 0x6 then 0x90d8ab008cbcd30af7e45805b8b34506
    else if i == 0x7 then 0xd02c1e8fca3f0f02c1afbd0301138a6b
    else if i == 0x8 then 0x3a9111414f67dcea97f2cfcef0b4e673
    else if i == 0x9 then 0x96ac7422e7ad3585e2f937e81c75df6e
    else if i == 0xa then 0x47f11a711d29c5896fb7620eaa18be1b
    else if i == 0xb then 0xfc563e4bc6d279209adbc0fe78cd5af4
    else if i == 0xc then 0x1fdda8338807c731b11210592780ec5f
    else if i == 0xd then 0x60517fa919b54a0d2de57a9f93c99cef
    else if i == 0xe then 0xa0e03b4dae2af5b0c8ebbb3c83539961
    else 0x172b047eba77d626e169146355210c7d
  }

  /** The substitution table used by decryption. */
  function Rsbox(x: bv8): bv8 {
    Column(RsboxRow(x >> 4), x & 0x0F)
  }

  /** Round constants; a 128-bit key uses entries 1 to 10. */
  const RCON: seq<bv8> := [0x8d, 0x01, 0x02, 0x04, 0x08, 0x10, 0x20, 0x40, 0x80, 0x1b, 0x36]

  /** Multiplication by x in GF(2^8), without a branch. */
  function Xtime(x: bv8): bv8 {
    (x << 1) ^ (((x >> 7) & 1) * 0x1b)
  }

  /** A product of five terms: exact for multipliers below 32. */
  function Multiply(x: bv8, y: bv8): bv8 {
    ((y & 1) * x) ^
    (((y >> 1) & 1) * Xtime(x)) ^
    (((y >> 2) & 1) * Xtime(Xtime(x))) ^
    (((y >> 3) & 1) * Xtime(Xtime(Xtime(x)))) ^
    (((y >> 4) & 1) * Xtime(Xtime(Xtime(Xtime(x)))))
  }

  /** Carry-less product of two bytes before reduction. */
  function Product(x: bv16, y: bv8): bv16 {
    (if y & 0x01 != 0 then x else 0) ^
    (if y & 0x02 != 0 then x << 1 else 0) ^
    (if y & 0x04 != 0 then x << 2 else 0) ^
    (if y & 0x08 != 0 then x << 3 else 0) ^
    (if y & 0x10 != 0 then x << 4 else 0) ^
    (if y & 0x20 != 0 then x << 5 else 0) ^
    (if y & 0x40 != 0 then x << 6 else 0) ^
    (if y & 0x80 != 0 then x << 7 else 0)
  }

  /** One step of long division by x^8 + x^4 + x^3 + x + 1. */
  function Reduce(v: bv16, k: bv16): bv16
    requires k < 8
  {
    if v & (0x100 << k) != 0 then v ^ (0x11b << k) else v
  }

  /** Field product as section 4.2 of FIPS 197 defines it: multiply the two
      polynomials, then keep the remainder modulo x^8 + x^4 + x^3 + x + 1. */
  function FieldProduct(x: bv8, y: bv8): bv8 {
    var v := Product(x as bv16, y);
    var v := Reduce(Reduce(Reduce(Reduce(v, 6), 5), 4), 3);
    var v := Reduce(Reduce(Reduce(v, 2), 1), 0);
    (v & 0xFF) as bv8
  }

  /** Rotation of a byte to the left. */
  function Rotl(x: bv8, n: bv8): bv8
    requires 0 < n < 8
  {
    (x << n) | (x >> (8 - n))
  }

  /** The affine map of section 5.1.1 of FIPS 197. */
  function Affine(x: bv8): bv8 {
    x ^ Rotl(x, 1) ^ Rotl(x, 2) ^ Rotl(x, 3) ^ Rotl(x, 4) ^ 0x63
  }

  /** The inverse of `Affine`. */
  function AffineInverse(y: bv8): bv8 {
    Rotl(y, 1) ^ Rotl(y, 3) ^ Rotl(y, 6) ^ 0x05
  }

  /** The shift-and-mask product is the field product for each multiplier decryption uses. */
  lemma MultiplyIsFieldProduct(x: bv8)
    ensures Multiply(x, 0x09) == FieldProduct(x, 0x09)
    ensures Multiply(x, 0x0b) == FieldProduct(x, 0x0b)
    ensures Multiply(x, 0x0d) == FieldProduct(x, 0x0d)
    ensures Multiply(x, 0x0e) == FieldProduct(x, 0x0e)
  {
    MultiplyByNineAndEleven(x);
    MultiplyByThirteenAndFourteen(x);
  }

  lemma MultiplyByNineAndEleven(x: bv8)
    ensures Multiply(x, 0x09) == FieldProduct(x, 0x09)
    ensures Multiply(x, 0x0b) == FieldProduct(x, 0x0b)
  {
  }

  lemma MultiplyByThirteenAndFourteen(x: bv8)
    ensures Multiply(x, 0x0d) == FieldProduct(x, 0x0d)
    ensures Multiply(x, 0x0e) == FieldProduct(x, 0x0e)
  {
  }

  lemma XtimeIsFieldProduct(x: bv8)
    ensures Xtime(x) == FieldProduct(x, 0x02)
  {
  }

  /** Doubling is additive: the fact that makes column mixing linear. */
  lemma XtimeAdditive(x: bv8, y: bv8)
    ensures Xtime(x ^ y) == Xtime(x) ^ Xtime(y)
  {
  }

  lemma SboxInversesLow(x: bv8)
    requires x < 0x80
    ensures Rsbox(Sbox(x)) == x
  {
    if x < 0x10 {
    } else if x < 0x20 {
    } else if x < 0x30 {
    } else if x < 0x40 {
    } else if x < 0x50 {
    } else if x < 0x60 {
    } else if x < 0x70 {
    }
  }

  lemma SboxInversesHigh(x: bv8)
    requires x >= 0x80
    ensures Rsbox(Sbox(x)) == x
  {
    if x < 0x90 {
    } else if x < 0xA0 {
    } else if x < 0xB0 {
    } else if x < 0xC0 {
    } else if x < 0xD0 {
    } else if x < 0xE0 {
    } else if x < 0xF0 {
    }
  }

  lemma RsboxInversesLow(x: bv8)
    requires x < 0x80
    ensures Sbox(Rsbox(x)) == x
  {
    if x < 0x10 {
    } else if x < 0x20 {
    } else if x < 0x30 {
    } else if x < 0x40 {
    } else if x < 0x50 {
    } else if x < 0x60 {
    } else if x < 0x70 {
    }
  }

  lemma RsboxInversesHigh(x: bv8)
    requires x >= 0x80
    ensures Sbox(Rsbox(x)) == x
  {
    if x < 0x90 {
    } else if x < 0xA0 {
    } else if x < 0xB0 {
    } else if x < 0xC0 {
    } else if x < 0xD0 {
    } else if x < 0xE0 {
    } else if x < 0xF0 {
    }
  }

  /** The two tables are inverse permutations of the byte values. */
  lemma SboxInverses(x: bv8)
    ensures Rsbox(Sbox(x)) == x
    ensures Sbox(Rsbox(x)) == x
  {
    if x < 0x80 {
      SboxInversesLow(x);
      RsboxInversesLow(x);
    } else {
      SboxInversesHigh(x);
      RsboxInversesHigh(x);
    }
  }

  lemma AffineInverses(x: bv8)
    ensures Affine(AffineInverse(x)) == x
  {
  }

  lemma SboxRowsInvert0(x: bv8)
    requires 0 < x < 0x40
    ensures FieldProduct(AffineInverse(Sbox(x)), x) == 1
  {
    if x < 0x08 {
    } else if x < 0x10 {
    } else if x < 0x18 {
    } else if x < 0x20 {
    } else if x < 0x28 {
    } else if x < 0x30 {
    } else if x < 0x38 {
    }
  }

  lemma SboxRowsInvert1(x: bv8)
    requires 0x40 <= x < 0x80
    ensures FieldProduct(AffineInverse(Sbox(x)), x) == 1
  {
    if x < 0x48 {
    } else if x < 0x50 {
    } else if x < 0x58 {
    } else if x < 0x60 {
    } else if x < 0x68 {
    } else if x < 0x70 {
    } else if x < 0x78 {
    }
  }

  lemma SboxRowsInvert2(x: bv8)
    requires 0x80 <= x < 0xC0
    ensures FieldProduct(AffineInverse(Sbox(x)), x) == 1
  {
    if x < 0x88 {
    } else if x < 0x90 {
    } else if x < 0x98 {
    } else if x < 0xA0 {
    } else if x < 0xA8 {
    } else if x < 0xB0 {
    } else if x < 0xB8 {
    }
  }

  lemma SboxRowsInvert3(x: bv8)
    requires 0xC0 <= x
    ensures FieldProduct(AffineInverse(Sbox(x)), x) == 1
  {
    if x < 0xC8 {
    } else if x < 0xD0 {
    } else if x < 0xD8 {
    } else if x < 0xE0 {
    } else if x < 0xE8 {
    } else if x < 0xF0 {
    } else if x < 0xF8 {
    }
  }

  /** The table is the one FIPS 197 constructs: the affine image of the inverse in
      the field, where 0 stands for its own inverse. */
  lemma SboxIsAffineOfInverse(x: bv8)
    ensures exists y :: Sbox(x) == Affine(y) && if x == 0 then y == 0 else FieldProduct(y, x) == 1
  {
    var y := AffineInverse(Sbox(x));
    AffineInverses(Sbox(x));
    if 0 < x < 0x40 {
      SboxRowsInvert0(x);
    } else if 0x40 <= x < 0x80 {
      SboxRowsInvert1(x);
    } else if 0x80 <= x < 0xC0 {
      SboxRowsInvert2(x);
    } else if 0xC0 <= x {
      SboxRowsInvert3(x);
    }
    assert Sbox(x) == Affine(y);
  }

  /** Round constant i is x^(i-1): the first is 1 and each one doubles the one before. */
  lemma RconIsPowerOfX(i: nat)
    requires 1 <= i < 10
    ensures RCON[1] == 1
    ensures RCON[i + 1] == Xtime(RCON[i])
  {
  }
}
