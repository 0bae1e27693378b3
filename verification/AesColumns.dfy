/** The column mixing of AES and the proof that its two directions cancel.
    Field addition is kept behind `Plus`, so that the main proofs rewrite sums
    and only the small lemmas about named sums look at bits. */
module AesColumns {
  import opened AesTables

  function Plus(x: bv8, y: bv8): bv8 {
    x ^ y
  }

  function Plus3(x: bv8, y: bv8, z: bv8): bv8 {
    x ^ y ^ z
  }

  function Plus4(w: bv8, x: bv8, y: bv8, z: bv8): bv8 {
    w ^ x ^ y ^ z
  }

  function Plus5(v: bv8, w: bv8, x: bv8, y: bv8, z: bv8): bv8 {
    v ^ w ^ x ^ y ^ z
  }

  lemma PlusBits(x: bv8, y: bv8)
    ensures Plus(x, y) == x ^ y
  {
  }

  lemma Plus3Bits(x: bv8, y: bv8, z: bv8)
    ensures Plus3(x, y, z) == x ^ y ^ z
  {
  }

  lemma Plus4Bits(w: bv8, x: bv8, y: bv8, z: bv8)
    ensures Plus4(w, x, y, z) == w ^ x ^ y ^ z
  {
  }

  lemma Plus5Bits(v: bv8, w: bv8, x: bv8, y: bv8, z: bv8)
    ensures Plus5(v, w, x, y, z) == v ^ w ^ x ^ y ^ z
  {
  }

  lemma Plus4IsPlus(w: bv8, x: bv8, y: bv8, z: bv8)
    ensures Plus4(w, x, y, z) == Plus(Plus(Plus(w, x), y), z)
  {
  }

  /** Row 0 of the matrix product of section 5.1.3 of FIPS 197; the other rows
      are the same expression with the column rotated. */
  function MixRow(p: bv8, q: bv8, r: bv8, s: bv8): bv8 {
    Plus4(FieldProduct(p, 0x02), FieldProduct(q, 0x03), r, s)
  }

  /** Row 0 of the matrix product of section 5.3.3 of FIPS 197. */
  function UnmixRow(p: bv8, q: bv8, r: bv8, s: bv8): bv8 {
    Plus4(FieldProduct(p, 0x0e), FieldProduct(q, 0x0b), FieldProduct(r, 0x0d), FieldProduct(s, 0x09))
  }

  // ---------- Field products as sums of doublings ----------

  lemma By2(x: bv8)
    ensures FieldProduct(x, 0x02) == Xtime(x)
  {
  }

  lemma By3(x: bv8)
    ensures FieldProduct(x, 0x03) == Plus(Xtime(x), x)
  {
  }

  lemma By9(x: bv8)
    ensures FieldProduct(x, 0x09) == Plus(Xtime(Xtime(Xtime(x))), x)
  {
  }

  lemma By11(x: bv8)
    ensures FieldProduct(x, 0x0b) == Plus3(Xtime(Xtime(Xtime(x))), Xtime(x), x)
  {
    if x < 0x40 {
    } else if x < 0x80 {
    } else if x < 0xC0 {
    }
  }

  lemma By13(x: bv8)
    ensures FieldProduct(x, 0x0d) == Plus3(Xtime(Xtime(Xtime(x))), Xtime(Xtime(x)), x)
  {
    if x < 0x40 {
    } else if x < 0x80 {
    } else if x < 0xC0 {
    }
  }

  lemma By14(x: bv8)
    ensures FieldProduct(x, 0x0e) == Plus3(Xtime(Xtime(Xtime(x))), Xtime(Xtime(x)), Xtime(x))
  {
    if x < 0x40 {
    } else if x < 0x80 {
    } else if x < 0xC0 {
    }
  }

  // ---------- Doubling is additive ----------

  lemma Doubling(x: bv8, y: bv8)
    ensures Xtime(Plus(x, y)) == Plus(Xtime(x), Xtime(y))
  {
    XtimeAdditive(x, y);
  }

  lemma Doubling4(w: bv8, x: bv8, y: bv8, z: bv8)
    ensures Xtime(Plus4(w, x, y, z)) == Plus4(Xtime(w), Xtime(x), Xtime(y), Xtime(z))
  {
    hide *;
    Plus4IsPlus(w, x, y, z);
    Plus4IsPlus(Xtime(w), Xtime(x), Xtime(y), Xtime(z));
    Doubling(w, x);
    Doubling(Plus(w, x), y);
    Doubling(Plus(Plus(w, x), y), z);
  }

  // ---------- Sums whose terms are named ----------

  lemma Interchange(a: bv8, b: bv8, c: bv8, d: bv8)
    ensures Plus(Plus(a, b), Plus(c, d)) == Plus(Plus(a, c), Plus(b, d))
    ensures Plus4(a, b, c, d) == Plus(Plus(a, b), Plus(c, d))
  {
  }

  lemma Nested(x: bv8, y: bv8, z: bv8, t: bv8)
    ensures Plus3(x, y, z) == Plus(x, Plus(y, z)) && Plus(t, Plus3(x, y, z)) == Plus4(t, x, y, z)
  {
  }

  lemma HighSums(p8: bv8, q8: bv8, r8: bv8, s8: bv8, a: bv8, b: bv8, c: bv8, s: bv8)
    ensures Plus4(Plus(p8, a), Plus(q8, b), Plus(r8, c), Plus(s8, s)) == Plus(Plus4(p8, q8, r8, s8), Plus4(a, b, c, s))
  {
    hide *;
    Interchange(Plus(p8, a), Plus(q8, b), Plus(r8, c), Plus(s8, s));
    Interchange(p8, a, q8, b);
    Interchange(r8, c, s8, s);
    Interchange(Plus(p8, q8), Plus(a, b), Plus(r8, s8), Plus(c, s));
    Interchange(p8, q8, r8, s8);
    Interchange(a, b, c, s);
  }

  lemma LowSums(p4: bv8, p2: bv8, q2: bv8, q: bv8, r4: bv8, r: bv8, s: bv8)
    ensures Plus4(Plus(p4, p2), Plus(q2, q), Plus(r4, r), s) == Plus3(Plus(p4, r4), Plus(p2, q2), Plus3(q, r, s))
  {
  }

  lemma Regroup(p8: bv8, p4: bv8, p2: bv8, q8: bv8, q2: bv8, q: bv8, r8: bv8, r4: bv8, r: bv8, s8: bv8, s: bv8)
    ensures Plus4(Plus3(p8, p4, p2), Plus3(q8, q2, q), Plus3(r8, r4, r), Plus(s8, s)) ==
            Plus4(Plus4(p8, q8, r8, s8), Plus(p4, r4), Plus(p2, q2), Plus3(q, r, s))
  {
    hide *;
    Nested(p8, p4, p2, 0);
    Nested(q8, q2, q, 0);
    Nested(r8, r4, r, 0);
    HighSums(p8, q8, r8, s8, Plus(p4, p2), Plus(q2, q), Plus(r4, r), s);
    LowSums(p4, p2, q2, q, r4, r, s);
    Nested(Plus(p4, r4), Plus(p2, q2), Plus3(q, r, s), Plus4(p8, q8, r8, s8));
  }

  lemma UnmixRowByDoubling(p: bv8, q: bv8, r: bv8, s: bv8)
    ensures UnmixRow(p, q, r, s) ==
            Plus4(Xtime(Xtime(Xtime(Plus4(p, q, r, s)))), Xtime(Xtime(Plus(p, r))), Xtime(Plus(p, q)), Plus3(q, r, s))
  {
    hide FieldProduct, Xtime, Plus, Plus3, Plus4;
    By14(p);
    By11(q);
    By13(r);
    By9(s);
    Doubling4(p, q, r, s);
    Doubling4(Xtime(p), Xtime(q), Xtime(r), Xtime(s));
    Doubling4(Xtime(Xtime(p)), Xtime(Xtime(q)), Xtime(Xtime(r)), Xtime(Xtime(s)));
    Doubling(p, r);
    Doubling(Xtime(p), Xtime(r));
    Doubling(p, q);
    Regroup(Xtime(Xtime(Xtime(p))), Xtime(Xtime(p)), Xtime(p), Xtime(Xtime(Xtime(q))), Xtime(q), q,
            Xtime(Xtime(Xtime(r))), Xtime(Xtime(r)), r, Xtime(Xtime(Xtime(s))), s);
  }

  /** A mixed row as a plain sum, where p2 stands for twice p and q2 for twice q. */
  lemma RowBits(p2: bv8, q2: bv8, q: bv8, r: bv8, s: bv8, q3: bv8)
    requires q3 == q2 ^ q
    ensures p2 ^ q3 ^ r ^ s == p2 ^ q2 ^ q ^ r ^ s
  {
  }

  lemma MixRowByDoubling(p: bv8, q: bv8, r: bv8, s: bv8)
    ensures MixRow(p, q, r, s) == Plus5(Xtime(p), Xtime(q), q, r, s)
  {
    hide FieldProduct, Xtime, Plus, Plus4, Plus5;
    By2(p);
    By3(q);
    PlusBits(Xtime(q), q);
    Plus4Bits(Xtime(p), FieldProduct(q, 3), r, s);
    RowBits(Xtime(p), Xtime(q), q, r, s, FieldProduct(q, 3));
    Plus5Bits(Xtime(p), Xtime(q), q, r, s);
  }

  /** Sums of the four rows of a mixed column. */
  lemma AllRowsBits(a: bv8, b: bv8, c: bv8, d: bv8, a2: bv8, b2: bv8, c2: bv8, d2: bv8,
                    e0: bv8, e1: bv8, e2: bv8, e3: bv8)
    requires e0 == a2 ^ b2 ^ b ^ c ^ d && e1 == b2 ^ c2 ^ c ^ d ^ a
    requires e2 == c2 ^ d2 ^ d ^ a ^ b && e3 == d2 ^ a2 ^ a ^ b ^ c
    ensures e0 ^ e1 ^ e2 ^ e3 == a ^ b ^ c ^ d
  {
  }

  lemma LastRowsBits(a: bv8, b: bv8, c: bv8, d: bv8, a2: bv8, b2: bv8, c2: bv8, d2: bv8,
                     e1: bv8, e2: bv8, e3: bv8, ab2: bv8)
    requires e1 == b2 ^ c2 ^ c ^ d ^ a && e2 == c2 ^ d2 ^ d ^ a ^ b && e3 == d2 ^ a2 ^ a ^ b ^ c
    requires ab2 == a2 ^ b2
    ensures e1 ^ e2 ^ e3 == a ^ ab2
  {
  }

  lemma OppositeRowsBits(a: bv8, b: bv8, c: bv8, d: bv8, a2: bv8, b2: bv8, c2: bv8, d2: bv8,
                         e0: bv8, e2: bv8, s2: bv8, ac: bv8)
    requires e0 == a2 ^ b2 ^ b ^ c ^ d && e2 == c2 ^ d2 ^ d ^ a ^ b
    requires s2 == a2 ^ b2 ^ c2 ^ d2 && ac == a ^ c
    ensures e0 ^ e2 == s2 ^ ac
  {
  }

  lemma FirstRowsBits(a: bv8, b: bv8, c: bv8, d: bv8, a2: bv8, b2: bv8, c2: bv8,
                      e0: bv8, e1: bv8, ac2: bv8, ab: bv8)
    requires e0 == a2 ^ b2 ^ b ^ c ^ d && e1 == b2 ^ c2 ^ c ^ d ^ a
    requires ac2 == a2 ^ c2 && ab == a ^ b
    ensures e0 ^ e1 == ac2 ^ ab
  {
  }

  lemma AllRows(a: bv8, b: bv8, c: bv8, d: bv8, a2: bv8, b2: bv8, c2: bv8, d2: bv8,
                e0: bv8, e1: bv8, e2: bv8, e3: bv8)
    requires e0 == Plus5(a2, b2, b, c, d) && e1 == Plus5(b2, c2, c, d, a)
    requires e2 == Plus5(c2, d2, d, a, b) && e3 == Plus5(d2, a2, a, b, c)
    ensures Plus4(e0, e1, e2, e3) == Plus4(a, b, c, d)
    ensures Plus3(e1, e2, e3) == Plus(a, Plus(a2, b2))
  {
    hide *;
    Plus5Bits(a2, b2, b, c, d);
    Plus5Bits(b2, c2, c, d, a);
    Plus5Bits(c2, d2, d, a, b);
    Plus5Bits(d2, a2, a, b, c);
    var ab2 := Plus(a2, b2);
    PlusBits(a2, b2);
    AllRowsBits(a, b, c, d, a2, b2, c2, d2, e0, e1, e2, e3);
    LastRowsBits(a, b, c, d, a2, b2, c2, d2, e1, e2, e3, ab2);
    Plus4Bits(e0, e1, e2, e3);
    Plus4Bits(a, b, c, d);
    Plus3Bits(e1, e2, e3);
    PlusBits(a, ab2);
  }

  lemma RowPairs(a: bv8, b: bv8, c: bv8, d: bv8, a2: bv8, b2: bv8, c2: bv8, d2: bv8,
                 e0: bv8, e1: bv8, e2: bv8)
    requires e0 == Plus5(a2, b2, b, c, d) && e1 == Plus5(b2, c2, c, d, a) && e2 == Plus5(c2, d2, d, a, b)
    ensures Plus(e0, e2) == Plus(Plus4(a2, b2, c2, d2), Plus(a, c))
    ensures Plus(e0, e1) == Plus(Plus(a2, c2), Plus(a, b))
  {
    hide *;
    Plus5Bits(a2, b2, b, c, d);
    Plus5Bits(b2, c2, c, d, a);
    Plus5Bits(c2, d2, d, a, b);
    var s2, ac2, ac, ab := Plus4(a2, b2, c2, d2), Plus(a2, c2), Plus(a, c), Plus(a, b);
    Plus4Bits(a2, b2, c2, d2);
    PlusBits(a2, c2);
    PlusBits(a, c);
    PlusBits(a, b);
    OppositeRowsBits(a, b, c, d, a2, b2, c2, d2, e0, e2, s2, ac);
    FirstRowsBits(a, b, c, d, a2, b2, c2, e0, e1, ac2, ab);
    PlusBits(e0, e2);
    PlusBits(e0, e1);
    PlusBits(s2, ac);
    PlusBits(ac2, ab);
  }

  lemma MixedSums(a: bv8, b: bv8, c: bv8, d: bv8)
    ensures var e0, e1, e2, e3 := MixRow(a, b, c, d), MixRow(b, c, d, a), MixRow(c, d, a, b), MixRow(d, a, b, c);
      && Plus4(e0, e1, e2, e3) == Plus4(a, b, c, d)
      && Plus3(e1, e2, e3) == Plus(a, Plus(Xtime(a), Xtime(b)))
      && Plus(e0, e2) == Plus(Plus4(Xtime(a), Xtime(b), Xtime(c), Xtime(d)), Plus(a, c))
      && Plus(e0, e1) == Plus(Plus(Xtime(a), Xtime(c)), Plus(a, b))
  {
    hide *;
    var e0, e1, e2, e3 := MixRow(a, b, c, d), MixRow(b, c, d, a), MixRow(c, d, a, b), MixRow(d, a, b, c);
    MixRowByDoubling(a, b, c, d);
    MixRowByDoubling(b, c, d, a);
    MixRowByDoubling(c, d, a, b);
    MixRowByDoubling(d, a, b, c);
    AllRows(a, b, c, d, Xtime(a), Xtime(b), Xtime(c), Xtime(d), e0, e1, e2, e3);
    RowPairs(a, b, c, d, Xtime(a), Xtime(b), Xtime(c), Xtime(d), e0, e1, e2);
  }

  lemma Cancel(a: bv8, x: bv8, y: bv8, z: bv8)
    ensures Plus4(x, Plus(x, y), Plus(y, z), Plus(a, z)) == a
  {
  }

  /** Unmixing row 0 of a mixed column gives back its first byte; by rotation,
      each row of a mixed column gives back its byte. */
  lemma UnmixMixed(a: bv8, b: bv8, c: bv8, d: bv8)
    ensures UnmixRow(MixRow(a, b, c, d), MixRow(b, c, d, a), MixRow(c, d, a, b), MixRow(d, a, b, c)) == a
  {
    hide *;
    var e0, e1, e2, e3 := MixRow(a, b, c, d), MixRow(b, c, d, a), MixRow(c, d, a, b), MixRow(d, a, b, c);
    MixedSums(a, b, c, d);
    var s, ac, ab := Plus4(a, b, c, d), Plus(a, c), Plus(a, b);
    UnmixRowByDoubling(e0, e1, e2, e3);
    Doubling4(a, b, c, d);
    Doubling(a, c);
    Doubling(a, b);
    Doubling(Xtime(s), ac);
    Doubling(Xtime(Xtime(s)), Xtime(ac));
    Doubling(Xtime(ac), ab);
    Cancel(a, Xtime(Xtime(Xtime(s))), Xtime(Xtime(ac)), Xtime(ab));
  }
}
