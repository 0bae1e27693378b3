/** The AES-128 block cipher: what each stage computes, the in-place stages
    themselves, and the proof that decryption undoes encryption. */
module Aes {
  import opened AesTables
  import opened AesColumns
  import opened BlockChaining

  const ROUNDS: nat := 10

  type RoundKeys = s: seq<bv8> | |s| == 176 witness seq(176, _ => 0)

  // ---------- The stages as functions on a block ----------

  function Keyed(s: Block, rk: RoundKeys, round: nat): Block
    requires round <= ROUNDS
  {
    Xored(s, rk[16 * round..16 * round + 16])
  }

  function Substituted(s: Block): Block {
    seq(16, k requires 0 <= k < 16 => Sbox(s[k]))
  }

  function Unsubstituted(s: Block): Block {
    seq(16, k requires 0 <= k < 16 => Rsbox(s[k]))
  }

  function RowsShifted(s: Block): Block {
    [s[0], s[5], s[10], s[15], s[4], s[9], s[14], s[3], s[8], s[13], s[2], s[7], s[12], s[1], s[6], s[11]]
  }

  function RowsUnshifted(s: Block): Block {
    [s[0], s[13], s[10], s[7], s[4], s[1], s[14], s[11], s[8], s[5], s[2], s[15], s[12], s[9], s[6], s[3]]
  }

  /** Row r of a mixed column is row 0 of the column rotated by r. */
  function MixedColumn(a: bv8, b: bv8, c: bv8, d: bv8): (r: seq<bv8>)
    ensures |r| == 4
  {
    [MixRow(a, b, c, d), MixRow(b, c, d, a), MixRow(c, d, a, b), MixRow(d, a, b, c)]
  }

  function UnmixedColumn(a: bv8, b: bv8, c: bv8, d: bv8): (r: seq<bv8>)
    ensures |r| == 4
  {
    [UnmixRow(a, b, c, d), UnmixRow(b, c, d, a), UnmixRow(c, d, a, b), UnmixRow(d, a, b, c)]
  }

  function ColumnsMixed(s: Block): Block {
    MixedColumn(s[0], s[1], s[2], s[3]) + MixedColumn(s[4], s[5], s[6], s[7]) +
    MixedColumn(s[8], s[9], s[10], s[11]) + MixedColumn(s[12], s[13], s[14], s[15])
  }

  function ColumnsUnmixed(s: Block): Block {
    UnmixedColumn(s[0], s[1], s[2], s[3]) + UnmixedColumn(s[4], s[5], s[6], s[7]) +
    UnmixedColumn(s[8], s[9], s[10], s[11]) + UnmixedColumn(s[12], s[13], s[14], s[15])
  }

  // ---------- The cipher as a function on a block ----------

  function Scrambled(s: Block): Block {
    RowsShifted(Substituted(s))
  }

  function Unscrambled(s: Block): Block {
    Unsubstituted(RowsUnshifted(s))
  }

  /** The block after the first key addition and `n` full rounds. */
  function Rounds(s: Block, rk: RoundKeys, n: nat): Block
    requires n < ROUNDS
  {
    if n == 0 then Keyed(s, rk, 0)
    else Keyed(ColumnsMixed(Scrambled(Rounds(s, rk, n - 1))), rk, n)
  }

  function Encrypted(s: Block, rk: RoundKeys): Block {
    Keyed(Scrambled(Rounds(s, rk, ROUNDS - 1)), rk, ROUNDS)
  }

  /** The block after decryption has undone the last round's key and `n` full rounds. */
  function Unwound(s: Block, rk: RoundKeys, n: nat): Block
    requires n < ROUNDS
  {
    if n == 0 then Keyed(s, rk, ROUNDS)
    else ColumnsUnmixed(Keyed(Unscrambled(Unwound(s, rk, n - 1)), rk, ROUNDS - n))
  }

  function Decrypted(s: Block, rk: RoundKeys): Block {
    Keyed(Unscrambled(Unwound(s, rk, ROUNDS - 1)), rk, 0)
  }

  // ---------- Each stage is undone ----------

  lemma KeyedTwice(s: Block, rk: RoundKeys, round: nat)
    requires round <= ROUNDS
    ensures Keyed(Keyed(s, rk, round), rk, round) == s
  {
    XoredTwice(s, rk[16 * round..16 * round + 16]);
  }

  lemma SubstitutionInverts(s: Block)
    ensures Unsubstituted(Substituted(s)) == s
  {
    hide Sbox, Rsbox;
    forall k | 0 <= k < 16
      ensures Rsbox(Sbox(s[k])) == s[k]
    {
      SboxInverses(s[k]);
    }
  }

  /** Row r moves r columns to the left (section 5.1.2 of FIPS 197). */
  lemma RowsShiftedIsRotation(s: Block, c: nat, r: nat)
    requires c < 4 && r < 4
    ensures RowsShifted(s)[4 * c + r] == s[4 * ((c + r) % 4) + r]
  {
  }

  /** Row r moves r columns to the right (section 5.3.1 of FIPS 197). */
  lemma RowsUnshiftedIsRotation(s: Block, c: nat, r: nat)
    requires c < 4 && r < 4
    ensures RowsUnshifted(s)[4 * ((c + r) % 4) + r] == s[4 * c + r]
  {
  }

  lemma ScrambleInverts(s: Block)
    ensures Unscrambled(Scrambled(s)) == s
  {
    hide Substituted, Unsubstituted;
    SubstitutionInverts(s);
    var t := Substituted(s);
    assert RowsUnshifted(RowsShifted(t)) == t;
  }

  lemma MixedColumnInverts(a: bv8, b: bv8, c: bv8, d: bv8)
    ensures var m := MixedColumn(a, b, c, d);
      UnmixedColumn(m[0], m[1], m[2], m[3]) == [a, b, c, d]
  {
    hide MixRow, UnmixRow;
    UnmixMixed(a, b, c, d);
    UnmixMixed(b, c, d, a);
    UnmixMixed(c, d, a, b);
    UnmixMixed(d, a, b, c);
  }

  lemma ColumnMixInverts(s: Block)
    ensures ColumnsUnmixed(ColumnsMixed(s)) == s
  {
    hide MixedColumn, UnmixedColumn;
    MixedColumnInverts(s[0], s[1], s[2], s[3]);
    MixedColumnInverts(s[4], s[5], s[6], s[7]);
    MixedColumnInverts(s[8], s[9], s[10], s[11]);
    MixedColumnInverts(s[12], s[13], s[14], s[15]);
  }

  /** Undoing `n` rounds meets the block that encryption had before them. */
  lemma {:induction false} UnwoundMeetsRounds(s: Block, rk: RoundKeys, n: nat)
    requires n < ROUNDS
    ensures Unwound(Encrypted(s, rk), rk, n) == Scrambled(Rounds(s, rk, ROUNDS - 1 - n))
  {
    hide Keyed, Scrambled, Unscrambled, ColumnsMixed, ColumnsUnmixed;
    if n == 0 {
      KeyedTwice(Scrambled(Rounds(s, rk, ROUNDS - 1)), rk, ROUNDS);
    } else {
      UnwoundMeetsRounds(s, rk, n - 1);
      var r := ROUNDS - n;
      ScrambleInverts(Rounds(s, rk, r));
      var mixed := ColumnsMixed(Scrambled(Rounds(s, rk, r - 1)));
      KeyedTwice(mixed, rk, r);
      ColumnMixInverts(Scrambled(Rounds(s, rk, r - 1)));
    }
  }

  /** Decryption undoes encryption, for every block and every key schedule. */
  lemma DecryptedEncrypted(s: Block, rk: RoundKeys)
    ensures Decrypted(Encrypted(s, rk), rk) == s
  {
    hide Keyed, Scrambled, Unscrambled, Encrypted;
    UnwoundMeetsRounds(s, rk, ROUNDS - 1);
    ScrambleInverts(Keyed(s, rk, 0));
    KeyedTwice(s, rk, 0);
  }

  // ---------- Key schedule ----------

  /** RotWord, SubWord and the round constant of section 5.2 of FIPS 197. */
  function Turned(w: seq<bv8>, n: nat): (r: seq<bv8>)
    requires |w| == 4 && 1 <= n <= ROUNDS
    ensures |r| == 4
  {
    [Plus(Sbox(w[1]), RCON[n]), Sbox(w[2]), Sbox(w[3]), Sbox(w[0])]
  }

  /** Word `i` of the expanded key, by the recurrence of section 5.2 of FIPS 197. */
  function KeyWord(key: Block, i: nat): (w: seq<bv8>)
    requires i < 44
    ensures |w| == 4
  {
    if i < 4 then key[4 * i..4 * i + 4]
    else
      var before := KeyWord(key, i - 1);
      Xored(KeyWord(key, i - 4), if i % 4 == 0 then Turned(before, i / 4) else before)
  }

  /** The first `n` words of the expanded key, one after another. */
  function Expanded(key: Block, n: nat): (s: seq<bv8>)
    requires n <= 44
    ensures |s| == 4 * n
  {
    if n == 0 then [] else Expanded(key, n - 1) + KeyWord(key, n - 1)
  }

  const WORDS: nat := 44

  function KeySchedule(key: Block): RoundKeys {
    Expanded(key, WORDS)
  }

  lemma {:induction false} ExpandedAt(key: Block, n: nat, i: nat)
    requires i < n <= 44
    ensures Expanded(key, n)[4 * i..4 * i + 4] == KeyWord(key, i)
  {
    hide KeyWord;
    if i < n - 1 {
      ExpandedAt(key, n - 1, i);
      assert Expanded(key, n)[4 * i..4 * i + 4] == Expanded(key, n - 1)[4 * i..4 * i + 4];
    }
  }

  // ---------- The stages in place ----------

  /** One in-place step of a mixed column: `tmp` is the sum of the whole column, so that
      only one doubling is needed. */
  function MixStep(p: bv8, q: bv8, tmp: bv8): bv8 {
    Plus(p, Plus(Xtime(Plus(p, q)), tmp))
  }

  lemma MixStepBits(p: bv8, q: bv8, r: bv8, s: bv8, tmp: bv8, x: bv8, y: bv8, x2: bv8, y2: bv8)
    requires tmp == p ^ q ^ r ^ s && x == x2 ^ y2 && y == x ^ tmp
    ensures p ^ y == x2 ^ y2 ^ q ^ r ^ s
  {
  }

  lemma MixStepIsMixRow(p: bv8, q: bv8, r: bv8, s: bv8)
    ensures MixStep(p, q, Plus4(p, q, r, s)) == MixRow(p, q, r, s)
  {
    hide Plus, Plus4, Plus5, Xtime, MixRow;
    Doubling(p, q);
    MixRowByDoubling(p, q, r, s);
    var tmp, x2, y2, x := Plus4(p, q, r, s), Xtime(p), Xtime(q), Xtime(Plus(p, q));
    var y := Plus(x, tmp);
    MixStepSums(p, q, r, s, tmp, x, y, x2, y2);
  }

  lemma MixStepSums(p: bv8, q: bv8, r: bv8, s: bv8, tmp: bv8, x: bv8, y: bv8, x2: bv8, y2: bv8)
    requires tmp == Plus4(p, q, r, s) && x == Plus(x2, y2) && y == Plus(x, tmp)
    ensures Plus(p, y) == Plus5(x2, y2, q, r, s)
  {
    hide *;
    Plus4Bits(p, q, r, s);
    PlusBits(x2, y2);
    PlusBits(x, tmp);
    MixStepBits(p, q, r, s, tmp, x, y, x2, y2);
    PlusBits(p, y);
    Plus5Bits(x2, y2, q, r, s);
  }

  lemma SumRotates(p: bv8, q: bv8, r: bv8, s: bv8)
    ensures Plus4(p, q, r, s) == Plus4(q, r, s, p)
  {
  }

  lemma UnmixRowAsWritten(p: bv8, q: bv8, r: bv8, s: bv8)
    ensures UnmixRow(p, q, r, s) ==
            Plus4(Multiply(p, 0x0e), Multiply(q, 0x0b), Multiply(r, 0x0d), Multiply(s, 0x09))
  {
    hide Multiply, FieldProduct, Plus4;
    MultiplyIsFieldProduct(p);
    MultiplyIsFieldProduct(q);
    MultiplyIsFieldProduct(r);
    MultiplyIsFieldProduct(s);
  }
}
