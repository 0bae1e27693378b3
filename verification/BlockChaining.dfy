/** Cipher block chaining (section 6.2 of NIST SP 800-38A) over any block cipher
    that has an inverse. */
module BlockChaining {
  import opened AesColumns

  /** A block, column by column: byte 4c + r is row r of column c. */
  type Block = s: seq<bv8> | |s| == 16 witness seq(16, _ => 0)

  type Blocks = s: seq<bv8> | |s| % 16 == 0 witness []

  function Xored(a: seq<bv8>, b: seq<bv8>): (r: seq<bv8>)
    requires |a| == |b|
    ensures |r| == |a|
  {
    seq(|a|, i requires 0 <= i < |a| => Plus(a[i], b[i]))
  }

  lemma PlusTwice(x: bv8, y: bv8)
    ensures Plus(Plus(x, y), y) == x
  {
  }

  lemma XoredTwice(a: seq<bv8>, b: seq<bv8>)
    requires |a| == |b|
    ensures Xored(Xored(a, b), b) == a
  {
    hide Plus;
    forall i | 0 <= i < |a|
      ensures Plus(Plus(a[i], b[i]), b[i]) == a[i]
    {
      PlusTwice(a[i], b[i]);
    }
  }

  // ---------- Slices ----------

  /** Sixteen bytes of a buffer. */
  function Window(buf: seq<bv8>, p: nat): Block
    requires p + 16 <= |buf|
  {
    buf[p..p + 16]
  }

  /** A buffer with sixteen of its bytes replaced. */
  function Spliced(buf: seq<bv8>, p: nat, b: Block): (r: seq<bv8>)
    requires p + 16 <= |buf|
    ensures |r| == |buf|
  {
    buf[..p] + b + buf[p + 16..]
  }

  lemma SplicedParts(buf: seq<bv8>, p: nat, b: Block)
    requires p + 16 <= |buf|
    ensures Window(Spliced(buf, p, b), p) == b
    ensures Spliced(buf, p, b)[..p] == buf[..p] && Spliced(buf, p, b)[p + 16..] == buf[p + 16..]
    ensures Spliced(buf, p, b)[..p + 16] == buf[..p] + b
  {
  }

  lemma SplicedAgain(buf: seq<bv8>, p: nat, b: Block, c: Block)
    requires p + 16 <= |buf|
    ensures Spliced(Spliced(buf, p, b), p, c) == Spliced(buf, p, c)
  {
    hide Spliced;
    SplicedParts(buf, p, b);
    SplicedIs(buf, p, c);
    SplicedIs(Spliced(buf, p, b), p, c);
  }

  lemma SplicedIs(buf: seq<bv8>, p: nat, b: Block)
    requires p + 16 <= |buf|
    ensures Spliced(buf, p, b) == buf[..p] + b + buf[p + 16..]
  {
  }

  lemma SliceOfTail(s: seq<bv8>, i: nat, j: nat, k: nat)
    requires i <= |s| && j <= k <= |s| - i
    ensures s[i..][j..k] == s[i + j..i + k]
    ensures s[i..][j..] == s[i + j..]
  {
  }

  lemma SliceOfSum(a: seq<bv8>, b: seq<bv8>, i: nat, j: nat)
    requires |a| <= i <= j <= |a| + |b|
    ensures (a + b)[i..j] == b[i - |a|..j - |a|]
  {
  }

  // ---------- Chaining ----------

  ghost predicate Undoes(d: Block -> Block, e: Block -> Block) {
    forall b: Block :: d(e(b)) == b
  }

  function ChainEncrypted(e: Block -> Block, iv: Block, message: Blocks): (c: Blocks)
    ensures |c| == |message|
    decreases |message|
  {
    if message == [] then []
    else
      var c := e(Xored(message[..16], iv));
      c + ChainEncrypted(e, c, message[16..])
  }

  /** The blocks that are fed to the cipher; encrypting leaves them in its input buffer. */
  function ChainMasked(e: Block -> Block, iv: Block, message: Blocks): (m: Blocks)
    ensures |m| == |message|
    decreases |message|
  {
    if message == [] then []
    else
      var m := Xored(message[..16], iv);
      m + ChainMasked(e, e(m), message[16..])
  }

  function ChainDecrypted(d: Block -> Block, iv: Block, cipher: Blocks): (m: Blocks)
    ensures |m| == |cipher|
    decreases |cipher|
  {
    if cipher == [] then []
    else Xored(d(cipher[..16]), iv) + ChainDecrypted(d, cipher[..16], cipher[16..])
  }

  /** Block j of the ciphertext is the encryption of block j of the message added to
      block j - 1 of the ciphertext, the initial vector standing before block 0. */
  lemma {:induction false} ChainingRecurrence(e: Block -> Block, iv: Block, message: Blocks, j: nat)
    requires 16 * j < |message|
    ensures var c := ChainEncrypted(e, iv, message);
      c[16 * j..16 * j + 16] ==
      e(Xored(message[16 * j..16 * j + 16], if j == 0 then iv else c[16 * j - 16..16 * j]))
    decreases j
  {
    hide Xored;
    var c := ChainEncrypted(e, iv, message);
    var first := e(Xored(message[..16], iv));
    var rest := ChainEncrypted(e, first, message[16..]);
    assert c == first + rest;
    if j > 0 {
      ChainingRecurrence(e, first, message[16..], j - 1);
      SliceOfSum(first, rest, 16 * j, 16 * j + 16);
      SliceOfTail(message, 16, 16 * (j - 1), 16 * j);
      if j > 1 {
        SliceOfSum(first, rest, 16 * j - 16, 16 * j);
      }
    }
  }

  /** The masked input is the message added to the ciphertext shifted by one block. */
  lemma {:induction false} MaskedIsShiftedSum(e: Block -> Block, iv: Block, message: Blocks)
    ensures var c := ChainEncrypted(e, iv, message);
      ChainMasked(e, iv, message) == Xored(message, (iv + c)[..|message|])
    decreases |message|
  {
    hide Plus;
    if message != [] {
      var m := Xored(message[..16], iv);
      var c := ChainEncrypted(e, iv, message);
      var rest := ChainEncrypted(e, e(m), message[16..]);
      assert c == e(m) + rest;
      MaskedIsShiftedSum(e, e(m), message[16..]);
      SliceOfSum(iv, c, 16, |message|);
      assert (iv + c)[..|message|] == iv + c[..|message| - 16];
    }
  }

  /** Decrypting a chained message restores it. */
  lemma {:induction false} ChainRoundTrip(e: Block -> Block, d: Block -> Block, iv: Block, message: Blocks)
    requires Undoes(d, e)
    ensures ChainDecrypted(d, iv, ChainEncrypted(e, iv, message)) == message
    decreases |message|
  {
    hide Xored;
    if message != [] {
      var c := e(Xored(message[..16], iv));
      var all := ChainEncrypted(e, iv, message);
      assert all[..16] == c && all[16..] == ChainEncrypted(e, c, message[16..]);
      ChainRoundTrip(e, d, c, message[16..]);
      XoredTwice(message[..16], iv);
    }
  }
}
