/** AES-128 on buffers: stages that overwrite a block in place, the
    key schedule, and cipher block chaining over whole buffers. */
module AesCbc {
  import opened AesTables
  import opened AesColumns
  import opened Aes
  import opened BlockChaining
  import opened Slices

  /** The working state: a window of sixteen bytes into a buffer, the expanded key,
      and the chaining block, which is a window into a buffer as well. */
  class AesState {
    var state: array<bv8>
    var at: nat
    const roundKey: array<bv8>
    var iv: array<bv8>
    var ivAt: nat

    constructor (output: array<bv8>, vector: array<bv8>)
      ensures state == output && at == 0 && iv == vector && ivAt == 0
      ensures fresh(roundKey) && roundKey.Length == 176
    {
      state, at, iv, ivAt := output, 0, vector, 0;
      roundKey := new bv8[176];
    }

    ghost predicate Ready()
      reads this
    {
      at + 16 <= state.Length && roundKey.Length == 176 && state != roundKey
    }

    ghost function Current(): Block
      requires Ready()
      reads this, state
    {
      state[at..at + 16]
    }

    /** What lies before and after the window. */
    ghost function Outside(): (r: (seq<bv8>, seq<bv8>))
      requires Ready()
      reads this, state
    {
      (state[..at], state[at + 16..])
    }

    ghost function Schedule(): RoundKeys
      requires Ready()
      reads this, roundKey
    {
      roundKey[..]
    }

    /** Row `r` of column `c`. */
    function Get(c: nat, r: nat): (b: bv8)
      requires Ready() && c < 4 && r < 4
      reads this, state
      ensures b == Current()[4 * c + r]
    {
      state[at + 4 * c + r]
    }

    method Put(c: nat, r: nat, b: bv8)
      requires Ready() && c < 4 && r < 4
      modifies state
      ensures Current() == old(Current())[4 * c + r := b]
      ensures Outside() == old(Outside())
    {
      state[at + 4 * c + r] := b;
    }

    /** Writes word `i` of the expanded key. */
    method PutWord(i: nat, b0: bv8, b1: bv8, b2: bv8, b3: bv8)
      requires i < 44 && roundKey.Length == 176
      modifies roundKey
      ensures roundKey[..4 * i + 4] == old(roundKey[..4 * i]) + [b0, b1, b2, b3]
    {
      roundKey[4 * i + 0] := b0;
      roundKey[4 * i + 1] := b1;
      roundKey[4 * i + 2] := b2;
      roundKey[4 * i + 3] := b3;
    }

    /** Reads word `i` of the expanded key. */
    method GetWord(i: nat, ghost key: Block, ghost n: nat) returns (b0: bv8, b1: bv8, b2: bv8, b3: bv8)
      requires i < n <= 44 && roundKey.Length == 176
      requires roundKey[..4 * n] == Expanded(key, n)
      ensures [b0, b1, b2, b3] == KeyWord(key, i)
    {
      hide Expanded, KeyWord;
      ExpandedAt(key, n, i);
      b0, b1, b2, b3 := roundKey[4 * i + 0], roundKey[4 * i + 1], roundKey[4 * i + 2], roundKey[4 * i + 3];
      assert [b0, b1, b2, b3] == roundKey[..4 * n][4 * i..4 * i + 4];
    }

    /** Appends word `i` behind the four words of the key. */
    method ExpandWord(i: nat, ghost key: Block)
      requires 4 <= i < 44 && roundKey.Length == 176 && roundKey[..4 * i] == Expanded(key, i)
      modifies roundKey
      ensures roundKey[..4 * i + 4] == Expanded(key, i + 1)
    {
      hide Plus, Sbox, KeyWord, Expanded, Turned, Xored;
      var t0, t1, t2, t3 := GetWord(i - 1, key, i);
      ghost var w := [t0, t1, t2, t3];
      if i % 4 == 0 {
        t0, t1, t2, t3 := t1, t2, t3, t0;
        t0, t1, t2, t3 := Sbox(t0), Sbox(t1), Sbox(t2), Sbox(t3);
        t0 := Plus(t0, RCON[i / 4]);
        TurnedIs(w, i / 4);
      }
      var p0, p1, p2, p3 := GetWord(i - 4, key, i);
      NextWord(key, i, w, p0, p1, p2, p3, t0, t1, t2, t3);
      PutWord(i, Plus(p0, t0), Plus(p1, t1), Plus(p2, t2), Plus(p3, t3));
    }

    method KeyExpansion(key: array<bv8>)
      requires key.Length == 16 && key != roundKey && roundKey.Length == 176
      modifies roundKey
      ensures roundKey[..] == KeySchedule(key[..])
    {
      hide Plus, Sbox, KeyWord, Expanded, Turned, Xored;
      ghost var k: Block := key[..];
      ExpandedNext(k, 0);
      var i := 0;
      while i < 4
        invariant 0 <= i <= 4
        invariant key[..] == k
        invariant roundKey[..4 * i] == Expanded(k, i)
      {
        PutWord(i, key[4 * i + 0], key[4 * i + 1], key[4 * i + 2], key[4 * i + 3]);
        assert [k[4 * i], k[4 * i + 1], k[4 * i + 2], k[4 * i + 3]] == k[4 * i..4 * i + 4];
        ExpandedNext(k, i);
        i := i + 1;
      }
      while i < 44
        invariant 4 <= i <= 44
        invariant roundKey[..4 * i] == Expanded(k, i)
      {
        ExpandWord(i, k);
        i := i + 1;
      }
      assert roundKey[..] == roundKey[..176];
    }

    method AddRoundKey(round: nat)
      requires Ready() && round <= ROUNDS
      modifies state
      ensures Current() == Keyed(old(Current()), Schedule(), round)
      ensures Outside() == old(Outside())
    {
      hide Plus, Keyed, Merged, Current, Outside, Get;
      ghost var s := Current();
      ghost var goal := Keyed(s, Schedule(), round);
      MergedEnds(goal, s);
      for i := 0 to 4
        invariant Current() == Merged(goal, s, 4 * i)
        invariant Outside() == old(Outside())
      {
        for j := 0 to 4
          invariant Current() == Merged(goal, s, 4 * i + j)
          invariant Outside() == old(Outside())
        {
          MergedStep(goal, s, 4 * i + j);
          KeyedAt(s, Schedule(), round, 4 * i + j);
          Put(i, j, Plus(Get(i, j), roundKey[16 * round + 4 * i + j]));
        }
      }
    }

    method SubBytes()
      requires Ready()
      modifies state
      ensures Current() == Substituted(old(Current()))
      ensures Outside() == old(Outside())
    {
      hide Sbox, MergedByRow, Current, Outside, Get;
      ghost var s := Current();
      ghost var goal := Substituted(s);
      MergedByRowEnds(goal, s);
      for i := 0 to 4
        invariant Current() == MergedByRow(goal, s, i, 0)
        invariant Outside() == old(Outside())
      {
        for j := 0 to 4
          invariant Current() == MergedByRow(goal, s, i, j)
          invariant Outside() == old(Outside())
        {
          MergedByRowStep(goal, s, i, j);
          Put(j, i, Sbox(Get(j, i)));
        }
        MergedByRowNext(goal, s, i);
      }
    }

    method InvSubBytes()
      requires Ready()
      modifies state
      ensures Current() == Unsubstituted(old(Current()))
      ensures Outside() == old(Outside())
    {
      hide Rsbox, MergedByRow, Current, Outside, Get;
      ghost var s := Current();
      ghost var goal := Unsubstituted(s);
      MergedByRowEnds(goal, s);
      for i := 0 to 4
        invariant Current() == MergedByRow(goal, s, i, 0)
        invariant Outside() == old(Outside())
      {
        for j := 0 to 4
          invariant Current() == MergedByRow(goal, s, i, j)
          invariant Outside() == old(Outside())
        {
          MergedByRowStep(goal, s, i, j);
          Put(j, i, Rsbox(Get(j, i)));
        }
        MergedByRowNext(goal, s, i);
      }
    }

    /** Rotate the second row one column to the left. */
    method RotateSecondLeft()
      requires Ready()
      modifies state
      ensures Current() == var s := old(Current()); s[1 := s[5]][5 := s[9]][9 := s[13]][13 := s[1]]
      ensures Outside() == old(Outside())
    {
      hide Current, Outside, Get;
      var temp := Get(0, 1);
      Put(0, 1, Get(1, 1));
      Put(1, 1, Get(2, 1));
      Put(2, 1, Get(3, 1));
      Put(3, 1, temp);
    }

    /** Rotate the third row two columns, in either direction. */
    method RotateThird()
      requires Ready()
      modifies state
      ensures Current() == var s := old(Current()); s[2 := s[10]][10 := s[2]][6 := s[14]][14 := s[6]]
      ensures Outside() == old(Outside())
    {
      hide Current, Outside, Get;
      var temp := Get(0, 2);
      Put(0, 2, Get(2, 2));
      Put(2, 2, temp);
      temp := Get(1, 2);
      Put(1, 2, Get(3, 2));
      Put(3, 2, temp);
    }

    /** Rotate the fourth row three columns to the left. */
    method RotateFourthLeft()
      requires Ready()
      modifies state
      ensures Current() == var s := old(Current()); s[3 := s[15]][15 := s[11]][11 := s[7]][7 := s[3]]
      ensures Outside() == old(Outside())
    {
      hide Current, Outside, Get;
      var temp := Get(0, 3);
      Put(0, 3, Get(3, 3));
      Put(3, 3, Get(2, 3));
      Put(2, 3, Get(1, 3));
      Put(1, 3, temp);
    }

    /** Rotate the second row one column to the right. */
    method RotateSecondRight()
      requires Ready()
      modifies state
      ensures Current() == var s := old(Current()); s[13 := s[9]][9 := s[5]][5 := s[1]][1 := s[13]]
      ensures Outside() == old(Outside())
    {
      hide Current, Outside, Get;
      var temp := Get(3, 1);
      Put(3, 1, Get(2, 1));
      Put(2, 1, Get(1, 1));
      Put(1, 1, Get(0, 1));
      Put(0, 1, temp);
    }

    /** Rotate the fourth row three columns to the right. */
    method RotateFourthRight()
      requires Ready()
      modifies state
      ensures Current() == var s := old(Current()); s[3 := s[7]][7 := s[11]][11 := s[15]][15 := s[3]]
      ensures Outside() == old(Outside())
    {
      hide Current, Outside, Get;
      var temp := Get(0, 3);
      Put(0, 3, Get(1, 3));
      Put(1, 3, Get(2, 3));
      Put(2, 3, Get(3, 3));
      Put(3, 3, temp);
    }

    method ShiftRows()
      requires Ready()
      modifies state
      ensures Current() == RowsShifted(old(Current()))
      ensures Outside() == old(Outside())
    {
      hide Current, Outside;
      RotateSecondLeft();
      RotateThird();
      RotateFourthLeft();
    }

    method InvShiftRows()
      requires Ready()
      modifies state
      ensures Current() == RowsUnshifted(old(Current()))
      ensures Outside() == old(Outside())
    {
      hide Current, Outside;
      RotateSecondRight();
      RotateThird();
      RotateFourthRight();
    }

    method MixColumns()
      requires Ready()
      modifies state
      ensures Current() == ColumnsMixed(old(Current()))
      ensures Outside() == old(Outside())
    {
      hide Current, Outside, Get, ColumnsMixed, MixedColumn, Merged, Plus, Plus4, Xtime;
      ghost var s := Current();
      ghost var goal := ColumnsMixed(s);
      MergedEnds(goal, s);
      for i := 0 to 4
        invariant Current() == Merged(goal, s, 4 * i)
        invariant Outside() == old(Outside())
      {
        MergedColumn(goal, s, i);
        ColumnsMixedAt(s, i);
        MixedColumnAsWritten(s[4 * i], s[4 * i + 1], s[4 * i + 2], s[4 * i + 3]);
        var t := Get(i, 0);
        var tmp := Plus4(Get(i, 0), Get(i, 1), Get(i, 2), Get(i, 3));
        var tm := Plus(Get(i, 0), Get(i, 1));
        tm := Xtime(tm);
        Put(i, 0, Plus(Get(i, 0), Plus(tm, tmp)));
        tm := Plus(Get(i, 1), Get(i, 2));
        tm := Xtime(tm);
        Put(i, 1, Plus(Get(i, 1), Plus(tm, tmp)));
        tm := Plus(Get(i, 2), Get(i, 3));
        tm := Xtime(tm);
        Put(i, 2, Plus(Get(i, 2), Plus(tm, tmp)));
        tm := Plus(Get(i, 3), t);
        tm := Xtime(tm);
        Put(i, 3, Plus(Get(i, 3), Plus(tm, tmp)));
      }
    }

    method InvMixColumns()
      requires Ready()
      modifies state
      ensures Current() == ColumnsUnmixed(old(Current()))
      ensures Outside() == old(Outside())
    {
      hide Current, Outside, Get, ColumnsUnmixed, UnmixedColumn, Merged, Plus4, Multiply;
      ghost var s := Current();
      ghost var goal := ColumnsUnmixed(s);
      MergedEnds(goal, s);
      for i := 0 to 4
        invariant Current() == Merged(goal, s, 4 * i)
        invariant Outside() == old(Outside())
      {
        MergedColumn(goal, s, i);
        ColumnsUnmixedAt(s, i);
        UnmixedColumnAsWritten(s[4 * i], s[4 * i + 1], s[4 * i + 2], s[4 * i + 3]);
        var a, b, c, d := Get(i, 0), Get(i, 1), Get(i, 2), Get(i, 3);
        Put(i, 0, Plus4(Multiply(a, 0x0e), Multiply(b, 0x0b), Multiply(c, 0x0d), Multiply(d, 0x09)));
        Put(i, 1, Plus4(Multiply(a, 0x09), Multiply(b, 0x0e), Multiply(c, 0x0b), Multiply(d, 0x0d)));
        Put(i, 2, Plus4(Multiply(a, 0x0d), Multiply(b, 0x09), Multiply(c, 0x0e), Multiply(d, 0x0b)));
        Put(i, 3, Plus4(Multiply(a, 0x0b), Multiply(b, 0x0d), Multiply(c, 0x09), Multiply(d, 0x0e)));
      }
    }

    method Cipher()
      requires Ready()
      modifies state
      ensures Current() == Encrypted(old(Current()), Schedule())
      ensures Outside() == old(Outside())
    {
      hide Current, Outside, Get, Keyed, RowsShifted, Substituted, ColumnsMixed;
      ghost var s, rk := Current(), Schedule();
      AddRoundKey(0);
      for round := 1 to ROUNDS
        invariant Current() == Rounds(s, rk, round - 1)
        invariant Schedule() == rk
        invariant Outside() == old(Outside())
      {
        SubBytes();
        ShiftRows();
        MixColumns();
        AddRoundKey(round);
      }
      SubBytes();
      ShiftRows();
      AddRoundKey(ROUNDS);
    }

    method InvCipher()
      requires Ready()
      modifies state
      ensures Current() == Decrypted(old(Current()), Schedule())
      ensures Outside() == old(Outside())
    {
      hide Current, Outside, Get, Keyed, RowsUnshifted, Unsubstituted, ColumnsUnmixed;
      ghost var s, rk := Current(), Schedule();
      AddRoundKey(ROUNDS);
      var round := ROUNDS - 1;
      while round > 0
        invariant 0 <= round < ROUNDS
        invariant Current() == Unwound(s, rk, ROUNDS - 1 - round)
        invariant Schedule() == rk
        invariant Outside() == old(Outside())
      {
        InvShiftRows();
        InvSubBytes();
        AddRoundKey(round);
        InvMixColumns();
        round := round - 1;
      }
      InvShiftRows();
      InvSubBytes();
      AddRoundKey(0);
    }

    /** Adds the chaining block to sixteen bytes of a buffer. */
    method XorWithIv(buf: array<bv8>, p: nat)
      requires p + 16 <= buf.Length && ivAt + 16 <= iv.Length && buf != iv
      modifies buf
      ensures buf[..] == Spliced(old(buf[..]), p, Xored(Window(old(buf[..]), p), Window(iv[..], ivAt)))
    {
      hide Plus, Xored;
      ghost var was, v := buf[..], Window(iv[..], ivAt);
      for i := 0 to 16
        invariant forall k | 0 <= k < buf.Length && !(p <= k < p + i) :: buf[k] == was[k]
        invariant forall k | p <= k < p + i :: buf[k] == Plus(was[k], v[k - p])
      {
        buf[p + i] := Plus(buf[p + i], iv[ivAt + i]);
      }
      XoredInPlace(was, buf[..], p, v);
    }
  }

  lemma XoredInPlace(was: seq<bv8>, now: seq<bv8>, p: nat, v: Block)
    requires p + 16 <= |was| == |now|
    requires forall k | 0 <= k < |was| && !(p <= k < p + 16) :: now[k] == was[k]
    requires forall k | p <= k < p + 16 :: now[k] == Plus(was[k], v[k - p])
    ensures now == Spliced(was, p, Xored(Window(was, p), v))
  {
    hide Plus;
    var goal := Spliced(was, p, Xored(Window(was, p), v));
    forall k | 0 <= k < |was|
      ensures now[k] == goal[k]
    {
      if p <= k < p + 16 {
        assert Window(was, p)[k - p] == was[k];
      }
    }
  }

  method BlockCopy(output: array<bv8>, o: nat, input: array<bv8>, p: nat)
    requires o + 16 <= output.Length && p + 16 <= input.Length && output != input
    modifies output
    ensures output[..] == Spliced(old(output[..]), o, Window(input[..], p))
  {
    for i := 0 to 16
      invariant forall k | 0 <= k < output.Length && !(o <= k < o + i) :: output[k] == old(output[k])
      invariant forall k | o <= k < o + i :: output[k] == input[p + (k - o)]
    {
      output[o + i] := input[p + i];
    }
  }

  /** The window of a working state, as a part of the whole buffer. */
  lemma WholeBuffer(s: AesState)
    requires s.Ready()
    ensures s.Current() == Window(s.state[..], s.at)
    ensures s.Outside() == (s.state[..][..s.at], s.state[..][s.at + 16..])
    ensures s.state[..] == s.Outside().0 + s.Current() + s.Outside().1
  {
    assert s.state[..][s.at..s.at + 16] == s.state[s.at..s.at + 16];
    assert s.state[..][..s.at] == s.state[..s.at];
    assert s.state[..][s.at + 16..] == s.state[s.at + 16..];
  }

  // ---------- Chaining over whole buffers ----------

  function Encryption(key: Block): Block -> Block {
    b => Encrypted(b, KeySchedule(key))
  }

  function Decryption(key: Block): Block -> Block {
    b => Decrypted(b, KeySchedule(key))
  }

  lemma DecryptionIs(key: Block)
    ensures forall b: Block :: Decryption(key)(b) == Decrypted(b, KeySchedule(key))
  {
    hide Decrypted, KeySchedule;
  }

  lemma DecryptionUndoesEncryption(key: Block)
    ensures Undoes(Decryption(key), Encryption(key))
  {
    hide Encrypted, Decrypted, KeySchedule, Decryption;
    DecryptionIs(key);
    forall b: Block
      ensures Decryption(key)(Encryption(key)(b)) == b
    {
      DecryptedEncrypted(b, KeySchedule(key));
    }
  }

  /** Decrypting a buffer under the key and vector it was encrypted with restores it. */
  lemma AesCbcRoundTrip(key: Block, iv: Block, message: Blocks)
    ensures ChainDecrypted(Decryption(key), iv, ChainEncrypted(Encryption(key), iv, message)) == message
  {
    hide Encryption, Decryption;
    DecryptionUndoesEncryption(key);
    ChainRoundTrip(Encryption(key), Decryption(key), iv, message);
  }

  method EncryptStep(s: AesState, output: array<bv8>, input: array<bv8>, i: nat, ghost key: Block)
    requires i + 16 <= output.Length && i + 16 <= input.Length && s.ivAt + 16 <= s.iv.Length
    requires output != input && input != s.iv
    requires s.roundKey != output && s.roundKey != input && s.roundKey != s.iv
    requires s.roundKey.Length == 176 && s.roundKey[..] == KeySchedule(key)
    modifies s, output, input
    ensures var x := Xored(Window(old(input[..]), i), Window(old(s.iv[..]), old(s.ivAt)));
      && input[..] == Spliced(old(input[..]), i, x)
      && output[..] == Spliced(old(output[..]), i, Encryption(key)(x))
    ensures s.iv == output && s.ivAt == i
  {
    hide AesState.Current, AesState.Outside, AesState.Get, Xored, Encrypted, KeySchedule, Window, Spliced;
    ghost var out0, inp0 := output[..], input[..];
    ghost var x := Xored(Window(input[..], i), Window(s.iv[..], s.ivAt));
    s.XorWithIv(input, i);
    SplicedParts(inp0, i, x);
    BlockCopy(output, i, input, i);
    SplicedParts(out0, i, x);
    s.state, s.at := output, i;
    WholeBuffer(s);
    s.Cipher();
    WholeBuffer(s);
    SplicedIs(out0, i, Encrypted(x, KeySchedule(key)));
    s.iv, s.ivAt := output, i;
  }

  /** What encrypting the first `i` bytes has done to the buffers `out` and `inp`,
      when `prev` is the block to chain from. */
  ghost predicate Encrypting(e: Block -> Block, vector: Block, m: Blocks, out0: seq<bv8>, inp0: seq<bv8>,
                             i: nat, out: seq<bv8>, inp: seq<bv8>, prev: Block)
  {
    && i % 16 == 0 && i <= |m| <= |out| && |m| <= |inp|
    && out[|m|..] == out0 && inp[|m|..] == inp0
    && inp[i..|m|] == m[i..]
    && out[..i] + ChainEncrypted(e, prev, m[i..]) == ChainEncrypted(e, vector, m)
    && inp[..i] + ChainMasked(e, prev, m[i..]) == ChainMasked(e, vector, m)
  }

  lemma EncryptingStarts(e: Block -> Block, vector: Block, m: Blocks, out: seq<bv8>, inp: seq<bv8>)
    requires |m| <= |out| && |m| <= |inp| && inp[..|m|] == m
    ensures Encrypting(e, vector, m, out[|m|..], inp[|m|..], 0, out, inp, vector)
  {
    hide ChainEncrypted, ChainMasked;
    assert m[0..] == m;
  }

  lemma EncryptingNext(e: Block -> Block, vector: Block, m: Blocks, out0: seq<bv8>, inp0: seq<bv8>,
                       i: nat, out: seq<bv8>, inp: seq<bv8>, prev: Block, x: Block)
    requires Encrypting(e, vector, m, out0, inp0, i, out, inp, prev) && i < |m|
    requires x == Xored(Window(inp, i), prev)
    ensures Encrypting(e, vector, m, out0, inp0, i + 16, Spliced(out, i, e(x)), Spliced(inp, i, x), e(x))
  {
    hide Xored, ChainEncrypted, ChainMasked, Spliced;
    var rest := m[i..];
    SliceOfSlice(inp, i, |m|, 0, 16);
    ChainNext(e, prev, rest);
    SliceOfTail(m, i, 0, 16);
    SliceOfTail(m, i, 16, |rest|);
    var out', inp' := Spliced(out, i, e(x)), Spliced(inp, i, x);
    SplicedParts(out, i, e(x));
    SplicedParts(inp, i, x);
    SliceOfSlice(inp, i, |m|, 16, |m| - i);
    SliceOfTail(out, i + 16, |m| - i - 16, |out| - i - 16);
    SliceOfTail(out', i + 16, |m| - i - 16, |out| - i - 16);
    SliceOfTail(inp, i + 16, |m| - i - 16, |inp| - i - 16);
    SliceOfTail(inp', i + 16, |m| - i - 16, |inp| - i - 16);
    SliceOfTail(inp, i + 16, 0, |m| - i - 16);
    SliceOfTail(inp', i + 16, 0, |m| - i - 16);
  }

  lemma EncryptingEnds(e: Block -> Block, vector: Block, m: Blocks, out0: seq<bv8>, inp0: seq<bv8>,
                       out: seq<bv8>, inp: seq<bv8>, prev: Block)
    requires Encrypting(e, vector, m, out0, inp0, |m|, out, inp, prev)
    ensures out[..|m|] == ChainEncrypted(e, vector, m) && out[|m|..] == out0
    ensures inp[..|m|] == ChainMasked(e, vector, m) && inp[|m|..] == inp0
  {
    assert m[|m|..] == [];
  }

  lemma ChainNext(e: Block -> Block, prev: Block, m: Blocks)
    requires m != []
    ensures var x := Xored(m[..16], prev);
      && ChainEncrypted(e, prev, m) == e(x) + ChainEncrypted(e, e(x), m[16..])
      && ChainMasked(e, prev, m) == x + ChainMasked(e, e(x), m[16..])
  {
    hide Xored;
  }

  /** The bytes in the blocks that hold `length` bytes. */
  function Whole(length: nat): (n: nat)
    ensures n % 16 == 0 && length <= n < length + 16
  {
    (length + 15) / 16 * 16
  }

  /** The room that the buffers need: one more block if the last one is not full, and one
      even for nothing. */
  function Room(length: nat): (room: nat)
    ensures room >= 16 && room >= Whole(length) && (length % 16 != 0 ==> room == Whole(length) + 16)
  {
    if length == 0 then 16 else if length % 16 == 0 then length else Whole(length) + 16
  }

  lemma WholeReached(length: nat, i: nat)
    requires i % 16 == 0 && i <= Whole(length)
    ensures if i < length then i + 16 <= Whole(length) else i == Whole(length)
    ensures length % 16 == 0 ==> Whole(length) == length
  {
  }

  /** The first `r` bytes of a block, and zeros. */
  function ZeroPadded(b: Block, r: nat): Block
    requires r <= 16
  {
    b[..r] + seq(16 - r, _ => 0)
  }

  method EncryptBlocks(s: AesState, output: array<bv8>, input: array<bv8>, length: nat, ghost key: Block,
                       ghost vector: Block)
    requires Whole(length) <= output.Length && Whole(length) <= input.Length && s.ivAt + 16 <= s.iv.Length
    requires output != input && s.iv != input && s.iv != output && Window(s.iv[..], s.ivAt) == vector
    requires s.roundKey != output && s.roundKey != input && s.roundKey != s.iv
    requires s.roundKey.Length == 176 && s.roundKey[..] == KeySchedule(key)
    modifies s, output, input
    ensures var n, e := Whole(length), Encryption(key);
      && output[..][..n] == ChainEncrypted(e, vector, old(input[..][..n]))
      && input[..][..n] == ChainMasked(e, vector, old(input[..][..n]))
      && output[..][n..] == old(output[..][n..]) && input[..][n..] == old(input[..][n..])
  {
    hide Encryption, Xored, KeySchedule, Spliced, Window, ChainEncrypted, ChainMasked, Encrypting, Whole;
    ghost var n, e := Whole(length), Encryption(key);
    ghost var m: Blocks := input[..][..n];
    ghost var out0, inp0 := output[..][n..], input[..][n..];
    EncryptingStarts(e, vector, m, output[..], input[..]);
    var i := 0;
    while i < length
      invariant i <= n && i % 16 == 0
      invariant s.ivAt + 16 <= s.iv.Length && (s.iv == old(s.iv) || s.iv == output)
      invariant Encrypting(e, vector, m, out0, inp0, i, output[..], input[..], Window(s.iv[..], s.ivAt))
    {
      WholeReached(length, i);
      ghost var prev, out, inp := Window(s.iv[..], s.ivAt), output[..], input[..];
      ghost var x: Block := Xored(Window(inp, i), prev);
      EncryptingNext(e, vector, m, out0, inp0, i, out, inp, prev, x);
      SplicedParts(out, i, e(x));
      EncryptStep(s, output, input, i, key);
      i := i + 16;
    }
    WholeReached(length, i);
    EncryptingEnds(e, vector, m, out0, inp0, output[..], input[..], Window(s.iv[..], s.ivAt));
  }

  /** Fills a block with zeros from its byte `r` on. */
  method FillZeros(buf: array<bv8>, p: nat, r: nat)
    requires p + 16 <= buf.Length && r <= 16
    modifies buf
    ensures buf[..] == Spliced(old(buf[..]), p, ZeroPadded(Window(old(buf[..]), p), r))
  {
    for i := r to 16
      invariant forall k | 0 <= k < buf.Length && !(p + r <= k < p + i) :: buf[k] == old(buf[k])
      invariant forall k | p + r <= k < p + i :: buf[k] == 0
    {
      buf[p + i] := 0;
    }
  }

  /** What follows the last block that is not full: a padded block of its own, not chained. */
  method EncryptTail(s: AesState, output: array<bv8>, input: array<bv8>, p: nat, r: nat, ghost key: Block)
    requires p + 16 <= output.Length && p + 16 <= input.Length && r <= 16 && output != input
    requires s.roundKey != output && s.roundKey.Length == 176 && s.roundKey[..] == KeySchedule(key)
    modifies s, output
    ensures output[..] == Spliced(old(output[..]), p, Encryption(key)(ZeroPadded(Window(input[..], p), r)))
  {
    hide AesState.Current, AesState.Outside, AesState.Get, Encrypted, KeySchedule, Window, Spliced, ZeroPadded;
    ghost var out0, b := output[..], Window(input[..], p);
    BlockCopy(output, p, input, p);
    SplicedParts(out0, p, b);
    FillZeros(output, p, r);
    SplicedAgain(out0, p, b, ZeroPadded(b, r));
    SplicedParts(out0, p, ZeroPadded(b, r));
    s.state, s.at := output, p;
    WholeBuffer(s);
    s.Cipher();
    WholeBuffer(s);
    SplicedIs(out0, p, Encrypted(ZeroPadded(b, r), KeySchedule(key)));
  }

  /** Encrypts `length` bytes and what fills up their last block; the blocks given to the
      cipher are left in `input`. If the last block is not full, one more is encrypted
      behind it. */
  method EncryptBuffer(output: array<bv8>, input: array<bv8>, length: nat, key: array<bv8>, iv: array<bv8>)
    requires Room(length) <= output.Length && Room(length) <= input.Length
    requires key.Length == 16 && iv.Length == 16
    requires output != input && output != key && output != iv && input != key && input != iv
    modifies output, input
    ensures var n, r, e := Whole(length), length % 16, Encryption(key[..]);
      && input[..][..n] == ChainMasked(e, iv[..], old(input[..][..n])) && input[..][n..] == old(input[..][n..])
      && (length == 0 ==> output[..] == Spliced(old(output[..]), 0, Window(input[..], 0)))
      && (length > 0 ==> output[..][..n] == ChainEncrypted(e, iv[..], old(input[..][..n])))
      && (length > 0 && r == 0 ==> output[..][n..] == old(output[..][n..]))
      && (r > 0 ==> output[..][n..] == e(ZeroPadded(Window(input[..], n), r)) + old(output[..][n + 16..]))
  {
    hide Encryption, KeySchedule, Spliced, Window, ChainEncrypted, ChainMasked, ZeroPadded, Whole, Room;
    ghost var k: Block, vector: Block := key[..], iv[..];
    ghost var out0 := output[..];
    ReachFirst(length);
    BlockCopy(output, 0, input, 0);
    var s := new AesState(output, iv);
    s.KeyExpansion(key);
    WindowOfBlock(vector);
    EncryptBlocks(s, output, input, length, k, vector);
    ghost var n, out := Whole(length), output[..];
    if length == 0 {
      NothingChained(Encryption(k), vector, out, input[..]);
    } else {
      SplicedTail(out0, 0, Window(old(input[..]), 0), n);
    }
    if length % 16 != 0 {
      EncryptTail(s, output, input, Whole(length), length % 16, k);
      TailReplaced(out0, out, n, Encryption(k)(ZeroPadded(Window(input[..], n), length % 16)));
    }
  }

  lemma NothingChained(e: Block -> Block, vector: Block, out: seq<bv8>, inp: seq<bv8>)
    ensures ChainMasked(e, vector, inp[..0]) == [] && ChainEncrypted(e, vector, inp[..0]) == []
    ensures out[0..] == out && inp[0..] == inp && inp[..0] == []
  {
  }

  /** Replacing the block at `n` when so far nothing behind it has changed. */
  lemma TailReplaced(was: seq<bv8>, mid: seq<bv8>, n: nat, b: Block)
    requires n + 16 <= |was| == |mid| && mid[n..] == was[n..]
    ensures Spliced(mid, n, b)[..n] == mid[..n] && Spliced(mid, n, b)[n..] == b + was[n + 16..]
  {
    SliceOfTail(was, n, 16, |was| - n);
    SliceOfTail(mid, n, 16, |mid| - n);
  }

  lemma ReachFirst(length: nat)
    ensures Whole(0) == 0 && (length > 0 ==> Whole(length) >= 16)
  {
  }

  lemma SplicedTail(buf: seq<bv8>, p: nat, b: Block, n: nat)
    requires p + 16 <= n <= |buf|
    ensures Spliced(buf, p, b)[n..] == buf[n..]
  {
  }

  lemma WindowOfBlock(b: Block)
    ensures Window(b, 0) == b
  {
  }

  method DecryptStep(s: AesState, output: array<bv8>, input: array<bv8>, i: nat, ghost key: Block)
    requires i + 16 <= output.Length && i + 16 <= input.Length && s.ivAt + 16 <= s.iv.Length
    requires output != input && output != s.iv
    requires s.roundKey != output && s.roundKey != input && s.roundKey != s.iv
    requires s.roundKey.Length == 176 && s.roundKey[..] == KeySchedule(key)
    modifies s, output
    ensures output[..] == Spliced(old(output[..]), i,
      Xored(Decryption(key)(Window(input[..], i)), Window(old(s.iv[..]), old(s.ivAt))))
    ensures s.iv == input && s.ivAt == i
  {
    hide AesState.Current, AesState.Outside, AesState.Get, Xored, Decrypted, KeySchedule, Window, Spliced;
    ghost var out0, b := output[..], Window(input[..], i);
    ghost var plain := Decrypted(b, KeySchedule(key));
    BlockCopy(output, i, input, i);
    SplicedParts(out0, i, b);
    s.state, s.at := output, i;
    WholeBuffer(s);
    s.InvCipher();
    WholeBuffer(s);
    SplicedIs(out0, i, plain);
    SplicedParts(out0, i, plain);
    ghost var prev := Window(s.iv[..], s.ivAt);
    s.XorWithIv(output, i);
    SplicedAgain(out0, i, plain, Xored(plain, prev));
    s.iv, s.ivAt := input, i;
  }

  ghost predicate Decrypting(d: Block -> Block, vector: Block, m: Blocks, out0: seq<bv8>,
                             i: nat, out: seq<bv8>, prev: Block)
  {
    && i % 16 == 0 && i <= |m| <= |out|
    && out[|m|..] == out0
    && out[..i] + ChainDecrypted(d, prev, m[i..]) == ChainDecrypted(d, vector, m)
  }

  lemma DecryptingNext(d: Block -> Block, vector: Block, m: Blocks, out0: seq<bv8>,
                       i: nat, out: seq<bv8>, prev: Block, b: Block)
    requires Decrypting(d, vector, m, out0, i, out, prev) && i < |m|
    requires b == m[i..][..16]
    ensures Decrypting(d, vector, m, out0, i + 16, Spliced(out, i, Xored(d(b), prev)), b)
  {
    hide Xored, Spliced;
    SliceOfTail(m, i, 0, 16);
    SliceOfTail(m, i, 16, |m| - i);
    var out' := Spliced(out, i, Xored(d(b), prev));
    SplicedParts(out, i, Xored(d(b), prev));
    SliceOfTail(out, i + 16, |m| - i - 16, |out| - i - 16);
    SliceOfTail(out', i + 16, |m| - i - 16, |out| - i - 16);
  }

  method DecryptBlocks(s: AesState, output: array<bv8>, input: array<bv8>, length: nat, ghost key: Block,
                       ghost vector: Block)
    requires Whole(length) <= output.Length && Whole(length) <= input.Length && s.ivAt + 16 <= s.iv.Length
    requires output != input && s.iv != output && Window(s.iv[..], s.ivAt) == vector
    requires s.roundKey != output && s.roundKey != input && s.roundKey != s.iv
    requires s.roundKey.Length == 176 && s.roundKey[..] == KeySchedule(key)
    modifies s, output
    ensures var n := Whole(length);
      && output[..][..n] == ChainDecrypted(Decryption(key), vector, input[..][..n])
      && output[..][n..] == old(output[..][n..])
  {
    hide Decryption, Xored, KeySchedule, Spliced, Window, ChainDecrypted, Decrypting, Whole;
    ghost var n, d := Whole(length), Decryption(key);
    ghost var m: Blocks, out0 := input[..][..n], output[..][n..];
    DecryptingStarts(d, vector, m, output[..]);
    var i := 0;
    while i < length
      invariant i <= n && i % 16 == 0
      invariant s.ivAt + 16 <= s.iv.Length && (s.iv == old(s.iv) || s.iv == input)
      invariant Decrypting(d, vector, m, out0, i, output[..], Window(s.iv[..], s.ivAt))
    {
      WholeReached(length, i);
      ghost var b := Window(input[..], i);
      WindowOfPrefix(input[..], n, i);
      DecryptingNext(d, vector, m, out0, i, output[..], Window(s.iv[..], s.ivAt), b);
      DecryptStep(s, output, input, i, key);
      i := i + 16;
    }
    WholeReached(length, i);
    DecryptingEnds(d, vector, m, out0, output[..], Window(s.iv[..], s.ivAt));
  }

  method DecryptTail(s: AesState, output: array<bv8>, input: array<bv8>, p: nat, r: nat, ghost key: Block)
    requires p + 16 <= output.Length && p + 16 <= input.Length && r <= 16 && output != input
    requires s.roundKey != output && s.roundKey.Length == 176 && s.roundKey[..] == KeySchedule(key)
    modifies s, output
    ensures output[..] == Spliced(old(output[..]), p, Decryption(key)(ZeroPadded(Window(input[..], p), r)))
  {
    hide AesState.Current, AesState.Outside, AesState.Get, Decrypted, KeySchedule, Window, Spliced, ZeroPadded;
    ghost var out0, b := output[..], Window(input[..], p);
    BlockCopy(output, p, input, p);
    SplicedParts(out0, p, b);
    FillZeros(output, p, r);
    SplicedAgain(out0, p, b, ZeroPadded(b, r));
    SplicedParts(out0, p, ZeroPadded(b, r));
    s.state, s.at := output, p;
    WholeBuffer(s);
    s.InvCipher();
    WholeBuffer(s);
    SplicedIs(out0, p, Decrypted(ZeroPadded(b, r), KeySchedule(key)));
  }

  /** Decrypts `length` bytes and what fills up their last block. If that is not full, one
      more is decrypted behind it. */
  method DecryptBuffer(output: array<bv8>, input: array<bv8>, length: nat, key: array<bv8>, iv: array<bv8>)
    requires Room(length) <= output.Length && Room(length) <= input.Length
    requires key.Length == 16 && iv.Length == 16
    requires output != input && output != key && output != iv
    modifies output
    ensures var n, r, d := Whole(length), length % 16, Decryption(key[..]);
      && (length == 0 ==> output[..] == Spliced(old(output[..]), 0, Window(input[..], 0)))
      && (length > 0 ==> output[..][..n] == ChainDecrypted(d, iv[..], input[..][..n]))
      && (length > 0 && r == 0 ==> output[..][n..] == old(output[..][n..]))
      && (r > 0 ==> output[..][n..] == d(ZeroPadded(Window(input[..], n), r)) + old(output[..][n + 16..]))
  {
    hide Decryption, KeySchedule, Spliced, Window, ChainDecrypted, ZeroPadded, Whole, Room;
    ghost var k: Block, vector: Block := key[..], iv[..];
    ghost var out0 := output[..];
    ReachFirst(length);
    BlockCopy(output, 0, input, 0);
    var s := new AesState(output, iv);
    s.KeyExpansion(key);
    WindowOfBlock(vector);
    DecryptBlocks(s, output, input, length, k, vector);
    ghost var n, out := Whole(length), output[..];
    if length == 0 {
      assert out[0..] == out;
    } else {
      SplicedTail(out0, 0, Window(input[..], 0), n);
    }
    if length % 16 != 0 {
      DecryptTail(s, output, input, Whole(length), length % 16, k);
      TailReplaced(out0, out, n, Decryption(k)(ZeroPadded(Window(input[..], n), length % 16)));
    }
  }

  /** A message of any length comes back when it is encrypted and decrypted, in buffers
      that hold whole blocks. */
  method Restore(output: array<bv8>, middle: array<bv8>, input: array<bv8>, length: nat, key: array<bv8>,
                 iv: array<bv8>)
    requires Room(length) <= output.Length && Room(length) <= middle.Length && Room(length) <= input.Length
    requires key.Length == 16 && iv.Length == 16
    requires output != middle && output != input && middle != input
    requires output != key && output != iv && middle != key && middle != iv && input != key && input != iv
    modifies output, middle, input
    ensures output[..][..length] == old(input[..][..length])
  {
    hide Encryption, Decryption, ChainEncrypted, ChainDecrypted, ChainMasked, Spliced, ZeroPadded;
    ghost var n, m := Whole(length), input[..];
    EncryptBuffer(middle, input, length, key, iv);
    DecryptBuffer(output, middle, length, key, iv);
    if length > 0 {
      AesCbcRoundTrip(key[..], iv[..], m[..n]);
      assert output[..][..n][..length] == output[..][..length] && m[..n][..length] == m[..length];
    }
  }

  lemma WindowOfPrefix(buf: seq<bv8>, n: nat, i: nat)
    requires i + 16 <= n <= |buf|
    ensures Window(buf, i) == buf[..n][i..][..16]
  {
  }

  lemma DecryptingStarts(d: Block -> Block, vector: Block, m: Blocks, out: seq<bv8>)
    requires |m| <= |out|
    ensures Decrypting(d, vector, m, out[|m|..], 0, out, vector)
  {
    assert m[0..] == m;
  }

  lemma DecryptingEnds(d: Block -> Block, vector: Block, m: Blocks, out0: seq<bv8>, out: seq<bv8>, prev: Block)
    requires Decrypting(d, vector, m, out0, |m|, out, prev)
    ensures out[..|m|] == ChainDecrypted(d, vector, m) && out[|m|..] == out0
  {
    assert m[|m|..] == [];
  }

  // ---------- Steps of the key schedule ----------

  lemma ExpandedNext(key: Block, i: nat)
    requires i < 44
    ensures Expanded(key, 0) == []
    ensures Expanded(key, i + 1) == Expanded(key, i) + KeyWord(key, i)
    ensures i < 4 ==> KeyWord(key, i) == key[4 * i..4 * i + 4]
    ensures i >= 4 ==> KeyWord(key, i) == Xored(KeyWord(key, i - 4),
      if i % 4 == 0 then Turned(KeyWord(key, i - 1), i / 4) else KeyWord(key, i - 1))
  {
    hide Turned, Xored;
  }

  lemma TurnedIs(w: seq<bv8>, n: nat)
    requires |w| == 4 && 1 <= n <= ROUNDS
    ensures Turned(w, n) == [Plus(Sbox(w[1]), RCON[n]), Sbox(w[2]), Sbox(w[3]), Sbox(w[0])]
  {
    hide Sbox, Plus;
  }

  lemma NextWord(key: Block, i: nat, w: seq<bv8>, p0: bv8, p1: bv8, p2: bv8, p3: bv8,
                 t0: bv8, t1: bv8, t2: bv8, t3: bv8)
    requires 4 <= i < 44 && w == KeyWord(key, i - 1) && [p0, p1, p2, p3] == KeyWord(key, i - 4)
    requires [t0, t1, t2, t3] == if i % 4 == 0 then Turned(w, i / 4) else w
    ensures Expanded(key, i + 1) == Expanded(key, i) + [Plus(p0, t0), Plus(p1, t1), Plus(p2, t2), Plus(p3, t3)]
  {
    hide Plus, KeyWord, Expanded, Turned, Xored;
    ExpandedNext(key, i);
    XoredIs(p0, p1, p2, p3, t0, t1, t2, t3);
  }

  lemma XoredIs(p0: bv8, p1: bv8, p2: bv8, p3: bv8, t0: bv8, t1: bv8, t2: bv8, t3: bv8)
    ensures Xored([p0, p1, p2, p3], [t0, t1, t2, t3]) == [Plus(p0, t0), Plus(p1, t1), Plus(p2, t2), Plus(p3, t3)]
  {
    hide Plus;
  }

  // ---------- A block that a loop has partly replaced ----------

  function Merged(goal: Block, s: Block, n: nat): Block
    requires n <= 16
  {
    goal[..n] + s[n..]
  }

  lemma MergedEnds(goal: Block, s: Block)
    ensures Merged(goal, s, 0) == s
    ensures Merged(goal, s, 16) == goal
  {
  }

  lemma MergedStep(goal: Block, s: Block, n: nat)
    requires n < 16
    ensures Merged(goal, s, n)[n] == s[n]
    ensures Merged(goal, s, n)[n := goal[n]] == Merged(goal, s, n + 1)
  {
  }

  /** Rows before `i` are replaced, and in row `i` the columns before `j`. */
  function MergedByRow(goal: Block, s: Block, i: nat, j: nat): Block {
    seq(16, k requires 0 <= k < 16 => if k % 4 < i || (k % 4 == i && k / 4 < j) then goal[k] else s[k])
  }

  lemma MergedByRowEnds(goal: Block, s: Block)
    ensures MergedByRow(goal, s, 0, 0) == s
    ensures MergedByRow(goal, s, 4, 0) == goal
  {
  }

  lemma MergedByRowStep(goal: Block, s: Block, i: nat, j: nat)
    requires i < 4 && j < 4
    ensures MergedByRow(goal, s, i, j)[4 * j + i] == s[4 * j + i]
    ensures MergedByRow(goal, s, i, j)[4 * j + i := goal[4 * j + i]] == MergedByRow(goal, s, i, j + 1)
  {
  }

  lemma MergedByRowNext(goal: Block, s: Block, i: nat)
    ensures MergedByRow(goal, s, i, 4) == MergedByRow(goal, s, i + 1, 0)
  {
  }

  lemma KeyedAt(s: Block, rk: RoundKeys, round: nat, k: nat)
    requires round <= ROUNDS && k < 16
    ensures Keyed(s, rk, round)[k] == Plus(s[k], rk[16 * round + k])
  {
    hide Plus;
  }

  /** Replacing the four bytes of column `i` advances the partly replaced block. */
  lemma MergedColumn(goal: Block, s: Block, i: nat)
    requires i < 4
    ensures var m := Merged(goal, s, 4 * i);
      && m[4 * i] == s[4 * i] && m[4 * i + 1] == s[4 * i + 1]
      && m[4 * i + 2] == s[4 * i + 2] && m[4 * i + 3] == s[4 * i + 3]
      && m[4 * i := goal[4 * i]][4 * i + 1 := goal[4 * i + 1]]
          [4 * i + 2 := goal[4 * i + 2]][4 * i + 3 := goal[4 * i + 3]] == Merged(goal, s, 4 * i + 4)
  {
    hide Merged;
    MergedStep(goal, s, 4 * i);
    MergedStep(goal, s, 4 * i + 1);
    MergedStep(goal, s, 4 * i + 2);
    MergedStep(goal, s, 4 * i + 3);
  }

  lemma ColumnsMixedAt(s: Block, i: nat)
    requires i < 4
    ensures var goal, column := ColumnsMixed(s), MixedColumn(s[4 * i], s[4 * i + 1], s[4 * i + 2], s[4 * i + 3]);
      && goal[4 * i] == column[0] && goal[4 * i + 1] == column[1]
      && goal[4 * i + 2] == column[2] && goal[4 * i + 3] == column[3]
  {
    hide MixedColumn;
    if i == 0 {
    } else if i == 1 {
    } else if i == 2 {
    }
  }

  lemma ColumnsUnmixedAt(s: Block, i: nat)
    requires i < 4
    ensures var goal, column := ColumnsUnmixed(s), UnmixedColumn(s[4 * i], s[4 * i + 1], s[4 * i + 2], s[4 * i + 3]);
      && goal[4 * i] == column[0] && goal[4 * i + 1] == column[1]
      && goal[4 * i + 2] == column[2] && goal[4 * i + 3] == column[3]
  {
    hide UnmixedColumn;
    if i == 0 {
    } else if i == 1 {
    } else if i == 2 {
    }
  }

  /** A mixed column, with the sum of its bytes shared between the rows. */
  lemma MixedColumnAsWritten(a: bv8, b: bv8, c: bv8, d: bv8)
    ensures var tmp := Plus4(a, b, c, d);
      MixedColumn(a, b, c, d) == [MixStep(a, b, tmp), MixStep(b, c, tmp), MixStep(c, d, tmp), MixStep(d, a, tmp)]
  {
    hide MixStep, MixRow, Plus4;
    MixStepIsMixRow(a, b, c, d);
    MixStepIsMixRow(b, c, d, a);
    MixStepIsMixRow(c, d, a, b);
    MixStepIsMixRow(d, a, b, c);
    SumRotates(a, b, c, d);
    SumRotates(b, c, d, a);
    SumRotates(c, d, a, b);
  }

  /** An unmixed column, with the products of each row in the order of the columns. */
  lemma UnmixedColumnAsWritten(a: bv8, b: bv8, c: bv8, d: bv8)
    ensures UnmixedColumn(a, b, c, d) ==
      [ Plus4(Multiply(a, 0x0e), Multiply(b, 0x0b), Multiply(c, 0x0d), Multiply(d, 0x09)),
        Plus4(Multiply(a, 0x09), Multiply(b, 0x0e), Multiply(c, 0x0b), Multiply(d, 0x0d)),
        Plus4(Multiply(a, 0x0d), Multiply(b, 0x09), Multiply(c, 0x0e), Multiply(d, 0x0b)),
        Plus4(Multiply(a, 0x0b), Multiply(b, 0x0d), Multiply(c, 0x09), Multiply(d, 0x0e)) ]
  {
    hide UnmixRow, Plus4, Multiply;
    UnmixRowAsWritten(a, b, c, d);
    UnmixRowAsWritten(b, c, d, a);
    UnmixRowAsWritten(c, d, a, b);
    UnmixRowAsWritten(d, a, b, c);
    SumRotates(Multiply(a, 0x09), Multiply(b, 0x0e), Multiply(c, 0x0b), Multiply(d, 0x0d));
    SumRotates(Multiply(a, 0x0d), Multiply(b, 0x09), Multiply(c, 0x0e), Multiply(d, 0x0b));
    SumRotates(Multiply(b, 0x09), Multiply(c, 0x0e), Multiply(d, 0x0b), Multiply(a, 0x0d));
    SumRotates(Multiply(d, 0x0e), Multiply(a, 0x0b), Multiply(b, 0x0d), Multiply(c, 0x09));
  }
}
