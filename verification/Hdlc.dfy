/** Byte-stuffed framing over a byte stream that arrives in arbitrary chunks: the
    format, the reader and writer that buffer it, and why every frame gets through. */
module Hdlc {
  import opened Bytes

  const END: byte := 0x7E
  const ESC: byte := 0x7D

  // ---------- The format ----------

  /** A byte with its escape bit flipped. */
  function Toggled(c: byte): byte {
    if c / 32 % 2 == 1 then c - 32 else c + 32
  }

  lemma ToggledIsXor(b: bv8)
    ensures Toggled(Number8(b)) == Number8(b ^ 0x20)
  {
  }

  lemma ToggledTwice(c: byte)
    ensures Toggled(Toggled(c)) == c
  {
  }

  /** One byte as it travels. */
  function Escaped(c: byte): seq<byte> {
    if c == END || c == ESC then [ESC, Toggled(c)] else [c]
  }

  function Stuffed(data: seq<byte>): seq<byte> {
    if data == [] then [] else Escaped(data[0]) + Stuffed(data[1..])
  }

  /** Sections 4.1 and 4.2 of RFC 1662: stuffed data between two flag bytes. */
  function Frame(data: seq<byte>): seq<byte> {
    [END] + Stuffed(data) + [END]
  }

  function Frames(frames: seq<seq<byte>>): seq<byte> {
    if frames == [] then [] else Frame(frames[0]) + Frames(frames[1..])
  }

  lemma {:induction false} StuffedSum(a: seq<byte>, b: seq<byte>)
    ensures Stuffed(a + b) == Stuffed(a) + Stuffed(b)
    decreases |a|
  {
    hide Escaped;
    if a == [] {
      assert a + b == b;
    } else {
      assert (a + b)[1..] == a[1..] + b;
      StuffedSum(a[1..], b);
    }
  }

  /** Stuffed data holds no flag byte. */
  lemma {:induction false} StuffedHasNoFlag(data: seq<byte>)
    ensures END !in Stuffed(data)
  {
    if data != [] {
      StuffedHasNoFlag(data[1..]);
    }
  }

  // ---------- Reading one frame from a stream ----------

  /** How reading one frame ended, the bytes it collected, and the unread stream. */
  datatype Scan = Scan(status: Status, frame: seq<byte>, rest: seq<byte>)

  function Scanned(s: seq<byte>, initialized: bool, escaped: bool, frame: seq<byte>): (r: Scan)
    ensures |r.rest| <= |s|
    ensures s != [] ==> |r.rest| < |s|
    ensures r.status == Success ==> s != []
    ensures r.status == Success || r.status == Timeout || r.status == Io
    decreases |s|
  {
    if s == [] then Scan(Timeout, frame, [])
    else
      var c, rest := s[0], s[1..];
      if c == END then
        if escaped then Scan(Io, frame, rest)
        else if initialized then Scan(Success, frame, rest)
        else Scanned(rest, true, escaped, frame)
      else if !initialized then Scanned(rest, initialized, escaped, frame)
      else if c == ESC then
        if escaped then Scan(Io, frame, rest) else Scanned(rest, initialized, true, frame)
      else Scanned(rest, initialized, false, frame + [if escaped then Toggled(c) else c])
  }

  function NextFrame(s: seq<byte>): (r: Scan)
    ensures r.status == Success ==> |r.rest| < |s|
    ensures r.status == Success || r.status == Timeout || r.status == Io
  {
    Scanned(s, false, false, [])
  }

  lemma {:induction false} ScannedStuffed(data: seq<byte>, frame: seq<byte>, rest: seq<byte>)
    ensures Scanned(Stuffed(data) + ([END] + rest), true, false, frame) == Scan(Success, frame + data, rest)
    decreases |data|
  {
    hide Escaped, Toggled;
    var tail := [END] + rest;
    if data == [] {
      assert Stuffed(data) + tail == tail;
      assert frame + data == frame && tail[1..] == rest;
    } else {
      var c, more := data[0], Stuffed(data[1..]) + tail;
      assert Stuffed(data) + tail == Escaped(c) + more;
      ScannedEscaped(c, frame, more);
      ScannedStuffed(data[1..], frame + [c], rest);
      assert frame + [c] + data[1..] == frame + data;
    }
  }

  lemma ScannedEscaped(c: byte, frame: seq<byte>, more: seq<byte>)
    ensures Scanned(Escaped(c) + more, true, false, frame) == Scanned(more, true, false, frame + [c])
  {
    var s := Escaped(c) + more;
    if c == END || c == ESC {
      assert s[0] == ESC && s[1..][0] == Toggled(c) && s[1..][1..] == more;
      ToggledTwice(c);
    } else {
      assert s[0] == c && s[1..] == more;
    }
  }

  lemma {:induction false} NoiseIsSkipped(noise: seq<byte>, s: seq<byte>)
    requires END !in noise
    ensures Scanned(noise + s, false, false, []) == Scanned(s, false, false, [])
    decreases |noise|
  {
    if noise == [] {
      assert noise + s == s;
    } else {
      assert (noise + s)[1..] == noise[1..] + s;
      NoiseIsSkipped(noise[1..], s);
    }
  }

  /** A frame is read back whole, whatever noise without a flag byte precedes it. */
  lemma NextFrameReads(noise: seq<byte>, data: seq<byte>, rest: seq<byte>)
    requires END !in noise
    ensures NextFrame(noise + Frame(data) + rest) == Scan(Success, data, rest)
  {
    var tail := Stuffed(data) + ([END] + rest);
    assert noise + Frame(data) + rest == noise + ([END] + tail);
    NoiseIsSkipped(noise, [END] + tail);
    assert ([END] + tail)[1..] == tail;
    ScannedStuffed(data, [], rest);
  }

  /** The data that stuffed bytes stand for, when they are well formed. */
  function Unstuffed(s: seq<byte>): (r: (bool, seq<byte>)) {
    if s == [] then (true, [])
    else if s[0] == END then (false, [])
    else if s[0] == ESC then
      if |s| == 1 || s[1] == ESC || s[1] == END then (false, [])
      else var (ok, d) := Unstuffed(s[2..]); (ok, [Toggled(s[1])] + d)
    else var (ok, d) := Unstuffed(s[1..]); (ok, [s[0]] + d)
  }

  /** Unstuffing undoes stuffing. */
  lemma {:induction false} UnstuffedStuffed(data: seq<byte>)
    ensures Unstuffed(Stuffed(data)) == (true, data)
    decreases |data|
  {
    hide Toggled;
    if data != [] {
      var c, more := data[0], Stuffed(data[1..]);
      var s := Escaped(c) + more;
      UnstuffedStuffed(data[1..]);
      ToggledTwice(c);
      SpecialToggled();
      if c == END || c == ESC {
        assert s[0] == ESC && s[1] == Toggled(c) && s[2..] == more;
      } else {
        assert s[0] == c && s[1..] == more;
      }
      assert [c] + data[1..] == data;
    }
  }

  /** An escaped special byte is not special. */
  lemma SpecialToggled()
    ensures Toggled(END) != END && Toggled(END) != ESC && Toggled(ESC) != END && Toggled(ESC) != ESC
  {
  }

  /** A frame that has begun ends at a flag byte, and it is what the bytes before
      that flag stand for. */
  lemma {:induction false} SuccessMeansStuffed(s: seq<byte>, frame: seq<byte>)
    requires Scanned(s, true, false, frame).status == Success
    ensures var r := Scanned(s, true, false, frame);
      var n := |s| - |r.rest| - 1;
      && 0 <= n < |s| && s[n] == END && s[n + 1..] == r.rest
      && Unstuffed(s[..n]).0 && r.frame == frame + Unstuffed(s[..n]).1
    decreases |s|
  {
    hide Toggled, Scanned, Unstuffed;
    var r := Scanned(s, true, false, frame);
    var n := |s| - |r.rest| - 1;
    ScannedUnit(s, frame);
    if s[0] == END {
      NothingUnstuffed();
      assert s[..0] == [] && frame + [] == frame;
    } else {
      var k := if s[0] == ESC then 2 else 1;
      var c := if k == 2 then Toggled(s[1]) else s[0];
      SuccessMeansStuffed(s[k..], frame + [c]);
      PartsOfTail(s, k, n - k);
      UnstuffedUnit(s[..n]);
      assert s[..n][k..] == s[k..n];
      assert frame + [c] + Unstuffed(s[k..n]).1 == frame + ([c] + Unstuffed(s[k..n]).1);
    }
  }

  /** One byte of data, escaped or not, is read before the rest. */
  lemma ScannedUnit(s: seq<byte>, frame: seq<byte>)
    requires Scanned(s, true, false, frame).status == Success
    ensures s != [] && (s[0] == END ==> Scanned(s, true, false, frame) == Scan(Success, frame, s[1..]))
    ensures s[0] == ESC ==> |s| > 1 && s[1] != END && s[1] != ESC
    ensures s[0] == ESC ==>
              Scanned(s, true, false, frame) == Scanned(s[2..], true, false, frame + [Toggled(s[1])])
    ensures s[0] != ESC && s[0] != END ==>
              Scanned(s, true, false, frame) == Scanned(s[1..], true, false, frame + [s[0]])
  {
    hide Toggled;
    if s != [] && s[0] == ESC && |s| > 1 {
      assert s[1..][0] == s[1] && s[1..][1..] == s[2..];
    }
  }

  lemma NothingUnstuffed()
    ensures Unstuffed([]) == (true, [])
  {
  }

  lemma UnstuffedUnit(s: seq<byte>)
    requires s != [] && s[0] != END && (s[0] == ESC ==> |s| > 1 && s[1] != END && s[1] != ESC)
    ensures var k, c := if s[0] == ESC then 2 else 1, if s[0] == ESC then Toggled(s[1]) else s[0];
      Unstuffed(s).0 == Unstuffed(s[k..]).0 && Unstuffed(s).1 == [c] + Unstuffed(s[k..]).1
  {
    hide Toggled;
  }

  /** Where the first flag byte of a stream is. */
  function FirstFlag(s: seq<byte>): (i: nat)
    ensures i <= |s| && END !in s[..i] && (i < |s| ==> s[i] == END)
  {
    if s == [] || s[0] == END then 0
    else
      var i := FirstFlag(s[1..]);
      assert s[..i + 1] == [s[0]] + s[1..][..i];
      i + 1
  }

  /** A frame is read exactly from between the first flag byte and a later one. */
  lemma SuccessMeansFrame(s: seq<byte>)
    requires NextFrame(s).status == Success
    ensures var r := NextFrame(s);
      var i, n := FirstFlag(s), |s| - |r.rest| - 1;
      && i < n < |s| && s[i] == END && s[n] == END && s[n + 1..] == r.rest
      && Unstuffed(s[i + 1..n]) == (true, r.frame)
  {
    hide Scanned, Unstuffed, FirstFlag;
    var r := NextFrame(s);
    var i := FirstFlag(s);
    assert s == s[..i] + s[i..];
    NoiseIsSkipped(s[..i], s[i..]);
    FlagBegins(s[i..]);
    var t := s[i + 1..];
    assert s[i..][1..] == t;
    SuccessMeansStuffed(t, []);
    var n := |t| - |r.rest| - 1;
    PartsOfTail(s, i + 1, n);
    assert [] + Unstuffed(t[..n]).1 == Unstuffed(t[..n]).1;
  }

  lemma PartsOfTail(s: seq<byte>, i: nat, n: nat)
    requires i + n < |s|
    ensures s[i..][..n] == s[i..i + n] && s[i..][n] == s[i + n] && s[i..][n + 1..] == s[i + n + 1..]
  {
  }

  lemma FlagBegins(s: seq<byte>)
    requires Scanned(s, false, false, []).status == Success && (s != [] ==> s[0] == END)
    ensures s != [] && Scanned(s, false, false, []) == Scanned(s[1..], true, false, [])
  {
  }

  /** Reading `n` frames one after another. */
  function ScanMany(s: seq<byte>, n: nat): (r: (seq<Scan>, seq<byte>))
    ensures |r.0| == n
    decreases n
  {
    if n == 0 then ([], s)
    else
      var first := NextFrame(s);
      var (more, rest) := ScanMany(first.rest, n - 1);
      ([first] + more, rest)
  }

  lemma NextOfFrames(frames: seq<seq<byte>>, rest: seq<byte>)
    requires frames != []
    ensures NextFrame(Frames(frames) + rest) == Scan(Success, frames[0], Frames(frames[1..]) + rest)
  {
    hide NextFrame, Frame;
    NextFrameReads([], frames[0], Frames(frames[1..]) + rest);
    SumsAgree(Frame(frames[0]), Frames(frames[1..]), rest);
  }

  lemma SumsAgree(a: seq<byte>, b: seq<byte>, c: seq<byte>)
    ensures a + b + c == [] + a + (b + c) == a + (b + c)
  {
  }

  /** Any list of frames is read back in order, empty ones included, and what follows
      the last is left alone. */
  lemma {:induction false} FramesReadBack(frames: seq<seq<byte>>, rest: seq<byte>)
    ensures ScanMany(Frames(frames) + rest, |frames|).1 == rest
    ensures forall i | 0 <= i < |frames| ::
              var scan := ScanMany(Frames(frames) + rest, |frames|).0[i];
              scan.status == Success && scan.frame == frames[i]
    decreases |frames|
  {
    hide NextFrame, Frame;
    if frames == [] {
      assert Frames(frames) + rest == rest;
    } else {
      NextOfFrames(frames, rest);
      FramesReadBack(frames[1..], rest);
    }
  }

  lemma {:induction false} FramesSum(a: seq<seq<byte>>, b: seq<seq<byte>>)
    ensures Frames(a + b) == Frames(a) + Frames(b)
    decreases |a|
  {
    hide Frame;
    if a == [] {
      assert a + b == b;
    } else {
      assert (a + b)[1..] == a[1..] + b;
      FramesSum(a[1..], b);
    }
  }

  lemma FramesOfOne(data: seq<byte>)
    ensures Frames([data]) == Frame(data)
  {
    assert Frames([data][1..]) == [];
  }
}
