/** What the reader of frames makes of bytes that are no frames: when it is in step with
    the sender again, and when it never will be. */
module HdlcSync {
  import opened Bytes
  import opened Hdlc

  // ---------- Where the reader is ----------

  /** Between frames, or inside what it takes for one, with the bytes collected so far,
      or there behind an escape. */
  datatype Place = Out | In(frame: seq<byte>) | Esc(frame: seq<byte>)

  function Step(p: Place, c: byte): Place {
    match p
    case Out => if c == END then In([]) else Out
    case In(frame) => if c == END then Out else if c == ESC then Esc(frame) else In(frame + [c])
    case Esc(frame) => if c == END || c == ESC then Out else In(frame + [Toggled(c)])
  }

  /** Where it is after these bytes. */
  function PlaceAfter(p: Place, g: seq<byte>): Place
    decreases |g|
  {
    if g == [] then p else PlaceAfter(Step(p, g[0]), g[1..])
  }

  /** How many reads end within these bytes. */
  function Ends(p: Place, g: seq<byte>): nat
    decreases |g|
  {
    if g == [] then 0
    else (if !p.Out? && Step(p, g[0]).Out? then 1 else 0) + Ends(Step(p, g[0]), g[1..])
  }

  /** The rest of a read from such a place. */
  function ScanFrom(p: Place, s: seq<byte>): Scan {
    match p
    case Out => NextFrame(s)
    case In(frame) => Scanned(s, true, false, frame)
    case Esc(frame) => Scanned(s, true, true, frame)
  }

  lemma ScanStep(p: Place, c: byte, more: seq<byte>)
    ensures ScanFrom(p, [c] + more) ==
            if !p.Out? && Step(p, c).Out? then Scan(if p.In? then Success else Io, p.frame, more)
            else ScanFrom(Step(p, c), more)
  {
    hide Toggled;
    assert ([c] + more)[1..] == more;
  }

  /** The first read either goes on behind these bytes or ends within them. */
  lemma {:induction false} FirstRead(p: Place, g: seq<byte>, t: seq<byte>) returns (i: nat)
    ensures i <= |g|
    ensures if Ends(p, g) == 0 then ScanFrom(p, g + t) == ScanFrom(PlaceAfter(p, g), t)
            else ScanFrom(p, g + t).rest == g[i..] + t
                 && Ends(Out, g[i..]) == Ends(p, g) - 1 && PlaceAfter(Out, g[i..]) == PlaceAfter(p, g)
    decreases |g|
  {
    hide ScanFrom, Step;
    if g == [] {
      assert g + t == t;
      i := 0;
    } else {
      assert g + t == [g[0]] + (g[1..] + t);
      ScanStep(p, g[0], g[1..] + t);
      if !p.Out? && Step(p, g[0]).Out? {
        i := 1;
      } else {
        i := FirstRead(Step(p, g[0]), g[1..], t);
        assert i < |g| && g[1..][i..] == g[i + 1..];
        i := i + 1;
      }
    }
  }

  /** The reads that end within these bytes leave the next one to go on where they stop. */
  lemma {:induction false} ReadsWithin(g: seq<byte>, t: seq<byte>)
    ensures NextFrame(ScanMany(g + t, Ends(Out, g)).1) == ScanFrom(PlaceAfter(Out, g), t)
    ensures forall n | 0 <= n < Ends(Out, g) :: |NextFrame(ScanMany(g + t, n).1).rest| >= |t|
    decreases Ends(Out, g)
  {
    hide NextFrame, PlaceAfter, Ends;
    var i := FirstRead(Out, g, t);
    if Ends(Out, g) > 0 {
      var later := g[i..];
      ReadsWithin(later, t);
      forall n | 0 <= n < Ends(Out, g)
        ensures |NextFrame(ScanMany(g + t, n).1).rest| >= |t|
      {
        if n > 0 {
          assert ScanMany(g + t, n).1 == ScanMany(later + t, n - 1).1;
        }
      }
    }
  }

  // ---------- Whether the next frame is read ----------

  /** After any bytes whatever: the read that meets the next frame, and what it makes of it. */
  lemma FrameMet(g: seq<byte>, data: seq<byte>, rest: seq<byte>)
    ensures var p, r := PlaceAfter(Out, g), NextFrame(ScanMany(g + Frame(data) + rest, Ends(Out, g)).1);
      match p
      case Out => r == Scan(Success, data, rest)
      case In(frame) => r == Scan(Success, frame, Stuffed(data) + [END] + rest)
      case Esc(frame) => r == Scan(Io, frame, Stuffed(data) + [END] + rest)
  {
    hide Ends, PlaceAfter, ScanMany, Frame, Stuffed, NextFrame;
    var t := Frame(data) + rest;
    assert g + Frame(data) + rest == g + t;
    ReadsWithin(g, t);
    FlagMet(PlaceAfter(Out, g), data, rest);
  }

  lemma FlagMet(p: Place, data: seq<byte>, rest: seq<byte>)
    ensures ScanFrom(p, Frame(data) + rest) ==
            match p
            case Out => Scan(Success, data, rest)
            case In(frame) => Scan(Success, frame, Stuffed(data) + [END] + rest)
            case Esc(frame) => Scan(Io, frame, Stuffed(data) + [END] + rest)
  {
    hide NextFrame, Stuffed;
    NextFrameReads([], data, rest);
    var t := Frame(data) + rest;
    assert [] + Frame(data) + rest == t;
    assert t == [END] + (Stuffed(data) + [END] + rest);
    if !p.Out? {
      ScanStep(p, END, Stuffed(data) + [END] + rest);
    }
  }

  /** After any bytes whatever, the next frame is read, by some read, exactly if they leave
      the reader between frames. */
  lemma SyncKept(g: seq<byte>, data: seq<byte>, rest: seq<byte>)
    ensures (exists n :: NextFrame(ScanMany(g + Frame(data) + rest, n).1) == Scan(Success, data, rest))
            <==> PlaceAfter(Out, g).Out?
  {
    hide Ends, PlaceAfter, ScanMany, NextFrame, Frame, Stuffed;
    FrameMet(g, data, rest);
    if !PlaceAfter(Out, g).Out? {
      forall n: nat
        ensures NextFrame(ScanMany(g + Frame(data) + rest, n).1) != Scan(Success, data, rest)
      {
        FramePassedOver(g, data, rest, n);
      }
    }
  }

  lemma FramePassedOver(g: seq<byte>, data: seq<byte>, rest: seq<byte>, n: nat)
    requires !PlaceAfter(Out, g).Out?
    ensures NextFrame(ScanMany(g + Frame(data) + rest, n).1) != Scan(Success, data, rest)
  {
    hide Ends, PlaceAfter, ScanMany, NextFrame, Stuffed;
    var k, s, later := Ends(Out, g), g + Frame(data) + rest, Stuffed(data) + [END] + rest;
    FrameMet(g, data, rest);
    if n < k {
      assert s == g + (Frame(data) + rest);
      ReadsWithin(g, Frame(data) + rest);
    } else if n > k {
      ReadsCompose(s, k, 1);
      OneRead(ScanMany(s, k).1);
      ReadsCompose(s, k + 1, n - k - 1);
      BehindTheFrame(data, rest, n - k - 1);
    }
  }

  /** From behind the opening flag of a frame, no read ends where the frame does. */
  lemma BehindTheFrame(data: seq<byte>, rest: seq<byte>, n: nat)
    ensures var r := NextFrame(ScanMany(Stuffed(data) + [END] + rest, n).1);
      r.status == Success ==> |r.rest| < |rest|
  {
    hide ScanMany, Stuffed;
    var s := Stuffed(data) + [END] + rest;
    assert s == Stuffed(data) + ([END] + rest);
    StuffedHasNoFlag(data);
    NoiseIsSkipped(Stuffed(data), [END] + rest);
    assert ([END] + rest)[1..] == rest;
    if n == 0 {
      NoRead(s);
    } else {
      ReadsCompose(s, 1, n - 1);
      OneRead(s);
      ReadsShorten(NextFrame(s).rest, n - 1);
    }
  }

  lemma NoRead(s: seq<byte>)
    ensures ScanMany(s, 0).1 == s
  {
  }

  lemma OneRead(s: seq<byte>)
    ensures ScanMany(s, 1).1 == NextFrame(s).rest
  {
    hide NextFrame;
    NoRead(NextFrame(s).rest);
  }

  lemma {:induction false} ReadsCompose(s: seq<byte>, a: nat, b: nat)
    ensures ScanMany(s, a + b).1 == ScanMany(ScanMany(s, a).1, b).1
    decreases a
  {
    hide NextFrame;
    if a > 0 {
      ReadsCompose(NextFrame(s).rest, a - 1, b);
    }
  }

  lemma {:induction false} ReadsShorten(s: seq<byte>, n: nat)
    ensures |ScanMany(s, n).1| <= |s|
    decreases n
  {
    if n > 0 {
      ReadsShorten(NextFrame(s).rest, n - 1);
    }
  }

  // ---------- Sync that is lost ----------

  lemma EmptyInstead(noise: seq<byte>, data: seq<byte>, rest: seq<byte>)
    requires END !in noise
    ensures NextFrame(noise + ([END] + (Frame(data) + rest))) == Scan(Success, [], Stuffed(data) + [END] + rest)
  {
    var s := Frame(data) + rest;
    NoiseIsSkipped(noise, [END] + s);
    assert ([END] + s)[1..] == s;
    assert s[0] == END && s[1..] == Stuffed(data) + [END] + rest;
  }

  /** Once a frame has been passed over, every frame from then on is taken for noise, and
      an empty one is read in its place. */
  lemma {:induction false} SyncStaysLost(data: seq<byte>, frames: seq<seq<byte>>)
    ensures forall i | 0 <= i < |frames| ::
              var scan := ScanMany(Stuffed(data) + ([END] + Frames(frames)), |frames|).0[i];
              scan.status == Success && scan.frame == []
    decreases |frames|
  {
    hide NextFrame, Frame, Stuffed;
    if frames != [] {
      StuffedHasNoFlag(data);
      EmptyInstead(Stuffed(data), frames[0], Frames(frames[1..]));
      assert Stuffed(frames[0]) + [END] + Frames(frames[1..]) == Stuffed(frames[0]) + ([END] + Frames(frames[1..]));
      SyncStaysLost(frames[0], frames[1..]);
    }
  }

  /** After any bytes whatever and one more frame: if the bytes leave the reader between
      frames, all that follow are read; otherwise an empty one is read for each. */
  lemma FromThenOn(g: seq<byte>, data: seq<byte>, frames: seq<seq<byte>>)
    ensures var s := ScanMany(g + Frame(data) + Frames(frames), Ends(Out, g) + 1).1;
      forall i | 0 <= i < |frames| ::
        var scan := ScanMany(s, |frames|).0[i];
        scan.status == Success && scan.frame == if PlaceAfter(Out, g).Out? then frames[i] else []
  {
    hide NextFrame, Frame, Frames, Stuffed, ScanMany, Ends, PlaceAfter;
    LeftBehind(g, data, Frames(frames));
    if PlaceAfter(Out, g).Out? {
      FramesReadBack(frames, []);
      assert Frames(frames) + [] == Frames(frames);
    } else {
      SyncStaysLost(data, frames);
    }
  }

  lemma LeftBehind(g: seq<byte>, data: seq<byte>, rest: seq<byte>)
    ensures ScanMany(g + Frame(data) + rest, Ends(Out, g) + 1).1
            == if PlaceAfter(Out, g).Out? then rest else Stuffed(data) + ([END] + rest)
  {
    hide NextFrame, Frame, Stuffed, ScanMany, Ends, PlaceAfter;
    var s := g + Frame(data) + rest;
    FrameMet(g, data, rest);
    ReadsCompose(s, Ends(Out, g), 1);
    OneRead(ScanMany(s, Ends(Out, g)).1);
    assert Stuffed(data) + [END] + rest == Stuffed(data) + ([END] + rest);
  }

  // ---------- Ways to lose it ----------

  /** The reader gives a frame up before its end at two escapes in a row. */
  predicate DoubleEscape(body: seq<byte>) {
    exists i | 0 <= i < |body| - 1 :: body[i] == ESC && body[i + 1] == ESC
  }

  predicate EndsInEscape(body: seq<byte>) {
    body != [] && body[|body| - 1] == ESC
  }

  lemma {:induction false} NoFlagNoFrame(g: seq<byte>)
    requires END !in g
    ensures PlaceAfter(Out, g) == Out && Ends(Out, g) == 0
  {
    if g != [] {
      NoFlagNoFrame(g[1..]);
    }
  }

  lemma {:induction false} PlaceAfterSum(p: Place, a: seq<byte>, b: seq<byte>)
    ensures PlaceAfter(p, a + b) == PlaceAfter(PlaceAfter(p, a), b)
    ensures Ends(p, a + b) == Ends(p, a) + Ends(PlaceAfter(p, a), b)
    decreases |a|
  {
    hide Step;
    if a == [] {
      assert a + b == b;
    } else {
      assert (a + b)[1..] == a[1..] + b;
      PlaceAfterSum(Step(p, a[0]), a[1..], b);
    }
  }

  /** Bytes without a flag keep the reader inside a frame, unless there are two escapes in
      a row among them. */
  lemma {:induction false} BodyPassed(body: seq<byte>, frame: seq<byte>)
    requires END !in body
    ensures var p := PlaceAfter(In(frame), body);
      if DoubleEscape(body) then p == Out && Ends(In(frame), body) == 1
      else Ends(In(frame), body) == 0 && (if EndsInEscape(body) then p.Esc? else p.In?)
    decreases |body|
  {
    hide Toggled;
    if body != [] && body[0] != ESC {
      DoubleEscapeBehind(body, 1);
      BodyPassed(body[1..], frame + [body[0]]);
    } else if |body| == 1 {
      assert PlaceAfter(Esc(frame), body[1..]) == Esc(frame);
    } else if body != [] {
      assert body[1..][1..] == body[2..] && body[1..][0] == body[1];
      if body[1] == ESC {
        NoFlagNoFrame(body[2..]);
      } else {
        DoubleEscapeBehind(body, 2);
        BodyPassed(body[2..], frame + [Toggled(body[1])]);
      }
    }
  }

  lemma DoubleEscapeBehind(body: seq<byte>, k: nat)
    requires 1 <= k <= 2 && k <= |body| && body[k - 1] != ESC
    ensures DoubleEscape(body[k..]) <==> DoubleEscape(body)
    ensures EndsInEscape(body[k..]) <==> EndsInEscape(body)
  {
    if DoubleEscape(body) {
      var i :| 0 <= i < |body| - 1 && body[i] == ESC && body[i + 1] == ESC;
      assert i >= k && body[k..][i - k] == ESC && body[k..][i - k + 1] == ESC;
    }
    if DoubleEscape(body[k..]) {
      var i :| 0 <= i < |body[k..]| - 1 && body[k..][i] == ESC && body[k..][i + 1] == ESC;
      assert body[i + k] == ESC && body[i + k + 1] == ESC;
    }
  }

  /** Without a flag, a read can only end with an error. */
  lemma {:induction false} EndsBadly(p: Place, g: seq<byte>, t: seq<byte>)
    requires END !in g && !p.Out? && Ends(p, g) > 0
    ensures ScanFrom(p, g + t).status == Io
    decreases |g|
  {
    hide ScanFrom, Toggled;
    assert g + t == [g[0]] + (g[1..] + t);
    ScanStep(p, g[0], g[1..] + t);
    if !Step(p, g[0]).Out? {
      EndsBadly(Step(p, g[0]), g[1..], t);
    }
  }

  /** After a frame with any bytes but flags in it, the next one is read exactly if there
      were no two escapes in a row. Otherwise the flag that ends the damaged frame is taken
      for the beginning of one, and an empty frame is read instead. */
  lemma SyncAfterDamage(body: seq<byte>, data: seq<byte>, rest: seq<byte>)
    requires END !in body
    ensures var r := NextFrame([END] + body + [END] + Frame(data) + rest);
      && (r.status == Io <==> DoubleEscape(body) || EndsInEscape(body))
      && (NextFrame(r.rest) == Scan(Success, data, rest) <==> !DoubleEscape(body))
      && (DoubleEscape(body) ==> NextFrame(r.rest) == Scan(Success, [], Stuffed(data) + [END] + rest))
  {
    hide NextFrame, Frame, Stuffed, ScanMany, PlaceAfter, Ends, DoubleEscape, EndsInEscape;
    var g, t := [END] + body + [END], [END] + (Frame(data) + rest);
    assert g + Frame(data) + rest == [END] + (body + t);
    ScanStep(Out, END, body + t);
    BodyPassed(body, []);
    FrameBounds(body);
    FrameMet(g, data, rest);
    OneRead(g + Frame(data) + rest);
    if DoubleEscape(body) {
      EndsBadly(In([]), body, t);
    } else {
      var i := FirstRead(In([]), body, t);
      ScanStep(PlaceAfter(In([]), body), END, Frame(data) + rest);
    }
  }

  lemma FrameBounds(body: seq<byte>)
    ensures var g, p := [END] + body + [END], PlaceAfter(In([]), body);
      PlaceAfter(Out, g) == Step(p, END) && Ends(Out, g) == Ends(In([]), body) + if p.Out? then 0 else 1
  {
    var p := PlaceAfter(In([]), body);
    assert ([END] + body)[1..] == body && [END][1..] == [];
    assert PlaceAfter(p, [END]) == PlaceAfter(Step(p, END), []);
    assert Ends(p, [END]) == (if p.Out? then 0 else 1) + Ends(Step(p, END), []);
    PlaceAfterSum(Out, [END] + body, [END]);
  }

  /** A frame whose opening flag is lost takes the next one with it. */
  lemma LostFlag(body: seq<byte>, data: seq<byte>, rest: seq<byte>)
    requires END !in body
    ensures NextFrame(body + [END] + Frame(data) + rest) == Scan(Success, [], Stuffed(data) + [END] + rest)
  {
    hide Frame, Stuffed, NextFrame;
    EmptyInstead(body, data, rest);
    assert body + [END] + Frame(data) + rest == body + ([END] + (Frame(data) + rest));
  }

  lemma TwoFlags(more: seq<byte>)
    ensures NextFrame([END] + ([END] + more)) == Scan(Success, [], more)
  {
    ScanStep(Out, END, [END] + more);
    ScanStep(In([]), END, more);
  }

  /** So does a flag too many: of the frame with the byte 0x7F in it and one with the byte
      1, a single flipped bit makes two empty ones, and the byte 1 is never read. */
  lemma FlippedBit(n: nat)
    ensures Frame([0x7F]) == [END, 0x7F, END] && END == 0x7E
    ensures var s := [END, 0x7E, END] + Frame([1]);
      && NextFrame(s) == Scan(Success, [], [END] + Frame([1]))
      && NextFrame(NextFrame(s).rest) == Scan(Success, [], [1, END])
      && NextFrame(ScanMany(s, n).1) != Scan(Success, [1], [])
  {
    var g: seq<byte> := [END, END, END];
    assert Stuffed([0x7F]) == [0x7F] && Stuffed([1]) == [1];
    assert g[1..] == [END, END] && g[1..][1..] == [END];
    assert PlaceAfter(Out, g) == PlaceAfter(In([]), [END, END]) == PlaceAfter(Out, [END]) == PlaceAfter(In([]), []);
    assert Frame([1]) == [END] + [1, END] && g + Frame([1]) == [END] + ([END] + ([END] + Frame([1])));
    TwoFlags([END] + Frame([1]));
    TwoFlags([1, END]);
    FramePassedOver(g, [1], [], n);
    assert g + Frame([1]) + [] == g + Frame([1]);
  }

  /** Stuffed data keep the reader inside the frame, and it collects what they stand for. */
  lemma {:induction false} StuffedCollected(data: seq<byte>, frame: seq<byte>)
    ensures PlaceAfter(In(frame), Stuffed(data)) == In(frame + data) && Ends(In(frame), Stuffed(data)) == 0
    decreases |data|
  {
    hide Toggled;
    if data == [] {
      assert frame + data == frame;
    } else {
      var c := data[0];
      SpecialToggled();
      ToggledTwice(c);
      StuffedCollected(data[1..], frame + [c]);
      PlaceAfterSum(In(frame), Escaped(c), Stuffed(data[1..]));
      EscapedCollected(c, frame);
      assert frame + [c] + data[1..] == frame + data;
    }
  }

  lemma EscapedCollected(c: byte, frame: seq<byte>)
    ensures PlaceAfter(In(frame), Escaped(c)) == In(frame + [c]) && Ends(In(frame), Escaped(c)) == 0
  {
    hide Toggled;
    SpecialToggled();
    ToggledTwice(c);
    var e := Escaped(c);
    if |e| == 2 {
      assert e[1..][1..] == [] && e[1..][0] == e[1];
      assert PlaceAfter(Esc(frame), e[1..]) == PlaceAfter(Step(Esc(frame), e[1]), []);
      assert Ends(Esc(frame), e[1..]) == 0 + Ends(Step(Esc(frame), e[1]), []);
    } else {
      assert e[1..] == [];
    }
  }

  /** A frame that is cut in two by a silence is lost, and takes the next one with it. */
  lemma CutFrame(data: seq<byte>, i: nat, next: seq<byte>, rest: seq<byte>)
    requires 0 < i < |Frame(data)|
    ensures NextFrame(Frame(data)[..i]).status == Timeout
    ensures NextFrame(Frame(data)[i..] + Frame(next) + rest) == Scan(Success, [], Stuffed(next) + [END] + rest)
  {
    hide NextFrame, Frame, Stuffed, Ends, PlaceAfter;
    StuffedHasNoFlag(data);
    StuffedCollected(data, []);
    var u, v := FrameParts(data, i);
    LostFlag(v, next, rest);
    PlaceAfterSum(In([]), u, v);
    ScanStep(Out, END, u);
    StartOnly(u);
  }

  lemma FrameParts(data: seq<byte>, i: nat) returns (u: seq<byte>, v: seq<byte>)
    requires 0 < i < |Frame(data)|
    ensures Stuffed(data) == u + v && Frame(data)[..i] == [END] + u && Frame(data)[i..] == v + [END]
    ensures END !in Stuffed(data) ==> END !in v
  {
    hide Stuffed;
    u, v := Stuffed(data)[..i - 1], Stuffed(data)[i - 1..];
  }

  lemma StartOnly(u: seq<byte>)
    requires Ends(In([]), u) == 0
    ensures ScanFrom(In([]), u).status == Timeout
  {
    hide Ends, PlaceAfter;
    var n := FirstRead(In([]), u, []);
    assert u + [] == u;
  }
}
