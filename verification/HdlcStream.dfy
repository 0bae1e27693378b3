/** The framing layer as the library runs it: an object with a read buffer that
    carries leftover bytes from one call to the next and a small write buffer. */
module HdlcStream {
  import opened Bytes
  import opened Hdlc
  import HdlcSync
  import opened Slices

  lemma FlatOfNothing()
    ensures Flat<byte>([]) == []
  {
  }

  /** The stream underneath: chunks still to arrive, bytes already sent, and how
      many more writes will be accepted. */
  class Link {
    var incoming: seq<seq<byte>>
    var outgoing: seq<byte>
    var budget: nat

    constructor (chunks: seq<seq<byte>>, writes: nat)
      requires forall i | 0 <= i < |chunks| :: chunks[i] != []
      ensures Valid() && incoming == chunks && outgoing == [] && budget == writes
    {
      incoming, outgoing, budget := chunks, [], writes;
    }

    ghost predicate Valid()
      reads this
    {
      forall i | 0 <= i < |incoming| :: incoming[i] != []
    }

    /** Delivers at most a buffer full of the next chunk; times out when nothing is left. */
    method Read(buf: array<byte>) returns (status: Status, len: nat)
      requires Valid() && buf.Length > 0
      modifies this`incoming, buf
      ensures Valid()
      ensures old(incoming) == [] ==> status == Timeout && len == 0 && incoming == []
      ensures old(incoming) != [] ==> status == Success && 1 <= len <= buf.Length
      ensures old(incoming) != [] ==> old(Flat(incoming)) == buf[..len] + Flat(incoming)
    {
      if incoming == [] {
        return Timeout, 0;
      }
      var chunk := incoming[0];
      len := if |chunk| < buf.Length then |chunk| else buf.Length;
      for i := 0 to len
        invariant incoming == old(incoming) && buf[..i] == chunk[..i]
      {
        buf[i] := chunk[i];
      }
      assert chunk == chunk[..len] + chunk[len..];
      if len == |chunk| {
        incoming := incoming[1..];
      } else {
        ghost var rest := incoming[1..];
        incoming := [chunk[len..]] + incoming[1..];
        assert incoming[1..] == rest;
      }
      status := Success;
    }

    /** More chunks come in, after a silence for instance. */
    method Arrive(chunks: seq<seq<byte>>)
      requires Valid() && forall i | 0 <= i < |chunks| :: chunks[i] != []
      modifies this`incoming
      ensures Valid() && incoming == old(incoming) + chunks
    {
      incoming := incoming + chunks;
    }

    /** Drops the chunks that have come in so far. */
    method Purge(arrived: nat)
      requires Valid() && arrived <= |incoming|
      modifies this`incoming
      ensures Valid() && incoming == old(incoming)[arrived..]
    {
      incoming := incoming[arrived..];
    }

    method Write(data: array<byte>, size: nat) returns (status: Status)
      requires size <= data.Length
      modifies this`outgoing, this`budget
      ensures status == if old(budget) == 0 then Io else Success
      ensures budget == if old(budget) == 0 then 0 else old(budget) - 1
      ensures outgoing == if old(budget) == 0 then old(outgoing) else old(outgoing) + data[..size]
    {
      if budget == 0 {
        return Io;
      }
      outgoing, budget := outgoing + data[..size], budget - 1;
      status := Success;
    }
  }

  class Framer {
    const link: Link
    const rbuf: array<byte>
    const wbuf: array<byte>
    var rbufOffset: nat
    var rbufAvailable: nat
    var wbufOffset: nat

    constructor (base: Link, isize: nat, osize: nat)
      requires base.Valid() && isize > 0 && osize > 0
      ensures Valid() && link == base && fresh(rbuf) && fresh(wbuf)
      ensures rbuf.Length == isize && wbuf.Length == osize
      ensures Unread() == Flat(base.incoming)
    {
      link := base;
      rbuf := new byte[isize](_ => 0);
      wbuf := new byte[osize](_ => 0);
      rbufOffset, rbufAvailable, wbufOffset := 0, 0, 0;
    }

    ghost predicate Valid()
      reads this, link
    {
      && link.Valid() && rbuf != wbuf && rbuf.Length > 0 && wbuf.Length > 0
      && rbufOffset + rbufAvailable <= rbuf.Length
    }

    /** Everything the peer has sent and no frame has taken yet: leftovers first. */
    ghost function Unread(): seq<byte>
      requires Valid()
      reads this, link, rbuf
    {
      rbuf[rbufOffset..rbufOffset + rbufAvailable] + Flat(link.incoming)
    }

    /** Takes the next chunk of the stream into the empty read buffer. */
    method Refill() returns (status: Status)
      requires Valid() && rbufAvailable == 0
      modifies this`rbufOffset, this`rbufAvailable, link`incoming, rbuf
      ensures Valid() && Unread() == old(Unread())
      ensures status == Success ==> rbufAvailable > 0
      ensures status != Success ==> status == Timeout && Unread() == []
    {
      FlatOfNothing();
      var len;
      status, len := link.Read(rbuf);
      if status == Success {
        rbufAvailable, rbufOffset := len, 0;
      }
    }

    /** Takes the next byte out of the read buffer. */
    method Take() returns (c: byte)
      requires Valid() && rbufAvailable > 0
      modifies this`rbufOffset, this`rbufAvailable
      ensures Valid() && rbufAvailable == old(rbufAvailable) - 1
      ensures old(Unread()) == [c] + Unread()
    {
      c := rbuf[rbufOffset];
      rbufOffset, rbufAvailable := rbufOffset + 1, rbufAvailable - 1;
    }

    /** Reads one frame. Whatever the size of `data`, the stream moves on to just after
        the frame; bytes that do not fit are dropped and reported as an I/O error. */
    method Read(data: array<byte>) returns (status: Status, actual: nat)
      requires Valid() && data != rbuf && data != wbuf
      modifies this`rbufOffset, this`rbufAvailable, link`incoming, rbuf, data
      ensures Valid()
      ensures var scan := NextFrame(old(Unread()));
        && Unread() == scan.rest
        && status == (if scan.status == Success && |scan.frame| > data.Length then Io else scan.status)
        && actual == (if |scan.frame| > data.Length then data.Length else |scan.frame|)
        && data[..actual] == scan.frame[..actual]
    {
      hide Toggled, Unread, Scanned;
      status := Success;
      var nbytes, initialized, escaped := 0, false, false;
      ghost var frame: seq<byte> := [];
      ghost var scan := NextFrame(Unread());
      label reading: while true
        invariant Valid() && status == Success
        invariant nbytes == |frame| && Fits(data[..], frame)
        invariant Scanned(Unread(), initialized, escaped, frame) == scan
        decreases |Unread()|
      {
        ghost var unread := |Unread()|;
        if rbufAvailable == 0 {
          status := Refill();
          if status != Success {
            ScanStep(Unread(), initialized, escaped, frame);
            break reading;
          }
        }
        while rbufAvailable > 0
          invariant Valid() && status == Success
          invariant |Unread()| <= unread && (rbufAvailable > 0 || |Unread()| < unread)
          invariant nbytes == |frame| && Fits(data[..], frame)
          invariant Scanned(Unread(), initialized, escaped, frame) == scan
          decreases rbufAvailable
        {
          ScanStep(Unread(), initialized, escaped, frame);
          ghost var before := Unread();
          var c := Take();
          assert before[1..] == Unread();
          if c == END {
            if escaped {
              status := Io;
              break reading;
            }
            if initialized {
              break reading;
            }
            initialized := true;
            continue;
          }
          if !initialized {
            continue;
          }
          if c == ESC {
            if escaped {
              status := Io;
              break reading;
            }
            escaped := true;
            continue;
          }
          if escaped {
            c := Toggled(c);
            escaped := false;
          }
          FitsMore(data[..], frame, c);
          if nbytes < data.Length {
            data[nbytes] := c;
          }
          frame := frame + [c];
          nbytes := nbytes + 1;
        }
      }
      if nbytes > data.Length {
        if status == Success {
          status := Io;
        }
        nbytes := data.Length;
      }
      actual := nbytes;
      assert data[..actual] == data[..][..actual];
    }

    /** Forgets what has been received, here and in the stream below, where that many
        chunks have come in so far. */
    method Purge(input: bool, arrived: nat)
      requires Valid() && arrived <= |link.incoming|
      modifies this`rbufOffset, this`rbufAvailable, link`incoming
      ensures Valid() && Unread() == if input then Flat(old(link.incoming)[arrived..]) else old(Unread())
    {
      if input {
        rbufAvailable, rbufOffset := 0, 0;
        link.Purge(arrived);
      }
    }

    /** What has been sent so far, counting the bytes that still sit in the write buffer. */
    ghost function Sent(): (s: seq<byte>)
      requires Valid() && wbufOffset <= wbuf.Length
      reads this, link, wbuf
      ensures link.outgoing <= s
    {
      link.outgoing + wbuf[..wbufOffset]
    }

    /** Hands the write buffer to the stream below, which takes all of it or fails. */
    method Flush() returns (status: Status)
      requires Valid() && wbufOffset <= wbuf.Length
      modifies this`wbufOffset, link`outgoing, link`budget
      ensures Valid() && Unread() == old(Unread())
      ensures status == Success ==> wbufOffset == 0 && Sent() == old(Sent()) == link.outgoing
      ensures status != Success ==> status == Io && link.outgoing == old(link.outgoing)
    {
      status := link.Write(wbuf, wbufOffset);
      if status == Success {
        wbufOffset := 0;
      }
    }

    method Clear()
      requires Valid()
      modifies this`wbufOffset
      ensures Valid() && Unread() == old(Unread()) && wbufOffset == 0 && Sent() == link.outgoing
    {
      wbufOffset := 0;
    }

    method Put(c: byte)
      requires Valid() && wbufOffset < wbuf.Length
      modifies this`wbufOffset, wbuf
      ensures Valid() && Unread() == old(Unread())
      ensures wbufOffset == old(wbufOffset) + 1 && Sent() == old(Sent()) + [c]
    {
      wbuf[wbufOffset] := c;
      wbufOffset := wbufOffset + 1;
    }

    /** Appends a byte to the write buffer, and sends the buffer when it is full. */
    method Append(c: byte) returns (status: Status)
      requires Valid() && wbufOffset < wbuf.Length
      modifies this`wbufOffset, link`outgoing, link`budget, wbuf
      ensures Valid() && Unread() == old(Unread())
      ensures status == Success ==> wbufOffset < wbuf.Length && Sent() == old(Sent()) + [c]
      ensures status == Success ==> old(link.outgoing) <= link.outgoing
      ensures status != Success ==> status == Io && link.outgoing == old(link.outgoing)
    {
      hide Sent, Unread;
      status := Success;
      Put(c);
      if wbufOffset >= wbuf.Length {
        status := Flush();
      }
    }

    /** Sends one frame, for every size of the write buffer. If the stream below fails,
        what it took is a proper beginning of the frame. */
    method Write(data: array<byte>, size: nat) returns (status: Status, actual: nat)
      requires Valid() && size <= data.Length && data != wbuf
      modifies this`wbufOffset, link`outgoing, link`budget, wbuf
      ensures Valid() && Unread() == old(Unread()) && actual <= size
      ensures status == Success || status == Io
      ensures status == Success ==> actual == size && link.outgoing == old(link.outgoing) + Frame(data[..size])
      ensures status == Io ==> old(link.outgoing) <= link.outgoing < old(link.outgoing) + Frame(data[..size])
    {
      hide Sent, Unread, Stuffed, Toggled, Frame;
      var nbytes := 0;
      ghost var out, bytes := link.outgoing, data[..size];
      Clear();
      status := Append(END);
      Opened(out, bytes);
      while status == Success && nbytes < size
        invariant Valid() && nbytes <= size && data[..size] == bytes && out <= link.outgoing
        invariant Unread() == old(Unread())
        invariant status == Success || status == Io
        invariant status == Success ==> wbufOffset < wbuf.Length
        invariant status == Success ==> Sent() == Opening(out, bytes, nbytes)
        invariant status == Io ==> link.outgoing < out + Frame(bytes)
      {
        var c := data[nbytes];
        OneByteMore(out, bytes, nbytes);
        if c == END || c == ESC {
          status := Append(ESC);
          c := Toggled(c);
        }
        if status == Success {
          status := Append(c);
        }
        if status == Success {
          nbytes := nbytes + 1;
        }
      }
      if status == Success {
        Closed(out, bytes);
        Put(END);
        status := Flush();
      }
      actual := nbytes;
    }
  }

  /** As much of a frame as there is room for has been stored. */
  ghost predicate Fits(data: seq<byte>, frame: seq<byte>) {
    if |frame| <= |data| then data[..|frame|] == frame else data == frame[..|data|]
  }

  lemma FitsMore(data: seq<byte>, frame: seq<byte>, c: byte)
    requires Fits(data, frame)
    ensures Fits(if |frame| < |data| then data[|frame| := c] else data, frame + [c])
  {
  }

  /** One step of reading, as the reader's loop takes it. */
  lemma ScanStep(s: seq<byte>, initialized: bool, escaped: bool, frame: seq<byte>)
    ensures Scanned(s, initialized, escaped, frame) == (
      if s == [] then Scan(Timeout, frame, [])
      else if s[0] == END then
        if escaped then Scan(Io, frame, s[1..])
        else if initialized then Scan(Success, frame, s[1..])
        else Scanned(s[1..], true, escaped, frame)
      else if !initialized then Scanned(s[1..], initialized, escaped, frame)
      else if s[0] == ESC then
        if escaped then Scan(Io, frame, s[1..]) else Scanned(s[1..], initialized, true, frame)
      else Scanned(s[1..], initialized, false, frame + [if escaped then Toggled(s[0]) else s[0]]))
  {
    hide Toggled;
  }

  // ---------- Runs ----------

  /** What a caller with room for `size` bytes gets of a frame. */
  function Fitted(frame: seq<byte>, size: nat): (Status, seq<byte>) {
    if |frame| > size then (Io, frame[..size]) else (Success, frame)
  }

  /** Successive reads return exactly the frames of the stream, in order, however it was
      cut into chunks. A frame too large for `data` is reported and cut, and the next one
      is still read whole. */
  method ReadFrames(f: Framer, data: array<byte>, n: nat, ghost frames: seq<seq<byte>>, ghost rest: seq<byte>)
    returns (got: seq<(Status, seq<byte>)>)
    requires f.Valid() && data != f.rbuf && data != f.wbuf
    requires |frames| == n && f.Unread() == Frames(frames) + rest
    modifies f`rbufOffset, f`rbufAvailable, f.link`incoming, f.rbuf, data
    ensures f.Valid() && f.Unread() == rest
    ensures |got| == n && forall i | 0 <= i < n :: got[i] == Fitted(frames[i], data.Length)
  {
    hide Frames, NextFrame;
    got := [];
    for i := 0 to n
      invariant f.Valid() && f.Unread() == Frames(frames[i..]) + rest
      invariant |got| == i && forall j | 0 <= j < i :: got[j] == Fitted(frames[j], data.Length)
    {
      NextOfFrames(frames[i..], rest);
      assert frames[i..][0] == frames[i] && frames[i..][1..] == frames[i + 1..];
      var status, actual := f.Read(data);
      assert frames[i][..|frames[i]|] == frames[i];
      got := got + [(status, data[..actual])];
    }
    NothingLeft(frames[n..], rest);
  }

  /** Reads a frame that a silence cuts in two, and once more when the rest of it has come
      in with another frame: the first read times out, and the second finds an empty frame
      and passes over the other. */
  method ReadCutFrame(f: Framer, data: array<byte>, chunks: seq<seq<byte>>, ghost frame: seq<byte>, ghost i: nat,
                      ghost next: seq<byte>, ghost rest: seq<byte>)
    returns (cut: Status, status: Status, actual: nat)
    requires f.Valid() && data != f.rbuf && data != f.wbuf
    requires 0 < i < |Frame(frame)| && f.Unread() == Frame(frame)[..i]
    requires (forall j | 0 <= j < |chunks| :: chunks[j] != [])
    requires Flat(chunks) == Frame(frame)[i..] + Frame(next) + rest
    modifies f`rbufOffset, f`rbufAvailable, f.link`incoming, f.rbuf, data
    ensures f.Valid() && cut == Timeout && status == Success && actual == 0
    ensures f.Unread() == Stuffed(next) + [END] + rest
  {
    hide Frame, Stuffed, NextFrame;
    HdlcSync.CutFrame(frame, i, next, rest);
    TimeoutMeansAll(f.Unread());
    cut, actual := f.Read(data);
    ghost var incoming := f.link.incoming;
    f.link.Arrive(chunks);
    FlatSum(incoming, chunks);
    assert f.Unread() == Flat(chunks);
    status, actual := f.Read(data);
  }

  lemma TimeoutMeansAll(s: seq<byte>)
    requires NextFrame(s).status == Timeout
    ensures NextFrame(s).rest == []
  {
    TimeoutLeavesNothing(s, false, false, []);
  }

  lemma {:induction false} TimeoutLeavesNothing(s: seq<byte>, initialized: bool, escaped: bool, frame: seq<byte>)
    requires Scanned(s, initialized, escaped, frame).status == Timeout
    ensures Scanned(s, initialized, escaped, frame).rest == []
    decreases |s|
  {
    hide Toggled;
    if s != [] {
      var c := s[0];
      if c == END || !initialized {
        TimeoutLeavesNothing(s[1..], initialized || c == END, escaped, frame);
      } else if c == ESC {
        TimeoutLeavesNothing(s[1..], initialized, true, frame);
      } else {
        TimeoutLeavesNothing(s[1..], initialized, false, frame + [if escaped then Toggled(c) else c]);
      }
    }
  }

  lemma NothingLeft(frames: seq<seq<byte>>, rest: seq<byte>)
    requires frames == []
    ensures Frames(frames) + rest == rest
  {
  }

  // ---------- Writing a frame byte by byte ----------

  /** What has been sent once the first `n` bytes of a frame are. */
  ghost function Opening(out: seq<byte>, bytes: seq<byte>, n: nat): seq<byte>
    requires n <= |bytes|
  {
    out + ([END] + Stuffed(bytes[..n]))
  }

  lemma Opened(out: seq<byte>, bytes: seq<byte>)
    ensures out + [END] == Opening(out, bytes, 0)
    ensures out < out + Frame(bytes)
  {
    assert bytes[..0] == [];
  }

  lemma OneByteMore(out: seq<byte>, bytes: seq<byte>, n: nat)
    requires n < |bytes|
    ensures Opening(out, bytes, n + 1) == Opening(out, bytes, n) + Escaped(bytes[n])
    ensures Opening(out, bytes, n + 1) < out + Frame(bytes)
  {
    hide Escaped;
    assert bytes == bytes[..n + 1] + bytes[n + 1..];
    StuffedSum(bytes[..n + 1], bytes[n + 1..]);
    assert bytes[..n + 1] == bytes[..n] + [bytes[n]];
    StuffedSum(bytes[..n], [bytes[n]]);
    assert Stuffed([bytes[n]]) == Escaped(bytes[n]) + Stuffed([]) == Escaped(bytes[n]);
  }

  lemma Closed(out: seq<byte>, bytes: seq<byte>)
    ensures Opening(out, bytes, |bytes|) + [END] == out + Frame(bytes)
  {
    assert bytes[..|bytes|] == bytes;
  }
}
