/** The Divesoft Freedom transport as the library runs it: sending and receiving a
    message over the framing layer, a packet buffer at a time. */
module FreedomDevice {
  import opened Bytes
  import opened Hdlc
  import opened HdlcStream
  import opened Buffer
  import opened FreedomTransport
  import Checksum

  const PACKETSIZE: nat := 264

  class Device {
    const framer: Framer
    var seqnum: nat

    constructor (framer: Framer)
      ensures this.framer == framer && seqnum == 0
    {
      this.framer := framer;
      seqnum := 0;
    }

    /** Sends a message as numbered packets, one frame each. If the stream below fails,
        what it took is a proper beginning of that. */
    method Send(msg: nat, payload: seq<byte>) returns (status: Status)
      requires framer.Valid() && msg < 0x1_0000
      modifies framer`wbufOffset, framer.link`outgoing, framer.link`budget, framer.wbuf
      ensures framer.Valid() && framer.Unread() == old(framer.Unread())
      ensures status == Success || status == Io
      ensures var sent := Frames(Fragments(0, seqnum, DIRECTION, msg, payload));
        && (status == Success ==> framer.link.outgoing == old(framer.link.outgoing) + sent)
        && (status == Io ==> old(framer.link.outgoing) <= framer.link.outgoing < old(framer.link.outgoing) + sent)
    {
      hide Frames, Frame, Fragments, Fragment, Framer.Unread;
      var nbytes, count := 0, 0;
      ghost var todo := Frames(Fragments(0, seqnum, DIRECTION, msg, payload));
      ghost var goal := framer.link.outgoing + todo;
      assert payload[0..] == payload;
      while true
        invariant framer.Valid() && framer.Unread() == old(framer.Unread())
        invariant nbytes <= |payload| && todo == Frames(Fragments(count, seqnum, DIRECTION, msg, payload[nbytes..]))
        invariant old(framer.link.outgoing) <= framer.link.outgoing && goal == framer.link.outgoing + todo
        decreases |payload| - nbytes
      {
        var len := |payload| - nbytes;
        if len > MAXDATA {
          len := MAXDATA;
        }
        var last := nbytes + len == |payload|;
        var packet := new byte[PACKETSIZE](_ => 0);
        var n := BuildPacket(packet, count, seqnum, last, msg, payload[nbytes..nbytes + len]);
        ghost var out, frame := framer.link.outgoing, Frame(packet[..n]);
        todo := NextPacket(out, todo, count, seqnum, msg, payload, nbytes, packet[..n]);
        var actual;
        status, actual := framer.Write(packet, n);
        if status != Success {
          FellShort(framer.link.outgoing, out, frame, todo);
          return;
        }
        nbytes, count := nbytes + len, count + 1;
        if last {
          break;
        }
      }
      assert todo == [];
    }

    /** Receives a message: every packet is read, checked and appended to the buffer. */
    method Recv(buffer: DcBuffer) returns (status: Status, msg: nat)
      requires framer.Valid() && buffer.Valid()
      requires buffer.data != framer.rbuf && buffer.data != framer.wbuf
      modifies framer`rbufOffset, framer`rbufAvailable, framer.link`incoming, framer.rbuf, buffer, buffer.data
      ensures framer.Valid() && buffer.Valid() && (buffer.data == old(buffer.data) || fresh(buffer.data))
      ensures status == NoMemory ==> !buffer.plentiful && old(buffer.Contents()) <= buffer.Contents()
      ensures status != NoMemory ==>
                var reply := Received(old(framer.Unread()), seqnum, 0, INVALID, []);
                && status == reply.status && msg == reply.msg && framer.Unread() == reply.rest
                && buffer.Contents() == old(buffer.Contents()) + reply.data
    {
      hide NextFrame, Verdict, TypeOf, DataOf, IsLast, Received, DcBuffer.Contents, Framer.Unread;
      msg := INVALID;
      var count := 0;
      ghost var before, stream := buffer.Contents(), framer.Unread();
      ghost var reply := Received(stream, seqnum, 0, INVALID, []);
      ghost var got: seq<byte> := [];
      while true
        invariant framer.Valid() && buffer.Valid() && (buffer.data == old(buffer.data) || fresh(buffer.data))
        invariant buffer.data != framer.rbuf && buffer.data != framer.wbuf
        invariant buffer.Contents() == before + got
        invariant Received(framer.Unread(), seqnum, count, msg, got) == reply
        decreases |framer.Unread()|
      {
        ghost var p := NextFrame(framer.Unread()).frame;
        ReceivedStep(framer.Unread(), seqnum, count, msg, got);
        var last;
        status, msg, last := RecvPacket(buffer, count, msg);
        if status != Success {
          return;
        }
        assert before + got + DataOf(p) == before + (got + DataOf(p));
        got := got + DataOf(p);
        count := count + 1;
        if last {
          break;
        }
      }
    }

    /** Sends a command under the next number and receives the answer to it. */
    method Transfer(cmd: nat, payload: seq<byte>, buffer: DcBuffer) returns (status: Status, msg: nat)
      requires framer.Valid() && buffer.Valid() && cmd < 0x1_0000
      requires buffer.data != framer.rbuf && buffer.data != framer.wbuf
      modifies this, framer, framer.link, framer.rbuf, framer.wbuf, buffer, buffer.data
      ensures framer.Valid() && buffer.Valid() && seqnum == old(seqnum) + 1
      ensures var sent := Frames(Fragments(0, seqnum, DIRECTION, cmd, payload));
        || (status == Io && framer.link.outgoing < old(framer.link.outgoing) + sent)
        || framer.link.outgoing == old(framer.link.outgoing) + sent
      ensures var sent := Frames(Fragments(0, seqnum, DIRECTION, cmd, payload));
        var reply := Received(old(framer.Unread()), seqnum, 0, INVALID, []);
        framer.link.outgoing == old(framer.link.outgoing) + sent ==> (
          && (status == NoMemory ==> !buffer.plentiful)
          && (status != NoMemory ==> status == reply.status && msg == reply.msg && framer.Unread() == reply.rest)
          && (status != NoMemory ==> buffer.Contents() == old(buffer.Contents()) + reply.data))
    {
      hide Frames, Fragments, NextFrame, Received, DcBuffer.Contents, Framer.Unread;
      seqnum := seqnum + 1;
      status := Send(cmd, payload);
      if status != Success {
        return status, INVALID;
      }
      status, msg := Recv(buffer);
    }

    /** Receives one packet of a message. */
    method RecvPacket(buffer: DcBuffer, count: nat, msg: nat) returns (status: Status, kind: nat, last: bool)
      requires framer.Valid() && buffer.Valid()
      requires buffer.data != framer.rbuf && buffer.data != framer.wbuf
      modifies framer`rbufOffset, framer`rbufAvailable, framer.link`incoming, framer.rbuf, buffer, buffer.data
      ensures framer.Valid() && buffer.Valid() && (buffer.data == old(buffer.data) || fresh(buffer.data))
      ensures var scan := NextFrame(old(framer.Unread()));
        && framer.Unread() == scan.rest
        && (status == NoMemory ==> !buffer.plentiful)
        && (status != NoMemory ==> status == Verdict(scan, seqnum, count, msg))
        && (status != Success ==> buffer.Contents() == old(buffer.Contents()) && kind == msg)
        && (status == Success ==> kind == TypeOf(scan.frame) && (last <==> IsLast(scan.frame)))
        && (status == Success ==> buffer.Contents() == old(buffer.Contents()) + DataOf(scan.frame))
    {
      hide NextFrame, Verdict, TypeOf, DataOf, IsLast, DcBuffer.Contents, Framer.Unread;
      kind, last := msg, false;
      var packet := new byte[PACKETSIZE](_ => 0);
      var len;
      status, len := ReadPacket(packet, count, msg);
      if status != Success {
        return;
      }
      PacketFields(packet[..], len);
      var ok := buffer.Append(packet[6..len - 2]);
      if !ok {
        return NoMemory, msg, last;
      }
      kind, last := U16(packet[2], packet[3]), packet[1] / 0x40 % 2 == 1;
    }

    /** Reads one packet and checks it. */
    method ReadPacket(packet: array<byte>, count: nat, msg: nat) returns (status: Status, len: nat)
      requires framer.Valid() && packet.Length == PACKETSIZE && packet != framer.rbuf && packet != framer.wbuf
      modifies framer`rbufOffset, framer`rbufAvailable, framer.link`incoming, framer.rbuf, packet
      ensures framer.Valid()
      ensures var scan := NextFrame(old(framer.Unread()));
        && framer.Unread() == scan.rest && status == Verdict(scan, seqnum, count, msg)
        && (status == Success ==> 8 <= len <= PACKETSIZE && packet[..len] == scan.frame)
    {
      hide NextFrame, Accepted;
      status, len := framer.Read(packet);
      if status != Success {
        return;
      }
      ghost var p := NextFrame(old(framer.Unread())).frame;
      assert packet[..len] == p;
      if len < 8 {
        return Protocol, len;
      }
      var ok := Check(packet, len, seqnum, count, msg);
      if !ok {
        return Protocol, len;
      }
    }
  }

  // ---------- End to end ----------

  /** A message that the dive computer has sent arrives whole, however the byte stream was
      cut into chunks, and what was sent after it is left for the next call. */
  method RecvWhole(device: Device, buffer: DcBuffer, ghost sent: nat, ghost payload: seq<byte>, ghost rest: seq<byte>)
    returns (status: Status, msg: nat)
    requires device.framer.Valid() && buffer.Valid() && buffer.plentiful && sent < 0x1_0000
    requires buffer.data != device.framer.rbuf && buffer.data != device.framer.wbuf
    requires device.framer.Unread() == Frames(Fragments(0, device.seqnum, 0, sent, payload)) + rest
    modifies device.framer`rbufOffset, device.framer`rbufAvailable, device.framer.link`incoming, device.framer.rbuf
    modifies buffer, buffer.data
    ensures device.framer.Valid() && buffer.Valid() && device.framer.Unread() == rest
    ensures status == Success && msg == sent && buffer.Contents() == old(buffer.Contents()) + payload
  {
    Delivered(0, device.seqnum, sent, payload, INVALID, [], rest);
    assert [] + payload == payload;
    status, msg := device.Recv(buffer);
  }

  // ---------- Sending ----------

  method ComputeCrc(packet: array<byte>, n: nat) returns (crc: nat)
    requires n <= packet.Length
    ensures crc == Crc(packet[..n])
  {
    var octets := new bv8[n](i requires 0 <= i < n reads packet => packet[i] as bv8);
    assert octets[..] == Octets(packet[..n]);
    var c := Checksum.Crc16CcittReflected(octets, 0xFFFF, 0xFFFF);
    crc := Number16(c);
  }

  method BuildPacket(packet: array<byte>, count: nat, seqnum: nat, last: bool, msg: nat, chunk: seq<byte>)
    returns (n: nat)
    requires packet.Length == PACKETSIZE && msg < 0x1_0000 && |chunk| <= MAXDATA
    modifies packet
    ensures n <= packet.Length && packet[..n] == Fragment(count, seqnum, DIRECTION, last, msg, chunk)
  {
    hide Crc, Sequence;
    var len := |chunk|;
    packet[0] := Sequence(count, seqnum);
    packet[1] := Flags(DIRECTION, last);
    packet[2], packet[3] := msg % 0x100, msg / 0x100;
    packet[4], packet[5] := len % 0x100, len / 0x100;
    Store(packet, 6, chunk);
    assert packet[..6 + len] == Body(count, seqnum, DIRECTION, last, msg, chunk);
    var crc := ComputeCrc(packet, 6 + len);
    packet[6 + len], packet[7 + len] := crc % 0x100, crc / 0x100;
    n := len + 8;
    assert packet[..n] == packet[..6 + len] + Le16(crc);
  }

  /** What is still to be sent starts with the packet at hand. */
  lemma FellShort(part: seq<byte>, out: seq<byte>, frame: seq<byte>, more: seq<byte>)
    requires part < out + frame
    ensures part < out + frame + more
  {
  }

  /** What is left to send behind the packet at hand. */
  lemma NextPacket(out: seq<byte>, todo: seq<byte>, count: nat, seqnum: nat, msg: nat, payload: seq<byte>,
                   nbytes: nat, packet: seq<byte>)
    returns (more: seq<byte>)
    requires nbytes <= |payload| && msg < 0x1_0000
    requires todo == Frames(Fragments(count, seqnum, DIRECTION, msg, payload[nbytes..]))
    requires var len := if |payload| - nbytes > MAXDATA then MAXDATA else |payload| - nbytes;
      packet == Fragment(count, seqnum, DIRECTION, nbytes + len == |payload|, msg, payload[nbytes..nbytes + len])
    ensures out + todo == out + Frame(packet) + more
    ensures if |payload| - nbytes <= MAXDATA then more == []
            else more == Frames(Fragments(count + 1, seqnum, DIRECTION, msg, payload[nbytes + MAXDATA..]))
  {
    hide Fragment, Frame;
    var tail := payload[nbytes..];
    if |tail| <= MAXDATA {
      assert payload[nbytes..|payload|] == tail;
      FramesOfOne(packet);
      more := [];
    } else {
      assert payload[nbytes..nbytes + MAXDATA] == tail[..MAXDATA];
      assert tail[MAXDATA..] == payload[nbytes + MAXDATA..];
      more := Frames(Fragments(count + 1, seqnum, DIRECTION, msg, payload[nbytes + MAXDATA..]));
    }
    assert todo == Frame(packet) + more;
  }

  // ---------- Receiving ----------

  lemma PacketFields(packet: seq<byte>, len: nat)
    requires 8 <= len <= |packet|
    ensures var p := packet[..len];
      && packet[6..len - 2] == DataOf(p) && U16(packet[2], packet[3]) == TypeOf(p)
      && (packet[1] / 0x40 % 2 == 1 <==> IsLast(p))
  {
  }

  /** The checks of one packet, in the order they are made. */
  method Check(packet: array<byte>, len: nat, seqnum: nat, count: nat, msg: nat) returns (ok: bool)
    requires 8 <= len <= packet.Length
    ensures ok == Accepted(packet[..len], seqnum, count, msg)
  {
    hide Crc, Sequence;
    ghost var p := packet[..len];
    assert p[..|p| - 2] == packet[..len - 2];
    if packet[0] != Sequence(count, seqnum) {
      return false;
    }
    if packet[1] != 0 && packet[1] != 0x40 {
      return false;
    }
    if U16(packet[4], packet[5]) != len - 8 {
      return false;
    }
    if msg != INVALID && msg != U16(packet[2], packet[3]) {
      return false;
    }
    var ccrc := ComputeCrc(packet, len - 2);
    ok := U16(packet[len - 2], packet[len - 1]) == ccrc;
  }

  /** One step of receiving, as the receiver's loop takes it. */
  lemma ReceivedStep(s: seq<byte>, seqnum: nat, count: nat, msg: nat, got: seq<byte>)
    ensures Received(s, seqnum, count, msg, got) == (
      var scan := NextFrame(s);
      var p, rest := scan.frame, scan.rest;
      var status := Verdict(scan, seqnum, count, msg);
      if status != Success then Reply(status, msg, got, rest)
      else if IsLast(p) then Reply(Success, TypeOf(p), got + DataOf(p), rest)
      else Received(rest, seqnum, count + 1, TypeOf(p), got + DataOf(p)))
  {
    hide NextFrame, Verdict, TypeOf, DataOf, IsLast;
  }
}
