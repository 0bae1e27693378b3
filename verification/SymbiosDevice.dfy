/** The host side of the Halcyon Symbios download as the library runs it. */
module SymbiosDevice {
  import opened Bytes
  import opened Buffer
  import opened SymbiosDownload
  import Checksum

  /** The stream underneath, packet by packet. */
  class Wire {
    const peer: Peer
    var said: seq<seq<byte>>
    var supply: nat

    constructor (peer: Peer, supply: nat)
      ensures Current() == Line(peer, [], supply)
    {
      this.peer, this.supply, said := peer, supply, [];
    }

    function Current(): Line
      reads this
    {
      Line(peer, said, supply)
    }

    method Write(data: array<byte>, size: nat)
      requires size <= data.Length
      modifies this`said
      ensures Current() == old(Current()).Saying(data[..size])
    {
      said := said + [data[..size]];
    }

    method Read(data: array<byte>) returns (status: Status, len: nat)
      modifies this`supply, data
      ensures Current() == old(Current()).Waited()
      ensures old(Current().Heard()) == Silence ==> status == Timeout && len == 0
      ensures old(Current().Heard()).Packet? ==>
                var p := old(Current().Heard()).bytes;
                && status == Success && len == (if |p| > data.Length then data.Length else |p|)
                && data[..len] == p[..len]
    {
      var heard := Current().Heard();
      supply := if supply == 0 then 0 else supply - 1;
      match heard
      case Silence => status, len := Timeout, 0;
      case Packet(p) =>
        status, len := Success, if |p| > data.Length then data.Length else |p|;
        Store(data, 0, p[..len]);
        assert data[..len] == p[..len];
    }
  }

  /** Hands out what stands between the head of a packet and its check. */
  method CopyBody(packet: array<byte>, len: nat, data: array<byte>)
    requires 3 <= len <= packet.Length && len - 3 <= data.Length && packet != data
    modifies data
    ensures data[..len - 3] == packet[2..len - 1]
  {
    var body := packet[2..len - 1];
    Store(data, 0, body);
    assert forall i | 0 <= i < len - 3 :: data[i] == body[i];
  }

  method ComputeCrc(packet: array<byte>, lo: nat, hi: nat) returns (crc: byte)
    requires lo <= hi <= packet.Length
    ensures crc == Crc8(packet[lo..hi])
  {
    var octets := new bv8[hi - lo](i requires 0 <= i < hi - lo reads packet => packet[lo + i] as bv8);
    assert octets[..] == Octets(packet[lo..hi]);
    var c := Checksum.Crc8(octets, 0, 0);
    Checksum.NothingToFlip(Checksum.PlainCrc8(Checksum.CRC8, 0, octets[..]), 0);
    crc := Number8(c);
  }

  lemma CommandBuilt(packet: seq<byte>, cmd: byte, data: seq<byte>)
    requires |data| + 2 <= |packet| && packet[0] == cmd
    requires data != [] ==> packet[1..1 + |data|] == data && packet[1 + |data|] == Crc8(data)
    ensures packet[..if data == [] then 1 else |data| + 2] == Command(cmd, data)
  {
    hide Crc8;
  }

  class Host {
    const wire: Wire

    constructor (wire: Wire)
      ensures this.wire == wire
    {
      this.wire := wire;
    }

    method Send(cmd: byte, data: seq<byte>) returns (status: Status)
      modifies wire`said
      ensures status == if |data| > MAXPACKET then InvalidArgs else Success
      ensures wire.Current() ==
              if status == Success then old(wire.Current()).Saying(Command(cmd, data)) else old(wire.Current())
    {
      hide Crc8, Command;
      if |data| > MAXPACKET {
        return InvalidArgs;
      }
      var size := |data|;
      var packet := new byte[2 + MAXPACKET](_ => 0);
      var length := 1;
      packet[0] := cmd;
      if size > 0 {
        Store(packet, 1, data);
        assert packet[1..1 + size] == data;
        packet[1 + size] := ComputeCrc(packet, 1, 1 + size);
        length := length + size + 1;
      }
      CommandBuilt(packet[..], cmd, data);
      assert packet[..length] == packet[..][..length];
      wire.Write(packet, length);
      status := Success;
    }

    method Recv(cmd: byte, data: array<byte>, size: nat) returns (status: Status, actual: nat, errorcode: nat)
      requires cmd < RESPONSE && size <= data.Length
      modifies wire`supply, data
      ensures wire.Current() == old(wire.Current()).Waited()
      ensures old(wire.Current().Heard()) == Silence ==> status == Timeout && actual == 0 && errorcode == 0
      ensures old(wire.Current().Heard()).Packet? ==>
                var a := Checked(cmd, old(wire.Current().Heard()).bytes, size);
                && status == a.status && errorcode == a.errorcode && actual == |a.data| && data[..actual] == a.data
    {
      hide Crc8;
      status, actual, errorcode := Success, 0, 0;
      var packet := new byte[SZ_ANSWER](_ => 0);
      var len;
      status, len := wire.Read(packet);
      if status != Success {
        return;
      }
      ghost var heard := old(wire.Current().Heard()).bytes;
      ghost var p := if |heard| > SZ_ANSWER then heard[..SZ_ANSWER] else heard;
      assert p == packet[..len];
      if len < 3 {
        return Protocol, 0, 0;
      }
      assert packet[1..len - 1] == p[1..len - 1];
      var ccrc := ComputeCrc(packet, 1, len - 1);
      if packet[len - 1] != ccrc {
        return Protocol, 0, 0;
      }
      if packet[0] != cmd + RESPONSE {
        return Protocol, 0, 0;
      }
      if packet[1] != ACK && packet[1] != NAK {
        return Protocol, 0, 0;
      }
      if packet[1] == NAK {
        if len != 4 {
          return Protocol, 0, 0;
        }
        return Protocol, 0, ERR_BASE + packet[2];
      }
      if len - 3 > size {
        return Protocol, 0, 0;
      }
      assert packet[2..len - 1] == p[2..len - 1];
      actual := len - 3;
      CopyBody(packet, len, data);
    }

    /** Receives one block, asking for it again up to the bound. */
    method FetchBlock(cmd: byte, payload: array<byte>) returns (status: Status, len: nat)
      requires cmd < RESPONSE && payload.Length == 2 + SZ_BLOCK
      modifies wire`said, wire`supply, payload
      ensures var f := Fetched(old(wire.Current()), cmd, 0);
        && status == f.status && wire.Current() == f.line
        && (status == Success ==> len == |f.data| && payload[..len] == f.data)
    {
      hide Checked;
      var nretries := 0;
      ghost var f := Fetched(wire.Current(), cmd, 0);
      while true
        invariant nretries <= MAXRETRIES && Fetched(wire.Current(), cmd, nretries) == f
        decreases MAXRETRIES - nretries
      {
        var errorcode;
        status, len, errorcode := Recv(cmd, payload, payload.Length);
        if status == Success || status != Protocol {
          return;
        }
        if nretries >= MAXRETRIES {
          return;
        }
        nretries := nretries + 1;
        status := Send(NAK, []);
      }
    }

    /** Downloads a file into the buffer, whatever was in it before. If progress is tracked,
        it reports it after every block, or breaks off where it divides by zero. */
    method Download(request: byte, data: seq<byte>, cmd: byte, buffer: DcBuffer, tracked: bool)
      returns (status: Status, errorcode: nat, reports: seq<nat>, divided: bool)
      requires request < RESPONSE && cmd < RESPONSE && buffer.Valid()
      modifies wire`said, wire`supply, buffer, buffer.data
      ensures buffer.Valid()
      ensures status == NoMemory ==> !buffer.plentiful
      ensures status != NoMemory ==> (divided <==> tracked && DividesByZero(old(wire.Current()), request, data, cmd))
      ensures status != NoMemory && !divided ==>
                var d := Downloaded(old(wire.Current()), request, data, cmd);
                && status == d.status && errorcode == d.errorcode
                && buffer.Contents() == d.contents && wire.Current() == d.line
      ensures status != NoMemory && !divided && tracked ==>
                var a := Announced(old(wire.Current()), request, data);
                reports == if a.status != Success || a.length == 0 then []
                           else Reports(a.length, Collected(a.line.Saying(Command(cmd, [])), cmd, 1).blocks)
    {
      hide Announced, Collected, DataOf, DcBuffer.Contents, Reports;
      reports, divided := [], false;
      buffer.Clear();
      ghost var a := Announced(wire.Current(), request, data);
      var length;
      status, length, errorcode := Request(request, data);
      NoData([], 0);
      if status != Success {
        return;
      }
      var ok := buffer.Reserve(length);
      if !ok {
        return NoMemory, errorcode, reports, divided;
      }
      status := Send(cmd, []);
      ghost var c := Collected(a.line.Saying(Command(cmd, [])), cmd, 1);
      status, reports, divided := Collect(cmd, buffer, tracked, length);
      if divided {
        return;
      }
      if status != NoMemory {
        assert [] + DataOf(c.blocks) == DataOf(c.blocks) == buffer.Contents();
      }
      if status == Success && buffer.size % 0x1_0000_0000 != length {
        status := Protocol;
      }
    }

    method Request(request: byte, data: seq<byte>) returns (status: Status, length: nat, errorcode: nat)
      requires request < RESPONSE
      modifies wire`said, wire`supply
      ensures Announcement(status, length, errorcode, wire.Current()) == Announced(old(wire.Current()), request, data)
    {
      hide Checked;
      length, errorcode := 0, 0;
      status := Send(request, data);
      if status != Success {
        return;
      }
      var response := new byte[4](_ => 0);
      var size;
      status, size, errorcode := Recv(request, response, 4);
      if status != Success {
        return;
      }
      if size != 4 {
        return Protocol, 0, errorcode;
      }
      ghost var heard := old(wire.Current()).Saying(Command(request, data)).Heard().bytes;
      FourBytes(response[..], Checked(request, heard, 4).data);
      length := U32(response[0], response[1], response[2], response[3]);
    }

    /** Receives, checks and acknowledges blocks until the last one. */
    method Collect(cmd: byte, buffer: DcBuffer, tracked: bool, length: nat)
      returns (status: Status, reports: seq<nat>, divided: bool)
      requires cmd < RESPONSE && buffer.Valid()
      modifies wire`said, wire`supply, buffer, buffer.data
      ensures buffer.Valid() && (buffer.data == old(buffer.data) || fresh(buffer.data))
      ensures status == NoMemory ==> !buffer.plentiful
      ensures status != NoMemory ==>
                (divided <==> tracked && length == 0 && Collected(old(wire.Current()), cmd, 1).blocks != [])
      ensures status != NoMemory && !divided ==>
                var c := Collected(old(wire.Current()), cmd, 1);
                && status == c.status && wire.Current() == c.line
                && buffer.Contents() == old(buffer.Contents()) + DataOf(c.blocks)
                && reports == if tracked && length > 0 then Reports(length, c.blocks) else []
    {
      hide Collected, Continues, Fetched, DataOf, DcBuffer.Contents, Reports, StepOf, Number, IsLast;
      var counter: nat, nbytes := 1, 0;
      ghost var before, c := buffer.Contents(), Collected(wire.Current(), cmd, 1);
      ghost var got: seq<seq<byte>> := [];
      reports, divided := [], false;
      NoData([], 0);
      NoReports(length);
      ContinuesFirst(wire.Current(), cmd, 1);
      while true
        invariant buffer.Valid() && (buffer.data == old(buffer.data) || fresh(buffer.data))
        invariant counter < LAST && Blocks(got) && buffer.Contents() == before + DataOf(got)
        invariant Continues(c, got, wire.Current(), cmd, counter)
        invariant !divided && nbytes == |DataOf(got)| % 0x1_0000_0000 && (tracked && length == 0 ==> got == [])
        invariant reports == if tracked && length > 0 then Reports(length, got) else []
        decreases wire.supply
      {
        ContinuesStep(c, got, wire.Current(), cmd, counter);
        ghost var block := Fetched(wire.Current(), cmd, 0).data;
        var last, report;
        status, last, nbytes, report, divided := TakeBlock(cmd, counter, buffer, tracked, length, nbytes);
        if status != Success || divided {
          return;
        }
        GotMore(before, got, block, length);
        got, reports := got + [block], reports + report;
        counter := (counter + 1) % LAST;
        if last {
          break;
        }
      }
    }

    /** Receives, checks, stores and acknowledges one block, and reports progress if that
        is tracked. */
    method TakeBlock(cmd: byte, counter: nat, buffer: DcBuffer, tracked: bool, length: nat, nbytes: nat)
      returns (status: Status, last: bool, total: nat, report: seq<nat>, divided: bool)
      requires cmd < RESPONSE && buffer.Valid()
      modifies wire`said, wire`supply, buffer, buffer.data
      ensures buffer.Valid() && (buffer.data == old(buffer.data) || fresh(buffer.data))
      ensures status == NoMemory ==> !buffer.plentiful
      ensures var f := Fetched(old(wire.Current()), cmd, 0);
        var good := f.status == Success && |f.data| >= 2 && Number(f.data) == counter;
        && (!good ==> status == if f.status == Success then Protocol else f.status)
        && (good ==> status == Success || status == NoMemory)
        && (!good ==> wire.Current() == f.line && buffer.Contents() == old(buffer.Contents()))
        && (divided <==> status == Success && tracked && length == 0)
        && (status == Success ==> last == IsLast(f.data) && total == (nbytes + |f.data| - 2) % 0x1_0000_0000)
        && (status == Success ==> buffer.Contents() == old(buffer.Contents()) + f.data[2..])
        && (status == Success && !divided ==>
              && wire.Current() == f.line.Saying([ACK])
              && report == if tracked && length > 0 then [StepOf(total, length)] else [])
    {
      hide Fetched, DcBuffer.Contents, StepOf;
      var n;
      total, report, divided := nbytes, [], false;
      status, last, n := StoreBlock(cmd, counter, buffer);
      if status != Success {
        return;
      }
      total := (nbytes + n) % 0x1_0000_0000;
      if tracked {
        if length == 0 {
          divided := true;
          return;
        }
        report := [StepOf(total, length)];
      }
      status := Send(ACK, []);
    }

    /** Receives, checks and stores one block. */
    method StoreBlock(cmd: byte, counter: nat, buffer: DcBuffer) returns (status: Status, last: bool, n: nat)
      requires cmd < RESPONSE && buffer.Valid()
      modifies wire`said, wire`supply, buffer, buffer.data
      ensures buffer.Valid() && (buffer.data == old(buffer.data) || fresh(buffer.data))
      ensures status == NoMemory ==> !buffer.plentiful
      ensures var f := Fetched(old(wire.Current()), cmd, 0);
        var good := f.status == Success && |f.data| >= 2 && Number(f.data) == counter;
        && wire.Current() == f.line
        && (!good ==> status == if f.status == Success then Protocol else f.status)
        && (good ==> status == Success || status == NoMemory)
        && (!good ==> buffer.Contents() == old(buffer.Contents()))
        && (status == Success ==> last == IsLast(f.data) && n == |f.data| - 2)
        && (status == Success ==> buffer.Contents() == old(buffer.Contents()) + f.data[2..])
    {
      hide Fetched, DcBuffer.Contents;
      last, n := false, 0;
      var payload := new byte[2 + SZ_BLOCK](_ => 0);
      var len;
      status, len := FetchBlock(cmd, payload);
      if status != Success {
        return;
      }
      ghost var block := payload[..len];
      if len < 2 {
        return Protocol, last, n;
      }
      assert block[0] == payload[0] && block[1] == payload[1];
      var id := U16(payload[0], payload[1]);
      if id % LAST != counter {
        return Protocol, last, n;
      }
      var ok := buffer.Append(payload[2..len]);
      if !ok {
        return NoMemory, last, n;
      }
      assert payload[2..len] == block[2..];
      last, n := id >= LAST, len - 2;
    }
  }

  /** What is to be collected is what has been, and what is still to come. */
  ghost predicate Continues(c: Collection, got: seq<seq<byte>>, line: Line, cmd: byte, counter: nat)
    requires cmd < RESPONSE && counter < LAST
  {
    var rest := Collected(line, cmd, counter);
    c == rest.(blocks := got + rest.blocks)
  }

  lemma ContinuesFirst(line: Line, cmd: byte, counter: nat)
    requires cmd < RESPONSE && counter < LAST
    ensures Continues(Collected(line, cmd, counter), [], line, cmd, counter)
  {
    hide Collected;
    assert [] + Collected(line, cmd, counter).blocks == Collected(line, cmd, counter).blocks;
  }

  lemma ContinuesStep(c: Collection, got: seq<seq<byte>>, line: Line, cmd: byte, counter: nat)
    requires cmd < RESPONSE && counter < LAST && Continues(c, got, line, cmd, counter)
    ensures var f := Fetched(line, cmd, 0);
      var next := f.line.Saying([ACK]);
      if f.status != Success then c == Collection(f.status, got, f.line)
      else if |f.data| < 2 || Number(f.data) != counter then c == Collection(Protocol, got, f.line)
      else c.blocks != [] && if IsLast(f.data) then c == Collection(Success, got + [f.data], next)
           else Continues(c, got + [f.data], next, cmd, (counter + 1) % LAST)
  {
    hide Collected, Fetched, Number, IsLast;
    CollectStep(line, cmd, counter);
    var f := Fetched(line, cmd, 0);
    var more := Collected(f.line.Saying([ACK]), cmd, (counter + 1) % LAST).blocks;
    assert got + [] == got && got + ([f.data] + more) == got + [f.data] + more;
  }

  lemma NoReports(length: nat)
    ensures length > 0 ==> Reports(length, []) == []
  {
  }

  /** What one more block adds to the data, to their number and to the reports. */
  lemma GotMore(before: seq<byte>, blocks: seq<seq<byte>>, block: seq<byte>, length: nat)
    requires Blocks(blocks) && |block| >= 2
    ensures Blocks(blocks + [block])
    ensures before + DataOf(blocks) + block[2..] == before + DataOf(blocks + [block])
    ensures var total := |DataOf(blocks + [block])| % 0x1_0000_0000;
      && total == (|DataOf(blocks)| % 0x1_0000_0000 + |block| - 2) % 0x1_0000_0000
      && (length > 0 ==> Reports(length, blocks + [block]) == Reports(length, blocks) + [StepOf(total, length)])
  {
    hide StepOf, DataOf;
    var all := blocks + [block];
    DataOfOneMore(blocks, block);
    AddedModulo(|DataOf(blocks)|, |block| - 2);
    assert all[..|all| - 1] == blocks;
  }

  lemma AddedModulo(x: nat, n: nat)
    ensures (x % 0x1_0000_0000 + n) % 0x1_0000_0000 == (x + n) % 0x1_0000_0000
  {
  }

  lemma FourBytes(a: seq<byte>, b: seq<byte>)
    requires |a| == 4 && |b| <= 4 && a[..|b|] == b
    ensures |b| == 4 ==> U32(a[0], a[1], a[2], a[3]) == U32(b[0], b[1], b[2], b[3])
  {
    if |b| == 4 {
      assert a[..4] == a;
    }
  }

  lemma {:induction false} DataOfOneMore(blocks: seq<seq<byte>>, block: seq<byte>)
    requires Blocks(blocks) && |block| >= 2
    ensures Blocks(blocks + [block]) && DataOf(blocks + [block]) == DataOf(blocks) + block[2..]
    decreases |blocks|
  {
    if blocks == [] {
      assert [] + [block] == [block];
    } else {
      assert (blocks + [block])[1..] == blocks[1..] + [block];
      DataOfOneMore(blocks[1..], block);
    }
  }
}
