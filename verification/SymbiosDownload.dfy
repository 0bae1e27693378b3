/** The block download of the Halcyon Symbios: stop-and-wait with acknowledgements, bounded
    retries and a block counter of fifteen bits, against any dive computer and line. */
module SymbiosDownload {
  import opened Bytes
  import opened Slices
  import Checksum
  import CrcAppended
  import CrcMirror
  import CrcGuarantees

  const ACK: byte := 0x06
  const NAK: byte := 0x15
  const RESPONSE: byte := 0x80
  const MAXRETRIES: nat := 3
  const MAXPACKET: nat := 256
  const SZ_BLOCK: nat := 200
  /** The room for an answer: two bytes, the data and a check. */
  const SZ_ANSWER: nat := 259
  const LAST: nat := 0x8000

  // ---------- Packets ----------

  function Crc8(data: seq<byte>): byte {
    Number8(Checksum.PlainCrc8(Checksum.CRC8, 0, Octets(data)))
  }

  /** A command of the host. */
  function Command(cmd: byte, data: seq<byte>): seq<byte> {
    if data == [] then [cmd] else [cmd] + data + [Crc8(data)]
  }

  /** A positive answer of the dive computer. */
  function Response(cmd: byte, data: seq<byte>): seq<byte>
    requires cmd < RESPONSE
  {
    [cmd + RESPONSE, ACK] + data + [Crc8([ACK] + data)]
  }

  datatype Answer = Answer(status: Status, data: seq<byte>, errorcode: nat)

  const ERR_BASE: nat := 0x8000_0000
  const REFUSED := Answer(Protocol, [], 0)

  /** What the host makes of a packet, in the order of its checks. */
  function Checked(cmd: byte, packet: seq<byte>, size: nat): (a: Answer)
    requires cmd < RESPONSE
    ensures (a.status == Success && a.errorcode == 0) || (a.status == Protocol && a.data == [])
    ensures |a.data| <= size
  {
    var p := if |packet| > SZ_ANSWER then packet[..SZ_ANSWER] else packet;
    var n := |p|;
    if n < 3 then REFUSED
    else if p[n - 1] != Crc8(p[1..n - 1]) then REFUSED
    else if p[0] != cmd + RESPONSE then REFUSED
    else if p[1] != ACK && p[1] != NAK then REFUSED
    else if p[1] == NAK then
      if n != 4 then REFUSED else Answer(Protocol, [], ERR_BASE + p[2])
    else if n - 3 > size then REFUSED
    else Answer(Success, p[2..n - 1], 0)
  }

  /** A good answer is taken as it was meant. */
  lemma ResponseChecked(cmd: byte, data: seq<byte>, size: nat)
    requires cmd < RESPONSE && |data| <= size && |data| + 3 <= SZ_ANSWER
    ensures Checked(cmd, Response(cmd, data), size) == Answer(Success, data, 0)
  {
    hide Crc8;
    var p := Response(cmd, data);
    assert p[1..|p| - 1] == [ACK] + data;
    assert p[2..|p| - 1] == data;
  }

  // ---------- The line ----------

  datatype Arrival = Silence | Packet(bytes: seq<byte>)

  /** What arrives next, given all that the host has said so far. */
  type Peer = seq<seq<byte>> -> Arrival

  /** The state of the line: who is at the other end, what the host has said, and how many
      more packets can arrive before it falls silent for good. */
  datatype Line = Line(peer: Peer, said: seq<seq<byte>>, supply: nat) {
    function Saying(packet: seq<byte>): Line {
      this.(said := said + [packet])
    }

    function Heard(): Arrival {
      if supply == 0 then Silence else peer(said)
    }

    function Waited(): Line {
      this.(supply := if supply == 0 then 0 else supply - 1)
    }
  }

  // ---------- The host ----------

  datatype Fetch = Fetch(status: Status, data: seq<byte>, line: Line)

  /** Receiving one block, with a bounded number of requests to repeat it. */
  ghost function Fetched(line: Line, cmd: byte, retries: nat): (f: Fetch)
    requires cmd < RESPONSE
    ensures f.line.peer == line.peer && f.line.supply <= line.supply
    ensures f.status == Success ==> f.line.supply < line.supply
    ensures |f.data| <= 2 + SZ_BLOCK
    ensures f.status == Success || f.status == Timeout || f.status == Protocol
    decreases line.supply
  {
    match line.Heard()
    case Silence => Fetch(Timeout, [], line.Waited())
    case Packet(p) =>
      var a := Checked(cmd, p, 2 + SZ_BLOCK);
      if a.status == Success then Fetch(Success, a.data, line.Waited())
      else if retries >= MAXRETRIES then Fetch(Protocol, [], line.Waited())
      else Fetched(line.Waited().Saying([NAK]), cmd, retries + 1)
  }

  /** Every block starts with its number. */
  ghost predicate Blocks(blocks: seq<seq<byte>>) {
    forall i | 0 <= i < |blocks| :: |blocks[i]| >= 2
  }

  /** How collecting blocks ended, and the blocks that were accepted. */
  datatype Collection = Collection(status: Status, blocks: seq<seq<byte>>, line: Line)

  ghost function Collected(line: Line, cmd: byte, counter: nat): (c: Collection)
    requires cmd < RESPONSE && counter < LAST
    ensures Blocks(c.blocks)
    ensures c.status == Success || c.status == Timeout || c.status == Protocol
    decreases line.supply
  {
    var f := Fetched(line, cmd, 0);
    if f.status != Success then Collection(f.status, [], f.line)
    else if |f.data| < 2 then Collection(Protocol, [], f.line)
    else
      var id := U16(f.data[0], f.data[1]);
      if id % LAST != counter then Collection(Protocol, [], f.line)
      else
        var next := f.line.Saying([ACK]);
        if id >= LAST then Collection(Success, [f.data], next)
        else
          var c := Collected(next, cmd, (counter + 1) % LAST);
          c.(blocks := [f.data] + c.blocks)
  }

  /** The data in blocks, without their numbers. */
  ghost function DataOf(blocks: seq<seq<byte>>): seq<byte>
    requires Blocks(blocks)
  {
    if blocks == [] then [] else blocks[0][2..] + DataOf(blocks[1..])
  }

  datatype Announcement = Announcement(status: Status, length: nat, errorcode: nat, line: Line)

  /** Asking for the data, which the dive computer answers with a length. */
  function Announced(line: Line, request: byte, data: seq<byte>): (a: Announcement)
    requires request < RESPONSE
    ensures a.status != NoMemory && (a.status == Success ==> a.errorcode == 0)
  {
    if |data| > MAXPACKET then Announcement(InvalidArgs, 0, 0, line)
    else
      var asked := line.Saying(Command(request, data));
      match asked.Heard()
      case Silence => Announcement(Timeout, 0, 0, asked.Waited())
      case Packet(p) =>
        var a := Checked(request, p, 4);
        if a.status != Success || |a.data| != 4 then Announcement(Protocol, 0, a.errorcode, asked.Waited())
        else Announcement(Success, U32(a.data[0], a.data[1], a.data[2], a.data[3]), 0, asked.Waited())
  }

  datatype Download = Download(status: Status, contents: seq<byte>, errorcode: nat, line: Line)

  /** A whole download. */
  ghost function Downloaded(line: Line, request: byte, data: seq<byte>, cmd: byte): Download
    requires request < RESPONSE && cmd < RESPONSE
  {
    var a := Announced(line, request, data);
    if a.status != Success then Download(a.status, [], a.errorcode, a.line)
    else
      var c := Collected(a.line.Saying(Command(cmd, [])), cmd, 1);
      var contents := DataOf(c.blocks);
      var complete := |contents| % 0x1_0000_0000 == a.length;
      Download(if c.status == Success && !complete then Protocol else c.status, contents, 0, c.line)
  }

  // ---------- Progress ----------

  const NSTEPS: nat := 1000

  /** How far a download is after so many bytes, in steps, as 32-bit arithmetic has it. */
  function StepOf(nbytes: nat, length: nat): nat
    requires length > 0
  {
    var n := if nbytes > length then length else nbytes;
    NSTEPS * n % 0x1_0000_0000 / length
  }

  /** What is reported after each of these blocks. */
  ghost function Reports(length: nat, blocks: seq<seq<byte>>): seq<nat>
    requires length > 0 && Blocks(blocks)
  {
    if blocks == [] then []
    else Reports(length, blocks[..|blocks| - 1]) + [StepOf(|DataOf(blocks)| % 0x1_0000_0000, length)]
  }

  /** Reporting progress divides by the announced length, at the first block. */
  ghost predicate DividesByZero(line: Line, request: byte, data: seq<byte>, cmd: byte)
    requires request < RESPONSE && cmd < RESPONSE
  {
    var a := Announced(line, request, data);
    a.status == Success && a.length == 0 && Collected(a.line.Saying(Command(cmd, [])), cmd, 1).blocks != []
  }

  lemma SuccessHasBlocks(line: Line, cmd: byte, counter: nat)
    requires cmd < RESPONSE && counter < LAST
    ensures var c := Collected(line, cmd, counter); c.status == Success ==> c.blocks != []
  {
    hide Fetched;
  }

  /** Of the downloads that succeed, those that divide by zero are the ones of nothing, or
      of a multiple of 2^32 bytes. */
  lemma EmptyDownloadDivides(line: Line, request: byte, data: seq<byte>, cmd: byte)
    requires request < RESPONSE && cmd < RESPONSE
    ensures var d := Downloaded(line, request, data, cmd);
      d.status == Success ==> (DividesByZero(line, request, data, cmd) <==> |d.contents| % 0x1_0000_0000 == 0)
  {
    hide Collected, Announced, DataOf, Command;
    var a := Announced(line, request, data);
    var asked := a.line.Saying(Command(cmd, []));
    if a.status == Success && Collected(asked, cmd, 1).status == Success {
      SuccessHasBlocks(asked, cmd, 1);
    }
  }

  /** Progress never passes its end, and reaches it with the last byte; it never goes back
      as long as the steps of the whole length fit 32 bits. */
  lemma StepsInOrder(m: nat, n: nat, length: nat)
    requires length > 0 && m <= n
    ensures StepOf(n, length) <= NSTEPS
    ensures NSTEPS * length < 0x1_0000_0000 && n >= length ==> StepOf(n, length) == NSTEPS
    ensures NSTEPS * length < 0x1_0000_0000 ==> StepOf(m, length) <= StepOf(n, length)
  {
    hide StepOf;
    var a, b := if m > length then length else m, if n > length then length else n;
    StepBounded(n, length);
    if NSTEPS * length < 0x1_0000_0000 {
      StepUnwrapped(m, length);
      StepUnwrapped(n, length);
      QuotientsOrdered(NSTEPS * a, NSTEPS * b, length);
      Quotient(NSTEPS * length, length, NSTEPS, 0);
    }
  }

  lemma StepBounded(n: nat, length: nat)
    requires length > 0
    ensures StepOf(n, length) <= NSTEPS
  {
    var b := if n > length then length else n;
    Remains(NSTEPS * b);
    QuotientBelow(NSTEPS * b % 0x1_0000_0000, NSTEPS, length);
  }

  lemma Remains(x: nat)
    ensures x % 0x1_0000_0000 <= x && (x < 0x1_0000_0000 ==> x % 0x1_0000_0000 == x)
  {
  }

  lemma StepUnwrapped(n: nat, length: nat)
    requires length > 0 && NSTEPS * length < 0x1_0000_0000
    ensures StepOf(n, length) == NSTEPS * (if n > length then length else n) / length
  {
    Remains(NSTEPS * if n > length then length else n);
  }

  lemma QuotientBelow(x: nat, q: nat, n: nat)
    requires n > 0 && x <= q * n
    ensures x / n <= q
  {
    QuotientsOrdered(x, q * n, n);
    Quotient(q * n, n, q, 0);
  }

  lemma QuotientsOrdered(x: nat, y: nat, n: nat)
    requires n > 0 && x <= y
    ensures x / n <= y / n
  {
    Multiples(n, y / n, x / n);
  }

  /** Beyond that it does: of five million bytes, one more sets it back from 858 to 0. */
  lemma StepsWrap()
    ensures StepOf(4_294_967, 5_000_000) == 858 && StepOf(4_294_968, 5_000_000) == 0
  {
  }

  // ---------- Against any peer ----------

  function Number(block: seq<byte>): nat
    requires |block| >= 2
  {
    U16(block[0], block[1]) % LAST
  }

  predicate IsLast(block: seq<byte>)
    requires |block| >= 2
  {
    U16(block[0], block[1]) >= LAST
  }

  ghost predicate InOrder(blocks: seq<seq<byte>>, counter: nat)
    requires Blocks(blocks)
  {
    forall i | 0 <= i < |blocks| :: Number(blocks[i]) == (counter + i) % LAST
  }

  /** The last block says that it is, if there is to be a last one, and no other does. */
  ghost predicate Ended(blocks: seq<seq<byte>>, over: bool)
    requires Blocks(blocks)
  {
    && (over ==> blocks != [])
    && forall i | 0 <= i < |blocks| :: IsLast(blocks[i]) <==> over && i == |blocks| - 1
  }

  lemma OneBlockEarlier(block: seq<byte>, blocks: seq<seq<byte>>, counter: nat, over: bool)
    requires |block| >= 2 && Blocks(blocks) && counter < LAST && Number(block) == counter
    requires InOrder(blocks, (counter + 1) % LAST) && Ended(blocks, over) && !IsLast(block)
    ensures Blocks([block] + blocks) && InOrder([block] + blocks, counter) && Ended([block] + blocks, over)
  {
    hide Number, IsLast;
    var all := [block] + blocks;
    forall i | 0 <= i < |all|
      ensures Number(all[i]) == (counter + i) % LAST
    {
      if i > 0 {
        assert all[i] == blocks[i - 1];
        Wraps(counter, i);
      }
    }
  }

  lemma Wraps(counter: nat, i: nat)
    requires i > 0
    ensures ((counter + 1) % LAST + (i - 1)) % LAST == (counter + i) % LAST
  {
  }

  /** Whoever is at the other end: accepted blocks are numbered consecutively, through the
      wrap of the counter, and the download is over at the first one that says so. */
  lemma {:induction false} AcceptedInOrder(line: Line, cmd: byte, counter: nat)
    requires cmd < RESPONSE && counter < LAST
    ensures var c := Collected(line, cmd, counter);
      InOrder(c.blocks, counter) && Ended(c.blocks, c.status == Success)
    decreases line.supply
  {
    hide Fetched, Blocks, InOrder, Ended;
    var c, f := Collected(line, cmd, counter), Fetched(line, cmd, 0);
    if c.blocks == [] {
      NoBlocks(counter);
    } else if IsLast(f.data) {
      OneBlock(f.data);
    } else {
      var more := Collected(f.line.Saying([ACK]), cmd, (counter + 1) % LAST);
      AcceptedInOrder(f.line.Saying([ACK]), cmd, (counter + 1) % LAST);
      OneBlockEarlier(f.data, more.blocks, counter, more.status == Success);
    }
  }

  lemma NoBlocks(counter: nat)
    ensures InOrder([], counter) && Ended([], false)
  {
  }

  lemma OneBlock(block: seq<byte>)
    requires |block| >= 2 && IsLast(block)
    ensures InOrder([block], Number(block)) && Ended([block], true)
  {
  }

  function Acks(talk: seq<seq<byte>>): nat {
    if talk == [] then 0
    else Acks(talk[..|talk| - 1]) + if talk[|talk| - 1] == [ACK] then 1 else 0
  }

  /** How often the current block has been asked for again. */
  function Repeats(talk: seq<seq<byte>>): nat {
    if talk == [] || talk[|talk| - 1] == [ACK] then 0 else Repeats(talk[..|talk| - 1]) + 1
  }

  /** What the host may say once blocks are coming: acknowledgements, and requests to
      repeat, never more than the retries in a row. */
  ghost predicate IsTalk(talk: seq<seq<byte>>) {
    && (forall i | 0 <= i < |talk| :: talk[i] == [ACK] || talk[i] == [NAK])
    && (forall i | 0 <= i <= |talk| :: Repeats(talk[..i]) <= MAXRETRIES)
  }

  lemma NoTalk()
    ensures IsTalk([]) && Acks([]) == 0 && Repeats([]) == 0
  {
  }

  lemma OneMoreWord(talk: seq<seq<byte>>, word: seq<byte>)
    requires IsTalk(talk) && (word == [ACK] || (word == [NAK] && Repeats(talk) < MAXRETRIES))
    ensures IsTalk(talk + [word])
    ensures Acks(talk + [word]) == Acks(talk) + if word == [ACK] then 1 else 0
    ensures Repeats(talk + [word]) == if word == [ACK] then 0 else Repeats(talk) + 1
  {
    var more := talk + [word];
    assert more[..|talk|] == talk && more[..|more|] == more;
    assert forall i | 0 <= i <= |talk| :: more[..i] == talk[..i];
  }

  /** Everything the host has said after `base` is this talk. */
  ghost predicate Since(line: Line, base: seq<seq<byte>>, talk: seq<seq<byte>>) {
    line.said == base + talk && IsTalk(talk)
  }

  lemma SaidMore(line: Line, base: seq<seq<byte>>, talk: seq<seq<byte>>, word: seq<byte>)
    requires Since(line, base, talk) && (word == [ACK] || (word == [NAK] && Repeats(talk) < MAXRETRIES))
    ensures Since(line.Saying(word), base, talk + [word])
    ensures Acks(talk + [word]) == Acks(talk) + if word == [ACK] then 1 else 0
    ensures Repeats(talk + [word]) == if word == [ACK] then 0 else Repeats(talk) + 1
  {
    hide IsTalk, Acks, Repeats;
    OneMoreWord(talk, word);
    assert base + talk + [word] == base + (talk + [word]);
  }

  lemma {:induction false} FetchTalks(line: Line, cmd: byte, base: seq<seq<byte>>, talk: seq<seq<byte>>)
    returns (longer: seq<seq<byte>>)
    requires cmd < RESPONSE && Since(line, base, talk) && Repeats(talk) <= MAXRETRIES
    ensures Since(Fetched(line, cmd, Repeats(talk)).line, base, longer)
    ensures Acks(longer) == Acks(talk)
    decreases line.supply
  {
    hide Checked, IsTalk, Acks, Repeats;
    longer := talk;
    match line.Heard()
    case Silence =>
    case Packet(p) =>
      if Checked(cmd, p, 2 + SZ_BLOCK).status != Success && Repeats(talk) < MAXRETRIES {
        SaidMore(line.Waited(), base, talk, [NAK]);
        longer := FetchTalks(line.Waited().Saying([NAK]), cmd, base, talk + [[NAK]]);
      }
  }

  /** Whoever is at the other end: there is one acknowledgement for every block that was
      accepted, and otherwise the host only asks for repetitions, within its bound. */
  lemma {:induction false} OneAckPerBlock(line: Line, cmd: byte, counter: nat, base: seq<seq<byte>>,
                                          talk: seq<seq<byte>>)
    returns (longer: seq<seq<byte>>)
    requires cmd < RESPONSE && counter < LAST && Since(line, base, talk)
    requires talk == [] || talk[|talk| - 1] == [ACK]
    ensures var c := Collected(line, cmd, counter);
      Since(c.line, base, longer) && Acks(longer) == Acks(talk) + |c.blocks|
    decreases line.supply
  {
    hide Fetched, IsTalk, Acks;
    var f := Fetched(line, cmd, 0);
    longer := FetchTalks(line, cmd, base, talk);
    if f.status == Success && |f.data| >= 2 && Number(f.data) == counter {
      SaidMore(f.line, base, longer, [ACK]);
      longer := longer + [[ACK]];
      if !IsLast(f.data) {
        longer := OneAckPerBlock(f.line.Saying([ACK]), cmd, (counter + 1) % LAST, base, longer);
      }
    }
  }

  // ---------- Against a dive computer that sends a file ----------

  /** The blocks a file is cut into. */
  type File = f: seq<seq<byte>> | f != [] && forall i | 0 <= i < |f| :: |f[i]| <= SZ_BLOCK witness [[]]

  /** Block `k` as it is sent: numbered from one, modulo 32768, the last one marked. */
  function Block(file: File, k: nat): (b: seq<byte>)
    requires k < |file|
    ensures 2 <= |b| <= 2 + SZ_BLOCK && b[2..] == file[k]
    ensures Number(b) == (k + 1) % LAST && (IsLast(b) <==> k == |file| - 1)
  {
    var id := (k + 1) % LAST + if k == |file| - 1 then LAST else 0;
    Le16(id) + file[k]
  }

  /** A copy of block `k` that is good, or that the host can tell is not. */
  ghost predicate Copy(a: Arrival, cmd: byte, file: File, k: nat)
    requires cmd < RESPONSE && k < |file|
  {
    a.Packet? ==>
      a.bytes == Response(cmd, Block(file, k)) || Checked(cmd, a.bytes, 2 + SZ_BLOCK).status == Protocol
  }

  /** A dive computer that sends the block asked for, over a line that loses packets and
      damages them so that it shows. */
  ghost predicate Faithful(peer: Peer, base: seq<seq<byte>>, cmd: byte, file: File)
    requires cmd < RESPONSE
  {
    forall talk | IsTalk(talk) && Acks(talk) < |file| :: Copy(peer(base + talk), cmd, file, Acks(talk))
  }

  lemma {:induction false} FaithfulFetch(line: Line, cmd: byte, base: seq<seq<byte>>, talk: seq<seq<byte>>, file: File)
    returns (longer: seq<seq<byte>>)
    requires cmd < RESPONSE && Faithful(line.peer, base, cmd, file)
    requires Since(line, base, talk) && Repeats(talk) <= MAXRETRIES && Acks(talk) < |file|
    ensures var f := Fetched(line, cmd, Repeats(talk));
      && Since(f.line, base, longer) && Acks(longer) == Acks(talk)
      && (f.status == Success ==> f.data == Block(file, Acks(talk)))
    decreases line.supply
  {
    hide Checked, Response, Block, Acks, Repeats;
    longer := talk;
    match line.Heard()
    case Silence =>
    case Packet(p) =>
      assert Copy(line.peer(base + talk), cmd, file, Acks(talk));
      ResponseChecked(cmd, Block(file, Acks(talk)), 2 + SZ_BLOCK);
      if Checked(cmd, p, 2 + SZ_BLOCK).status != Success && Repeats(talk) < MAXRETRIES {
        SaidMore(line.Waited(), base, talk, [NAK]);
        longer := FaithfulFetch(line.Waited().Saying([NAK]), cmd, base, talk + [[NAK]], file);
      }
  }

  /** What is collected is always a beginning of the file, and all of it on success. */
  lemma {:induction false} FaithfulCollection(line: Line, cmd: byte, base: seq<seq<byte>>, talk: seq<seq<byte>>,
                                              file: File)
    requires cmd < RESPONSE && Faithful(line.peer, base, cmd, file)
    requires Since(line, base, talk) && Repeats(talk) == 0 && Acks(talk) < |file|
    ensures var k := Acks(talk);
      var c := Collected(line, cmd, (k + 1) % LAST);
      && k + |c.blocks| <= |file| && DataOf(c.blocks) == Flat(file[k..k + |c.blocks|])
      && (c.status == Success <==> k + |c.blocks| == |file|)
    decreases line.supply
  {
    hide Block, IsTalk, Fetched, Collected, DataOf, Number, IsLast, Acks, Repeats, Faithful;
    var k := Acks(talk);
    var f := Fetched(line, cmd, 0);
    CollectStep(line, cmd, (k + 1) % LAST);
    var longer := FaithfulFetch(line, cmd, base, talk, file);
    if f.status == Success {
      SaidMore(f.line, base, longer, [ACK]);
      var next := f.line.Saying([ACK]);
      if k + 1 < |file| {
        NextNumber(k + 1);
        FaithfulCollection(next, cmd, base, longer + [[ACK]], file);
        var c := Collected(next, cmd, (k + 2) % LAST);
        DataStep(f.data, c.blocks);
        FlatStep(file, k, |c.blocks| + 1);
      } else {
        LastData(f.data, file, k);
      }
    } else {
      NoData(file, k);
    }
  }

  lemma NextNumber(n: nat)
    ensures (n % LAST + 1) % LAST == (n + 1) % LAST
  {
  }

  lemma NoData(file: seq<seq<byte>>, k: nat)
    requires k <= |file|
    ensures DataOf([]) == Flat(file[k..k]) == []
  {
  }

  lemma LastData(block: seq<byte>, file: seq<seq<byte>>, k: nat)
    requires k < |file| && |block| >= 2 && block[2..] == file[k]
    ensures DataOf([block]) == Flat(file[k..k + 1])
  {
    DataStep(block, []);
    assert [block] + [] == [block];
    FlatStep(file, k, 1);
    NoData(file, k + 1);
  }

  lemma DataStep(block: seq<byte>, blocks: seq<seq<byte>>)
    requires |block| >= 2 && Blocks(blocks)
    ensures Blocks([block] + blocks) && DataOf([block] + blocks) == block[2..] + DataOf(blocks)
    ensures DataOf([]) == []
  {
    assert ([block] + blocks)[1..] == blocks;
  }

  /** One step of collecting, in terms of the number in the block. */
  lemma CollectStep(line: Line, cmd: byte, counter: nat)
    requires cmd < RESPONSE && counter < LAST
    ensures Collected(line, cmd, counter) == (
      var f := Fetched(line, cmd, 0);
      var next := f.line.Saying([ACK]);
      if f.status != Success then Collection(f.status, [], f.line)
      else if |f.data| < 2 || Number(f.data) != counter then Collection(Protocol, [], f.line)
      else if IsLast(f.data) then Collection(Success, [f.data], next)
      else
        var c := Collected(next, cmd, (counter + 1) % LAST);
        c.(blocks := [f.data] + c.blocks))
  {
    hide Fetched;
  }

  lemma FlatStep(file: seq<seq<byte>>, k: nat, n: nat)
    requires k + n <= |file| && n > 0
    ensures Flat(file[k..k + n]) == file[k] + Flat(file[k + 1..k + n]) && Flat(file[k..k]) == []
  {
    assert file[k..k + n][1..] == file[k + 1..k + n];
  }

  // ---------- How much damage is too much ----------

  /** A dive computer whose first `damaged[k]` copies of block `k` arrive detectably
      damaged, and whose other copies arrive intact. */
  ghost predicate Damages(peer: Peer, base: seq<seq<byte>>, cmd: byte, file: File, damaged: seq<nat>)
    requires cmd < RESPONSE && |damaged| == |file|
  {
    forall talk | IsTalk(talk) && Acks(talk) < |file| ::
      DamagedCopy(peer(base + talk), cmd, file, Acks(talk), Repeats(talk) < damaged[Acks(talk)])
  }

  ghost predicate DamagedCopy(a: Arrival, cmd: byte, file: File, k: nat, damaged: bool)
    requires cmd < RESPONSE && k < |file|
  {
    && a.Packet?
    && (if damaged then Checked(cmd, a.bytes, 2 + SZ_BLOCK).status == Protocol
        else a.bytes == Response(cmd, Block(file, k)))
  }

  lemma DamagesIsFaithful(peer: Peer, base: seq<seq<byte>>, cmd: byte, file: File, damaged: seq<nat>)
    requires cmd < RESPONSE && |damaged| == |file| && Damages(peer, base, cmd, file, damaged)
    ensures Faithful(peer, base, cmd, file)
  {
    hide Checked, Response, Block, Acks, Repeats, IsTalk;
    forall talk | IsTalk(talk) && Acks(talk) < |file|
      ensures Copy(peer(base + talk), cmd, file, Acks(talk))
    {
      assert DamagedCopy(peer(base + talk), cmd, file, Acks(talk), Repeats(talk) < damaged[Acks(talk)]);
    }
  }

  /** A block gets through exactly if one of its first four copies does. */
  lemma {:induction false} DamagedFetch(line: Line, cmd: byte, base: seq<seq<byte>>, talk: seq<seq<byte>>, file: File,
                                        damaged: seq<nat>)
    requires cmd < RESPONSE && |damaged| == |file| && Damages(line.peer, base, cmd, file, damaged)
    requires Since(line, base, talk) && Repeats(talk) <= MAXRETRIES && Acks(talk) < |file|
    requires line.supply + Repeats(talk) >= 1 + MAXRETRIES && Repeats(talk) <= damaged[Acks(talk)]
    ensures var f := Fetched(line, cmd, Repeats(talk));
      && f.status == (if damaged[Acks(talk)] <= MAXRETRIES then Success else Protocol)
      && f.line.supply + 1 + MAXRETRIES >= line.supply + Repeats(talk)
    decreases line.supply
  {
    hide Checked, Response, Block, Acks, Repeats, IsTalk;
    var k := Acks(talk);
    assert DamagedCopy(line.peer(base + talk), cmd, file, k, Repeats(talk) < damaged[k]);
    ResponseChecked(cmd, Block(file, k), 2 + SZ_BLOCK);
    if Repeats(talk) < damaged[k] && Repeats(talk) < MAXRETRIES {
      SaidMore(line.Waited(), base, talk, [NAK]);
      DamagedFetch(line.Waited().Saying([NAK]), cmd, base, talk + [[NAK]], file, damaged);
    }
  }

  ghost predicate Bearable(damaged: seq<nat>, k: nat) {
    forall i | k <= i < |damaged| :: damaged[i] <= MAXRETRIES
  }

  /** The file gets through exactly if no block is damaged four times in a row. */
  lemma {:induction false} DamagedCollection(line: Line, cmd: byte, base: seq<seq<byte>>, talk: seq<seq<byte>>,
                                             file: File, damaged: seq<nat>)
    requires cmd < RESPONSE && |damaged| == |file| && Damages(line.peer, base, cmd, file, damaged)
    requires Since(line, base, talk) && Repeats(talk) == 0 && Acks(talk) < |file|
    requires line.supply >= (1 + MAXRETRIES) * (|file| - Acks(talk))
    ensures var c := Collected(line, cmd, (Acks(talk) + 1) % LAST);
      c.status == if Bearable(damaged, Acks(talk)) then Success else Protocol
    decreases line.supply
  {
    hide Block, IsTalk, Fetched, Collected, Number, IsLast, Acks, Repeats, Faithful, Damages;
    var k := Acks(talk);
    var f := Fetched(line, cmd, 0);
    CollectStep(line, cmd, (k + 1) % LAST);
    DamagesIsFaithful(line.peer, base, cmd, file, damaged);
    var longer := FaithfulFetch(line, cmd, base, talk, file);
    DamagedFetch(line, cmd, base, talk, file, damaged);
    if f.status == Success && k + 1 < |file| {
      SaidMore(f.line, base, longer, [ACK]);
      NextNumber(k + 1);
      DamagedCollection(f.line.Saying([ACK]), cmd, base, longer + [[ACK]], file, damaged);
    }
  }

  /** A dive computer that answers the request with a length and then sends a file. */
  ghost predicate Announces(line: Line, request: byte, data: seq<byte>, length: nat)
    requires request < RESPONSE && length < 0x1_0000_0000
  {
    line.Saying(Command(request, data)).Heard() == Packet(Response(request, Le32(length)))
  }

  function Asked(line: Line, request: byte, data: seq<byte>, cmd: byte): Line {
    line.Saying(Command(request, data)).Waited().Saying(Command(cmd, []))
  }

  lemma AnnouncedRight(line: Line, request: byte, data: seq<byte>, length: nat)
    requires request < RESPONSE && length < 0x1_0000_0000 && |data| <= MAXPACKET
    requires Announces(line, request, data, length)
    ensures Announced(line, request, data).status == Success && Announced(line, request, data).length == length
  {
    hide Checked, Response;
    ResponseChecked(request, Le32(length), 4);
    U32OfLe32(length);
  }

  /** What a download leaves is a beginning of the file; on success it is the file, and as
      long as announced. */
  lemma FaithfulDownload(line: Line, request: byte, data: seq<byte>, cmd: byte, file: File)
    requires request < RESPONSE && cmd < RESPONSE
    requires Faithful(line.peer, Asked(line, request, data, cmd).said, cmd, file)
    ensures var d := Downloaded(line, request, data, cmd);
      && d.contents <= Flat(file)
      && (d.status == Success ==>
            d.contents == Flat(file) && |d.contents| % 0x1_0000_0000 == Announced(line, request, data).length)
  {
    hide Collected, DataOf, Faithful, IsTalk, Announced, Asked, Flat, Acks, Repeats;
    if Announced(line, request, data).status == Success {
      AskedLine(line, request, data, cmd);
      WholeCollection(Asked(line, request, data, cmd), cmd, file);
    }
  }

  lemma AskedLine(line: Line, request: byte, data: seq<byte>, cmd: byte)
    requires request < RESPONSE && Announced(line, request, data).status == Success
    ensures Announced(line, request, data).line.Saying(Command(cmd, [])) == Asked(line, request, data, cmd)
    ensures Asked(line, request, data, cmd).peer == line.peer
  {
    hide Checked, Command;
  }

  lemma WholeCollection(line: Line, cmd: byte, file: File)
    requires cmd < RESPONSE && Faithful(line.peer, line.said, cmd, file)
    ensures var c := Collected(line, cmd, 1);
      DataOf(c.blocks) <= Flat(file) && (c.status == Success ==> DataOf(c.blocks) == Flat(file))
  {
    hide Collected, DataOf, Faithful, IsTalk, Flat, Acks, Repeats;
    NoTalk();
    assert line.said + [] == line.said;
    FaithfulCollection(line, cmd, line.said, [], file);
    var n := |Collected(line, cmd, 1).blocks|;
    assert file[0..n] + file[n..] == file && file[0..|file|] == file;
    FlatSum(file[0..n], file[n..]);
  }

  /** With the length announced right and packets that do arrive, the download succeeds
      exactly if no block is damaged more often than the host retries. */
  lemma DamagedDownload(line: Line, request: byte, data: seq<byte>, cmd: byte, file: File, damaged: seq<nat>)
    requires request < RESPONSE && cmd < RESPONSE && |data| <= MAXPACKET && |Flat(file)| < 0x1_0000_0000
    requires Announces(line, request, data, |Flat(file)|)
    requires |damaged| == |file| && Damages(line.peer, Asked(line, request, data, cmd).said, cmd, file, damaged)
    requires line.supply > (1 + MAXRETRIES) * |file|
    ensures var d := Downloaded(line, request, data, cmd);
      && (Bearable(damaged, 0) <==> d.status == Success)
      && (Bearable(damaged, 0) ==> d.contents == Flat(file))
      && (!Bearable(damaged, 0) ==> d.status == Protocol)
  {
    hide Collected, DataOf, Faithful, Damages, Announced, Asked, Flat, Bearable, IsTalk, Acks, Repeats;
    AnnouncedRight(line, request, data, |Flat(file)|);
    AskedLine(line, request, data, cmd);
    AskedSupply(line, request, data, cmd);
    var asked := Asked(line, request, data, cmd);
    NoTalk();
    assert asked.said + [] == asked.said;
    DamagesIsFaithful(line.peer, asked.said, cmd, file, damaged);
    WholeCollection(asked, cmd, file);
    DamagedCollection(asked, cmd, asked.said, [], file, damaged);
  }

  lemma AskedSupply(line: Line, request: byte, data: seq<byte>, cmd: byte)
    requires line.supply > 0
    ensures Asked(line, request, data, cmd).supply == line.supply - 1
  {
  }

  // ---------- Damage that shows ----------

  lemma CheckedVanishes(p: seq<byte>)
    requires |p| >= 2 && p[|p| - 1] == Crc8(p[1..|p| - 1])
    ensures Checksum.PlainCrc8(Checksum.CRC8, 0, Octets(p[1..])) == 0
  {
    hide Checksum.PlainCrc8, Octets, Bits8, Number8;
    var m := |p| - 1;
    var body := p[1..m];
    CrcAppended.PlainCheckVanishes(0, Octets(body));
    Number8ReadBack(Checksum.PlainCrc8(Checksum.CRC8, 0, Octets(body)));
    OctetsMore(body, p[m]);
    assert p[1..] == body + [p[m]];
  }

  lemma OctetsMore(data: seq<byte>, b: byte)
    ensures Octets(data + [b]) == Octets(data) + [Bits8(b)]
  {
    hide Octets, Bits8;
    var m := |data|;
    OctetsParts(data + [b], 0, m);
    OctetsParts(data + [b], m, m);
    var all := Octets(data + [b]);
    assert (data + [b])[0..m] == data;
    assert all == all[0..m] + [all[m]];
  }

  /** Damage to at most eight consecutive bits of the message and its check never goes
      unnoticed, nor does a wrong command byte. */
  lemma DamageShows(cmd: byte, data: seq<byte>, q: seq<byte>, size: nat, k: nat, n: nat)
    requires cmd < RESPONSE && |data| <= size && |data| + 3 <= SZ_ANSWER
    requires var p := Response(cmd, data);
      && |q| == |p|
      && (q[0] != p[0]
          || (n <= 8 &&
              CrcGuarantees.Burst(CrcMirror.MsbBits(Octets(p[1..])), CrcMirror.MsbBits(Octets(q[1..])), k, n)))
    ensures Checked(cmd, q, size).status == Protocol
  {
    hide CrcGuarantees.Burst, CrcMirror.MsbBits, Checksum.PlainCrc8, Octets, Crc8;
    var p := Response(cmd, data);
    var m := |p| - 1;
    assert p[1..m] == [ACK] + data;
    CheckedVanishes(p);
    if q[0] == p[0] && q[m] == Crc8(q[1..m]) {
      CheckedVanishes(q);
      CrcGuarantees.PlainCrc8DetectsBursts(Checksum.CRC8, 0, Octets(p[1..]), Octets(q[1..]), k, n);
    }
  }
}
