/** The fragmenting protocol of the Divesoft Freedom on top of HDLC frames: how a message
    is cut into packets, how packets are checked and put together again. */
module FreedomTransport {
  import opened Bytes
  import opened Hdlc
  import opened HdlcStream
  import Checksum
  import CrcAppended
  import CrcTheory
  import CrcGuarantees

  const MAXDATA: nat := 256
  const INVALID: nat := 0xFFFF_FFFF
  /** Set in the packets of the host, clear in those of the dive computer. */
  const DIRECTION: byte := 0x80

  // ---------- Packets ----------

  function Crc(data: seq<byte>): (crc: nat)
    ensures crc < 0x1_0000
  {
    Number16(Checksum.ReflectedCrc16(Checksum.CCITT, 0xFFFF, Octets(data)) ^ 0xFFFF)
  }

  function Sequence(count: nat, seqnum: nat): byte {
    count % 16 * 16 + seqnum % 16
  }

  function Flags(direction: byte, last: bool): byte
    requires direction <= DIRECTION
  {
    direction + if last then 0x40 else 0
  }

  /** A packet up to its check. */
  function Body(count: nat, seqnum: nat, direction: byte, last: bool, msg: nat, chunk: seq<byte>): seq<byte>
    requires direction <= DIRECTION && msg < 0x1_0000 && |chunk| <= MAXDATA
  {
    [Sequence(count, seqnum), Flags(direction, last)] + Le16(msg) + Le16(|chunk|) + chunk
  }

  function Fragment(count: nat, seqnum: nat, direction: byte, last: bool, msg: nat, chunk: seq<byte>): (p: seq<byte>)
    requires direction <= DIRECTION && msg < 0x1_0000 && |chunk| <= MAXDATA
    ensures |p| == |chunk| + 8
  {
    var body := Body(count, seqnum, direction, last, msg, chunk);
    body + Le16(Crc(body))
  }

  /** The packets of a message: full ones, then one that is marked last and may be empty. */
  function Fragments(count: nat, seqnum: nat, direction: byte, msg: nat, payload: seq<byte>): (ps: seq<seq<byte>>)
    requires direction <= DIRECTION && msg < 0x1_0000
    ensures ps != []
    decreases |payload|
  {
    if |payload| <= MAXDATA then [Fragment(count, seqnum, direction, true, msg, payload)]
    else
      var first := Fragment(count, seqnum, direction, false, msg, payload[..MAXDATA]);
      [first] + Fragments(count + 1, seqnum, direction, msg, payload[MAXDATA..])
  }

  // ---------- Receiving ----------

  function TypeOf(p: seq<byte>): nat
    requires |p| >= 8
  {
    U16(p[2], p[3])
  }

  function DataOf(p: seq<byte>): seq<byte>
    requires |p| >= 8
  {
    p[6..|p| - 2]
  }

  predicate IsLast(p: seq<byte>)
    requires |p| >= 8
  {
    p[1] / 0x40 % 2 == 1
  }

  /** The checks a packet has to pass, once it is long enough. */
  predicate Accepted(p: seq<byte>, seqnum: nat, count: nat, msg: nat)
    requires |p| >= 8
  {
    && p[0] == Sequence(count, seqnum)
    && (p[1] == 0 || p[1] == 0x40)
    && U16(p[4], p[5]) == |p| - 8
    && (msg == INVALID || msg == TypeOf(p))
    && U16(p[|p| - 2], p[|p| - 1]) == Crc(p[..|p| - 2])
  }

  /** How receiving a message ends: the status, the message type, the data collected,
      and the unread stream. */
  datatype Reply = Reply(status: Status, msg: nat, data: seq<byte>, rest: seq<byte>)

  /** What becomes of the packet at hand. */
  function Verdict(scan: Scan, seqnum: nat, count: nat, msg: nat): (status: Status)
    ensures scan.status != NoMemory ==> status != NoMemory
    ensures status == Success ==> scan.status == Success && 8 <= |scan.frame| <= MAXDATA + 8
  {
    if scan.status != Success then scan.status
    else if |scan.frame| > MAXDATA + 8 then Io
    else if |scan.frame| < 8 || !Accepted(scan.frame, seqnum, count, msg) then Protocol
    else Success
  }

  function Received(s: seq<byte>, seqnum: nat, count: nat, msg: nat, got: seq<byte>): (r: Reply)
    ensures got <= r.data && r.status != NoMemory
    decreases |s|
  {
    var scan := NextFrame(s);
    var p, rest := scan.frame, scan.rest;
    var status := Verdict(scan, seqnum, count, msg);
    if status != Success then Reply(status, msg, got, rest)
    else if IsLast(p) then Reply(Success, TypeOf(p), got + DataOf(p), rest)
    else Received(rest, seqnum, count + 1, TypeOf(p), got + DataOf(p))
  }

  // ---------- What a good packet does ----------

  lemma FragmentFields(count: nat, seqnum: nat, direction: byte, last: bool, msg: nat, chunk: seq<byte>)
    requires direction <= DIRECTION && msg < 0x1_0000 && |chunk| <= MAXDATA
    ensures var p := Fragment(count, seqnum, direction, last, msg, chunk);
      && p[0] == Sequence(count, seqnum) && p[1] == Flags(direction, last)
      && TypeOf(p) == msg && U16(p[4], p[5]) == |chunk| && DataOf(p) == chunk
      && p[..|p| - 2] == Body(count, seqnum, direction, last, msg, chunk)
      && U16(p[|p| - 2], p[|p| - 1]) == Crc(p[..|p| - 2])
  {
    hide Crc, Sequence;
    var body := Body(count, seqnum, direction, last, msg, chunk);
    var p := Fragment(count, seqnum, direction, last, msg, chunk);
    assert p[..|p| - 2] == body;
    U16OfLe16(Crc(body));
    U16OfLe16(msg);
    U16OfLe16(|chunk|);
    assert p[6..|p| - 2] == chunk;
  }

  /** A packet in turn is accepted, whether or not the type is known yet. */
  lemma FragmentAccepted(count: nat, seqnum: nat, last: bool, msg: nat, chunk: seq<byte>, known: nat)
    requires msg < 0x1_0000 && |chunk| <= MAXDATA && (known == INVALID || known == msg)
    ensures var p := Fragment(count, seqnum, 0, last, msg, chunk);
      && Accepted(p, seqnum, count, known) && IsLast(p) == last && TypeOf(p) == msg && DataOf(p) == chunk
  {
    hide Crc, Sequence, Fragment, Body, DataOf, TypeOf;
    FragmentFields(count, seqnum, 0, last, msg, chunk);
  }

  /** Packets carry the count and the number of the command, each modulo 16, and one that
      is wrong in either is refused. */
  lemma WrongNumberRefused(count: nat, number: nat, expected: nat, seqnum: nat, last: bool, msg: nat,
                           chunk: seq<byte>, known: nat)
    requires msg < 0x1_0000 && |chunk| <= MAXDATA
    requires count % 16 != expected % 16 || number % 16 != seqnum % 16
    ensures !Accepted(Fragment(count, number, 0, last, msg, chunk), seqnum, expected, known)
  {
    hide Crc, Fragment, Body, DataOf, TypeOf;
    FragmentFields(count, number, 0, last, msg, chunk);
  }

  /** One packet at the head of the stream is taken in. */
  lemma ReceivedFragment(count: nat, seqnum: nat, last: bool, msg: nat, chunk: seq<byte>, known: nat,
                         got: seq<byte>, more: seq<byte>)
    requires msg < 0x1_0000 && |chunk| <= MAXDATA && (known == INVALID || known == msg)
    ensures Received(Frame(Fragment(count, seqnum, 0, last, msg, chunk)) + more, seqnum, count, known, got)
            == if last then Reply(Success, msg, got + chunk, more)
               else Received(more, seqnum, count + 1, msg, got + chunk)
  {
    hide Fragment, Frame, NextFrame, Accepted, IsLast, TypeOf, DataOf;
    var p := Fragment(count, seqnum, 0, last, msg, chunk);
    FragmentAccepted(count, seqnum, last, msg, chunk, known);
    NextFrameReads([], p, more);
    assert [] + Frame(p) + more == Frame(p) + more;
  }

  lemma RefusedFragment(count: nat, number: nat, expected: nat, seqnum: nat, last: bool, msg: nat,
                        chunk: seq<byte>, known: nat, got: seq<byte>, more: seq<byte>)
    requires msg < 0x1_0000 && |chunk| <= MAXDATA
    requires count % 16 != expected % 16 || number % 16 != seqnum % 16
    ensures Received(Frame(Fragment(count, number, 0, last, msg, chunk)) + more, seqnum, expected, known, got)
            == Reply(Protocol, known, got, more)
  {
    hide Fragment, Frame, NextFrame, Accepted, IsLast, TypeOf, DataOf;
    var p := Fragment(count, number, 0, last, msg, chunk);
    WrongNumberRefused(count, number, expected, seqnum, last, msg, chunk, known);
    NextFrameReads([], p, more);
    assert [] + Frame(p) + more == Frame(p) + more;
  }

  // ---------- End to end ----------

  /** What one side sends is what the other receives. */
  lemma {:induction false} Delivered(count: nat, seqnum: nat, msg: nat, payload: seq<byte>, known: nat,
                                     got: seq<byte>, rest: seq<byte>)
    requires msg < 0x1_0000 && (known == INVALID || known == msg)
    ensures Received(Frames(Fragments(count, seqnum, 0, msg, payload)) + rest, seqnum, count, known, got)
            == Reply(Success, msg, got + payload, rest)
    decreases |payload|
  {
    hide Fragment, Frame, Received;
    var ps := Fragments(count, seqnum, 0, msg, payload);
    if |payload| <= MAXDATA {
      FramesOfOne(ps[0]);
      ReceivedFragment(count, seqnum, true, msg, payload, known, got, rest);
    } else {
      var chunk, tail := payload[..MAXDATA], payload[MAXDATA..];
      var more := Frames(ps[1..]) + rest;
      SumsAgree(Frame(ps[0]), Frames(ps[1..]), rest);
      assert ps[1..] == Fragments(count + 1, seqnum, 0, msg, tail);
      ReceivedFragment(count, seqnum, false, msg, chunk, known, got, more);
      Delivered(count + 1, seqnum, msg, tail, msg, got + chunk, rest);
      assert payload == chunk + tail;
      assert got + chunk + tail == got + payload;
    }
  }

  // ---------- Packets that get lost ----------

  lemma {:induction false} FragmentsFrom(count: nat, seqnum: nat, direction: byte, msg: nat, payload: seq<byte>, i: nat)
    requires direction <= DIRECTION && msg < 0x1_0000
    requires i < |Fragments(count, seqnum, direction, msg, payload)|
    ensures MAXDATA * i <= |payload| && (i > 0 ==> MAXDATA * i < |payload|)
    ensures Fragments(count, seqnum, direction, msg, payload)[i..]
            == Fragments(count + i, seqnum, direction, msg, payload[MAXDATA * i..])
    decreases i
  {
    hide Fragment;
    var ps := Fragments(count, seqnum, direction, msg, payload);
    if i == 0 {
      assert ps[0..] == ps && payload[0..] == payload;
    } else {
      var tail := payload[MAXDATA..];
      FragmentsFrom(count + 1, seqnum, direction, msg, tail, i - 1);
      assert ps[i..] == ps[1..][i - 1..];
      assert tail[MAXDATA * (i - 1)..] == payload[MAXDATA * i..];
    }
  }

  /** Only the count and the number modulo 16 are in the packets. */
  lemma {:induction false} CountsRepeat(count: nat, other: nat, number: nat, seqnum: nat, direction: byte, msg: nat,
                                        payload: seq<byte>)
    requires direction <= DIRECTION && msg < 0x1_0000 && count % 16 == other % 16 && number % 16 == seqnum % 16
    ensures Fragments(count, number, direction, msg, payload) == Fragments(other, seqnum, direction, msg, payload)
    decreases |payload|
  {
    hide Fragment;
    var last := |payload| <= MAXDATA;
    var chunk := if last then payload else payload[..MAXDATA];
    SameTurnSameFragment(count, other, number, seqnum, direction, last, msg, chunk);
    SameTurn(count, other, number, seqnum);
    if !last {
      CountsRepeat(count + 1, other + 1, number, seqnum, direction, msg, payload[MAXDATA..]);
    }
  }

  lemma SameTurnSameFragment(count: nat, other: nat, number: nat, seqnum: nat, direction: byte, last: bool, msg: nat,
                             chunk: seq<byte>)
    requires direction <= DIRECTION && msg < 0x1_0000 && |chunk| <= MAXDATA
    requires count % 16 == other % 16 && number % 16 == seqnum % 16
    ensures Fragment(count, number, direction, last, msg, chunk) == Fragment(other, seqnum, direction, last, msg, chunk)
  {
    hide Crc, Flags, Sequence;
    SameTurn(count, other, number, seqnum);
  }

  lemma SameTurn(count: nat, other: nat, number: nat, seqnum: nat)
    requires count % 16 == other % 16 && number % 16 == seqnum % 16
    ensures Sequence(count, number) == Sequence(other, seqnum)
    ensures (count + 1) % 16 == (other + 1) % 16
  {
  }

  /** The packets before the last leave the receiver in the middle of the message. */
  lemma {:induction false} BegunWith(count: nat, seqnum: nat, msg: nat, payload: seq<byte>, known: nat,
                                     got: seq<byte>, i: nat, more: seq<byte>)
    requires msg < 0x1_0000 && (known == INVALID || known == msg)
    requires i < |Fragments(count, seqnum, 0, msg, payload)| && MAXDATA * i <= |payload|
    ensures Received(Frames(Fragments(count, seqnum, 0, msg, payload)[..i]) + more, seqnum, count, known, got)
            == Received(more, seqnum, count + i, if i == 0 then known else msg, got + payload[..MAXDATA * i])
    decreases i
  {
    hide Fragment, Frame, Received;
    var ps := Fragments(count, seqnum, 0, msg, payload);
    if i == 0 {
      NothingLeft(ps[..0], more);
      assert got + payload[..0] == got;
    } else {
      var chunk, tail := payload[..MAXDATA], payload[MAXDATA..];
      var run := ps[..i];
      assert run[0] == ps[0] && run[1..] == Fragments(count + 1, seqnum, 0, msg, tail)[..i - 1];
      SumsAgree(Frame(run[0]), Frames(run[1..]), more);
      ReceivedFragment(count, seqnum, false, msg, chunk, known, got, Frames(run[1..]) + more);
      BegunWith(count + 1, seqnum, msg, tail, msg, got + chunk, i - 1, more);
      TakenOn(got, payload, MAXDATA, MAXDATA * (i - 1));
    }
  }

  lemma TakenOn(got: seq<byte>, payload: seq<byte>, m: nat, n: nat)
    requires m + n <= |payload|
    ensures got + payload[..m] + payload[m..][..n] == got + payload[..m + n]
  {
  }

  /** Losing a run of packets before the last is a protocol error, unless their number is
      a multiple of sixteen: then the message is accepted with those bytes missing. */
  lemma LossDetected(seqnum: nat, msg: nat, payload: seq<byte>, i: nat, g: nat, rest: seq<byte>)
    requires msg < 0x1_0000
    requires g > 0 && i + g < |Fragments(0, seqnum, 0, msg, payload)|
    ensures MAXDATA * (i + g) < |payload|
    ensures var ps := Fragments(0, seqnum, 0, msg, payload);
      var r := Received(Frames(ps[..i] + ps[i + g..]) + rest, seqnum, 0, INVALID, []);
      && (r.status == Protocol <==> g % 16 != 0)
      && (r.status == Success <==> g % 16 == 0)
      && (g % 16 != 0 ==> r.data == payload[..MAXDATA * i])
      && (g % 16 == 0 ==> r == Reply(Success, msg, payload[..MAXDATA * i] + payload[MAXDATA * (i + g)..], rest))
  {
    hide Fragments, Frames, Received;
    var ps := Fragments(0, seqnum, 0, msg, payload);
    FragmentsFrom(0, seqnum, 0, msg, payload, i + g);
    var tail, known := payload[MAXDATA * (i + g)..], if i == 0 then INVALID else msg;
    var got, later := payload[..MAXDATA * i], ps[i + g..];
    FramesSum(ps[..i], later);
    SumsAgree(Frames(ps[..i]), Frames(later), rest);
    BegunWith(0, seqnum, msg, payload, INVALID, [], i, Frames(later) + rest);
    assert [] + got == got;
    AfterLoss(i + g, i, seqnum, msg, tail, known, got, rest);
    LostModulo(i, g);
  }

  lemma LostModulo(i: nat, g: nat)
    ensures (i + g) % 16 == i % 16 <==> g % 16 == 0
  {
  }

  /** The rest of a message is accepted exactly if it is in turn modulo sixteen. */
  lemma AfterLoss(count: nat, expected: nat, seqnum: nat, msg: nat, payload: seq<byte>, known: nat,
                  got: seq<byte>, rest: seq<byte>)
    requires msg < 0x1_0000 && (known == INVALID || known == msg)
    ensures var r := Received(Frames(Fragments(count, seqnum, 0, msg, payload)) + rest, seqnum, expected, known, got);
      if count % 16 == expected % 16 then r == Reply(Success, msg, got + payload, rest)
      else r.status == Protocol && r.data == got
  {
    hide Fragments, Frames, Received;
    if count % 16 == expected % 16 {
      CountsRepeat(count, expected, seqnum, seqnum, 0, msg, payload);
      Delivered(expected, seqnum, msg, payload, known, got, rest);
    } else {
      OutOfTurn(count, seqnum, expected, seqnum, msg, payload, known, got, rest);
    }
  }

  /** The smallest loss that goes unnoticed: of seventeen packets only the last arrives. */
  lemma SixteenLost(seqnum: nat)
    ensures var payload := seq(4097, _ => 7 as byte);
      var ps := Fragments(0, seqnum, 0, 1, payload);
      && |ps| == 17 && |payload| == 4097
      && Received(Frames(ps[..0] + ps[16..]), seqnum, 0, INVALID, []) == Reply(Success, 1, [7], [])
  {
    hide Fragment, Frames, Received;
    var payload := seq(4097, _ => 7 as byte);
    FragmentCount(0, seqnum, 0, 1, payload);
    var s := Frames(Fragments(0, seqnum, 0, 1, payload)[..0] + Fragments(0, seqnum, 0, 1, payload)[16..]);
    LossDetected(seqnum, 1, payload, 0, 16, []);
    assert s + [] == s && payload[..0] + payload[4096..] == [7];
  }

  lemma {:induction false} FragmentCount(count: nat, seqnum: nat, direction: byte, msg: nat, payload: seq<byte>)
    requires direction <= DIRECTION && msg < 0x1_0000
    ensures |Fragments(count, seqnum, direction, msg, payload)|
            == if payload == [] then 1 else (|payload| + MAXDATA - 1) / MAXDATA
    decreases |payload|
  {
    hide Fragment;
    if |payload| > MAXDATA {
      FragmentCount(count + 1, seqnum, direction, msg, payload[MAXDATA..]);
    }
  }

  // ---------- Any packets that get lost ----------

  /** The packets that arrive when some are lost. */
  function Arriving(ps: seq<seq<byte>>, lost: seq<bool>): seq<seq<byte>>
    requires |ps| == |lost|
  {
    if ps == [] then [] else (if lost[0] then [] else [ps[0]]) + Arriving(ps[1..], lost[1..])
  }

  /** How many packets are lost. */
  function Losses(lost: seq<bool>): nat {
    if lost == [] then 0 else (if lost[0] then 1 else 0) + Losses(lost[1..])
  }

  /** The data in the packets that arrive, up to the first that is out of turn, when `gap`
      packets were lost before. */
  function Surviving(payload: seq<byte>, lost: seq<bool>, gap: nat): seq<byte> {
    if lost == [] then []
    else
      var n := if |payload| <= MAXDATA then |payload| else MAXDATA;
      if lost[0] then Surviving(payload[n..], lost[1..], gap + 1)
      else if gap % 16 != 0 then []
      else payload[..n] + Surviving(payload[n..], lost[1..], gap)
  }

  /** Before every packet that arrives, a multiple of sixteen were lost. */
  predicate InTurn(lost: seq<bool>, gap: nat) {
    forall k | 0 <= k < |lost| && !lost[k] :: (gap + Losses(lost[..k])) % 16 == 0
  }

  lemma InTurnStep(lost: seq<bool>, gap: nat)
    requires lost != []
    ensures InTurn(lost, gap) <==>
            (lost[0] || gap % 16 == 0) && InTurn(lost[1..], if lost[0] then gap + 1 else gap)
  {
    hide Losses;
    var later, next := lost[1..], if lost[0] then gap + 1 else gap;
    NothingLost(lost);
    forall k | 0 <= k < |later|
      ensures gap + Losses(lost[..k + 1]) == next + Losses(later[..k]) && later[k] == lost[k + 1]
    {
      LossesStep(lost, k);
    }
    if InTurn(lost, gap) {
      forall k | 0 <= k < |later| && !later[k]
        ensures (next + Losses(later[..k])) % 16 == 0
      {
        assert !lost[k + 1];
      }
    }
    if InTurn(later, next) && (lost[0] || gap % 16 == 0) {
      forall k | 0 <= k < |lost| && !lost[k]
        ensures (gap + Losses(lost[..k])) % 16 == 0
      {
        if k > 0 {
          assert !later[k - 1] && lost[..k - 1 + 1] == lost[..k];
        }
      }
    }
  }

  lemma NothingLost(lost: seq<bool>)
    ensures Losses(lost[..0]) == 0
  {
  }

  lemma LossesStep(lost: seq<bool>, k: nat)
    requires k < |lost|
    ensures Losses(lost[..k + 1]) == (if lost[0] then 1 else 0) + Losses(lost[1..][..k])
  {
    assert lost[..k + 1][1..] == lost[1..][..k];
  }

  lemma {:induction false} ArrivingReceived(count: nat, expected: nat, seqnum: nat, msg: nat, payload: seq<byte>,
                                            known: nat, got: seq<byte>, lost: seq<bool>, rest: seq<byte>)
    requires msg < 0x1_0000 && (known == INVALID || known == msg) && expected <= count
    requires |lost| == |Fragments(count, seqnum, 0, msg, payload)| && !lost[|lost| - 1]
    ensures var ps := Arriving(Fragments(count, seqnum, 0, msg, payload), lost);
      var r := Received(Frames(ps) + rest, seqnum, expected, known, got);
      && r.data == got + Surviving(payload, lost, count - expected)
      && if InTurn(lost, count - expected) then r.status == Success && r.msg == msg && r.rest == rest
         else r.status == Protocol
    decreases |lost|
  {
    hide Fragment, Frame, Received, InTurn, Arriving, Surviving, Frames, Losses;
    var ps := Fragments(count, seqnum, 0, msg, payload);
    var last := |payload| <= MAXDATA;
    var chunk := if last then payload else payload[..MAXDATA];
    var tail, behind := payload[|chunk|..], count - expected;
    InTurnStep(lost, behind);
    ArrivingStep(ps, lost, rest);
    SurvivingStep(payload, lost, behind, got, chunk);
    if lost[0] {
      ArrivingReceived(count + 1, expected, seqnum, msg, tail, known, got, lost[1..], rest);
    } else {
      var more := Frames(Arriving(ps[1..], lost[1..])) + rest;
      LostModulo(expected, behind);
      if behind % 16 != 0 {
        RefusedFragment(count, seqnum, expected, seqnum, last, msg, chunk, known, got, more);
      } else {
        SameTurnSameFragment(count, expected, seqnum, seqnum, 0, last, msg, chunk);
        ReceivedFragment(expected, seqnum, last, msg, chunk, known, got, more);
        if last {
          NothingArrives(behind, tail, got + chunk, rest);
        } else {
          ArrivingReceived(count + 1, expected + 1, seqnum, msg, tail, msg, got + chunk, lost[1..], rest);
        }
      }
    }
  }

  lemma ArrivingStep(ps: seq<seq<byte>>, lost: seq<bool>, rest: seq<byte>)
    requires |ps| == |lost| > 0
    ensures lost[0] ==> Arriving(ps, lost) == Arriving(ps[1..], lost[1..])
    ensures !lost[0] ==>
              Frames(Arriving(ps, lost)) + rest == Frame(ps[0]) + (Frames(Arriving(ps[1..], lost[1..])) + rest)
  {
    hide Frame;
    var later := Arriving(ps[1..], lost[1..]);
    assert [] + later == later && ([ps[0]] + later)[1..] == later;
  }

  lemma SurvivingStep(payload: seq<byte>, lost: seq<bool>, gap: nat, got: seq<byte>, chunk: seq<byte>)
    requires lost != [] && chunk == if |payload| <= MAXDATA then payload else payload[..MAXDATA]
    ensures got + Surviving(payload, lost, gap) ==
            if lost[0] then got + Surviving(payload[|chunk|..], lost[1..], gap + 1)
            else if gap % 16 != 0 then got
            else got + chunk + Surviving(payload[|chunk|..], lost[1..], gap)
  {
    assert payload[..|chunk|] == chunk && got + [] == got;
  }

  lemma NothingArrives(gap: nat, payload: seq<byte>, got: seq<byte>, rest: seq<byte>)
    ensures InTurn([], gap) && Frames(Arriving([], [])) + rest == rest && got + Surviving(payload, [], gap) == got
  {
  }

  /** Whichever packets before the last get lost: the message is accepted exactly if each
      run of lost ones is a multiple of sixteen long, and otherwise it is a protocol error.
      The data is that of the packets up to the first that is out of turn. */
  lemma AnyLossDetected(seqnum: nat, msg: nat, payload: seq<byte>, lost: seq<bool>, rest: seq<byte>)
    requires msg < 0x1_0000
    requires |lost| == |Fragments(0, seqnum, 0, msg, payload)| && !lost[|lost| - 1]
    ensures var ps := Arriving(Fragments(0, seqnum, 0, msg, payload), lost);
      var r := Received(Frames(ps) + rest, seqnum, 0, INVALID, []);
      && r.data == Surviving(payload, lost, 0)
      && (r.status == Success <==> InTurn(lost, 0)) && (r.status == Protocol <==> !InTurn(lost, 0))
      && (InTurn(lost, 0) ==> r.msg == msg && r.rest == rest)
  {
    hide Fragments, Frames, Received, InTurn, Surviving, Arriving;
    ArrivingReceived(0, 0, seqnum, msg, payload, INVALID, [], lost, rest);
    assert [] + Surviving(payload, lost, 0) == Surviving(payload, lost, 0);
  }

  lemma OutOfTurn(count: nat, number: nat, expected: nat, seqnum: nat, msg: nat, payload: seq<byte>, known: nat,
                  got: seq<byte>, rest: seq<byte>)
    requires msg < 0x1_0000
    requires count % 16 != expected % 16 || number % 16 != seqnum % 16
    ensures var r := Received(Frames(Fragments(count, number, 0, msg, payload)) + rest, seqnum, expected, known, got);
      r.status == Protocol && r.data == got
  {
    hide Fragment, Frame, Received;
    var ps := Fragments(count, number, 0, msg, payload);
    var last := |payload| <= MAXDATA;
    var chunk := if last then payload else payload[..MAXDATA];
    SumsAgree(Frame(ps[0]), Frames(ps[1..]), rest);
    RefusedFragment(count, number, expected, seqnum, last, msg, chunk, known, got, Frames(ps[1..]) + rest);
  }

  /** The answer to another command is refused exactly if the numbers of the two differ
      modulo sixteen, as those of the last fifteen commands do; otherwise it is taken for
      the answer to this one. */
  lemma StaleAnswerRefused(number: nat, seqnum: nat, msg: nat, payload: seq<byte>, rest: seq<byte>)
    requires msg < 0x1_0000
    ensures var r := Received(Frames(Fragments(0, number, 0, msg, payload)) + rest, seqnum, 0, INVALID, []);
      if number % 16 != seqnum % 16 then r.status == Protocol && r.data == []
      else r == Reply(Success, msg, payload, rest)
    ensures number < seqnum < number + 16 ==> number % 16 != seqnum % 16
  {
    hide Fragments, Frames, Received;
    if number % 16 != seqnum % 16 {
      OutOfTurn(0, number, 0, seqnum, msg, payload, INVALID, [], rest);
    } else {
      CountsRepeat(0, 0, number, seqnum, 0, msg, payload);
      Delivered(0, seqnum, msg, payload, INVALID, [], rest);
      assert [] + payload == payload;
    }
  }

  /** A message whose end never comes is not taken for a whole one. */
  lemma TruncationDetected(seqnum: nat, msg: nat, payload: seq<byte>, i: nat)
    requires msg < 0x1_0000 && i < |Fragments(0, seqnum, 0, msg, payload)|
    ensures Received(Frames(Fragments(0, seqnum, 0, msg, payload)[..i]), seqnum, 0, INVALID, []).status == Timeout
  {
    hide Fragment, Frame;
    FragmentsFrom(0, seqnum, 0, msg, payload, i);
    var s := Frames(Fragments(0, seqnum, 0, msg, payload)[..i]);
    BegunWith(0, seqnum, msg, payload, INVALID, [], i, []);
    assert s + [] == s;
  }

  // ---------- Packets that get damaged ----------

  lemma CheckBytes(c: bv16)
    ensures Number16(c) == Number8(CrcAppended.LowByte(c)) + 0x100 * Number8(CrcAppended.HighByte(c))
  {
  }

  lemma BytesOfNumber(c: bv16, lo: byte, hi: byte)
    requires U16(lo, hi) == Number16(c)
    ensures Bits8(lo) == CrcAppended.LowByte(c) && Bits8(hi) == CrcAppended.HighByte(c)
  {
    hide Number8, Number16, Bits8, CrcAppended.LowByte, CrcAppended.HighByte;
    CheckBytes(c);
    Number8ReadBack(CrcAppended.LowByte(c));
    Number8ReadBack(CrcAppended.HighByte(c));
  }

  /** An accepted packet carries its check, bit for bit. */
  lemma AcceptedCarriesCheck(p: seq<byte>, seqnum: nat, count: nat, msg: nat)
    requires |p| >= 8 && Accepted(p, seqnum, count, msg)
    ensures CrcAppended.CarriesCheck(Checksum.CCITT, 0xFFFF, Octets(p))
  {
    hide Checksum.ReflectedCrc16, Number16, Bits8, Octets, Sequence, CrcAppended.LowByte, CrcAppended.HighByte;
    var n := |p| - 2;
    OctetsParts(p, 0, n);
    OctetsParts(p, n, n);
    OctetsParts(p, n + 1, n + 1);
    var check := CrcAppended.Inverted(Checksum.ReflectedCrc16(Checksum.CCITT, 0xFFFF, Octets(p[..n])));
    assert p[0..n] == p[..n] && Octets(p)[0..n] == Octets(p)[..n];
    BytesOfNumber(check, p[n], p[n + 1]);
  }

  /** A packet in which at most sixteen consecutive bits were damaged, in its body, in its
      check or across both, is refused. */
  lemma DamageDetected(p: seq<byte>, q: seq<byte>, seqnum: nat, count: nat, msg: nat, k: nat, n: nat)
    requires |p| == |q| >= 8 && Accepted(p, seqnum, count, msg)
    requires n <= 16 && CrcGuarantees.Burst(CrcTheory.LsbBits(Octets(p)), CrcTheory.LsbBits(Octets(q)), k, n)
    ensures !Accepted(q, seqnum, count, msg)
  {
    hide CrcGuarantees.Burst, CrcTheory.LsbBits, CrcAppended.CarriesCheck, Accepted, Octets;
    AcceptedCarriesCheck(p, seqnum, count, msg);
    CrcAppended.AppendedDetectsBursts(Checksum.CCITT, 0xFFFF, Octets(p), Octets(q), k, n);
    if Accepted(q, seqnum, count, msg) {
      AcceptedCarriesCheck(q, seqnum, count, msg);
    }
  }
}
