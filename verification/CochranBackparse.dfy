/** Finding where a dive without a proper end stops: the longest run of whole events that
    reaches back from the end of the samples. */
module CochranBackparse {
  import opened Bytes

  datatype Event = Event(code: byte, size: nat)

  type Events = es: seq<Event> | forall i | 0 <= i < |es| :: es[i].size > 0 witness []

  const CMDR_EVENTS: Events := [
    Event(0x00, 17), Event(0x01, 21), Event(0x02, 18), Event(0x03, 17), Event(0x06, 19), Event(0x07, 19),
    Event(0x08, 19), Event(0x09, 19), Event(0x0A, 19), Event(0x0B, 21), Event(0x0C, 19), Event(0x0D, 19),
    Event(0x0E, 19), Event(0x10, 21)]

  const EMC_EVENTS: Events := [
    Event(0x00, 19), Event(0x01, 23), Event(0x02, 20), Event(0x03, 19), Event(0x06, 21), Event(0x07, 21),
    Event(0x0A, 21), Event(0x0B, 21), Event(0x0F, 19), Event(0x10, 21)]

  /** Read forwards from `r`, the bytes up to `end` are exactly these events, each one
      marked by its code, and none of them at the very start of the samples. */
  predicate Reads(events: Events, s: seq<byte>, r: int, end: int, run: seq<nat>)
    decreases |run|
  {
    if run == [] then r == end
    else
      && 0 < r < |s| && run[0] < |events| && events[run[0]].code == s[r]
      && Reads(events, s, r + events[run[0]].size, end, run[1..])
  }

  /** From `r` on there are only whole events up to `end`. */
  ghost predicate Splits(events: Events, s: seq<byte>, r: int, end: int) {
    exists run :: Reads(events, s, r, end, run)
  }

  /** The last event of a run can be taken off. */
  lemma {:induction false} LastOff(events: Events, s: seq<byte>, r: int, end: int, run: seq<nat>)
    requires Reads(events, s, r, end, run) && run != []
    ensures var i := run[|run| - 1];
      && i < |events|
      && var p := end - events[i].size;
        0 < r <= p < |s| && s[p] == events[i].code && Reads(events, s, r, p, run[..|run| - 1])
    decreases |run|
  {
    var n := |run| - 1;
    if n == 0 {
      assert Reads(events, s, r + events[run[0]].size, end, run[1..]);
    } else {
      LastOff(events, s, r + events[run[0]].size, end, run[1..]);
      assert run[1..][|run[1..]| - 1] == run[n];
      assert run[1..][..n - 1] == run[..n][1..];
    }
  }

  lemma {:induction false} LastOn(events: Events, s: seq<byte>, r: int, p: int, run: seq<nat>, i: nat)
    requires Reads(events, s, r, p, run) && i < |events| && 0 < p < |s| && s[p] == events[i].code
    ensures Reads(events, s, r, p + events[i].size, run + [i])
    decreases |run|
  {
    var more := run + [i];
    if run == [] {
      assert more[1..] == [];
    } else {
      assert more[1..] == run[1..] + [i];
      LastOn(events, s, r + events[run[0]].size, p, run[1..], i);
    }
  }

  /** Where a run of events begins that ends with the `i`-th. */
  ghost predicate EndsWith(events: Events, s: seq<byte>, r: int, end: int, i: nat)
    requires i < |events|
  {
    var p := end - events[i].size;
    0 < p < |s| && s[p] == events[i].code && Splits(events, s, r, p)
  }

  lemma SplitsByLast(events: Events, s: seq<byte>, r: int, end: int)
    ensures Splits(events, s, r, end) <==> r == end || exists i: nat | i < |events| :: EndsWith(events, s, r, end, i)
  {
    if r == end {
      assert Reads(events, s, r, end, []);
    } else if Splits(events, s, r, end) {
      var run :| Reads(events, s, r, end, run);
      LastOff(events, s, r, end, run);
      assert EndsWith(events, s, r, end, run[|run| - 1]);
    } else if exists i: nat | i < |events| :: EndsWith(events, s, r, end, i) {
      var i: nat :| i < |events| && EndsWith(events, s, r, end, i);
      var p := end - events[i].size;
      var run :| Reads(events, s, r, p, run);
      LastOn(events, s, r, p, run, i);
    }
  }

  /** Where the part begins that can be read as whole events is the least position of all
      such, over every way to read them; without any, it is the end. */
  method Backparse(events: Events, samples: array<byte>, size: int) returns (best: int)
    requires size <= samples.Length
    ensures Splits(events, samples[..], best, size)
    ensures forall r :: Splits(events, samples[..], r, size) ==> best <= r
    ensures best == size || 0 < best < size
    decreases size
  {
    hide Splits, Reads;
    ghost var s := samples[..];
    best := size;
    var result := size;
    SplitsByLast(events, s, size, size);
    for i := 0 to |events|
      invariant Splits(events, s, best, size) && best <= result
      invariant best == size || 0 < best < size
      invariant forall r, j: nat | j < i && EndsWith(events, s, r, size, j) :: best <= r
    {
      var ptr := size - events[i].size;
      if ptr > 0 && samples[ptr] == events[i].code {
        result := Backparse(events, samples, ptr);
        assert EndsWith(events, s, result, size, i);
        SplitsByLast(events, s, result, size);
      }
      if result < best {
        best := result;
      }
    }
    forall r | Splits(events, s, r, size)
      ensures best <= r
    {
      SplitsByLast(events, s, r, size);
    }
  }

  // ---------- The events of the two families ----------

  /** The code of an event says which one it is. */
  ghost predicate Distinct(events: Events) {
    forall i, j | 0 <= i < j < |events| :: events[i].code != events[j].code
  }

  lemma FamiliesAreDistinct()
    ensures Distinct(CMDR_EVENTS) && Distinct(EMC_EVENTS)
  {
  }

  lemma {:induction false} ReadsForward(events: Events, s: seq<byte>, r: int, end: int, run: seq<nat>)
    requires Reads(events, s, r, end, run)
    ensures r <= end && (r == end ==> run == [])
    decreases |run|
  {
    if run != [] {
      ReadsForward(events, s, r + events[run[0]].size, end, run[1..]);
    }
  }

  /** With distinct codes there is only one way to read the bytes from a position on. */
  lemma {:induction false} RunIsUnique(events: Events, s: seq<byte>, r: int, end: int, a: seq<nat>, b: seq<nat>)
    requires Distinct(events) && Reads(events, s, r, end, a) && Reads(events, s, r, end, b)
    ensures a == b
    decreases |a|
  {
    ReadsForward(events, s, r, end, a);
    ReadsForward(events, s, r, end, b);
    if r < end {
      assert a[0] == b[0];
      RunIsUnique(events, s, r + events[a[0]].size, end, a[1..], b[1..]);
      assert a == [a[0]] + a[1..] && b == [b[0]] + b[1..];
    }
  }

  /** For both families, where the whole events begin and which they are is determined by
      the samples alone. */
  lemma EventsAreDetermined(events: Events, s: seq<byte>, size: int, r: int, r': int, a: seq<nat>, b: seq<nat>)
    requires events == CMDR_EVENTS || events == EMC_EVENTS
    requires Reads(events, s, r, size, a) && forall q :: Splits(events, s, q, size) ==> r <= q
    requires Reads(events, s, r', size, b) && forall q :: Splits(events, s, q, size) ==> r' <= q
    ensures r == r' && a == b
  {
    FamiliesAreDistinct();
    assert Splits(events, s, r, size) && Splits(events, s, r', size);
    RunIsUnique(events, s, r, size, a, b);
  }
}
