/** Traces whose times advance: what adding a time or another sample does to their order. */
module SampleTimes {
  import opened Samples

  /** Every time comes at least `gap` after every earlier one; with no gap, times never
      decrease. */
  ghost predicate Spaced(trace: seq<Sample>, gap: nat) {
    forall i, j | 0 <= i < j < |trace| && trace[i].Time? && trace[j].Time? :: trace[i].ms + gap <= trace[j].ms
  }

  ghost predicate UpTo(trace: seq<Sample>, ms: nat) {
    forall i | 0 <= i < |trace| && trace[i].Time? :: trace[i].ms <= ms
  }

  ghost predicate Reached(trace: seq<Sample>, ms: nat) {
    exists i :: 0 <= i < |trace| && trace[i] == Time(ms)
  }

  /** Other samples may have been added, but no time. */
  ghost predicate Continued(before: seq<Sample>, after: seq<Sample>) {
    before <= after && forall i | |before| <= i < |after| :: !after[i].Time?
  }

  lemma ContinuedKeeps(before: seq<Sample>, after: seq<Sample>, gap: nat, ms: nat)
    requires Continued(before, after)
    ensures Spaced(after, gap) <==> Spaced(before, gap)
    ensures UpTo(after, ms) <==> UpTo(before, ms)
    ensures Reached(after, ms) <==> Reached(before, ms)
    ensures Increasing(after) <==> Increasing(before)
  {
    assert forall i | 0 <= i < |before| :: before[i] == after[i];
    if Reached(before, ms) {
      var i :| 0 <= i < |before| && before[i] == Time(ms);
      assert after[i] == Time(ms);
    }
  }

  lemma ContinuedTwice(a: seq<Sample>, b: seq<Sample>, c: seq<Sample>)
    requires Continued(a, b) && Continued(b, c)
    ensures Continued(a, c)
  {
    assert forall i | |a| <= i < |b| :: b[i] == c[i];
  }

  /** A time no earlier than any before it: the order is strict exactly if it was, and the
      new time is not one that has been reached. */
  lemma TimeAdded(trace: seq<Sample>, now: nat, gap: nat, ms: nat)
    requires Spaced(trace, gap) && UpTo(trace, now) && now + gap <= ms
    ensures var more := trace + [Time(ms)];
      && Spaced(more, gap) && UpTo(more, ms) && Reached(more, ms)
      && (Increasing(more) <==> Increasing(trace) && (Reached(trace, now) ==> now < ms))
  {
    var more := trace + [Time(ms)];
    assert more[|trace|] == Time(ms);
    assert forall i | 0 <= i < |trace| :: more[i] == trace[i];
  }

  lemma SpacedIncreases(trace: seq<Sample>, gap: nat)
    requires Spaced(trace, gap) && gap > 0
    ensures Increasing(trace)
  {
  }
}
