/** The order of the times that a Deep Six Excursion dive reports. */
module ExcursionTimes {
  import opened Bytes
  import opened Samples
  import opened SampleTimes
  import opened ExcursionRecords

  /** The times reported so far are one sampling interval apart or more, and none is later
      than the clock. */
  ghost predicate Clocked(s: State, rate: nat) {
    Spaced(s.trace, 1000 * rate) && UpTo(s.trace, 1000 * s.time)
  }

  /** Nothing is reported about the time, and the clock is not set back. */
  ghost predicate Waits(s: State, s': State) {
    Continued(s.trace, s'.trace) && s.time <= s'.time
  }

  lemma WaitsTwice(a: State, b: State, c: State)
    requires Waits(a, b) && Waits(b, c)
    ensures Waits(a, c)
  {
    hide Continued;
    ContinuedTwice(a.trace, b.trace, c.trace);
  }

  lemma WaitingKeeps(s: State, s': State, rate: nat)
    requires Waits(s, s') && Clocked(s, rate)
    ensures Clocked(s', rate)
  {
    hide Spaced, Continued;
    ContinuedKeeps(s.trace, s'.trace, 1000 * rate, 1000 * s.time);
  }

  lemma {:induction false} AlarmsAreTimeless(v: nat, j: nat)
    ensures forall i | 0 <= i < |AlarmSamples(v, j)| :: AlarmSamples(v, j)[i].Alarm?
    decreases v
  {
    if v != 0 {
      AlarmsAreTimeless(v / 2, j + 1);
    }
  }

  lemma EventWaits(e: EventInfo, data: seq<byte>, at: nat, s: State)
    requires e.Valid() && at + e.size <= |data|
    ensures Waits(s, EventHappened(e, data, at, s).state)
    ensures e.kind != EVENT_SAMPLES_MISSED ==>
              var s' := EventHappened(e, data, at, s).state; s'.time == s.time && s'.nsamples == s.nsamples
  {
    hide AlarmSamples, FindMix, Word;
    if e.kind == EVENT_ALARMS {
      AlarmsAreTimeless(data[at], 0);
    }
  }

  lemma {:induction false} EventsWait(c: Config, data: seq<byte>, base: nat, length: nat, bits: nat, i: nat, at: nat,
                                      s: State)
    requires c.Valid() && i <= |c.events| && base + length <= |data|
    ensures var s' := EventsHappened(c, data, base, length, bits, i, at, s).state;
      Waits(s, s') && (Steady(c) ==> s'.time == s.time && s'.nsamples == s.nsamples)
    decreases |c.events| - i
  {
    hide EventHappened, Bit;
    if i < |c.events| {
      var e := c.events[i];
      if e.kind >= 16 || !Bit(bits, e.kind) {
        EventsWait(c, data, base, length, bits, i + 1, at, s);
      } else if at + e.size <= length {
        EventWaits(e, data, base + at, s);
        var next := EventHappened(e, data, base + at, s).state;
        var last := EventsHappened(c, data, base, length, bits, i + 1, at + e.size, next).state;
        EventsWait(c, data, base, length, bits, i + 1, at + e.size, next);
        WaitsTwice(s, next, last);
      }
    }
  }

  lemma {:induction false} ValuesWait(c: Config, data: seq<byte>, i: nat, s: State)
    requires c.Valid() && i <= |c.samples|
    ensures var s' := ValuesReported(c, data, i, s).state;
      Waits(s, s') && s'.time == s.time && s'.nsamples == s.nsamples
    decreases |c.samples| - i
  {
    hide Word;
    if i < |c.samples| {
      var info := c.samples[i];
      if info.divisor == 0 || s.nsamples % info.divisor != 0 {
        ValuesWait(c, data, i + 1, s);
      } else if s.offset + info.size <= |data| {
        var s' := ValueReported(info, data, s).(offset := s.offset + info.size);
        ValuesWait(c, data, i + 1, s');
        WaitsTwice(s, s', ValuesReported(c, data, i + 1, s').state);
      }
    }
  }

  /** The dive computer reports no missing samples, which move the clock forward. */
  ghost predicate Steady(c: Config) {
    forall i | 0 <= i < |c.events| :: c.events[i].kind != EVENT_SAMPLES_MISSED
  }

  lemma BlockWaits(c: Config, data: seq<byte>, length: nat, s: State)
    requires c.Valid()
    ensures var s' := EventBlock(c, data, length, s).state;
      Waits(s, s') && (Steady(c) ==> s'.time == s.time && s'.nsamples == s.nsamples)
  {
    hide EventsHappened, Steady;
    if s.offset + length <= |data| && length >= 2 {
      EventsWait(c, data, s.offset, length, Word(data, s.offset), 0, 2, s);
    }
  }

  lemma StepInOrder(c: Config, data: seq<byte>, s: State)
    requires c.Valid() && s.offset + 3 <= |data| && Clocked(s, c.rate)
    ensures Clocked(Step(c, data, s).state, c.rate)
  {
    hide EventBlock, ValuesReported, Waits, Clocked;
    var sampled, length := Sampled(c, data, s), data[s.offset + 2];
    SampledInOrder(c, data, s);
    BlockWaits(c, data, length, sampled);
    var happened := EventBlock(c, data, length, sampled);
    WaitingKeeps(sampled, happened.state, c.rate);
    if happened.status == Success {
      ValuesWait(c, data, 0, happened.state);
      WaitingKeeps(happened.state, ValuesReported(c, data, 0, happened.state).state, c.rate);
    }
  }

  lemma SampledInOrder(c: Config, data: seq<byte>, s: State)
    requires s.offset + 3 <= |data| && Clocked(s, c.rate)
    ensures Clocked(Sampled(c, data, s), c.rate)
  {
    hide Spaced, UpTo, Word;
    var s' := Sampled(c, data, s);
    TimeAdded(s.trace, 1000 * s.time, 1000 * c.rate, 1000 * s'.time);
    var timed := s.trace + [Time(1000 * s'.time)];
    ContinuedKeeps(timed, timed + [Depth(Word(data, s.offset))], 1000 * c.rate, 1000 * s'.time);
  }

  lemma {:induction false} ParsedInOrder(c: Config, data: seq<byte>, s: State)
    requires c.Valid() && Clocked(s, c.rate)
    ensures Clocked(Parsed(c, data, s).state, c.rate)
    decreases |data| - s.offset
  {
    hide Step, Clocked;
    if s.offset + 3 <= |data| {
      StepInOrder(c, data, s);
      if Step(c, data, s).status == Success {
        ParsedInOrder(c, data, Step(c, data, s).state);
      }
    }
  }

  // ---------- When times strictly increase ----------

  /** The last time reported, or a negative number if there is none. */
  ghost predicate LastIs(s: State, last: int) {
    var ms := if last < 0 then 0 else 1000 * last;
    Spaced(s.trace, 0) && UpTo(s.trace, ms) && (Reached(s.trace, ms) <==> last >= 0) && last <= s.time
  }

  /** From here on, the clock moves between any two samples: by the sampling interval, or
      by an event about missing samples. */
  predicate Advances(c: Config, data: seq<byte>, s: State, last: int)
    requires c.Valid()
    decreases |data| - s.offset
  {
    if s.offset + 3 > |data| then true
    else
      var next, time := Step(c, data, s), s.time + c.rate;
      last < time && (next.status != Success || Advances(c, data, next.state, time))
  }

  lemma LastStays(s: State, s': State, last: int)
    requires LastIs(s, last) && Waits(s, s')
    ensures LastIs(s', last) && (Increasing(s'.trace) <==> Increasing(s.trace))
  {
    hide Spaced, UpTo, Reached, Increasing, Continued;
    ContinuedKeeps(s.trace, s'.trace, 0, if last < 0 then 0 else 1000 * last);
  }

  lemma SampledAdvances(c: Config, data: seq<byte>, s: State, last: int)
    requires s.offset + 3 <= |data| && LastIs(s, last)
    ensures var s' := Sampled(c, data, s);
      LastIs(s', s.time + c.rate) && (Increasing(s'.trace) <==> Increasing(s.trace) && last < s.time + c.rate)
  {
    hide Spaced, UpTo, Reached, Increasing, Word;
    var s', ms := Sampled(c, data, s), if last < 0 then 0 else 1000 * last;
    TimeAdded(s.trace, ms, 0, 1000 * s'.time);
    var timed := s.trace + [Time(1000 * s'.time)];
    ContinuedKeeps(timed, timed + [Depth(Word(data, s.offset))], 0, 1000 * s'.time);
  }

  lemma StepAdvances(c: Config, data: seq<byte>, s: State, last: int)
    requires c.Valid() && s.offset + 3 <= |data| && LastIs(s, last)
    ensures var s' := Step(c, data, s).state;
      LastIs(s', s.time + c.rate) && (Increasing(s'.trace) <==> Increasing(s.trace) && last < s.time + c.rate)
  {
    hide EventBlock, ValuesReported, Waits, LastIs, Increasing;
    var sampled, length, time := Sampled(c, data, s), data[s.offset + 2], s.time + c.rate;
    SampledAdvances(c, data, s, last);
    BlockWaits(c, data, length, sampled);
    var happened := EventBlock(c, data, length, sampled);
    LastStays(sampled, happened.state, time);
    if happened.status == Success {
      ValuesWait(c, data, 0, happened.state);
      LastStays(happened.state, ValuesReported(c, data, 0, happened.state).state, time);
    }
  }

  lemma {:induction false} ParsedAdvances(c: Config, data: seq<byte>, s: State, last: int)
    requires c.Valid() && LastIs(s, last)
    ensures Increasing(Parsed(c, data, s).state.trace) <==> Increasing(s.trace) && Advances(c, data, s, last)
    decreases |data| - s.offset
  {
    hide Step, LastIs, Increasing;
    if s.offset + 3 <= |data| {
      StepAdvances(c, data, s, last);
      if Step(c, data, s).status == Success {
        ParsedAdvances(c, data, Step(c, data, s).state, s.time + c.rate);
      }
    }
  }

  // ---------- Dives whose samples take no time ----------

  /** The clock never moves, so that only one sample can be in order. */
  ghost predicate Stopped(s: State) {
    s.time == 0 && Spaced(s.trace, 0) && UpTo(s.trace, 0)
    && (Reached(s.trace, 0) <==> s.nsamples > 0) && (Increasing(s.trace) <==> s.nsamples <= 1)
  }

  lemma StoppedStays(s: State, s': State)
    requires Stopped(s) && Waits(s, s') && s'.time == s.time && s'.nsamples == s.nsamples
    ensures Stopped(s')
  {
    hide Spaced, UpTo, Reached, Increasing, Continued;
    ContinuedKeeps(s.trace, s'.trace, 0, 0);
  }

  lemma StepStopped(c: Config, data: seq<byte>, s: State)
    requires c.Valid() && s.offset + 3 <= |data| && Steady(c) && c.rate == 0 && Stopped(s)
    ensures Stopped(Step(c, data, s).state)
  {
    hide EventBlock, ValuesReported, Waits, Stopped, Steady;
    var sampled, length := Sampled(c, data, s), data[s.offset + 2];
    SampledStopped(c, data, s);
    BlockWaits(c, data, length, sampled);
    var happened := EventBlock(c, data, length, sampled);
    StoppedStays(sampled, happened.state);
    if happened.status == Success {
      ValuesWait(c, data, 0, happened.state);
      StoppedStays(happened.state, ValuesReported(c, data, 0, happened.state).state);
    }
  }

  lemma SampledStopped(c: Config, data: seq<byte>, s: State)
    requires s.offset + 3 <= |data| && c.rate == 0 && Stopped(s)
    ensures Stopped(Sampled(c, data, s))
  {
    hide Spaced, UpTo, Reached, Increasing, Word;
    TimeAdded(s.trace, 0, 0, 0);
    var timed := s.trace + [Time(0)];
    ContinuedKeeps(timed, timed + [Depth(Word(data, s.offset))], 0, 0);
  }

  lemma {:induction false} ParsedStopped(c: Config, data: seq<byte>, s: State)
    requires c.Valid() && Steady(c) && c.rate == 0 && Stopped(s)
    ensures Stopped(Parsed(c, data, s).state)
    decreases |data| - s.offset
  {
    hide Step, Stopped, Steady;
    if s.offset + 3 <= |data| {
      StepStopped(c, data, s);
      if Step(c, data, s).status == Success {
        ParsedStopped(c, data, Step(c, data, s).state);
      }
    }
  }

  /** The times of a dive are at least one sampling interval apart, however it ends. They
      strictly increase exactly if the clock moves between any two samples: whenever the
      interval is not zero, and if it is zero and no missing samples move the clock, exactly
      if there is at most one sample. */
  lemma TimesInOrder(c: Config, data: seq<byte>, mixes: seq<GasMix>)
    requires c.Valid()
    ensures var s := Parsed(c, data, State(c.start, 0, 0, mixes, [])).state;
      && Spaced(s.trace, 1000 * c.rate)
      && (Increasing(s.trace) <==> Advances(c, data, State(c.start, 0, 0, mixes, []), -1))
      && (c.rate > 0 ==> Increasing(s.trace))
      && (c.rate == 0 && Steady(c) ==> (Increasing(s.trace) <==> s.nsamples <= 1))
  {
    var start := State(c.start, 0, 0, mixes, []);
    ParsedInOrder(c, data, start);
    ParsedAdvances(c, data, start, -1);
    if c.rate > 0 {
      SpacedIncreases(Parsed(c, data, start).state.trace, 1000 * c.rate);
    } else if Steady(c) {
      ParsedStopped(c, data, start);
    }
  }
}
