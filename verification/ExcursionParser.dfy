/** The Deep Six Excursion parser as the library runs it: an object whose table of gas mixes
    survives from one run to the next. */
module ExcursionParser {
  import opened Bytes
  import opened Samples
  import opened ExcursionRecords

  method SearchMix(table: seq<GasMix>, mix: GasMix) returns (i: nat)
    ensures i == FindMix(table, mix)
  {
    i := 0;
    while i < |table|
      invariant i <= |table| && forall j | 0 <= j < i :: table[j] != mix
    {
      if table[i] == mix {
        break;
      }
      i := i + 1;
    }
  }

  method ReadSampleInfos(data: seq<byte>, at: nat, n: nat) returns (o: Outcome<seq<SampleInfo>>)
    requires at + 3 * n <= |data|
    ensures o == SampleInfos(data, at, n)
  {
    var infos := [];
    for i := 0 to n
      invariant SampleInfos(data, at, i) == Ok(infos)
    {
      var info := SampleInfo(data[at + 3 * i], data[at + 3 * i + 1], data[at + 3 * i + 2]);
      if !info.Valid() {
        SampleInfosFail(data, at, i + 1, n);
        return Failed(DataFormat);
      }
      infos := infos + [info];
    }
    o := Ok(infos);
  }

  lemma {:induction false} SampleInfosFail(data: seq<byte>, at: nat, i: nat, n: nat)
    requires i <= n && at + 3 * n <= |data| && SampleInfos(data, at, i).Failed?
    ensures SampleInfos(data, at, n) == SampleInfos(data, at, i)
    decreases n
  {
    if i < n {
      SampleInfosFail(data, at, i, n - 1);
    }
  }

  method ReadEventInfos(data: seq<byte>, at: nat, n: nat) returns (o: Outcome<seq<EventInfo>>)
    requires at + 2 * n <= |data|
    ensures o == EventInfos(data, at, n)
  {
    var infos := [];
    for i := 0 to n
      invariant EventInfos(data, at, i) == Ok(infos)
    {
      var info := EventInfo(data[at + 2 * i], data[at + 2 * i + 1]);
      if !info.Valid() {
        EventInfosFail(data, at, i + 1, n);
        return Failed(DataFormat);
      }
      infos := infos + [info];
    }
    o := Ok(infos);
  }

  lemma {:induction false} EventInfosFail(data: seq<byte>, at: nat, i: nat, n: nat)
    requires i <= n && at + 2 * n <= |data| && EventInfos(data, at, i).Failed?
    ensures EventInfos(data, at, n) == EventInfos(data, at, i)
    decreases n
  {
    if i < n {
      EventInfosFail(data, at, i, n - 1);
    }
  }

  method ReadConfig(data: seq<byte>) returns (o: Outcome<Config>)
    ensures o == ConfigOf(data)
  {
    hide SampleInfos, EventInfos;
    if |data| < LAYOUT_HEADERSIZE {
      return Failed(DataFormat);
    }
    var headersize: nat := data[2];
    if headersize < LAYOUT_HEADERSIZE {
      return Failed(DataFormat);
    }
    var offset := headersize;
    if offset + 1 > |data| {
      return Failed(DataFormat);
    }
    var nconfig := data[offset];
    offset := offset + 1;
    if nconfig > MAX_SAMPLES || offset + 3 * nconfig > |data| {
      return Failed(DataFormat);
    }
    var samples := ReadSampleInfos(data, offset, nconfig);
    if samples.Failed? {
      return Failed(samples.status);
    }
    offset := offset + 3 * nconfig;
    if offset + 1 > |data| {
      return Failed(DataFormat);
    }
    var nevents := data[offset];
    offset := offset + 1;
    if nevents > MAX_EVENTS || offset + 2 * nevents > |data| {
      return Failed(DataFormat);
    }
    var events := ReadEventInfos(data, offset, nevents);
    if events.Failed? {
      return Failed(events.status);
    }
    o := Ok(Config(data[LAYOUT_SAMPLERATE], samples.value, events.value, offset + 2 * nevents));
  }

  method ReadAlarms(alarms: nat, s: State) returns (s': State)
    ensures s' == s.(trace := s.trace + AlarmSamples(alarms, 0))
  {
    var v, j := alarms, 0;
    s' := s;
    while v != 0
      invariant s' == s.(trace := s'.trace)
      invariant s'.trace + AlarmSamples(v, j) == s.trace + AlarmSamples(alarms, 0)
    {
      if v % 2 == 1 && j <= ALARM_DIVETIME {
        s' := Reporting(s', Alarm(j));
      }
      v, j := v / 2, j + 1;
    }
  }

  /** A gas change, which may add to the table. */
  method ReadGas(s: State, mix: GasMix) returns (run: Run)
    ensures run == GasChanged(s, mix)
  {
    hide FindMix;
    var idx := SearchMix(s.mixes, mix);
    var mixes := s.mixes;
    if idx >= |mixes| {
      if idx >= MAX_GASMIXES {
        return Run(NoMemory, s);
      }
      mixes := mixes + [mix];
    }
    run := Run(Success, Reporting(s.(mixes := mixes), Gas(idx)));
  }

  method ReadEvents(c: Config, data: seq<byte>, length: nat, s: State) returns (run: Run)
    requires c.Valid() && s.offset + length <= |data| && length >= 2
    ensures run == EventsHappened(c, data, s.offset, length, Word(data, s.offset), 0, 2, s)
  {
    hide AlarmSamples, GasChanged, Bit, Word;
    var events: nat, at: nat := Word(data, s.offset), 2;
    run := Run(Success, s);
    for i := 0 to |c.events|
      invariant run.status == Success && run.state.offset == s.offset
      invariant EventsHappened(c, data, s.offset, length, events, i, at, run.state)
             == EventsHappened(c, data, s.offset, length, events, 0, 2, s)
    {
      var e := c.events[i];
      if e.kind >= 16 || !Bit(events, e.kind) {
        continue;
      }
      if at + e.size > length {
        return Run(DataFormat, run.state);
      }
      run := ReadEvent(e, data, s.offset + at, run.state);
      if run.status != Success {
        return;
      }
      at := at + e.size;
    }
  }

  method ReadEvent(e: EventInfo, data: seq<byte>, at: nat, s: State) returns (run: Run)
    requires e.Valid() && at + e.size <= |data|
    ensures run == EventHappened(e, data, at, s)
  {
    hide AlarmSamples, GasChanged;
    run := Run(Success, s);
    if e.kind == EVENT_ALARMS {
      var s' := ReadAlarms(data[at], s);
      run := Run(Success, s');
    } else if e.kind == EVENT_CHANGE_GAS {
      run := ReadGas(s, GasMix(data[at], data[at + 1], data[at + 2]));
    } else if e.kind == EVENT_CHANGE_SETPOINT {
      if e.size == 2 {
        run := Run(Success, Reporting(s, Setpoint(data[at])));
      }
    } else if e.kind == EVENT_SAMPLES_MISSED {
      var count, timestamp := Word(data, at), U32(data[at + 2], data[at + 3], data[at + 4], data[at + 5]);
      if timestamp < s.time {
        return Run(DataFormat, s);
      }
      run := Run(Success, s.(nsamples := s.nsamples + count, time := timestamp));
    }
  }

  method ReadValues(c: Config, data: seq<byte>, s: State) returns (run: Run)
    requires c.Valid()
    ensures run == ValuesReported(c, data, 0, s)
  {
    hide ValueReported;
    run := Run(Success, s);
    for i := 0 to |c.samples|
      invariant run.status == Success
      invariant ValuesReported(c, data, i, run.state) == ValuesReported(c, data, 0, s)
    {
      var info := c.samples[i];
      if info.divisor != 0 && run.state.nsamples % info.divisor == 0 {
        if run.state.offset + info.size > |data| {
          return Run(DataFormat, run.state);
        }
        var offset := run.state.offset;
        run := Run(Success, ValueReported(info, data, run.state).(offset := offset + info.size));
      }
    }
  }

  /** One sample with its events and values. */
  method ReadSample(c: Config, data: seq<byte>, s: State) returns (run: Run)
    requires c.Valid() && s.offset + 3 <= |data|
    ensures run == Step(c, data, s)
  {
    hide EventsHappened, ValuesReported;
    var begun, length := Sampled(c, data, s), data[s.offset + 2];
    if begun.offset + length > |data| {
      return Run(DataFormat, begun);
    }
    run := Run(Success, begun);
    if length != 0 {
      if length < 2 {
        return Run(DataFormat, begun);
      }
      run := ReadEvents(c, data, length, begun);
      if run.status != Success {
        return;
      }
      run := Run(Success, run.state.(offset := begun.offset + length));
    }
    run := ReadValues(c, data, run.state);
  }

  class Parser {
    const data: seq<byte>
    var cached: bool
    var mixes: seq<GasMix>

    constructor (data: seq<byte>)
      ensures Valid() && this.data == data && !cached && mixes == []
    {
      this.data, cached, mixes := data, false, [];
    }

    ghost predicate Valid()
      reads this
    {
      |mixes| <= MAX_GASMIXES
    }

    /** Parses the dive over the table of mixes as it is, and leaves it as it then is, also
        after a failure. */
    method SamplesForeach() returns (status: Status, trace: seq<Sample>)
      requires Valid()
      modifies this
      ensures Valid()
      ensures Report(status, trace, mixes) == Reported(data, old(mixes))
      ensures cached == (old(cached) || status == Success)
    {
      hide ConfigOf, Step;
      EveryRunFits(data, mixes);
      var c := ReadConfig(data);
      if c.Failed? {
        return c.status, [];
      }
      var s := State(c.value.start, 0, 0, mixes, []);
      ghost var all := Parsed(c.value, data, s);
      while s.offset + 3 <= |data|
        invariant Parsed(c.value, data, s) == all && mixes == s.mixes
        invariant cached == old(cached)
        decreases |data| - s.offset
      {
        var run := ReadSample(c.value, data, s);
        s, mixes := run.state, run.state.mixes;
        if run.status != Success {
          return run.status, s.trace;
        }
      }
      cached := true;
      status, trace := Success, s.trace;
    }
  }

  /** Parsing twice with the same object gives the same answer twice. */
  method ParseTwice(p: Parser) returns (status: Status, trace: seq<Sample>, status': Status, trace': seq<Sample>)
    requires p.Valid()
    modifies p
    ensures p.Valid()
    ensures status' == status && trace' == trace
    ensures Report(status, trace, p.mixes) == Reported(p.data, old(p.mixes))
  {
    SecondRunRepeats(p.data, p.mixes);
    status, trace := p.SamplesForeach();
    status', trace' := p.SamplesForeach();
  }
}
