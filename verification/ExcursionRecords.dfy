/** What a Deep Six Excursion dive means: its own description of the samples and events in
    it, and the samples themselves, over a gas table that outlives the run. */
module ExcursionRecords {
  import opened Bytes
  import opened Samples

  const LAYOUT_HEADERSIZE: nat := 129
  const LAYOUT_SAMPLERATE: nat := 5
  const MAX_SAMPLES: nat := 7
  const MAX_EVENTS: nat := 7
  const MAX_GASMIXES: nat := 20

  const SAMPLE_TEMPERATURE: nat := 0
  const SAMPLE_DECO_NDL: nat := 1
  const SAMPLE_CNS: nat := 2

  const EVENT_CHANGE_GAS: nat := 7
  const EVENT_ALARMS: nat := 8
  const EVENT_CHANGE_SETPOINT: nat := 9
  const EVENT_SAMPLES_MISSED: nat := 10

  /** The last of the alarms that are reported. */
  const ALARM_DIVETIME: nat := 4

  datatype GasMix = GasMix(id: nat, oxygen: nat, helium: nat)

  // ---------- The descriptors ----------

  datatype SampleInfo = SampleInfo(kind: nat, size: nat, divisor: nat) {
    /** Known samples that occur have their known size. */
    predicate Valid() {
      divisor != 0 ==>
        && (kind == SAMPLE_CNS || kind == SAMPLE_TEMPERATURE ==> size == 2)
        && (kind == SAMPLE_DECO_NDL ==> size == 7)
    }
  }

  datatype EventInfo = EventInfo(kind: nat, size: nat) {
    predicate Valid() {
      && (kind == EVENT_ALARMS ==> size == 1)
      && (kind == EVENT_CHANGE_GAS ==> size == 3)
      && (kind == EVENT_CHANGE_SETPOINT ==> size == 4 || size == 2)
      && (kind == EVENT_SAMPLES_MISSED ==> size == 6)
    }
  }

  datatype Config = Config(rate: nat, samples: seq<SampleInfo>, events: seq<EventInfo>, start: nat) {
    ghost predicate Valid() {
      && |samples| <= MAX_SAMPLES && |events| <= MAX_EVENTS
      && (forall i | 0 <= i < |samples| :: samples[i].Valid())
      && (forall i | 0 <= i < |events| :: events[i].Valid())
    }
  }

  function SampleInfos(data: seq<byte>, at: nat, n: nat): (o: Outcome<seq<SampleInfo>>)
    requires at + 3 * n <= |data|
    ensures o.Ok? ==> |o.value| == n && forall i | 0 <= i < n :: o.value[i].Valid()
  {
    if n == 0 then Ok([])
    else
      var before := SampleInfos(data, at, n - 1);
      var p := at + 3 * (n - 1);
      var info := SampleInfo(data[p], data[p + 1], data[p + 2]);
      if before.Failed? then before
      else if !info.Valid() then Failed(DataFormat)
      else Ok(before.value + [info])
  }

  function EventInfos(data: seq<byte>, at: nat, n: nat): (o: Outcome<seq<EventInfo>>)
    requires at + 2 * n <= |data|
    ensures o.Ok? ==> |o.value| == n && forall i | 0 <= i < n :: o.value[i].Valid()
  {
    if n == 0 then Ok([])
    else
      var before := EventInfos(data, at, n - 1);
      var p := at + 2 * (n - 1);
      var info := EventInfo(data[p], data[p + 1]);
      if before.Failed? then before
      else if !info.Valid() then Failed(DataFormat)
      else Ok(before.value + [info])
  }

  /** The header and the descriptors behind it. */
  function ConfigOf(data: seq<byte>): (o: Outcome<Config>)
    ensures o.Ok? ==> o.value.Valid() && o.value.start <= |data|
  {
    if |data| < LAYOUT_HEADERSIZE || data[2] < LAYOUT_HEADERSIZE || data[2] + 1 > |data| then Failed(DataFormat)
    else
      var nconfig, at := data[data[2]], data[2] as int + 1;
      if nconfig > MAX_SAMPLES || at + 3 * nconfig > |data| then Failed(DataFormat)
      else
        var samples := SampleInfos(data, at, nconfig);
        if samples.Failed? then Failed(samples.status)
        else
          var at' := at + 3 * nconfig;
          if at' + 1 > |data| then Failed(DataFormat)
          else
            var nevents := data[at'];
            if nevents > MAX_EVENTS || at' + 1 + 2 * nevents > |data| then Failed(DataFormat)
            else
              var events := EventInfos(data, at' + 1, nevents);
              if events.Failed? then Failed(events.status)
              else Ok(Config(data[LAYOUT_SAMPLERATE], samples.value, events.value, at' + 1 + 2 * nevents))
  }

  // ---------- The samples ----------

  datatype State = State(offset: nat, time: nat, nsamples: nat, mixes: seq<GasMix>, trace: seq<Sample>)

  datatype Run = Run(status: Status, state: State)

  function Reporting(s: State, sample: Sample): State {
    s.(trace := s.trace + [sample])
  }

  function Bit(x: nat, n: nat): bool {
    if n == 0 then x % 2 == 1 else Bit(x / 2, n - 1)
  }

  function FindMix(table: seq<GasMix>, mix: GasMix): (i: nat)
    ensures i <= |table| && (i < |table| ==> table[i] == mix)
    ensures forall j | 0 <= j < i :: table[j] != mix
  {
    if table == [] || table[0] == mix then 0
    else
      var i := FindMix(table[1..], mix);
      assert forall j | 1 <= j < i + 1 :: table[j] == table[1..][j - 1];
      i + 1
  }

  /** The alarms whose bits are set, from bit `j` on. */
  function AlarmSamples(v: nat, j: nat): seq<Sample> {
    if v == 0 then []
    else (if v % 2 == 1 && j <= ALARM_DIVETIME then [Alarm(j)] else []) + AlarmSamples(v / 2, j + 1)
  }

  function GasChanged(s: State, mix: GasMix): (run: Run)
    ensures s.mixes <= run.state.mixes && run.state.offset == s.offset
  {
    var i := FindMix(s.mixes, mix);
    if i >= |s.mixes| && i >= MAX_GASMIXES then Run(NoMemory, s)
    else
      var mixes := if i < |s.mixes| then s.mixes else s.mixes + [mix];
      Run(Success, Reporting(s.(mixes := mixes), Gas(i)))
  }

  function EventHappened(e: EventInfo, data: seq<byte>, at: nat, s: State): (run: Run)
    requires e.Valid() && at + e.size <= |data|
    ensures s.mixes <= run.state.mixes && run.state.offset == s.offset
  {
    if e.kind == EVENT_ALARMS then Run(Success, s.(trace := s.trace + AlarmSamples(data[at], 0)))
    else if e.kind == EVENT_CHANGE_GAS then GasChanged(s, GasMix(data[at], data[at + 1], data[at + 2]))
    else if e.kind == EVENT_CHANGE_SETPOINT && e.size == 2 then Run(Success, Reporting(s, Setpoint(data[at])))
    else if e.kind == EVENT_SAMPLES_MISSED then
      var timestamp := U32(data[at + 2], data[at + 3], data[at + 4], data[at + 5]);
      if timestamp < s.time then Run(DataFormat, s)
      else Run(Success, s.(nsamples := s.nsamples + Word(data, at), time := timestamp))
    else Run(Success, s)
  }

  /** The events from the `i`-th descriptor on, of which `bits` says which have happened. */
  function EventsHappened(c: Config, data: seq<byte>, base: nat, length: nat, bits: nat, i: nat, at: nat, s: State)
    : (run: Run)
    requires c.Valid() && i <= |c.events| && base + length <= |data|
    ensures s.mixes <= run.state.mixes && run.state.offset == s.offset
    decreases |c.events| - i
  {
    if i == |c.events| then Run(Success, s)
    else
      var e := c.events[i];
      if e.kind >= 16 || !Bit(bits, e.kind) then EventsHappened(c, data, base, length, bits, i + 1, at, s)
      else if at + e.size > length then Run(DataFormat, s)
      else
        var next := EventHappened(e, data, base + at, s);
        if next.status != Success then next
        else EventsHappened(c, data, base, length, bits, i + 1, at + e.size, next.state)
  }

  /** One of the values that are stored with every few samples. */
  function ValueReported(info: SampleInfo, data: seq<byte>, s: State): State
    requires info.Valid() && info.divisor != 0 && s.offset + info.size <= |data|
  {
    var p := s.offset;
    if info.kind == SAMPLE_TEMPERATURE then Reporting(s, Temperature(Word(data, p)))
    else if info.kind == SAMPLE_CNS then Reporting(s, Cns(Word(data, p)))
    else if info.kind == SAMPLE_DECO_NDL then
      var flags, tts, depth, time := data[p], Word(data, p + 1), Word(data, p + 3), Word(data, p + 5);
      Reporting(s, if flags / 2 % 2 == 1 then DecoStop(depth, time, tts)
                   else if flags / 4 % 2 == 1 then SafetyStop(depth, time)
                   else NoDeco(tts, 0))
    else s
  }

  function ValuesReported(c: Config, data: seq<byte>, i: nat, s: State): (run: Run)
    requires c.Valid() && i <= |c.samples|
    ensures s.mixes == run.state.mixes && run.state.offset >= s.offset
    decreases |c.samples| - i
  {
    if i == |c.samples| then Run(Success, s)
    else
      var info := c.samples[i];
      if info.divisor == 0 || s.nsamples % info.divisor != 0 then ValuesReported(c, data, i + 1, s)
      else if s.offset + info.size > |data| then Run(DataFormat, s)
      else
        var s' := ValueReported(info, data, s);
        ValuesReported(c, data, i + 1, s'.(offset := s.offset + info.size))
  }

  /** The beginning of a sample: the time and the depth. */
  function Sampled(c: Config, data: seq<byte>, s: State): State
    requires s.offset + 3 <= |data|
  {
    var time := s.time + c.rate;
    var s' := State(s.offset + 3, time, s.nsamples + 1, s.mixes, s.trace);
    Reporting(Reporting(s', Time(time * 1000)), Depth(Word(data, s.offset)))
  }

  /** The events of a sample, which come with their own length. */
  function EventBlock(c: Config, data: seq<byte>, length: nat, s: State): (run: Run)
    requires c.Valid()
    ensures s.mixes <= run.state.mixes && run.state.offset >= s.offset
  {
    if s.offset + length > |data| then Run(DataFormat, s)
    else if length == 0 then Run(Success, s)
    else if length < 2 then Run(DataFormat, s)
    else
      var happened := EventsHappened(c, data, s.offset, length, Word(data, s.offset), 0, 2, s);
      if happened.status != Success then happened
      else Run(Success, happened.state.(offset := s.offset + length))
  }

  function Step(c: Config, data: seq<byte>, s: State): (run: Run)
    requires c.Valid() && s.offset + 3 <= |data|
    ensures s.mixes <= run.state.mixes && run.state.offset > s.offset
  {
    var happened := EventBlock(c, data, data[s.offset + 2], Sampled(c, data, s));
    if happened.status != Success then happened else ValuesReported(c, data, 0, happened.state)
  }

  function Parsed(c: Config, data: seq<byte>, s: State): (run: Run)
    requires c.Valid()
    ensures s.mixes <= run.state.mixes
    decreases |data| - s.offset
  {
    if s.offset + 3 > |data| then Run(Success, s)
    else
      var next := Step(c, data, s);
      if next.status != Success then next else Parsed(c, data, next.state)
  }

  /** A run over a dive, beginning with a table of gas mixes and leaving one. */
  datatype Report = Report(status: Status, trace: seq<Sample>, mixes: seq<GasMix>)

  function Reported(data: seq<byte>, mixes: seq<GasMix>): Report {
    var c := ConfigOf(data);
    if c.Failed? then Report(c.status, [], mixes)
    else
      var run := Parsed(c.value, data, State(c.value.start, 0, 0, mixes, []));
      Report(run.status, run.state.trace, run.state.mixes)
  }

  // ---------- The table that outlives the run ----------

  /** The same run over another table of mixes. */
  function With(run: Run, mixes: seq<GasMix>): Run {
    run.(state := run.state.(mixes := mixes))
  }

  lemma FindMixStays(a: seq<GasMix>, b: seq<GasMix>, mix: GasMix)
    requires a <= b && FindMix(a, mix) < |a|
    ensures FindMix(b, mix) == FindMix(a, mix)
  {
    assert a[FindMix(a, mix)] == b[FindMix(a, mix)];
  }

  lemma NewMixIsLast(a: seq<GasMix>, mix: GasMix)
    requires FindMix(a, mix) == |a|
    ensures FindMix(a + [mix], mix) == |a|
  {
    assert (a + [mix])[|a|] == mix;
    assert forall j | 0 <= j < |a| :: (a + [mix])[j] == a[j];
  }

  /** A gas change finds in the later table what it found or entered in the earlier. */
  lemma GasChangedAgain(s: State, mix: GasMix, all: seq<GasMix>)
    requires var run := GasChanged(s, mix); run.state.mixes <= all && (run.status != Success ==> run.state.mixes == all)
    ensures GasChanged(s.(mixes := all), mix) == With(GasChanged(s, mix), all)
  {
    hide FindMix;
    var run := GasChanged(s, mix);
    if run.status == Success {
      if FindMix(s.mixes, mix) == |s.mixes| {
        NewMixIsLast(s.mixes, mix);
      }
      FindMixStays(run.state.mixes, all, mix);
      if FindMix(s.mixes, mix) < |s.mixes| {
        FindMixStays(s.mixes, run.state.mixes, mix);
      }
    }
  }

  lemma EventAgain(e: EventInfo, data: seq<byte>, at: nat, s: State, all: seq<GasMix>)
    requires e.Valid() && at + e.size <= |data|
    requires var run := EventHappened(e, data, at, s);
      run.state.mixes <= all && (run.status != Success ==> run.state.mixes == all || e.kind != EVENT_CHANGE_GAS)
    ensures EventHappened(e, data, at, s.(mixes := all)) == With(EventHappened(e, data, at, s), all)
  {
    hide GasChanged, AlarmSamples, Word;
    if e.kind == EVENT_CHANGE_GAS {
      GasChangedAgain(s, GasMix(data[at], data[at + 1], data[at + 2]), all);
    }
  }

  lemma {:induction false} EventsAgain(c: Config, data: seq<byte>, base: nat, length: nat, bits: nat, i: nat, at: nat,
                                       s: State, all: seq<GasMix>)
    requires c.Valid() && i <= |c.events| && base + length <= |data|
    requires var run := EventsHappened(c, data, base, length, bits, i, at, s);
      run.state.mixes <= all && (run.status != Success ==> run.state.mixes == all)
    ensures EventsHappened(c, data, base, length, bits, i, at, s.(mixes := all))
            == With(EventsHappened(c, data, base, length, bits, i, at, s), all)
    decreases |c.events| - i
  {
    hide EventHappened, Bit;
    if i < |c.events| {
      var e := c.events[i];
      if e.kind >= 16 || !Bit(bits, e.kind) {
        EventsAgain(c, data, base, length, bits, i + 1, at, s, all);
      } else if at + e.size <= length {
        var next := EventHappened(e, data, base + at, s);
        if next.status == Success {
          EventsAgain(c, data, base, length, bits, i + 1, at + e.size, next.state, all);
        }
        EventAgain(e, data, base + at, s, all);
      }
    }
  }

  lemma {:induction false} ValuesAgain(c: Config, data: seq<byte>, i: nat, s: State, all: seq<GasMix>)
    requires c.Valid() && i <= |c.samples|
    ensures ValuesReported(c, data, i, s.(mixes := all)) == With(ValuesReported(c, data, i, s), all)
    decreases |c.samples| - i
  {
    hide Word;
    if i < |c.samples| {
      var info := c.samples[i];
      if info.divisor == 0 || s.nsamples % info.divisor != 0 {
        ValuesAgain(c, data, i + 1, s, all);
      } else if s.offset + info.size <= |data| {
        var s' := ValueReported(info, data, s).(offset := s.offset + info.size);
        ValueAgain(info, data, s, all);
        ValuesAgain(c, data, i + 1, s', all);
      }
    }
  }

  lemma ValueAgain(info: SampleInfo, data: seq<byte>, s: State, all: seq<GasMix>)
    requires info.Valid() && info.divisor != 0 && s.offset + info.size <= |data|
    ensures ValueReported(info, data, s.(mixes := all)) == ValueReported(info, data, s).(mixes := all)
  {
  }

  lemma EventBlockAgain(c: Config, data: seq<byte>, length: nat, s: State, all: seq<GasMix>)
    requires c.Valid()
    requires var run := EventBlock(c, data, length, s);
      run.state.mixes <= all && (run.status != Success ==> run.state.mixes == all)
    ensures EventBlock(c, data, length, s.(mixes := all)) == With(EventBlock(c, data, length, s), all)
  {
    hide EventsHappened;
    if s.offset + length <= |data| && length >= 2 {
      EventsAgain(c, data, s.offset, length, Word(data, s.offset), 0, 2, s, all);
    }
  }

  lemma StepAgain(c: Config, data: seq<byte>, s: State, all: seq<GasMix>)
    requires c.Valid() && s.offset + 3 <= |data|
    requires var run := Step(c, data, s); run.state.mixes <= all && (run.status != Success ==> run.state.mixes == all)
    ensures Step(c, data, s.(mixes := all)) == With(Step(c, data, s), all)
  {
    hide EventBlock, ValuesReported;
    var begun := Sampled(c, data, s);
    EventBlockAgain(c, data, data[s.offset + 2], begun, all);
    var happened := EventBlock(c, data, data[s.offset + 2], begun);
    if happened.status == Success {
      ValuesAgain(c, data, 0, happened.state, all);
    }
  }

  lemma {:induction false} ParsedAgain(c: Config, data: seq<byte>, s: State)
    requires c.Valid()
    ensures var run := Parsed(c, data, s); Parsed(c, data, s.(mixes := run.state.mixes)) == run
    decreases |data| - s.offset
  {
    hide Step;
    if s.offset + 3 <= |data| {
      var all := Parsed(c, data, s).state.mixes;
      StepAgain(c, data, s, all);
      var next := Step(c, data, s);
      if next.status == Success {
        ParsedAgain(c, data, next.state);
      }
    }
  }

  /** Parsing a dive again, with the table of mixes that the first time left, ends the same
      way, reports the same and leaves the table as it is, whatever table it began with. */
  lemma SecondRunRepeats(data: seq<byte>, mixes: seq<GasMix>)
    ensures var first := Reported(data, mixes); Reported(data, first.mixes) == first
  {
    hide Parsed, ConfigOf;
    var c := ConfigOf(data);
    if c.Ok? {
      ParsedAgain(c.value, data, State(c.value.start, 0, 0, mixes, []));
    }
  }

  // ---------- The table and the samples fit ----------

  ghost predicate Fits(s: State) {
    |s.mixes| <= MAX_GASMIXES && InRange(s.trace, |s.mixes|, 0)
  }

  lemma ReportingFits(s: State, sample: Sample)
    requires Fits(s) && !sample.Pressure? && (sample.Gas? ==> sample.index < |s.mixes|)
    ensures Fits(Reporting(s, sample))
  {
  }

  lemma {:induction false} AlarmsFit(s: State, v: nat, j: nat)
    requires Fits(s)
    ensures Fits(s.(trace := s.trace + AlarmSamples(v, j)))
    decreases v
  {
    hide Fits;
    if v == 0 {
      assert s.trace + [] == s.trace;
    } else {
      var first := if v % 2 == 1 && j <= ALARM_DIVETIME then [Alarm(j)] else [];
      var s' := s.(trace := s.trace + first);
      if first != [] {
        ReportingFits(s, Alarm(j));
      } else {
        assert s'.trace == s.trace;
      }
      AlarmsFit(s', v / 2, j + 1);
      assert s.trace + first + AlarmSamples(v / 2, j + 1) == s.trace + AlarmSamples(v, j);
    }
  }

  lemma EventFits(e: EventInfo, data: seq<byte>, at: nat, s: State)
    requires e.Valid() && at + e.size <= |data| && Fits(s)
    ensures Fits(EventHappened(e, data, at, s).state)
  {
    hide AlarmSamples, FindMix, Word;
    if e.kind == EVENT_ALARMS {
      AlarmsFit(s, data[at], 0);
    }
  }

  lemma {:induction false} EventsFit(c: Config, data: seq<byte>, base: nat, length: nat, bits: nat, i: nat, at: nat,
                                     s: State)
    requires c.Valid() && i <= |c.events| && base + length <= |data| && Fits(s)
    ensures Fits(EventsHappened(c, data, base, length, bits, i, at, s).state)
    decreases |c.events| - i
  {
    hide EventHappened, Bit, Fits;
    if i < |c.events| {
      var e := c.events[i];
      if e.kind >= 16 || !Bit(bits, e.kind) {
        EventsFit(c, data, base, length, bits, i + 1, at, s);
      } else if at + e.size <= length {
        EventFits(e, data, base + at, s);
        EventsFit(c, data, base, length, bits, i + 1, at + e.size, EventHappened(e, data, base + at, s).state);
      }
    }
  }

  lemma {:induction false} ValuesFit(c: Config, data: seq<byte>, i: nat, s: State)
    requires c.Valid() && i <= |c.samples| && Fits(s)
    ensures Fits(ValuesReported(c, data, i, s).state)
    decreases |c.samples| - i
  {
    hide Word;
    if i < |c.samples| {
      var info := c.samples[i];
      if info.divisor == 0 || s.nsamples % info.divisor != 0 {
        ValuesFit(c, data, i + 1, s);
      } else if s.offset + info.size <= |data| {
        ValuesFit(c, data, i + 1, ValueReported(info, data, s).(offset := s.offset + info.size));
      }
    }
  }

  lemma StepFits(c: Config, data: seq<byte>, s: State)
    requires c.Valid() && s.offset + 3 <= |data| && Fits(s)
    ensures Fits(Step(c, data, s).state)
  {
    hide EventsHappened, ValuesReported, Word;
    var begun := Sampled(c, data, s);
    var length := data[s.offset + 2];
    if begun.offset + length <= |data| && length >= 2 {
      EventsFit(c, data, begun.offset, length, Word(data, begun.offset), 0, 2, begun);
    }
    var happened := EventBlock(c, data, length, begun);
    if happened.status == Success {
      ValuesFit(c, data, 0, happened.state);
    }
  }

  lemma {:induction false} ParsedFits(c: Config, data: seq<byte>, s: State)
    requires c.Valid() && Fits(s)
    ensures Fits(Parsed(c, data, s).state)
    decreases |data| - s.offset
  {
    hide Step, Fits;
    if s.offset + 3 <= |data| {
      StepFits(c, data, s);
      if Step(c, data, s).status == Success {
        ParsedFits(c, data, Step(c, data, s).state);
      }
    }
  }

  /** The table never outgrows its room, and every gas that is reported is in it. */
  lemma EveryRunFits(data: seq<byte>, mixes: seq<GasMix>)
    requires |mixes| <= MAX_GASMIXES
    ensures var r := Reported(data, mixes);
      mixes <= r.mixes && |r.mixes| <= MAX_GASMIXES && InRange(r.trace, |r.mixes|, 0)
  {
    hide Parsed, ConfigOf;
    var c := ConfigOf(data);
    if c.Ok? {
      ParsedFits(c.value, data, State(c.value.start, 0, 0, mixes, []));
    }
  }
}
