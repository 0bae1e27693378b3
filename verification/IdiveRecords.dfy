/** What a DiveSystem iDive or iX3M dive means, record by record, with every gas mix and
    tank looked up by plain linear search. */
module IdiveRecords {
  import opened Bytes
  import opened Samples

  const INVALID: nat := 0xFFFF_FFFF
  const NGASMIXES: nat := 8
  const NTANKS: nat := 10

  const SZ_HEADER_IDIVE: nat := 0x32
  const SZ_SAMPLE_IDIVE: nat := 0x2A
  const SZ_HEADER_IX3M: nat := 0x36
  const SZ_SAMPLE_IX3M: nat := 0x36
  const SZ_SAMPLE_IX3M_APOS4: nat := 0x40

  const SCR: nat := 1
  const CCR: nat := 2
  const REC_SAMPLE: nat := 0

  datatype GasMix = GasMix(oxygen: nat, helium: nat)

  datatype Tank = Tank(id: nat, beginpressure: nat, endpressure: nat)

  predicate IsIx3m(model: nat) {
    model >= 0x21
  }

  function HeaderSize(model: nat): nat {
    if IsIx3m(model) then SZ_HEADER_IX3M else SZ_HEADER_IDIVE
  }

  /** How the records are laid out. */
  datatype Format = Format(ix3m: bool, apos4: bool, size: nat) {
    predicate Valid() {
      size == SZ_SAMPLE_IX3M_APOS4 || (size == SZ_SAMPLE_IX3M && !apos4) || (size == SZ_SAMPLE_IDIVE && !ix3m && !apos4)
    }
  }

  function FormatOf(model: nat, data: seq<byte>): (f: Format)
    requires |data| >= HeaderSize(model)
    ensures f.Valid()
  {
    if !IsIx3m(model) then Format(false, false, SZ_SAMPLE_IDIVE)
    else
      var firmware := U32(data[0x2A], data[0x2B], data[0x2C], data[0x2D]);
      var apos4 := firmware / 10000000 >= 4;
      var long := apos4 || |data| == HeaderSize(model) + U16(data[1], data[2]) * SZ_SAMPLE_IX3M_APOS4;
      Format(true, apos4, if long then SZ_SAMPLE_IX3M_APOS4 else SZ_SAMPLE_IX3M)
  }

  datatype State = State(time: nat, maxdepth: nat, mixes: seq<GasMix>, tanks: seq<Tank>, oxygen: nat, helium: nat,
                         haveBearing: bool, trace: seq<Sample>)

  const START := State(0, 0, [], [], INVALID, INVALID, false, [])

  datatype Run = Run(status: Status, state: State)

  function Reporting(s: State, sample: Sample): State {
    s.(trace := s.trace + [sample])
  }

  function Signed16(x: nat): int {
    if x < 0x8000 then x else x - 0x1_0000
  }

  /** The first mix like this one, or the size of the table. */
  function FindMix(table: seq<GasMix>, mix: GasMix): (i: nat)
    ensures i <= |table| && (i < |table| ==> table[i] == mix)
    ensures forall j | 0 <= j < i :: table[j] != mix
  {
    if table == [] || table[0] == mix then 0
    else
      var i := FindMix(table[1..], mix);
      assert forall j | 1 <= j < i + 1 :: table[j] == table[1..][j - 1];
      i + 1
  }

  function FindTank(table: seq<Tank>, id: nat): (i: nat)
    ensures i <= |table| && (i < |table| ==> table[i].id == id)
    ensures forall j | 0 <= j < i :: table[j].id != id
  {
    if table == [] || table[0].id == id then 0
    else
      var i := FindTank(table[1..], id);
      assert forall j | 1 <= j < i + 1 :: table[j] == table[1..][j - 1];
      i + 1
  }

  // ---------- One record ----------

  function Clocked(s: State, r: seq<byte>): Run
    requires |r| >= SZ_SAMPLE_IDIVE
  {
    var time := U32(r[2], r[3], r[4], r[5]);
    if time <= s.time && s.time != 0 then Run(DataFormat, s)
    else
      var depth := Word(r, 6);
      var s1 := s.(time := time, maxdepth := if s.maxdepth < depth then depth else s.maxdepth);
      var s2 := Reporting(Reporting(Reporting(s1, Time(time * 1000)), Depth(depth)), Temperature(Signed16(Word(r, 8))));
      Run(Success, if r[18] == SCR || r[18] == CCR then Reporting(s2, Setpoint(Word(r, 19))) else s2)
  }

  /** The gas breathed, reported when it changes. */
  function GasBreathed(s: State, mix: GasMix): Run {
    if s.oxygen == mix.oxygen && s.helium == mix.helium then Run(Success, s)
    else
      var i := FindMix(s.mixes, mix);
      if i >= |s.mixes| && i >= NGASMIXES then Run(DataFormat, s)
      else
        var mixes := if i < |s.mixes| then s.mixes else s.mixes + [mix];
        Run(Success, Reporting(s.(mixes := mixes, oxygen := mix.oxygen, helium := mix.helium), Gas(i)))
  }

  function DecoReported(s: State, f: Format, r: seq<byte>): State
    requires |r| >= SZ_SAMPLE_IDIVE
  {
    var stop := Word(r, 21);
    var time := if f.apos4 then Word(r, 23) else 0;
    var tts := if f.apos4 then Word(r, 25) else Word(r, 23);
    Reporting(Reporting(s, if stop != 0 then DecoStop(stop, time, tts) else NoDeco(tts, 0)), Cns(Word(r, 29)))
  }

  /** A pressure reading. A tank is entered at its first pressure that is not zero; until
      then its readings are dropped. */
  function PressureRead(s: State, id: nat, pressure: nat): Run {
    var i := FindTank(s.tanks, id);
    if i >= |s.tanks| && pressure == 0 then Run(Success, s)
    else if i >= |s.tanks| && i >= NTANKS then Run(DataFormat, s)
    else
      var tanks := if i < |s.tanks| then s.tanks else s.tanks + [Tank(id, pressure, pressure)];
      Run(Success, Reporting(s.(tanks := tanks[i := tanks[i].(endpressure := pressure)]), Pressure(i, pressure)))
  }

  function TransmitterRead(s: State, r: seq<byte>): Run
    requires |r| >= SZ_SAMPLE_IX3M_APOS4
  {
    var flags := r[47];
    var pressure := if flags / 0x20 % 2 == 1 then r[49] as int * 2 else r[49];
    if flags / 0x80 % 2 == 1 then Run(Success, s)
    else if flags / 0x40 % 2 == 1 then Run(Success, Reporting(s, TransmitterLost))
    else PressureRead(s, flags % 0x10, pressure)
  }

  /** Bearings count from the first one that is not zero. */
  function BearingRead(s: State, bearing: nat): State {
    var s' := s.(haveBearing := s.haveBearing || bearing != 0);
    if s'.haveBearing && bearing != 0xFFFF then Reporting(s', Bearing(bearing)) else s'
  }

  function Step(f: Format, s: State, r: seq<byte>): Run
    requires f.Valid() && |r| == f.size
  {
    if f.ix3m && Word(r, 52) != REC_SAMPLE then Run(Success, s)
    else
      var clocked := Clocked(s, r);
      if clocked.status != Success then clocked
      else
        var breathed := GasBreathed(clocked.state, GasMix(r[10], r[11]));
        if breathed.status != Success then breathed
        else
          var s' := DecoReported(breathed.state, f, r);
          if f.size != SZ_SAMPLE_IX3M_APOS4 then Run(Success, s')
          else
            var read := TransmitterRead(s', r);
            if read.status != Success then read else Run(Success, BearingRead(read.state, Word(r, 50)))
  }

  function Parsed(f: Format, data: seq<byte>, offset: nat, s: State): Run
    requires f.Valid()
    decreases |data| - offset
  {
    if offset + f.size > |data| then Run(Success, s)
    else
      var next := Step(f, s, data[offset..offset + f.size]);
      if next.status != Success then next else Parsed(f, data, offset + f.size, next.state)
  }

  // ---------- What every run keeps ----------

  /** A tank shows the first and the last pressure reported for it, and it was not empty at
      the first; a tank that is not in the table has none. */
  ghost predicate TracksAt(tanks: seq<Tank>, trace: seq<Sample>, i: nat) {
    if i < |tanks| then
      Spans(tanks[i].beginpressure, tanks[i].endpressure, PressuresOf(trace, i)) && tanks[i].beginpressure != 0
    else PressuresOf(trace, i) == []
  }

  ghost predicate Distinct(mixes: seq<GasMix>, tanks: seq<Tank>) {
    && (forall i, j | 0 <= i < j < |mixes| :: mixes[i] != mixes[j])
    && (forall i, j | 0 <= i < j < |tanks| :: tanks[i].id != tanks[j].id)
  }

  /** Times increase, except that the first of them may be zero more than once. */
  ghost predicate Clockwise(trace: seq<Sample>, time: nat) {
    && (forall i | 0 <= i < |trace| && trace[i].Time? :: trace[i].ms <= time * 1000)
    && (forall i, j | 0 <= i < j < |trace| && trace[i].Time? && trace[j].Time? ::
          trace[i].ms == 0 || trace[i].ms < trace[j].ms)
  }

  ghost predicate Sound(s: State) {
    && |s.mixes| <= NGASMIXES && |s.tanks| <= NTANKS
    && InRange(s.trace, |s.mixes|, |s.tanks|)
    && (forall i: nat :: TracksAt(s.tanks, s.trace, i))
    && Distinct(s.mixes, s.tanks)
    && Clockwise(s.trace, s.time)
  }

  lemma ReportingKeeps(s: State, sample: Sample)
    requires Sound(s) && !sample.Pressure? && !sample.Time? && (sample.Gas? ==> sample.index < |s.mixes|)
    ensures Sound(Reporting(s, sample))
  {
    hide PressuresOf, Distinct;
    forall i: nat
      ensures TracksAt(s.tanks, s.trace + [sample], i)
    {
      PressuresMore(s.trace, sample, i);
      assert TracksAt(s.tanks, s.trace, i);
    }
  }

  lemma ClockKeeps(s: State, time: nat, maxdepth: nat)
    requires Sound(s) && (time > s.time || s.time == 0)
    ensures Sound(Reporting(s.(time := time, maxdepth := maxdepth), Time(time * 1000)))
  {
    hide PressuresOf, Distinct;
    forall i: nat
      ensures TracksAt(s.tanks, s.trace + [Time(time * 1000)], i)
    {
      PressuresMore(s.trace, Time(time * 1000), i);
      assert TracksAt(s.tanks, s.trace, i);
    }
  }

  lemma SoundIgnores(s: State, s': State)
    requires Sound(s) && s'.mixes == s.mixes && s'.tanks == s.tanks && s'.trace == s.trace && s'.time == s.time
    ensures Sound(s')
  {
    hide TracksAt, Distinct, InRange, Clockwise;
  }

  lemma GasKeeps(s: State, mix: GasMix)
    requires Sound(s)
    ensures Sound(GasBreathed(s, mix).state)
  {
    hide TracksAt, InRange, Clockwise, FindMix;
    if s.oxygen != mix.oxygen || s.helium != mix.helium {
      var i := FindMix(s.mixes, mix);
      if i < |s.mixes| {
        SoundIgnores(s, s.(oxygen := mix.oxygen, helium := mix.helium));
        ReportingKeeps(s.(oxygen := mix.oxygen, helium := mix.helium), Gas(i));
      } else if i < NGASMIXES {
        MixKeeps(s, mix);
        ReportingKeeps(s.(mixes := s.mixes + [mix], oxygen := mix.oxygen, helium := mix.helium), Gas(i));
      }
    }
  }

  lemma MixKeeps(s: State, mix: GasMix)
    requires Sound(s) && FindMix(s.mixes, mix) == |s.mixes| < NGASMIXES
    ensures Sound(s.(mixes := s.mixes + [mix], oxygen := mix.oxygen, helium := mix.helium))
  {
    hide TracksAt, Clockwise;
  }

  lemma PressureTracks(s: State, id: nat, pressure: nat, k: nat)
    requires TracksAt(s.tanks, s.trace, k) && TracksAt(s.tanks, s.trace, FindTank(s.tanks, id))
    ensures var s' := PressureRead(s, id, pressure).state; TracksAt(s'.tanks, s'.trace, k)
  {
    hide FindTank, PressuresOf;
    PressuresMore(s.trace, Pressure(FindTank(s.tanks, id), pressure), k);
  }

  lemma PressureKeepsDistinct(s: State, id: nat, pressure: nat)
    requires Distinct(s.mixes, s.tanks)
    ensures Distinct(s.mixes, PressureRead(s, id, pressure).state.tanks)
  {
  }

  lemma PressureKeeps(s: State, id: nat, pressure: nat)
    requires Sound(s)
    ensures Sound(PressureRead(s, id, pressure).state)
  {
    hide FindTank, TracksAt, Distinct;
    var s' := PressureRead(s, id, pressure).state;
    PressureKeepsDistinct(s, id, pressure);
    forall k: nat
      ensures TracksAt(s'.tanks, s'.trace, k)
    {
      PressureTracks(s, id, pressure, k);
    }
  }

  lemma ClockedKeeps(s: State, r: seq<byte>)
    requires Sound(s) && |r| >= SZ_SAMPLE_IDIVE
    ensures Sound(Clocked(s, r).state)
  {
    hide Sound, Reporting;
    var time, depth := U32(r[2], r[3], r[4], r[5]), Word(r, 6);
    if !(time <= s.time && s.time != 0) {
      var s1 := s.(time := time, maxdepth := if s.maxdepth < depth then depth else s.maxdepth);
      ClockKeeps(s, time, s1.maxdepth);
      var s2 := Reporting(s1, Time(time * 1000));
      ReportingKeeps(s2, Depth(depth));
      var s3 := Reporting(s2, Depth(depth));
      ReportingKeeps(s3, Temperature(Signed16(Word(r, 8))));
      ReportingKeeps(Reporting(s3, Temperature(Signed16(Word(r, 8)))), Setpoint(Word(r, 19)));
    }
  }

  lemma DecoKeeps(s: State, f: Format, r: seq<byte>)
    requires Sound(s) && |r| >= SZ_SAMPLE_IDIVE
    ensures Sound(DecoReported(s, f, r))
  {
    hide Sound, Word, Reporting;
    var stop := Word(r, 21);
    var time := if f.apos4 then Word(r, 23) else 0;
    var tts := if f.apos4 then Word(r, 25) else Word(r, 23);
    var deco := if stop != 0 then DecoStop(stop, time, tts) else NoDeco(tts, 0);
    ReportingKeeps(s, deco);
    ReportingKeeps(Reporting(s, deco), Cns(Word(r, 29)));
  }

  lemma BearingKeeps(s: State, bearing: nat)
    requires Sound(s)
    ensures Sound(BearingRead(s, bearing))
  {
    hide Sound;
    var s' := s.(haveBearing := s.haveBearing || bearing != 0);
    SoundIgnores(s, s');
    ReportingKeeps(s', Bearing(bearing));
  }

  lemma StepKeeps(f: Format, s: State, r: seq<byte>)
    requires f.Valid() && |r| == f.size && Sound(s)
    ensures Sound(Step(f, s, r).state)
  {
    hide Sound, Clocked, GasBreathed, DecoReported, PressureRead, BearingRead;
    ClockedKeeps(s, r);
    var clocked := Clocked(s, r).state;
    GasKeeps(clocked, GasMix(r[10], r[11]));
    var breathed := GasBreathed(clocked, GasMix(r[10], r[11])).state;
    DecoKeeps(breathed, f, r);
    if f.size == SZ_SAMPLE_IX3M_APOS4 {
      var s' := DecoReported(breathed, f, r);
      TransmitterKeeps(s', r);
      BearingKeeps(TransmitterRead(s', r).state, Word(r, 50));
    }
  }

  lemma TransmitterKeeps(s: State, r: seq<byte>)
    requires Sound(s) && |r| >= SZ_SAMPLE_IX3M_APOS4
    ensures Sound(TransmitterRead(s, r).state)
  {
    hide Sound, PressureRead;
    var pressure := if r[47] / 0x20 % 2 == 1 then r[49] as int * 2 else r[49];
    PressureKeeps(s, r[47] % 0x10, pressure);
    ReportingKeeps(s, TransmitterLost);
  }

  lemma {:induction false} ParsedKeeps(f: Format, data: seq<byte>, offset: nat, s: State)
    requires f.Valid() && Sound(s)
    ensures Sound(Parsed(f, data, offset, s).state)
    decreases |data| - offset
  {
    hide Sound, Step;
    if offset + f.size <= |data| {
      var r := data[offset..offset + f.size];
      StepKeeps(f, s, r);
      if Step(f, s, r).status == Success {
        ParsedKeeps(f, data, offset + f.size, Step(f, s, r).state);
      }
    }
  }

  /** At the end of every dive, however it ended: the tables fit and hold nothing twice,
      indices are in range, times go forward, and every tank shows the first and the last
      pressure reported for it. */
  lemma EveryDiveIsSound(f: Format, data: seq<byte>, offset: nat)
    requires f.Valid()
    ensures Sound(Parsed(f, data, offset, START).state)
  {
    hide Parsed;
    assert Sound(START);
    ParsedKeeps(f, data, offset, START);
  }
}
