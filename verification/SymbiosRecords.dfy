/** What a Halcyon Symbios dive means, record by record, with every gas mix and tank looked
    up by plain linear search. */
module SymbiosRecords {
  import opened Bytes
  import opened Samples

  const UNDEFINED: nat := 0xFFFF_FFFF
  const GASMIX_UNKNOWN: nat := 0xFFFF_FFFF
  const NGASMIXES: nat := 10
  const NTANKS: nat := 10
  const TRANSMITTER_ID: nat := 0x1_0000

  const ID_HEADER: nat := 0x01
  const ID_GAS_SWITCH: nat := 0x02
  const ID_DEPTH: nat := 0x03
  const ID_TEMPERATURE: nat := 0x04
  const ID_GAS_TRANSMITTER: nat := 0x06
  const ID_PO2_BOARD: nat := 0x09
  const ID_DECO: nat := 0x0A
  const ID_FOOTER: nat := 0x0C
  const ID_PO2_REBREATHER: nat := 0x0D
  const ID_COMPASS: nat := 0x0E
  const ID_LOG_VERSION: nat := 0x0F
  const ID_GAS_CONFIG: nat := 0x11
  const ID_TANK_TRANSMITTER: nat := 0x12
  const ID_GF_INFO: nat := 0x13
  const ID_GF_DATA: nat := 0x15

  const LENGTHS: seq<nat> := [4, 64, 4, 4, 4, 4, 12, 68, 12, 8, 16, 4, 16, 12, 4, 4, 4, 8, 8, 6, 4, 8]

  const USAGE_NONE: nat := 0
  const USAGE_OXYGEN: nat := 1

  datatype GasMix = GasMix(id: nat, oxygen: nat, helium: nat)

  datatype Tank = Tank(id: nat, usage: nat, beginpressure: nat, endpressure: nat, gasmix: nat)

  datatype State = State(mixes: seq<GasMix>, tanks: seq<Tank>, gas: nat, interval: nat, time: nat,
                         haveTime: bool, haveDepth: bool, haveGasmix: bool, trace: seq<Sample>)

  const START := State([], [], UNDEFINED, 0, 0, false, false, false, [])

  /** How far parsing came, and how it ended there. */
  datatype Run = Run(status: Status, state: State)

  // ---------- Linear searches ----------

  /** The first mix with this id, or the size of the table. */
  function FindMix(table: seq<GasMix>, id: nat): (i: nat)
    ensures i <= |table| && (i < |table| ==> table[i].id == id)
    ensures forall j | 0 <= j < i :: table[j].id != id
  {
    if table == [] || table[0].id == id then 0
    else
      var i := FindMix(table[1..], id);
      assert forall j | 1 <= j < i + 1 :: table[j] == table[1..][j - 1];
      i + 1
  }

  /** The first entry equal to this mix, id included. */
  function FindSameMix(table: seq<GasMix>, mix: GasMix): (i: nat)
    ensures i <= |table| && (i < |table| ==> table[i] == mix)
    ensures forall j | 0 <= j < i :: table[j] != mix
  {
    if table == [] || table[0] == mix then 0
    else
      var i := FindSameMix(table[1..], mix);
      assert forall j | 1 <= j < i + 1 :: table[j] == table[1..][j - 1];
      i + 1
  }

  function FindTank(table: seq<Tank>, id: nat, usage: nat): (i: nat)
    ensures i <= |table| && (i < |table| ==> table[i].id == id && table[i].usage == usage)
    ensures forall j | 0 <= j < i :: table[j].id != id || table[j].usage != usage
  {
    if table == [] || (table[0].id == id && table[0].usage == usage) then 0
    else
      var i := FindTank(table[1..], id, usage);
      assert forall j | 1 <= j < i + 1 :: table[j] == table[1..][j - 1];
      i + 1
  }

  // ---------- Records ----------

  /** A record of the size that its type has. */
  predicate WellSized(kind: nat, r: seq<byte>) {
    |r| >= 2 && (kind < |LENGTHS| ==> |r| == LENGTHS[kind])
  }

  /** Early firmware wrote one type of record under the number of its successor. */
  function KindOf(kind: nat, length: nat): nat {
    if kind == ID_GF_DATA && length == LENGTHS[ID_GF_INFO] then ID_GF_INFO else kind
  }

  predicate IsConfig(kind: nat) {
    kind == ID_LOG_VERSION || kind == ID_HEADER || kind == ID_FOOTER
  }

  /** The clock advances at the first record that is not about the dive as a whole, and at
      every depth but the first. */
  function Ticked(s: State, kind: nat): State {
    if (!s.haveTime && !IsConfig(kind)) || (s.haveDepth && kind == ID_DEPTH) then
      var time := s.time + s.interval;
      s.(time := time, haveTime := true, trace := s.trace + [Time(time * 1000)])
    else s
  }

  function Reporting(s: State, sample: Sample): State {
    s.(trace := s.trace + [sample])
  }

  /** The gas mix in use, where one has been selected. */
  function CurrentMix(s: State): nat {
    if s.gas == UNDEFINED then GASMIX_UNKNOWN else FindMix(s.mixes, s.gas)
  }

  function GasSwitched(s: State, oxygen: nat, helium: nat): Run {
    var mix := GasMix(UNDEFINED, oxygen, helium);
    var i := FindSameMix(s.mixes, mix);
    if i < |s.mixes| then Run(Success, Reporting(s, Gas(i)))
    else if |s.mixes| >= NGASMIXES then Run(NoMemory, s)
    else Run(Success, Reporting(s.(mixes := s.mixes + [mix]), Gas(i)))
  }

  function GasConfigured(s: State, mix: GasMix): Run {
    if mix.oxygen == 0 && mix.helium == 0 then Run(Success, s)
    else
      var i := FindMix(s.mixes, mix.id);
      if i >= |s.mixes| then
        if |s.mixes| >= NGASMIXES then Run(NoMemory, s)
        else Run(Success, s.(mixes := s.mixes + [mix], haveGasmix := true))
      else if s.mixes[i].oxygen != mix.oxygen || s.mixes[i].helium != mix.helium then Run(DataFormat, s)
      else Run(Success, Reporting(s, Gas(i)))
  }

  /** Selecting a configured gas; reported when it changes. */
  function GasSelected(s: State, id: nat): Run {
    if !s.haveGasmix || s.gas == id then Run(Success, s)
    else
      var i := FindMix(s.mixes, id);
      if i >= |s.mixes| then Run(DataFormat, s) else Run(Success, Reporting(s.(gas := id), Gas(i)))
  }

  /** A pressure reading, which adds the tank the first time. */
  function PressureRead(s: State, id: nat, usage: nat, pressure: nat, mix: nat): Run {
    var i := FindTank(s.tanks, id, usage);
    if i >= |s.tanks| && |s.tanks| >= NTANKS then Run(NoMemory, s)
    else
      var tanks := if i < |s.tanks| then s.tanks else s.tanks + [Tank(id, usage, pressure, pressure, mix)];
      Run(Success, Reporting(s.(tanks := tanks[i := tanks[i].(endpressure := pressure)]), Pressure(i, pressure)))
  }

  function Ppo2Reported(s: State, r: seq<byte>, n: nat): State
    requires n <= 3 && |r| >= 5
  {
    if n == 0 then s else Reporting(Ppo2Reported(s, r, n - 1), Ppo2(n - 1, r[2 + n - 1]))
  }

  function Interpreted(s: State, kind: nat, r: seq<byte>): Run
    requires WellSized(kind, r)
  {
    if kind == ID_HEADER then Run(Success, s.(interval := r[10]))
    else if kind == ID_GAS_SWITCH then GasSwitched(s, r[2], r[3])
    else if kind == ID_DEPTH then Run(Success, Reporting(s, Depth(Word(r, 2))).(haveDepth := true))
    else if kind == ID_TEMPERATURE then Run(Success, Reporting(s, Temperature(Word(r, 2))))
    else if kind == ID_GAS_TRANSMITTER then
      var selected := GasSelected(s, r[2]);
      if selected.status != Success then selected
      else PressureRead(selected.state, Word(r, 8), USAGE_NONE, Word(r, 6), CurrentMix(selected.state))
    else if kind == ID_PO2_BOARD then Run(Success, Ppo2Reported(s, r, 3))
    else if kind == ID_DECO then
      var deco := if r[3] != 0 then DecoStop(r[3], 0, Word(r, 8)) else NoDeco(r[2] as int * 60, Word(r, 8));
      Run(Success, Reporting(Reporting(s, deco), Cns(r[4])))
    else if kind == ID_PO2_REBREATHER then
      PressureRead(Ppo2Reported(s, r, 3), Word(r, 10), USAGE_OXYGEN, Word(r, 8), GASMIX_UNKNOWN)
    else if kind == ID_COMPASS then Run(Success, Reporting(s, Bearing(Word(r, 2))))
    else if kind == ID_GAS_CONFIG then GasConfigured(s, GasMix(r[2], r[3], r[4]))
    else if kind == ID_TANK_TRANSMITTER then
      PressureRead(s, r[2] + TRANSMITTER_ID, USAGE_NONE, Word(r, 6) / 10, GASMIX_UNKNOWN)
    else Run(Success, s)
  }

  /** The record at an offset, or none if it does not fit. */
  function RecordAt(data: seq<byte>, offset: nat): (r: seq<byte>)
    requires offset + 2 <= |data|
    ensures r != [] ==> 2 <= |r| <= |data| - offset
  {
    var length := data[offset + 1];
    if length < 2 || offset + length > |data| then [] else data[offset..offset + length]
  }

  /** One record, with its checks. */
  function Step(s: State, r: seq<byte>): Run {
    if |r| < 2 then Run(DataFormat, s)
    else
      var kind := KindOf(r[0], |r|);
      if !WellSized(kind, r) then Run(DataFormat, s) else Interpreted(Ticked(s, kind), kind, r)
  }

  function Parsed(data: seq<byte>, offset: nat, s: State): Run
    decreases |data| - offset
  {
    if offset + 2 > |data| then Run(Success, s)
    else
      var r := RecordAt(data, offset);
      var next := Step(s, r);
      if r == [] || next.status != Success then next else Parsed(data, offset + |r|, next.state)
  }

  // ---------- What every run keeps ----------

  /** A tank shows the first and the last pressure reported for it; one that is not in the
      table yet has none. */
  ghost predicate TracksAt(tanks: seq<Tank>, trace: seq<Sample>, i: nat) {
    if i < |tanks| then Spans(tanks[i].beginpressure, tanks[i].endpressure, PressuresOf(trace, i))
    else PressuresOf(trace, i) == []
  }

  /** No tank is entered twice. */
  ghost predicate Distinct(tanks: seq<Tank>) {
    forall i, j | 0 <= i < j < |tanks| :: tanks[i].id != tanks[j].id || tanks[i].usage != tanks[j].usage
  }

  /** What holds of the tables and the samples after any number of records. */
  ghost predicate Sound(s: State) {
    && |s.mixes| <= NGASMIXES && |s.tanks| <= NTANKS
    && InRange(s.trace, |s.mixes|, |s.tanks|)
    && (forall i: nat :: TracksAt(s.tanks, s.trace, i))
    && Distinct(s.tanks)
    && (s.gas == UNDEFINED || FindMix(s.mixes, s.gas) < |s.mixes|)
    && (forall i | 0 <= i < |s.tanks| :: s.tanks[i].gasmix == GASMIX_UNKNOWN || s.tanks[i].gasmix < |s.mixes|)
  }

  /** Reporting anything but a pressure keeps the tanks in step with the trace. */
  lemma ReportingKeeps(s: State, sample: Sample)
    requires Sound(s) && !sample.Pressure? && (sample.Gas? ==> sample.index < |s.mixes|)
    ensures Sound(Reporting(s, sample))
  {
    hide FindMix, PressuresOf, Distinct;
    forall i: nat
      ensures TracksAt(s.tanks, s.trace + [sample], i)
    {
      PressuresMore(s.trace, sample, i);
      assert TracksAt(s.tanks, s.trace, i);
    }
  }

  lemma MixFoundStays(table: seq<GasMix>, mix: GasMix, id: nat)
    requires FindMix(table, id) < |table|
    ensures FindMix(table + [mix], id) == FindMix(table, id)
  {
    var i := FindMix(table, id);
    assert (table + [mix])[i] == table[i];
    assert forall j | 0 <= j < i :: (table + [mix])[j] == table[j];
  }

  lemma AddingMixKeeps(s: State, mix: GasMix)
    requires Sound(s) && |s.mixes| < NGASMIXES
    ensures Sound(s.(mixes := s.mixes + [mix]))
  {
    hide FindMix, TracksAt, Distinct;
    if s.gas != UNDEFINED {
      MixFoundStays(s.mixes, mix, s.gas);
    }
  }

  lemma PressureKeepsDistinct(s: State, id: nat, usage: nat, pressure: nat, mix: nat)
    requires Distinct(s.tanks)
    ensures Distinct(PressureRead(s, id, usage, pressure, mix).state.tanks)
  {
  }

  lemma PressureTracks(s: State, id: nat, usage: nat, pressure: nat, mix: nat, k: nat)
    requires TracksAt(s.tanks, s.trace, k) && TracksAt(s.tanks, s.trace, FindTank(s.tanks, id, usage))
    ensures var s' := PressureRead(s, id, usage, pressure, mix).state; TracksAt(s'.tanks, s'.trace, k)
  {
    hide FindTank, PressuresOf;
    PressuresMore(s.trace, Pressure(FindTank(s.tanks, id, usage), pressure), k);
  }

  lemma PressureKeeps(s: State, id: nat, usage: nat, pressure: nat, mix: nat)
    requires Sound(s) && (mix == GASMIX_UNKNOWN || mix < |s.mixes|)
    ensures Sound(PressureRead(s, id, usage, pressure, mix).state)
  {
    hide FindMix, FindTank, TracksAt, Distinct;
    var s' := PressureRead(s, id, usage, pressure, mix).state;
    PressureKeepsDistinct(s, id, usage, pressure, mix);
    forall k: nat
      ensures TracksAt(s'.tanks, s'.trace, k)
    {
      PressureTracks(s, id, usage, pressure, mix, k);
    }
  }

  lemma {:induction false} Ppo2Keeps(s: State, r: seq<byte>, n: nat)
    requires Sound(s) && n <= 3 && |r| >= 5
    ensures Sound(Ppo2Reported(s, r, n))
    decreases n
  {
    hide Sound;
    if n > 0 {
      Ppo2Keeps(s, r, n - 1);
      ReportingKeeps(Ppo2Reported(s, r, n - 1), Ppo2(n - 1, r[2 + n - 1]));
    }
  }

  lemma TickedKeeps(s: State, kind: nat)
    requires Sound(s)
    ensures Sound(Ticked(s, kind))
  {
    hide Sound;
    var s' := Ticked(s, kind);
    if s' != s {
      ReportingKeeps(s, Time(s'.time * 1000));
      SoundIgnoresClock(Reporting(s, Time(s'.time * 1000)), s');
    }
  }

  lemma SoundIgnoresClock(s: State, s': State)
    requires Sound(s) && s'.mixes == s.mixes && s'.tanks == s.tanks && s'.gas == s.gas && s'.trace == s.trace
    ensures Sound(s')
  {
    hide FindMix, TracksAt, Distinct, InRange;
  }

  lemma GasSwitchedKeeps(s: State, oxygen: nat, helium: nat)
    requires Sound(s)
    ensures Sound(GasSwitched(s, oxygen, helium).state)
  {
    hide Sound, FindSameMix;
    var mix := GasMix(UNDEFINED, oxygen, helium);
    var i := FindSameMix(s.mixes, mix);
    if i < |s.mixes| {
      ReportingKeeps(s, Gas(i));
    } else if |s.mixes| < NGASMIXES {
      AddingMixKeeps(s, mix);
      ReportingKeeps(s.(mixes := s.mixes + [mix]), Gas(i));
    }
  }

  lemma GasConfiguredKeeps(s: State, mix: GasMix)
    requires Sound(s)
    ensures Sound(GasConfigured(s, mix).state)
  {
    hide Sound, FindMix;
    var i := FindMix(s.mixes, mix.id);
    if i < |s.mixes| {
      ReportingKeeps(s, Gas(i));
    } else if |s.mixes| < NGASMIXES {
      AddingMixKeeps(s, mix);
      SoundIgnoresClock(s.(mixes := s.mixes + [mix]), s.(mixes := s.mixes + [mix], haveGasmix := true));
    }
  }

  lemma SelectingKeeps(s: State, id: nat)
    requires Sound(s) && FindMix(s.mixes, id) < |s.mixes|
    ensures Sound(s.(gas := id))
  {
    hide FindMix, TracksAt, Distinct, InRange;
  }

  lemma GasSelectedKeeps(s: State, id: nat)
    requires Sound(s)
    ensures Sound(GasSelected(s, id).state)
  {
    hide Sound, FindMix;
    var i := FindMix(s.mixes, id);
    if i < |s.mixes| {
      SelectingKeeps(s, id);
      ReportingKeeps(s.(gas := id), Gas(i));
    }
  }

  lemma CurrentMixFound(s: State)
    requires Sound(s)
    ensures CurrentMix(s) == GASMIX_UNKNOWN || CurrentMix(s) < |s.mixes|
  {
    hide FindMix, TracksAt, Distinct, InRange;
  }

  lemma InterpretedKeeps(s: State, kind: nat, r: seq<byte>)
    requires Sound(s) && WellSized(kind, r)
    ensures Sound(Interpreted(s, kind, r).state)
  {
    hide Sound, PressureRead, GasSelected, GasSwitched, GasConfigured, CurrentMix, Ppo2Reported, Reporting;
    if kind == ID_HEADER {
      SoundIgnoresClock(s, s.(interval := r[10]));
    } else if kind == ID_GAS_SWITCH {
      GasSwitchedKeeps(s, r[2], r[3]);
    } else if kind == ID_DEPTH {
      DepthKeeps(s, Word(r, 2));
    } else if kind == ID_TEMPERATURE {
      ReportingKeeps(s, Temperature(Word(r, 2)));
    } else if kind == ID_GAS_TRANSMITTER {
      GasSelectedKeeps(s, r[2]);
      var selected := GasSelected(s, r[2]).state;
      CurrentMixFound(selected);
      PressureKeeps(selected, Word(r, 8), USAGE_NONE, Word(r, 6), CurrentMix(selected));
    } else if kind == ID_PO2_BOARD {
      Ppo2Keeps(s, r, 3);
    } else if kind == ID_DECO {
      DecoKeeps(s, r);
    } else if kind == ID_PO2_REBREATHER {
      Ppo2Keeps(s, r, 3);
      PressureKeeps(Ppo2Reported(s, r, 3), Word(r, 10), USAGE_OXYGEN, Word(r, 8), GASMIX_UNKNOWN);
    } else if kind == ID_COMPASS {
      ReportingKeeps(s, Bearing(Word(r, 2)));
    } else if kind == ID_GAS_CONFIG {
      GasConfiguredKeeps(s, GasMix(r[2], r[3], r[4]));
    } else if kind == ID_TANK_TRANSMITTER {
      PressureKeeps(s, r[2] + TRANSMITTER_ID, USAGE_NONE, Word(r, 6) / 10, GASMIX_UNKNOWN);
    }
  }

  lemma DepthKeeps(s: State, depth: nat)
    requires Sound(s)
    ensures Sound(Reporting(s, Depth(depth)).(haveDepth := true))
  {
    hide Sound;
    ReportingKeeps(s, Depth(depth));
    SoundIgnoresClock(Reporting(s, Depth(depth)), Reporting(s, Depth(depth)).(haveDepth := true));
  }

  lemma DecoKeeps(s: State, r: seq<byte>)
    requires Sound(s) && WellSized(ID_DECO, r)
    ensures Sound(Interpreted(s, ID_DECO, r).state)
  {
    hide Sound;
    var deco := if r[3] != 0 then DecoStop(r[3], 0, Word(r, 8)) else NoDeco(r[2] as int * 60, Word(r, 8));
    ReportingKeeps(s, deco);
    ReportingKeeps(Reporting(s, deco), Cns(r[4]));
  }

  lemma {:induction false} ParsedKeeps(data: seq<byte>, offset: nat, s: State)
    requires Sound(s)
    ensures Sound(Parsed(data, offset, s).state)
    decreases |data| - offset
  {
    hide Sound, Interpreted, Ticked, KindOf, WellSized;
    if offset + 2 <= |data| {
      var r := RecordAt(data, offset);
      if |r| >= 2 {
        var kind := KindOf(r[0], |r|);
        if WellSized(kind, r) {
          TickedKeeps(s, kind);
          InterpretedKeeps(Ticked(s, kind), kind, r);
        }
        if Step(s, r).status == Success {
          ParsedKeeps(data, offset + |r|, Step(s, r).state);
        }
      }
    }
  }

  /** At the end of every dive, however it ended: the tables fit, every gas and tank index
      that was reported is in range, no tank is entered twice, and every tank shows the
      first and the last pressure that was reported for it. */
  lemma EveryDiveIsSound(data: seq<byte>)
    ensures Sound(Parsed(data, 0, START).state)
  {
    assert Sound(START);
    ParsedKeeps(data, 0, START);
  }
}
