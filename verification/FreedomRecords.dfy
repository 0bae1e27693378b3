/** The dive format of the Divesoft Freedom: what one record adds to the tables that the
    first pass builds, and what it makes the second pass report. */
module FreedomRecords {
  import opened Bytes
  import opened Samples

  const UNDEFINED: nat := 0xFFFF_FFFF
  const RECORD_SIZE: nat := 16
  const NGASMIXES: nat := 12
  const NTANKS: nat := 12
  const NSENSORS: nat := 4

  const OC: nat := 0
  const OXYGEN: nat := 1
  const DILUENT: nat := 2

  const LREC_POINT: nat := 0
  const LREC_MANIPULATION: nat := 1
  const LREC_ACTIVITY: nat := 5
  const LREC_CONFIGURATION: nat := 6
  const LREC_MEASURE: nat := 7
  const LREC_INFO: nat := 9

  const CFG_ID_OXYGEN_CALIBRATION: nat := 2
  const CFG_ID_AI: nat := 7
  const CFG_ID_DILUENTS: nat := 9

  const MEASURE_ID_OXYGEN: nat := 0
  const MEASURE_ID_OXYGEN_MV: nat := 3
  const MEASURE_ID_AI_PRESSURE: nat := 7

  const POINT_1: nat := 0
  const POINT_1_OLD: nat := 0x3FF

  const EVENT_SETPOINT_MANUAL: nat := 1
  const EVENT_SETPOINT_AUTO: nat := 2
  const EVENT_MIX_CHANGED: nat := 5
  const EVENT_DILUENT: nat := 23
  const EVENT_CHANGE_MODE: nat := 24
  const EVENT_BOOKMARK: nat := 26
  const EVENT_CNS: nat := 30
  const EVENT_WAYPOINT: nat := 55

  const SENSTAT_UNCALIBRATED: nat := 4
  const SENSTAT_NOT_EXIST: nat := 8

  datatype GasMix = GasMix(oxygen: nat, helium: nat, kind: nat, id: nat)

  datatype Tank = Tank(volume: nat, workpressure: nat, beginpressure: nat, endpressure: nat, transmitter: nat,
                       active: bool)

  // ---------- Records ----------

  type Record = r: seq<byte> | |r| == RECORD_SIZE witness seq(16, _ => 0)

  predicate IsEmpty(r: Record) {
    forall i | 0 <= i < RECORD_SIZE :: r[i] == 0xFF
  }

  /** A record begins with four bits of type, seventeen of time and ten of identifier. */
  function TypeOf(r: Record): nat {
    r[0] % 0x10
  }

  function TimeOf(r: Record): (t: nat)
    ensures t < 0x2_0000
  {
    var a: nat, b: nat, c: nat := r[0], r[1], r[2];
    a / 0x10 + 0x10 * b + 0x1000 * (c % 0x20)
  }

  function IdOf(r: Record): nat {
    var c: nat, d: nat := r[2], r[3];
    c / 0x20 + 8 * (d % 0x80)
  }

  /** These are the fields of the little-endian word at its front. */
  lemma FieldsOfFlags(r: Record)
    ensures var flags := U32(r[0], r[1], r[2], r[3]);
      && TypeOf(r) == flags % 0x10
      && TimeOf(r) == flags / 0x10 % 0x2_0000
      && IdOf(r) == flags / 0x20_0000 % 0x400
  {
    var a: nat, b: nat, c: nat, d: nat := r[0], r[1], r[2], r[3];
    var flags := a + 0x100 * b + 0x1_0000 * c + 0x100_0000 * d;
    var later, last := a / 0x10 + 0x10 * b + 0x1000 * c + 0x10_0000 * d, c / 0x20 + 8 * d;
    Quotient(flags, 0x10, later, a % 0x10);
    Quotient(later, 0x2_0000, last, TimeOf(r));
    Quotient(flags, 0x20_0000, last, a + 0x100 * b + 0x1_0000 * (c % 0x20));
    Quotient(last, 0x400, d / 0x80, IdOf(r));
  }

  function Long(r: Record, i: nat): nat
    requires i + 3 < RECORD_SIZE
  {
    U32(r[i], r[i + 1], r[i + 2], r[i + 3])
  }

  predicate IsConfiguration(r: Record, id: nat) {
    !IsEmpty(r) && TypeOf(r) == LREC_CONFIGURATION && IdOf(r) == id
  }

  predicate IsEvent(r: Record) {
    !IsEmpty(r) && (LREC_MANIPULATION <= TypeOf(r) <= LREC_ACTIVITY || TypeOf(r) == LREC_INFO)
  }

  predicate IsPressure(r: Record) {
    !IsEmpty(r) && TypeOf(r) == LREC_MEASURE && IdOf(r) == MEASURE_ID_AI_PRESSURE
  }

  function EventOf(r: Record): nat {
    Word(r, 4)
  }

  /** An event that names the gas breathed from here on. */
  predicate IsGasChange(r: Record) {
    && IsEvent(r)
    && (EventOf(r) == EVENT_MIX_CHANGED || EventOf(r) == EVENT_DILUENT || EventOf(r) == EVENT_CHANGE_MODE)
  }

  predicate IsCcr(divemode: nat) {
    // CCR, MCCR, ASCR, PSCR and BOCCR.
    divemode == 2 || divemode == 3 || divemode == 6 || divemode == 7 || divemode == 8
  }

  /** The mix that a gas change names. */
  function MixOf(r: Record): GasMix {
    var diluent := EventOf(r) == EVENT_DILUENT || (EventOf(r) == EVENT_CHANGE_MODE && IsCcr(r[8]));
    GasMix(r[6], r[7], if diluent then DILUENT else OC, UNDEFINED)
  }

  predicate HasPressure(r: Record, i: nat)
    requires i < NTANKS
  {
    r[4 + i] != 0 && r[4 + i] != 0xFF
  }

  // ---------- Linear searches ----------

  predicate SameMix(a: GasMix, b: GasMix) {
    a.oxygen == b.oxygen && a.helium == b.helium && a.kind == b.kind
  }

  /** The first mix in a table that equals this one but for its id, or the table's size. */
  function FindGasMix(table: seq<GasMix>, mix: GasMix): (i: nat)
    ensures i <= |table| && (i < |table| ==> SameMix(table[i], mix))
    ensures forall j | 0 <= j < i :: !SameMix(table[j], mix)
  {
    if table == [] || SameMix(table[0], mix) then 0
    else
      var i := FindGasMix(table[1..], mix);
      assert forall j | 1 <= j < i + 1 :: table[j] == table[1..][j - 1];
      i + 1
  }

  function FindTank(table: seq<Tank>, transmitter: nat): (i: nat)
    ensures i <= |table| && (i < |table| ==> table[i].transmitter == transmitter)
    ensures forall j | 0 <= j < i :: table[j].transmitter != transmitter
  {
    if table == [] || table[0].transmitter == transmitter then 0
    else
      var i := FindTank(table[1..], transmitter);
      assert forall j | 1 <= j < i + 1 :: table[j] == table[1..][j - 1];
      i + 1
  }

  // ---------- The first pass ----------

  datatype Tables = Tables(ai: seq<GasMix>, diluents: seq<GasMix>, events: seq<GasMix>, tanks: seq<Tank>,
                           previous: nat, calibration: seq<nat>, calibrated: bool)

  const NO_TABLES := Tables([], [], [], [], UNDEFINED, [0, 0, 0, 0], false)

  /** The diluents of a record, of which there are up to four. */
  function WithDiluents(mixes: seq<GasMix>, r: Record, n: nat): Outcome<seq<GasMix>>
    requires n <= 4
  {
    if n == 0 then Ok(mixes)
    else
      var before := WithDiluents(mixes, r, n - 1);
      var i := 4 + (n - 1) * 3;
      if before.Failed? || r[i + 2] % 2 == 0 then before
      else if |before.value| >= NGASMIXES then Failed(NoMemory)
      else Ok(before.value + [GasMix(r[i], r[i + 1], DILUENT, r[i + 2] / 2)])
  }

  /** The number of a mix, corrected for firmware that counts the mixes of a rebreather
      from zero again. */
  function MixIdOf(r: Record, previous: nat): nat {
    if r[11] < 10 && r[11] <= previous && previous != UNDEFINED then r[11] + 10 else r[11]
  }

  function AiMixOf(r: Record, previous: nat): GasMix {
    var id := MixIdOf(r, previous);
    GasMix(r[4], r[5], if id == 10 then OXYGEN else if id == 11 then DILUENT else OC, id)
  }

  function TankOf(r: Record): Tank {
    Tank(Word(r, 6), Word(r, 8), 0, 0, r[10], false)
  }

  /** An air integration record: one mix and one tank. */
  function WithAi(t: Tables, r: Record): Outcome<Tables> {
    if |t.ai| >= NGASMIXES || |t.tanks| >= NTANKS then Failed(NoMemory)
    else
      Ok(t.(ai := t.ai + [AiMixOf(r, t.previous)], tanks := t.tanks + [TankOf(r)],
            previous := MixIdOf(r, t.previous)))
  }

  /** A mix is added to a table unless it is there already. */
  function WithMix(table: seq<GasMix>, mix: GasMix): Outcome<seq<GasMix>> {
    if FindGasMix(table, mix) < |table| then Ok(table)
    else if |table| >= NGASMIXES then Failed(NoMemory)
    else Ok(table + [mix])
  }

  function WithReading(tank: Tank, pressure: nat): Tank {
    if tank.active then tank.(endpressure := pressure)
    else tank.(active := true, beginpressure := pressure, endpressure := pressure)
  }

  /** The pressures of the first `n` transmitters. */
  function WithPressures(tanks: seq<Tank>, r: Record, n: nat): Outcome<seq<Tank>>
    requires n <= NTANKS
  {
    if n == 0 then Ok(tanks)
    else
      var before := WithPressures(tanks, r, n - 1);
      if before.Failed? || !HasPressure(r, n - 1) then before
      else
        var i := FindTank(before.value, n - 1);
        if i >= |before.value| then Failed(DataFormat)
        else Ok(before.value[i := WithReading(before.value[i], r[4 + n - 1])])
  }

  /** What one record adds to the tables. */
  function WithRecord(t: Tables, r: Record): Outcome<Tables> {
    if IsConfiguration(r, CFG_ID_DILUENTS) then
      var mixes := WithDiluents(t.diluents, r, 4);
      if mixes.Failed? then Failed(mixes.status) else Ok(t.(diluents := mixes.value))
    else if IsConfiguration(r, CFG_ID_OXYGEN_CALIBRATION) then
      Ok(t.(calibration := [Word(r, 4), Word(r, 6), Word(r, 8), Word(r, 10)], calibrated := true))
    else if IsConfiguration(r, CFG_ID_AI) then WithAi(t, r)
    else if IsGasChange(r) then
      var mixes := WithMix(t.events, MixOf(r));
      if mixes.Failed? then Failed(mixes.status) else Ok(t.(events := mixes.value))
    else if IsPressure(r) then
      var tanks := WithPressures(t.tanks, r, NTANKS);
      if tanks.Failed? then Failed(tanks.status) else Ok(t.(tanks := tanks.value))
    else Ok(t)
  }

  function Collected(rs: seq<Record>): Outcome<Tables> {
    if rs == [] then Ok(NO_TABLES)
    else
      var before := Collected(rs[..|rs| - 1]);
      if before.Failed? then before else WithRecord(before.value, rs[|rs| - 1])
  }

  function WithMixes(table: seq<GasMix>, mixes: seq<GasMix>): Outcome<seq<GasMix>> {
    if mixes == [] then Ok(table)
    else
      var before := WithMixes(table, mixes[..|mixes| - 1]);
      if before.Failed? then before else WithMix(before.value, mixes[|mixes| - 1])
  }

  /** What the header says about the gas at the start. */
  datatype Header = Header(version: nat, size: nat, divetime: nat, divemode: nat, oxygen: nat, helium: nat)

  predicate HasInitialDiluent(h: Header) {
    IsCcr(h.divemode) && (h.oxygen != 0 || h.helium != 0)
  }

  function InitialDiluent(h: Header): GasMix {
    GasMix(h.oxygen, h.helium, DILUENT, UNDEFINED)
  }

  /** What the first pass leaves for the second. */
  datatype Cache = Cache(gasmixes: seq<GasMix>, diluent: nat, tanks: seq<Tank>, calibration: seq<nat>, calibrated: bool)

  /** The tables put together: mixes of the tanks first, then those of the diluent
      records, the initial diluent, and those of the gas changes, each only once. */
  function Merged(h: Header, t: Tables): Outcome<Cache> {
    var tabled := WithMixes(t.ai, t.diluents);
    if tabled.Failed? then Failed(tabled.status)
    else
      var started := if HasInitialDiluent(h) then WithMix(tabled.value, InitialDiluent(h)) else tabled;
      if started.Failed? then Failed(started.status)
      else
        var diluent := if HasInitialDiluent(h) then FindGasMix(tabled.value, InitialDiluent(h)) else UNDEFINED;
        var all := WithMixes(started.value, t.events);
        if all.Failed? then Failed(all.status)
        else Ok(Cache(all.value, diluent, t.tanks, t.calibration, t.calibrated))
  }

  function Cached(h: Header, rs: seq<Record>): Outcome<Cache> {
    var tables := Collected(rs);
    if tables.Failed? then Failed(tables.status) else Merged(h, tables.value)
  }

  // ---------- The second pass ----------

  function SignExtend10(x: nat): int
    requires x < 0x400
  {
    if x < 0x200 then x else x - 0x400
  }

  /** The samples of a general log record. */
  function PointSamples(r: Record): seq<Sample> {
    var misc := Long(r, 8);
    var tts := misc / 0x400 % 0x400 * 60;
    [Depth(Word(r, 4))]
    + (if Word(r, 6) != 0 then [Ppo2(SENSOR_NONE, Word(r, 6))] else [])
    + (if IdOf(r) != POINT_1 && IdOf(r) != POINT_1_OLD then []
       else
         [Temperature(SignExtend10(misc / 0x10_0000 % 0x400)),
          if Word(r, 12) != 0 then DecoStop(Word(r, 12), 0, tts) else NoDeco(misc % 0x400 * 60, tts)]
         + (if r[15] != 0 then [Setpoint(r[15])] else []))
  }

  /** What a record makes the parser report, and whether it can go on. */
  datatype Report = Report(status: Status, samples: seq<Sample>)

  function PressureSamples(c: Cache, r: Record, n: nat): Report
    requires n <= NTANKS
  {
    if n == 0 then Report(Success, [])
    else
      var before := PressureSamples(c, r, n - 1);
      if before.status != Success || !HasPressure(r, n - 1) then before
      else
        var i := FindTank(c.tanks, n - 1);
        if i >= |c.tanks| then before.(status := DataFormat)
        else before.(samples := before.samples + [Pressure(i, r[4 + n - 1])])
  }

  function OxygenSamples(r: Record, n: nat): seq<Sample>
    requires n <= NSENSORS
  {
    if n == 0 then []
    else
      var ppo2 := Word(r, 4 + (n - 1) * 2);
      OxygenSamples(r, n - 1) + if ppo2 == 0 || ppo2 == 0xFFFF then [] else [Ppo2(n - 1, ppo2)]
  }

  function VoltageSamples(c: Cache, r: Record, n: nat): seq<Sample>
    requires n <= NSENSORS == |c.calibration|
  {
    if n == 0 then []
    else
      var state := r[12 + n - 1];
      var skip := !c.calibrated || c.calibration[n - 1] == 0
                  || state == SENSTAT_UNCALIBRATED || state == SENSTAT_NOT_EXIST;
      VoltageSamples(c, r, n - 1) + if skip then [] else [Ppo2Mv(n - 1, Word(r, 4 + (n - 1) * 2), c.calibration[n - 1])]
  }

  /** The samples of one record that is not skipped. */
  function RecordSamples(c: Cache, r: Record): Report
    requires |c.calibration| == NSENSORS && !IsEmpty(r)
  {
    if TypeOf(r) == LREC_POINT then Report(Success, PointSamples(r))
    else if IsEvent(r) then
      if EventOf(r) == EVENT_BOOKMARK then Report(Success, [Bookmark])
      else if IsGasChange(r) then
        var i := FindGasMix(c.gasmixes, MixOf(r));
        if i >= |c.gasmixes| then Report(DataFormat, []) else Report(Success, [Gas(i)])
      else if EventOf(r) == EVENT_CNS then Report(Success, [Cns(Word(r, 6))])
      else if EventOf(r) == EVENT_SETPOINT_MANUAL || EventOf(r) == EVENT_SETPOINT_AUTO then
        Report(Success, [Setpoint(r[6])])
      else if EventOf(r) == EVENT_WAYPOINT && Word(r, 8) < 0x8000 then Report(Success, [Bearing(Word(r, 8))])
      else Report(Success, [])
    else if IsPressure(r) then PressureSamples(c, r, NTANKS)
    else if TypeOf(r) == LREC_MEASURE && IdOf(r) == MEASURE_ID_OXYGEN then Report(Success, OxygenSamples(r, NSENSORS))
    else if TypeOf(r) == LREC_MEASURE && IdOf(r) == MEASURE_ID_OXYGEN_MV then
      Report(Success, VoltageSamples(c, r, NSENSORS))
    else Report(Success, [])
  }

  /** How far the second pass has come: whether it can go on, the current time, whether a
      record has been reported yet, and the samples so far. */
  datatype Pass = Pass(status: Status, time: nat, initial: bool, trace: seq<Sample>)

  const NEW_PASS := Pass(Success, UNDEFINED, false, [])

  function Reported(c: Cache, p: Pass, r: Record): Pass
    requires |c.calibration| == NSENSORS
  {
    if IsEmpty(r) then p
    else if TimeOf(r) < p.time && p.time != UNDEFINED then
      if p.time - TimeOf(r) > 5 then p.(status := DataFormat) else p
    else
      var times := if TimeOf(r) != p.time then [Time(TimeOf(r) * 1000)] else [];
      var gases := if !p.initial && c.diluent != UNDEFINED then [Gas(c.diluent)] else [];
      var report := RecordSamples(c, r);
      Pass(report.status, TimeOf(r), true, p.trace + times + gases + report.samples)
  }

  function Played(c: Cache, rs: seq<Record>): Pass
    requires |c.calibration| == NSENSORS
  {
    if rs == [] then NEW_PASS
    else
      var before := Played(c, rs[..|rs| - 1]);
      if before.status != Success then before else Reported(c, before, rs[|rs| - 1])
  }
}
