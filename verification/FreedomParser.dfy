/** The Divesoft Freedom parser as the library runs it: a first pass that fills tables and
    caches them, and a second one that reports samples by them. */
module FreedomParser {
  import opened Bytes
  import opened Samples
  import opened FreedomRecords
  import FreedomGuarantees
  import Checksum
  import CrcTheory
  import CrcGuarantees

  const HEADER_SIGNATURE_V1: nat := 0x4576_6944
  const HEADER_SIGNATURE_V2: nat := 0x4556_6944
  const HEADER_SIZE_V1: nat := 32
  const HEADER_SIZE_V2: nat := 64

  function HeaderCrc(data: seq<byte>): nat {
    Number16(Checksum.ReflectedCrc16(Checksum.ANSI, 0xFFFF, Octets(data)))
  }

  function LongAt(data: seq<byte>, i: nat): nat
    requires i + 3 < |data|
  {
    U32(data[i], data[i + 1], data[i + 2], data[i + 3])
  }

  /** The header, once its signature, size and check are right. */
  function HeaderOf(data: seq<byte>): (o: Outcome<Header>)
    ensures o.Ok? ==> 6 <= o.value.size <= |data| && U16(data[4], data[5]) == HeaderCrc(data[6..o.value.size])
    ensures o.Failed? ==> o.status == DataFormat
  {
    if |data| < 4 then Failed(DataFormat)
    else
      var version := LongAt(data, 0);
      if version != HEADER_SIGNATURE_V1 && version != HEADER_SIGNATURE_V2 then Failed(DataFormat)
      else
        var size := if version == HEADER_SIGNATURE_V1 then HEADER_SIZE_V1 else HEADER_SIZE_V2;
        if |data| < size then Failed(DataFormat)
        else if U16(data[4], data[5]) != HeaderCrc(data[6..size]) then Failed(DataFormat)
        else if version == HEADER_SIGNATURE_V1 then
          var misc := LongAt(data, 12);
          Ok(Header(version, size, misc % 0x2_0000, misc / 0x800_0000 % 8, data[26], data[27]))
        else Ok(Header(version, size, LongAt(data, 12), data[18], 0, 0))
  }

  /** Damage to at most sixteen consecutive bits changes the check. */
  lemma HeaderCrcDetects(a: seq<byte>, b: seq<byte>, k: nat, n: nat)
    requires n <= 16 && CrcGuarantees.Burst(CrcTheory.LsbBits(Octets(a)), CrcTheory.LsbBits(Octets(b)), k, n)
    ensures HeaderCrc(a) != HeaderCrc(b)
  {
    hide CrcGuarantees.Burst, CrcTheory.LsbBits, Checksum.ReflectedCrc16, Octets, Number16;
    CrcGuarantees.ReflectedCrc16DetectsBursts(Checksum.ANSI, 0xFFFF, Octets(a), Octets(b), k, n);
    NumbersDiffer(Checksum.ReflectedCrc16(Checksum.ANSI, 0xFFFF, Octets(a)),
                  Checksum.ReflectedCrc16(Checksum.ANSI, 0xFFFF, Octets(b)));
  }

  /** The first `n` records behind the header. */
  function Records(data: seq<byte>, start: nat, n: nat): (rs: seq<Record>)
    requires start + RECORD_SIZE * n <= |data|
    ensures |rs| == n
  {
    if n == 0 then []
    else
      var at := start + RECORD_SIZE * (n - 1);
      Records(data, start, n - 1) + [data[at..at + RECORD_SIZE]]
  }

  /** All of them; a last one that is cut short is ignored. */
  function AllRecords(data: seq<byte>, start: nat): seq<Record>
    requires start <= |data|
  {
    Records(data, start, (|data| - start) / RECORD_SIZE)
  }

  datatype Parse = Parse(header: Header, cache: Cache)

  function Parsed(data: seq<byte>): (o: Outcome<Parse>)
    ensures o.Ok? ==> o.value.header.size <= |data|
    ensures o.Ok? ==> Cached(o.value.header, AllRecords(data, o.value.header.size)) == Ok(o.value.cache)
  {
    hide HeaderOf, Cached, Records;
    var h := HeaderOf(data);
    if h.Failed? then Failed(h.status)
    else
      var c := Cached(h.value, AllRecords(data, h.value.size));
      if c.Failed? then Failed(c.status) else Ok(Parse(h.value, c.value))
  }

  lemma OneMoreRecord(data: seq<byte>, start: nat, n: nat)
    requires start + RECORD_SIZE * (n + 1) <= |data|
    ensures var at := start + RECORD_SIZE * n;
      var rs := Records(data, start, n + 1);
      rs[..n] == Records(data, start, n) && rs[n] == data[at..at + RECORD_SIZE]
  {
  }

  class Parser {
    const data: seq<byte>
    var cached: bool
    var header: Header
    var gasmixes: seq<GasMix>
    var diluent: nat
    var tanks: seq<Tank>
    var calibration: seq<nat>
    var calibrated: bool

    constructor (data: seq<byte>)
      ensures Valid() && !cached && this.data == data
    {
      this.data := data;
      cached, header, gasmixes, diluent, tanks := false, Header(0, 0, 0, 0, 0, 0), [], UNDEFINED, [];
      calibration, calibrated := [0, 0, 0, 0], false;
    }

    /** Once something is cached, it is what the data say. */
    ghost predicate Valid()
      reads this
    {
      cached ==> Parsed(data) == Ok(Parse(header, Stored()))
    }

    function Stored(): Cache
      reads this
    {
      Cache(gasmixes, diluent, tanks, calibration, calibrated)
    }

    /** Fills the cache, once. A failure leaves the parser as it was. */
    method FillCache() returns (status: Status)
      requires Valid()
      modifies this
      ensures Valid()
      ensures status == (if Parsed(data).Ok? then Success else Parsed(data).status)
      ensures cached <==> Parsed(data).Ok?
    {
      hide Cached, HeaderOf, Records;
      if cached {
        return Success;
      }
      var h := ParseHeader(data);
      if h.Failed? {
        return h.status;
      }
      var tables := CollectTables(data, h.value.size);
      if tables.Failed? {
        CachedByTables(h.value, AllRecords(data, h.value.size));
        return tables.status;
      }
      var merged := Merge(h.value, tables.value);
      CachedByTables(h.value, AllRecords(data, h.value.size));
      if merged.Failed? {
        return merged.status;
      }
      var c := merged.value;
      cached, header, gasmixes, diluent, tanks := true, h.value, c.gasmixes, c.diluent, c.tanks;
      calibration, calibrated := c.calibration, c.calibrated;
      status := Success;
    }

    /** A tank, and the index of the gas mix in it. */
    method GetTank(index: nat) returns (status: Status, tank: Tank, mix: nat)
      requires Valid() && (Parsed(data).Ok? ==> index < |Parsed(data).value.cache.tanks|)
      modifies this
      ensures Valid()
      ensures status == (if Parsed(data).Ok? then Success else Parsed(data).status)
      ensures status == Success ==>
                var p := Parsed(data).value;
                var rs := FreedomGuarantees.AiRecords(AllRecords(data, p.header.size));
                && tank == p.cache.tanks[index] && mix < |p.cache.gasmixes| && index < |rs|
                && FreedomGuarantees.Describes(tank, p.cache.gasmixes[mix], rs[index])
    {
      hide FreedomGuarantees.AiRecords, FreedomGuarantees.Describes, Parsed, Cached, Records;
      tank, mix := Tank(0, 0, 0, 0, 0, false), 0;
      status := FillCache();
      if status == Success {
        FreedomGuarantees.TanksHaveTheirMix(header, AllRecords(data, header.size));
        tank, mix := tanks[index], index;
        assert gasmixes[..|tanks|][index] == gasmixes[index];
      }
    }

    /** Reports the samples. Only a jump back in time can fail once the data are cached,
        and what is reported is in order and in range. */
    method SamplesForeach() returns (status: Status, trace: seq<Sample>)
      requires Valid()
      modifies this
      ensures Valid()
      ensures Parsed(data).Failed? ==> status == Parsed(data).status && trace == []
      ensures Parsed(data).Ok? ==>
                var Parse(h, c) := Parsed(data).value;
                var rs := AllRecords(data, h.size);
                && |c.calibration| == NSENSORS
                && status == Played(c, rs).status && trace == Played(c, rs).trace
                && (status == Success <==> !FreedomGuarantees.JumpsBack(rs))
                && Increasing(trace) && InRange(trace, |c.gasmixes|, |c.tanks|)
    {
      hide Parsed, Cached, Records, Played, FreedomGuarantees.JumpsBack, Increasing, InRange;
      trace := [];
      status := FillCache();
      if status != Success {
        return;
      }
      ghost var rs := AllRecords(data, header.size);
      FreedomGuarantees.OnlyTimeCanFail(header, rs);
      FreedomGuarantees.ReportsAreSound(header, rs);
      status, trace := Play(Stored(), data, header.size);
    }
  }

  lemma CachedByTables(h: Header, rs: seq<Record>)
    ensures Cached(h, rs) ==
            if Collected(rs).Failed? then Failed(Collected(rs).status) else Merged(h, Collected(rs).value)
  {
    hide Collected, Merged;
  }

  method ParseHeader(data: seq<byte>) returns (h: Outcome<Header>)
    ensures h == HeaderOf(data)
  {
    var headersize := 4;
    if |data| < headersize {
      return Failed(DataFormat);
    }
    var version := LongAt(data, 0);
    if version == HEADER_SIGNATURE_V1 {
      headersize := HEADER_SIZE_V1;
    } else if version == HEADER_SIGNATURE_V2 {
      headersize := HEADER_SIZE_V2;
    } else {
      return Failed(DataFormat);
    }
    if |data| < headersize {
      return Failed(DataFormat);
    }
    var ccrc := ComputeCrc(data[6..headersize]);
    if U16(data[4], data[5]) != ccrc {
      return Failed(DataFormat);
    }
    if version == HEADER_SIGNATURE_V1 {
      var misc := LongAt(data, 12);
      h := Ok(Header(version, headersize, misc % 0x2_0000, misc / 0x800_0000 % 8, data[26], data[27]));
    } else {
      h := Ok(Header(version, headersize, LongAt(data, 12), data[18], 0, 0));
    }
  }

  method ComputeCrc(data: seq<byte>) returns (crc: nat)
    ensures crc == HeaderCrc(data)
  {
    var octets := new bv8[|data|](i requires 0 <= i < |data| => data[i] as bv8);
    assert octets[..] == Octets(data);
    var c := Checksum.Crc16AnsiReflected(octets, 0xFFFF, 0);
    Checksum.NothingToFlip(0, Checksum.ReflectedCrc16(Checksum.ANSI, 0xFFFF, octets[..]));
    crc := Number16(c);
  }

  // ---------- The first pass ----------

  method SearchGasMix(table: seq<GasMix>, mix: GasMix) returns (i: nat)
    ensures i == FindGasMix(table, mix)
  {
    i := 0;
    while i < |table|
      invariant i <= |table| && forall j | 0 <= j < i :: !SameMix(table[j], mix)
    {
      if SameMix(table[i], mix) {
        break;
      }
      i := i + 1;
    }
  }

  method SearchTank(table: seq<Tank>, transmitter: nat) returns (i: nat)
    ensures i == FindTank(table, transmitter)
  {
    i := 0;
    while i < |table|
      invariant i <= |table| && forall j | 0 <= j < i :: table[j].transmitter != transmitter
    {
      if table[i].transmitter == transmitter {
        break;
      }
      i := i + 1;
    }
  }

  method AddMix(table: seq<GasMix>, mix: GasMix) returns (o: Outcome<seq<GasMix>>)
    ensures o == WithMix(table, mix)
  {
    hide FindGasMix;
    var i := SearchGasMix(table, mix);
    if i < |table| {
      return Ok(table);
    }
    if |table| >= NGASMIXES {
      return Failed(NoMemory);
    }
    o := Ok(table + [mix]);
  }

  method AddDiluents(mixes: seq<GasMix>, r: Record) returns (o: Outcome<seq<GasMix>>)
    ensures o == WithDiluents(mixes, r, 4)
  {
    var all := mixes;
    for i := 0 to 4
      invariant WithDiluents(mixes, r, i) == Ok(all)
    {
      var at := 4 + i * 3;
      if r[at + 2] % 2 == 1 {
        if |all| >= NGASMIXES {
          DiluentsFail(mixes, r, i + 1, 4);
          return Failed(NoMemory);
        }
        all := all + [GasMix(r[at], r[at + 1], DILUENT, r[at + 2] / 2)];
      }
    }
    o := Ok(all);
  }

  lemma {:induction false} DiluentsFail(mixes: seq<GasMix>, r: Record, i: nat, n: nat)
    requires i <= n <= 4 && WithDiluents(mixes, r, i).Failed?
    ensures WithDiluents(mixes, r, n) == WithDiluents(mixes, r, i)
    decreases n
  {
    if i < n {
      DiluentsFail(mixes, r, i, n - 1);
    }
  }

  method AddPressures(tanks: seq<Tank>, r: Record) returns (o: Outcome<seq<Tank>>)
    ensures o == WithPressures(tanks, r, NTANKS)
  {
    hide FindTank;
    var all := tanks;
    for i := 0 to NTANKS
      invariant WithPressures(tanks, r, i) == Ok(all)
    {
      var pressure := r[4 + i];
      if pressure == 0 || pressure == 0xFF {
        continue;
      }
      var idx := SearchTank(all, i);
      if idx >= |all| {
        PressuresFail(tanks, r, i + 1, NTANKS);
        return Failed(DataFormat);
      }
      all := all[idx := WithReading(all[idx], pressure)];
    }
    o := Ok(all);
  }

  lemma {:induction false} PressuresFail(tanks: seq<Tank>, r: Record, i: nat, n: nat)
    requires i <= n <= NTANKS && WithPressures(tanks, r, i).Failed?
    ensures WithPressures(tanks, r, n) == WithPressures(tanks, r, i)
    decreases n
  {
    if i < n {
      PressuresFail(tanks, r, i, n - 1);
    }
  }

  /** One record of the first pass. */
  method AddRecord(t: Tables, r: Record) returns (o: Outcome<Tables>)
    ensures o == WithRecord(t, r)
  {
    hide WithDiluents, WithPressures, WithMix, MixOf;
    if IsEmpty(r) {
      return Ok(t);
    }
    if TypeOf(r) == LREC_CONFIGURATION {
      if IdOf(r) == CFG_ID_DILUENTS {
        var mixes := AddDiluents(t.diluents, r);
        return if mixes.Failed? then Failed(mixes.status) else Ok(t.(diluents := mixes.value));
      } else if IdOf(r) == CFG_ID_OXYGEN_CALIBRATION {
        return Ok(t.(calibration := [Word(r, 4), Word(r, 6), Word(r, 8), Word(r, 10)], calibrated := true));
      } else if IdOf(r) == CFG_ID_AI {
        return WithAi(t, r);
      }
    } else if LREC_MANIPULATION <= TypeOf(r) <= LREC_ACTIVITY || TypeOf(r) == LREC_INFO {
      if IsGasChange(r) {
        var mixes := AddMix(t.events, MixOf(r));
        return if mixes.Failed? then Failed(mixes.status) else Ok(t.(events := mixes.value));
      }
    } else if TypeOf(r) == LREC_MEASURE {
      if IdOf(r) == MEASURE_ID_AI_PRESSURE {
        var tanks := AddPressures(t.tanks, r);
        return if tanks.Failed? then Failed(tanks.status) else Ok(t.(tanks := tanks.value));
      }
    }
    o := Ok(t);
  }

  lemma {:induction false} CollectionFails(data: seq<byte>, start: nat, i: nat, n: nat)
    requires i <= n && start + RECORD_SIZE * n <= |data| && Collected(Records(data, start, i)).Failed?
    ensures Collected(Records(data, start, n)) == Collected(Records(data, start, i))
    decreases n
  {
    hide Records, WithRecord;
    if i < n {
      CollectionFails(data, start, i, n - 1);
      OneMoreRecord(data, start, n - 1);
    }
  }

  /** There is room for one more record exactly before the last. */
  lemma RecordsLeft(size: nat, start: nat, n: nat)
    requires start + RECORD_SIZE * n <= size
    ensures var last := (size - start) / RECORD_SIZE;
      && n <= last && start + RECORD_SIZE * last <= size
      && (start + RECORD_SIZE * n + RECORD_SIZE <= size <==> n < last)
  {
  }

  method CollectTables(data: seq<byte>, start: nat) returns (o: Outcome<Tables>)
    requires start <= |data|
    ensures o == Collected(AllRecords(data, start))
  {
    hide WithRecord, Records;
    var t := NO_TABLES;
    var offset := start;
    ghost var n, last := 0, (|data| - start) / RECORD_SIZE;
    assert Records(data, start, 0) == [];
    RecordsLeft(|data|, start, 0);
    while offset + RECORD_SIZE <= |data|
      invariant offset == start + RECORD_SIZE * n <= |data| && n <= last
      invariant Collected(Records(data, start, n)) == Ok(t)
    {
      RecordsLeft(|data|, start, n);
      OneMoreRecord(data, start, n);
      var next := AddRecord(t, data[offset..offset + RECORD_SIZE]);
      if next.Failed? {
        CollectionFails(data, start, n + 1, last);
        return next;
      }
      t := next.value;
      offset, n := offset + RECORD_SIZE, n + 1;
    }
    RecordsLeft(|data|, start, n);
    o := Ok(t);
  }

  method AddMixes(table: seq<GasMix>, mixes: seq<GasMix>) returns (o: Outcome<seq<GasMix>>)
    ensures o == WithMixes(table, mixes)
  {
    hide WithMix;
    var all := table;
    for i := 0 to |mixes|
      invariant WithMixes(table, mixes[..i]) == Ok(all)
    {
      assert mixes[..i + 1][..i] == mixes[..i];
      var next := AddMix(all, mixes[i]);
      if next.Failed? {
        MixesFail(table, mixes, i + 1, |mixes|);
        assert mixes[..|mixes|] == mixes;
        return next;
      }
      all := next.value;
    }
    assert mixes[..|mixes|] == mixes;
    o := Ok(all);
  }

  lemma {:induction false} MixesFail(table: seq<GasMix>, mixes: seq<GasMix>, i: nat, n: nat)
    requires i <= n <= |mixes| && WithMixes(table, mixes[..i]).Failed?
    ensures WithMixes(table, mixes[..n]) == WithMixes(table, mixes[..i])
    decreases n
  {
    if i < n {
      MixesFail(table, mixes, i, n - 1);
      assert mixes[..n][..n - 1] == mixes[..n - 1];
    }
  }

  method Merge(h: Header, t: Tables) returns (o: Outcome<Cache>)
    ensures o == Merged(h, t)
  {
    hide WithMixes, FindGasMix;
    var diluent := UNDEFINED;
    var mixes := AddMixes(t.ai, t.diluents);
    if mixes.Failed? {
      return Failed(mixes.status);
    }
    if HasInitialDiluent(h) {
      var idx := SearchGasMix(mixes.value, InitialDiluent(h));
      if idx >= |mixes.value| {
        if |mixes.value| >= NGASMIXES {
          return Failed(NoMemory);
        }
        mixes := Ok(mixes.value + [InitialDiluent(h)]);
      }
      diluent := idx;
    }
    mixes := AddMixes(mixes.value, t.events);
    if mixes.Failed? {
      return Failed(mixes.status);
    }
    o := Ok(Cache(mixes.value, diluent, t.tanks, t.calibration, t.calibrated));
  }

  // ---------- The second pass ----------

  method PlayPressures(c: Cache, r: Record) returns (report: Report)
    ensures report == PressureSamples(c, r, NTANKS)
  {
    hide FindTank;
    report := Report(Success, []);
    for i := 0 to NTANKS
      invariant PressureSamples(c, r, i) == report && report.status == Success
    {
      var pressure := r[4 + i];
      if pressure == 0 || pressure == 0xFF {
        continue;
      }
      var idx := SearchTank(c.tanks, i);
      if idx >= |c.tanks| {
        PressuresMissing(c, r, i + 1, NTANKS);
        return report.(status := DataFormat);
      }
      report := report.(samples := report.samples + [Pressure(idx, pressure)]);
    }
  }

  lemma {:induction false} PressuresMissing(c: Cache, r: Record, i: nat, n: nat)
    requires i <= n <= NTANKS && PressureSamples(c, r, i).status != Success
    ensures PressureSamples(c, r, n) == PressureSamples(c, r, i)
    decreases n
  {
    if i < n {
      PressuresMissing(c, r, i, n - 1);
    }
  }

  method PlayOxygen(r: Record) returns (samples: seq<Sample>)
    ensures samples == OxygenSamples(r, NSENSORS)
  {
    samples := [];
    for i := 0 to NSENSORS
      invariant samples == OxygenSamples(r, i)
    {
      var ppo2 := Word(r, 4 + i * 2);
      if ppo2 == 0 || ppo2 == 0xFFFF {
        continue;
      }
      samples := samples + [Ppo2(i, ppo2)];
    }
  }

  method PlayVoltages(c: Cache, r: Record) returns (samples: seq<Sample>)
    requires |c.calibration| == NSENSORS
    ensures samples == VoltageSamples(c, r, NSENSORS)
  {
    samples := [];
    for i := 0 to NSENSORS
      invariant samples == VoltageSamples(c, r, i)
    {
      var value, state := Word(r, 4 + i * 2), r[12 + i];
      if !c.calibrated || c.calibration[i] == 0 || state == SENSTAT_UNCALIBRATED || state == SENSTAT_NOT_EXIST {
        continue;
      }
      samples := samples + [Ppo2Mv(i, value, c.calibration[i])];
    }
  }

  /** The samples of one record. */
  method PlayRecord(c: Cache, r: Record) returns (report: Report)
    requires |c.calibration| == NSENSORS && !IsEmpty(r)
    ensures report == RecordSamples(c, r)
  {
    hide FindGasMix, MixOf, PressureSamples, OxygenSamples, VoltageSamples, PointSamples, IsEmpty, Word;
    report := Report(Success, []);
    if TypeOf(r) == LREC_POINT {
      report := report.(samples := PointSamples(r));
    } else if LREC_MANIPULATION <= TypeOf(r) <= LREC_ACTIVITY || TypeOf(r) == LREC_INFO {
      var event := EventOf(r);
      if event == EVENT_BOOKMARK {
        report := report.(samples := [Bookmark]);
      } else if event == EVENT_MIX_CHANGED || event == EVENT_DILUENT || event == EVENT_CHANGE_MODE {
        var idx := SearchGasMix(c.gasmixes, MixOf(r));
        if idx >= |c.gasmixes| {
          return Report(DataFormat, []);
        }
        report := report.(samples := [Gas(idx)]);
      } else if event == EVENT_CNS {
        report := report.(samples := [Cns(Word(r, 6))]);
      } else if event == EVENT_SETPOINT_MANUAL || event == EVENT_SETPOINT_AUTO {
        report := report.(samples := [Setpoint(r[6])]);
      } else if event == EVENT_WAYPOINT {
        var heading := Word(r, 8);
        if heading < 0x8000 {
          report := report.(samples := [Bearing(heading)]);
        }
      }
    } else if TypeOf(r) == LREC_MEASURE {
      if IdOf(r) == MEASURE_ID_AI_PRESSURE {
        report := PlayPressures(c, r);
      } else if IdOf(r) == MEASURE_ID_OXYGEN {
        var samples := PlayOxygen(r);
        report := report.(samples := samples);
      } else if IdOf(r) == MEASURE_ID_OXYGEN_MV {
        var samples := PlayVoltages(c, r);
        report := report.(samples := samples);
      }
    }
  }

  lemma {:induction false} PlayStops(c: Cache, data: seq<byte>, start: nat, i: nat, n: nat)
    requires |c.calibration| == NSENSORS && i <= n && start + RECORD_SIZE * n <= |data|
    requires Played(c, Records(data, start, i)).status != Success
    ensures Played(c, Records(data, start, n)) == Played(c, Records(data, start, i))
    decreases n
  {
    hide Reported;
    if i < n {
      PlayStops(c, data, start, i, n - 1);
      OneMoreRecord(data, start, n - 1);
    }
  }

  method Play(c: Cache, data: seq<byte>, start: nat) returns (status: Status, trace: seq<Sample>)
    requires |c.calibration| == NSENSORS && start <= |data|
    ensures var p := Played(c, AllRecords(data, start)); status == p.status && trace == p.trace
  {
    hide Reported, Records;
    var pass := NEW_PASS;
    var offset := start;
    ghost var n, last := 0, (|data| - start) / RECORD_SIZE;
    assert Records(data, start, 0) == [];
    RecordsLeft(|data|, start, 0);
    while offset + RECORD_SIZE <= |data|
      invariant offset == start + RECORD_SIZE * n <= |data| && n <= last && pass.status == Success
      invariant Played(c, Records(data, start, n)) == pass
    {
      RecordsLeft(|data|, start, n);
      OneMoreRecord(data, start, n);
      pass := PlayOne(c, pass, data[offset..offset + RECORD_SIZE]);
      offset, n := offset + RECORD_SIZE, n + 1;
      if pass.status != Success {
        PlayStops(c, data, start, n, last);
        return pass.status, pass.trace;
      }
    }
    RecordsLeft(|data|, start, n);
    status, trace := pass.status, pass.trace;
  }

  /** One record of the second pass. */
  method PlayOne(c: Cache, pass: Pass, r: Record) returns (next: Pass)
    requires |c.calibration| == NSENSORS
    ensures next == Reported(c, pass, r)
  {
    hide RecordSamples, IsEmpty, TimeOf;
    if IsEmpty(r) {
      return pass;
    }
    var timestamp, time, trace := TimeOf(r), pass.time, pass.trace;
    if timestamp != time {
      if timestamp < time && time != UNDEFINED {
        return if time - timestamp > 5 then pass.(status := DataFormat) else pass;
      }
      time := timestamp;
      trace := trace + [Time(time * 1000)];
    }
    if !pass.initial {
      if c.diluent != UNDEFINED {
        trace := trace + [Gas(c.diluent)];
      }
    }
    var report := PlayRecord(c, r);
    next := Pass(report.status, time, true, trace + report.samples);
  }
}
