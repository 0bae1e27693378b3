/** The DiveSystem iDive parser as the library runs it: one walk over the records, with the
    tank of the last reading remembered, whether it is in the table yet or not. */
module IdiveParser {
  import opened Bytes
  import opened Samples
  import opened IdiveRecords

  /** What a search for the tank of the last reading would find now. */
  ghost predicate Agrees(s: State, previous: nat, index: nat) {
    previous == INVALID || index == FindTank(s.tanks, previous)
  }

  lemma TankFoundStays(table: seq<Tank>, other: seq<Tank>, id: nat)
    requires |table| == |other| && forall i | 0 <= i < |table| :: table[i].id == other[i].id
    ensures FindTank(other, id) == FindTank(table, id)
  {
  }

  lemma NewTankIsLast(table: seq<Tank>, tank: Tank)
    requires FindTank(table, tank.id) == |table|
    ensures FindTank(table + [tank], tank.id) == |table|
  {
    assert (table + [tank])[|table|] == tank;
    assert forall i | 0 <= i < |table| :: (table + [tank])[i] == table[i];
  }

  method SearchTank(table: seq<Tank>, id: nat) returns (i: nat)
    ensures i == FindTank(table, id)
  {
    i := 0;
    while i < |table|
      invariant i <= |table| && forall j | 0 <= j < i :: table[j].id != id
    {
      if table[i].id == id {
        break;
      }
      i := i + 1;
    }
  }

  method SearchMix(table: seq<GasMix>, mix: GasMix) returns (i: nat)
    ensures i == FindMix(table, mix)
  {
    i := 0;
    while i < |table|
      invariant i <= |table| && forall j | 0 <= j < i :: table[j] != mix
    {
      if table[i] == mix {
        break;
      }
      i := i + 1;
    }
  }

  method ReadPressure(s: State, id: nat, pressure: nat, previous: nat, index: nat)
    returns (run: Run, previous': nat, index': nat)
    requires Agrees(s, previous, index) && id != INVALID
    ensures run == PressureRead(s, id, pressure) && Agrees(run.state, previous', index')
  {
    hide FindTank;
    previous', index' := previous, index;
    if id != previous {
      index' := SearchTank(s.tanks, id);
      previous' := id;
    }
    var tanks := s.tanks;
    if index' >= |tanks| && pressure != 0 {
      if index' >= NTANKS {
        return Run(DataFormat, s), previous', index';
      }
      NewTankIsLast(tanks, Tank(id, pressure, pressure));
      tanks := tanks + [Tank(id, pressure, pressure)];
    }
    run := Run(Success, s);
    if index' < |tanks| {
      ghost var before := tanks;
      tanks := tanks[index' := tanks[index'].(endpressure := pressure)];
      TankFoundStays(before, tanks, id);
      run := Run(Success, Reporting(s.(tanks := tanks), Pressure(index', pressure)));
    }
  }

  method ReadTransmitter(s: State, r: seq<byte>, previous: nat, index: nat)
    returns (run: Run, previous': nat, index': nat)
    requires |r| >= SZ_SAMPLE_IX3M_APOS4 && Agrees(s, previous, index)
    ensures run == TransmitterRead(s, r) && Agrees(run.state, previous', index')
  {
    hide PressureRead, FindTank;
    previous', index' := previous, index;
    var id, flags, pressure: nat := r[47] % 0x10, r[47], r[49];
    if flags / 0x20 % 2 == 1 {
      pressure := pressure * 2;
    }
    run := Run(Success, s);
    if flags / 0x80 % 2 == 1 {
    } else if flags / 0x40 % 2 == 1 {
      run := Run(Success, Reporting(s, TransmitterLost));
    } else {
      run, previous', index' := ReadPressure(s, id, pressure, previous, index);
    }
  }

  method BreatheGas(s: State, mix: GasMix) returns (run: Run)
    ensures run == GasBreathed(s, mix) && run.state.tanks == s.tanks
  {
    hide FindMix;
    if s.oxygen == mix.oxygen && s.helium == mix.helium {
      return Run(Success, s);
    }
    var mixes := s.mixes;
    var i := SearchMix(mixes, mix);
    if i >= |mixes| {
      if i >= NGASMIXES {
        return Run(DataFormat, s);
      }
      mixes := mixes + [mix];
    }
    run := Run(Success, Reporting(s.(mixes := mixes, oxygen := mix.oxygen, helium := mix.helium), Gas(i)));
  }

  /** One record, by way of what is remembered. */
  method ReadRecord(f: Format, s: State, r: seq<byte>, previous: nat, index: nat)
    returns (run: Run, previous': nat, index': nat)
    requires f.Valid() && |r| == f.size && Agrees(s, previous, index)
    ensures run == Step(f, s, r) && Agrees(run.state, previous', index')
  {
    hide Agrees, GasBreathed, TransmitterRead;
    previous', index' := previous, index;
    if f.ix3m && Word(r, 52) != REC_SAMPLE {
      return Run(Success, s), previous, index;
    }
    run := Clocked(s, r);
    SameTanksAgree(s, run.state, previous, index);
    if run.status != Success {
      return;
    }
    var clocked := run.state;
    run := BreatheGas(clocked, GasMix(r[10], r[11]));
    SameTanksAgree(clocked, run.state, previous, index);
    if run.status != Success {
      return;
    }
    var s' := DecoReported(run.state, f, r);
    SameTanksAgree(run.state, s', previous, index);
    run := Run(Success, s');
    if f.size == SZ_SAMPLE_IX3M_APOS4 {
      run, previous', index' := ReadTransmitter(s', r, previous, index);
      if run.status == Success {
        SameTanksAgree(run.state, BearingRead(run.state, Word(r, 50)), previous', index');
        run := Run(Success, BearingRead(run.state, Word(r, 50)));
      }
    }
  }

  lemma SameTanksAgree(s: State, s': State, previous: nat, index: nat)
    requires Agrees(s, previous, index) && s'.tanks == s.tanks
    ensures Agrees(s', previous, index)
  {
  }

  class Parser {
    const data: seq<byte>
    const model: nat
    var cached: bool
    var divetime: nat
    var maxdepth: nat
    var mixes: seq<GasMix>
    var tanks: seq<Tank>

    constructor (data: seq<byte>, model: nat)
      requires |data| >= HeaderSize(model)
      ensures Valid() && this.data == data && this.model == model && !cached
    {
      this.data, this.model, cached, divetime, maxdepth, mixes, tanks := data, model, false, 0, 0, [], [];
    }

    ghost function Meaning(): Run
      requires |data| >= HeaderSize(model)
    {
      Parsed(FormatOf(model, data), data, HeaderSize(model), START)
    }

    /** Once something is cached, it is what the data say. */
    ghost predicate Valid()
      reads this
    {
      && |data| >= HeaderSize(model)
      && (cached ==> Meaning().status == Success && mixes == Meaning().state.mixes && tanks == Meaning().state.tanks
                     && divetime == Meaning().state.time && maxdepth == Meaning().state.maxdepth)
    }

    /** Parses the dive: with its memory of the last tank it reports and caches exactly what
        linear searches would. A failure caches nothing. */
    method SamplesForeach() returns (status: Status, trace: seq<Sample>)
      requires Valid()
      modifies this
      ensures Valid()
      ensures status == Meaning().status && trace == Meaning().state.trace
      ensures status == Success ==> cached
      ensures status != Success ==> cached == old(cached) && mixes == old(mixes) && tanks == old(tanks)
    {
      hide Agrees, Step, FormatOf;
      var s, previous, index := START, INVALID, INVALID;
      var f, offset := FormatOf(model, data), HeaderSize(model);
      NothingRemembered();
      while offset + f.size <= |data|
        invariant Agrees(s, previous, index)
        invariant Parsed(f, data, offset, s) == Meaning()
        invariant cached == old(cached) && mixes == old(mixes) && tanks == old(tanks)
        invariant divetime == old(divetime) && maxdepth == old(maxdepth)
      {
        var run;
        run, previous, index := ReadRecord(f, s, data[offset..offset + f.size], previous, index);
        s := run.state;
        if run.status != Success {
          return run.status, s.trace;
        }
        offset := offset + f.size;
      }
      cached, mixes, tanks, divetime, maxdepth := true, s.mixes, s.tanks, s.time, s.maxdepth;
      status, trace := Success, s.trace;
    }
  }

  lemma NothingRemembered()
    ensures Agrees(START, INVALID, INVALID)
  {
  }
}
