/** The Halcyon Symbios parser as the library runs it: one walk over the records, with the
    gas mix and the tank used last remembered instead of being searched for again. */
module SymbiosParser {
  import opened Bytes
  import opened Samples
  import opened SymbiosRecords

  /** The tank found last, and what was searched for then. */
  datatype Memo = Memo(id: nat, usage: nat, index: nat)

  const NO_MEMO := Memo(UNDEFINED, UNDEFINED, UNDEFINED)

  /** What is remembered is what a search would find now. */
  ghost predicate Agrees(s: State, memo: Memo, mix: nat) {
    && (memo.usage == UNDEFINED || memo.index == FindTank(s.tanks, memo.id, memo.usage) < |s.tanks|)
    && mix == CurrentMix(s)
    && (s.gas == UNDEFINED || mix < |s.mixes|)
  }

  lemma TankFoundStays(table: seq<Tank>, other: seq<Tank>, id: nat, usage: nat)
    requires FindTank(table, id, usage) < |table| <= |other|
    requires forall i | 0 <= i < |table| :: table[i].id == other[i].id && table[i].usage == other[i].usage
    ensures FindTank(other, id, usage) == FindTank(table, id, usage)
  {
    var i := FindTank(table, id, usage);
    assert table[i].id == other[i].id && table[i].usage == other[i].usage;
  }

  lemma NewTankIsLast(table: seq<Tank>, tank: Tank, pressure: nat)
    requires FindTank(table, tank.id, tank.usage) == |table|
    ensures var more := table + [tank];
      FindTank(more[|table| := tank.(endpressure := pressure)], tank.id, tank.usage) == |table|
  {
    var more := (table + [tank])[|table| := tank.(endpressure := pressure)];
    assert more[|table|].id == tank.id && more[|table|].usage == tank.usage;
    assert forall i | 0 <= i < |table| :: more[i] == table[i];
  }

  method SearchMix(table: seq<GasMix>, id: nat) returns (i: nat)
    ensures i == FindMix(table, id)
  {
    i := 0;
    while i < |table|
      invariant i <= |table| && forall j | 0 <= j < i :: table[j].id != id
    {
      if table[i].id == id {
        break;
      }
      i := i + 1;
    }
  }

  method SearchSameMix(table: seq<GasMix>, mix: GasMix) returns (i: nat)
    ensures i == FindSameMix(table, mix)
  {
    i := 0;
    while i < |table|
      invariant i <= |table| && forall j | 0 <= j < i :: table[j] != mix
    {
      if table[i] == mix {
        break;
      }
      i := i + 1;
    }
  }

  method SearchTank(table: seq<Tank>, id: nat, usage: nat) returns (i: nat)
    ensures i == FindTank(table, id, usage)
  {
    i := 0;
    while i < |table|
      invariant i <= |table| && forall j | 0 <= j < i :: table[j].id != id || table[j].usage != usage
    {
      if table[i].id == id && table[i].usage == usage {
        break;
      }
      i := i + 1;
    }
  }

  /** A pressure reading by way of the memo. */
  method ReadPressure(s: State, id: nat, usage: nat, pressure: nat, newMix: nat, memo: Memo, ghost mix: nat)
    returns (run: Run, memo': Memo)
    requires Agrees(s, memo, mix) && usage != UNDEFINED
    ensures run == PressureRead(s, id, usage, pressure, newMix)
    ensures Agrees(run.state, memo', mix)
  {
    hide FindTank, FindMix;
    var tanks := s.tanks;
    memo' := memo;
    if memo.id != id || memo.usage != usage {
      var idx := SearchTank(s.tanks, id, usage);
      if idx >= |tanks| {
        if |tanks| >= NTANKS {
          return Run(NoMemory, s), memo;
        }
        NewTankIsLast(tanks, Tank(id, usage, pressure, pressure, newMix), pressure);
        tanks := tanks + [Tank(id, usage, pressure, pressure, newMix)];
      }
      memo' := Memo(id, usage, idx);
    }
    ghost var before := tanks;
    tanks := tanks[memo'.index := tanks[memo'.index].(endpressure := pressure)];
    if FindTank(s.tanks, id, usage) < |s.tanks| {
      TankFoundStays(s.tanks, tanks, id, usage);
    }
    run := Run(Success, Reporting(s.(tanks := tanks), Pressure(memo'.index, pressure)));
  }

  method SelectGas(s: State, id: nat, memo: Memo, mix: nat) returns (run: Run, mix': nat)
    requires Agrees(s, memo, mix) && id != UNDEFINED
    ensures run == GasSelected(s, id) && Agrees(run.state, memo, mix')
  {
    hide FindTank, FindMix;
    run, mix' := Run(Success, s), mix;
    if s.haveGasmix && s.gas != id {
      var idx := SearchMix(s.mixes, id);
      if idx >= |s.mixes| {
        return Run(DataFormat, s), mix;
      }
      run, mix' := Run(Success, Reporting(s.(gas := id), Gas(idx))), idx;
    }
  }

  lemma MixAddedAgrees(s: State, memo: Memo, mix: nat, added: GasMix)
    requires Agrees(s, memo, mix)
    ensures Agrees(s.(mixes := s.mixes + [added]), memo, mix)
  {
    hide FindTank, FindMix;
    if s.gas != UNDEFINED {
      MixFoundStays(s.mixes, added, s.gas);
    }
  }

  method SwitchGas(s: State, oxygen: nat, helium: nat, ghost memo: Memo, ghost mix: nat) returns (run: Run)
    requires Agrees(s, memo, mix)
    ensures run == GasSwitched(s, oxygen, helium) && Agrees(run.state, memo, mix)
  {
    hide FindTank, FindMix, FindSameMix;
    var added := GasMix(UNDEFINED, oxygen, helium);
    var idx := SearchSameMix(s.mixes, added);
    var s' := s;
    if idx >= |s.mixes| {
      if |s.mixes| >= NGASMIXES {
        return Run(NoMemory, s);
      }
      MixAddedAgrees(s, memo, mix, added);
      s' := s.(mixes := s.mixes + [added]);
    }
    run := Run(Success, Reporting(s', Gas(idx)));
  }

  method ConfigureGas(s: State, added: GasMix, ghost memo: Memo, ghost mix: nat) returns (run: Run)
    requires Agrees(s, memo, mix)
    ensures run == GasConfigured(s, added) && Agrees(run.state, memo, mix)
  {
    hide FindTank, FindMix;
    if added.oxygen == 0 && added.helium == 0 {
      return Run(Success, s);
    }
    var idx := SearchMix(s.mixes, added.id);
    if idx >= |s.mixes| {
      if |s.mixes| >= NGASMIXES {
        return Run(NoMemory, s);
      }
      MixAddedAgrees(s, memo, mix, added);
      return Run(Success, s.(mixes := s.mixes + [added], haveGasmix := true));
    }
    if s.mixes[idx].oxygen != added.oxygen || s.mixes[idx].helium != added.helium {
      return Run(DataFormat, s);
    }
    run := Run(Success, Reporting(s, Gas(idx)));
  }

  method ReportPpo2(s: State, r: seq<byte>) returns (s': State)
    requires |r| >= 5
    ensures s' == Ppo2Reported(s, r, 3)
    ensures s'.mixes == s.mixes && s'.tanks == s.tanks && s'.gas == s.gas
  {
    s' := s;
    for i := 0 to 3
      invariant s' == Ppo2Reported(s, r, i)
      invariant s'.mixes == s.mixes && s'.tanks == s.tanks && s'.gas == s.gas
    {
      s' := Reporting(s', Ppo2(i, r[2 + i]));
    }
  }

  /** One record, by way of what is remembered. */
  method Interpret(s: State, kind: nat, r: seq<byte>, memo: Memo, mix: nat) returns (run: Run, memo': Memo, mix': nat)
    requires WellSized(kind, r) && Agrees(s, memo, mix)
    ensures run == Interpreted(s, kind, r) && Agrees(run.state, memo', mix')
  {
    hide FindTank, FindMix, PressureRead, GasSelected, GasSwitched, GasConfigured, Ppo2Reported, Word;
    run, memo', mix' := Run(Success, s), memo, mix;
    if kind == ID_HEADER {
      run := Run(Success, s.(interval := r[10]));
    } else if kind == ID_GAS_SWITCH {
      run := SwitchGas(s, r[2], r[3], memo, mix);
    } else if kind == ID_DEPTH {
      run := Run(Success, Reporting(s, Depth(Word(r, 2))).(haveDepth := true));
    } else if kind == ID_TEMPERATURE {
      run := Run(Success, Reporting(s, Temperature(Word(r, 2))));
    } else if kind == ID_GAS_TRANSMITTER {
      run, mix' := SelectGas(s, r[2], memo, mix);
      if run.status == Success {
        run, memo' := ReadPressure(run.state, Word(r, 8), USAGE_NONE, Word(r, 6), mix', memo, mix');
      }
    } else if kind == ID_PO2_BOARD {
      var s' := ReportPpo2(s, r);
      run := Run(Success, s');
    } else if kind == ID_DECO {
      var deco := if r[3] != 0 then DecoStop(r[3], 0, Word(r, 8)) else NoDeco(r[2] as int * 60, Word(r, 8));
      run := Run(Success, Reporting(Reporting(s, deco), Cns(r[4])));
    } else if kind == ID_PO2_REBREATHER {
      var s' := ReportPpo2(s, r);
      run, memo' := ReadPressure(s', Word(r, 10), USAGE_OXYGEN, Word(r, 8), GASMIX_UNKNOWN, memo, mix);
    } else if kind == ID_COMPASS {
      run := Run(Success, Reporting(s, Bearing(Word(r, 2))));
    } else if kind == ID_GAS_CONFIG {
      run := ConfigureGas(s, GasMix(r[2], r[3], r[4]), memo, mix);
    } else if kind == ID_TANK_TRANSMITTER {
      run, memo' := ReadPressure(s, r[2] + TRANSMITTER_ID, USAGE_NONE, Word(r, 6) / 10, GASMIX_UNKNOWN, memo, mix);
    }
  }

  /** One record with its checks. */
  method ReadRecord(s: State, r: seq<byte>, memo: Memo, mix: nat) returns (run: Run, memo': Memo, mix': nat)
    requires |r| >= 2 && Agrees(s, memo, mix)
    ensures run == Step(s, r) && Agrees(run.state, memo', mix')
  {
    hide FindTank, FindMix, Interpreted, WellSized, KindOf;
    var kind := KindOf(r[0], |r|);
    if !WellSized(kind, r) {
      return Run(DataFormat, s), memo, mix;
    }
    TickedAgrees(s, memo, mix, kind);
    run, memo', mix' := Interpret(Ticked(s, kind), kind, r, memo, mix);
  }

  lemma TickedAgrees(s: State, memo: Memo, mix: nat, kind: nat)
    requires Agrees(s, memo, mix)
    ensures Agrees(Ticked(s, kind), memo, mix)
  {
  }

  lemma ParsedStep(data: seq<byte>, offset: nat, s: State)
    ensures Parsed(data, offset, s) == (
      if offset + 2 > |data| then Run(Success, s)
      else
        var r := RecordAt(data, offset);
        if r == [] then Run(DataFormat, s)
        else if Step(s, r).status != Success then Step(s, r)
        else Parsed(data, offset + |r|, Step(s, r).state))
  {
    hide Interpreted, Ticked, WellSized, KindOf;
  }

  class Parser {
    const data: seq<byte>
    var cached: bool
    var mixes: seq<GasMix>
    var tanks: seq<Tank>

    constructor (data: seq<byte>)
      ensures Valid() && this.data == data && !cached
    {
      this.data, cached, mixes, tanks := data, false, [], [];
    }

    /** Once something is cached, it is what the data say. */
    ghost predicate Valid()
      reads this
    {
      cached ==>
        var run := Parsed(data, 0, START);
        run.status == Success && mixes == run.state.mixes && tanks == run.state.tanks
    }

    /** Parses the dive: with its memory of the last tank and gas mix it reports and caches
        exactly what linear searches would. A failure caches nothing. */
    method SamplesForeach() returns (status: Status, trace: seq<Sample>)
      requires Valid()
      modifies this
      ensures Valid()
      ensures var run := Parsed(data, 0, START); status == run.status && trace == run.state.trace
      ensures status == Success ==> cached
      ensures status != Success ==> cached == old(cached) && mixes == old(mixes) && tanks == old(tanks)
    {
      hide Agrees, Step, Parsed;
      var s, memo, mix := START, NO_MEMO, GASMIX_UNKNOWN;
      var offset := 0;
      NothingRemembered();
      ParsedStep(data, offset, s);
      while offset + 2 <= |data|
        invariant Agrees(s, memo, mix)
        invariant Parsed(data, offset, s) == Parsed(data, 0, START)
        invariant cached == old(cached) && mixes == old(mixes) && tanks == old(tanks)
      {
        ParsedStep(data, offset, s);
        var length := data[offset + 1];
        if length < 2 || offset + length > |data| {
          return DataFormat, s.trace;
        }
        var run;
        run, memo, mix := ReadRecord(s, data[offset..offset + length], memo, mix);
        s := run.state;
        if run.status != Success {
          return run.status, s.trace;
        }
        offset := offset + length;
      }
      ParsedStep(data, offset, s);
      cached, mixes, tanks := true, s.mixes, s.tanks;
      status, trace := Success, s.trace;
    }
  }

  lemma NothingRemembered()
    ensures Agrees(START, NO_MEMO, GASMIX_UNKNOWN)
  {
  }
}
