/** The order of the times that a Halcyon Symbios dive reports. */
module SymbiosTimes {
  import opened Bytes
  import opened Samples
  import opened SampleTimes
  import opened SymbiosRecords

  /** No time is later than the clock, and the clock has been reported once it runs. */
  ghost predicate Clocked(s: State) {
    Spaced(s.trace, 0) && UpTo(s.trace, 1000 * s.time) && (s.haveTime <==> Reached(s.trace, 1000 * s.time))
  }

  /** Whether a record makes the clock tick. */
  predicate Ticks(s: State, kind: nat) {
    (!s.haveTime && !IsConfig(kind)) || (s.haveDepth && kind == ID_DEPTH)
  }

  /** From here on, the clock moves whenever it ticks: the sampling interval, which the
      header sets, is not zero then, except that the first tick may be at any time. */
  predicate Advances(data: seq<byte>, offset: nat, s: State)
    decreases |data| - offset
  {
    if offset + 2 > |data| then true
    else
      var r := RecordAt(data, offset);
      var next := Step(s, r);
      && (|r| >= 2 && WellSized(KindOf(r[0], |r|), r) && Ticks(s, KindOf(r[0], |r|)) && s.haveTime ==> s.interval > 0)
      && (r == [] || next.status != Success || Advances(data, offset + |r|, next.state))
  }

  lemma TickedInOrder(s: State, kind: nat)
    requires Clocked(s)
    ensures Clocked(Ticked(s, kind))
    ensures Increasing(Ticked(s, kind).trace) <==>
            Increasing(s.trace) && (Ticks(s, kind) && s.haveTime ==> s.interval > 0)
  {
    hide Spaced, UpTo, Reached, Increasing;
    TimeAdded(s.trace, 1000 * s.time, 0, 1000 * (s.time + s.interval));
  }

  /** Nothing is reported about the time, and the clock stands still. */
  ghost predicate Waits(s: State, s': State) {
    Continued(s.trace, s'.trace) && s'.time == s.time && s'.haveTime == s.haveTime
  }

  lemma WaitsTwice(a: State, b: State, c: State)
    requires Waits(a, b) && Waits(b, c)
    ensures Waits(a, c)
  {
    hide Continued;
    ContinuedTwice(a.trace, b.trace, c.trace);
  }

  lemma GasWaits(s: State, oxygen: nat, helium: nat, mix: GasMix, id: nat)
    ensures Waits(s, GasSwitched(s, oxygen, helium).state)
    ensures Waits(s, GasConfigured(s, mix).state)
    ensures Waits(s, GasSelected(s, id).state)
  {
    hide FindMix, FindSameMix;
  }

  lemma PressureWaits(s: State, id: nat, usage: nat, pressure: nat, mix: nat)
    ensures Waits(s, PressureRead(s, id, usage, pressure, mix).state)
  {
    hide FindTank;
  }

  lemma {:induction false} Ppo2Waits(s: State, r: seq<byte>, n: nat)
    requires n <= 3 && |r| >= 5
    ensures Waits(s, Ppo2Reported(s, r, n))
    decreases n
  {
    if n > 0 {
      Ppo2Waits(s, r, n - 1);
    }
  }

  lemma ReportingWaits(s: State, sample: Sample, other: Sample)
    requires !sample.Time? && !other.Time?
    ensures Waits(s, Reporting(s, sample)) && Waits(s, Reporting(Reporting(s, sample), other))
  {
  }

  /** A record reports no time of its own. */
  lemma InterpretedWaits(s: State, kind: nat, r: seq<byte>)
    requires WellSized(kind, r)
    ensures Waits(s, Interpreted(s, kind, r).state)
  {
    hide PressureRead, GasSelected, GasSwitched, GasConfigured, CurrentMix, Ppo2Reported, Word, Reporting, Continued;
    NothingReported(s, s.(interval := if |r| > 10 then r[10] else 0));
    if kind == ID_GAS_TRANSMITTER {
      GasWaits(s, 0, 0, GasMix(0, 0, 0), r[2]);
      var selected := GasSelected(s, r[2]).state;
      PressureWaits(selected, Word(r, 8), USAGE_NONE, Word(r, 6), CurrentMix(selected));
      if GasSelected(s, r[2]).status == Success {
        WaitsTwice(s, selected, Interpreted(s, kind, r).state);
      }
    } else if kind == ID_PO2_REBREATHER {
      Ppo2Waits(s, r, 3);
      var reported := Ppo2Reported(s, r, 3);
      PressureWaits(reported, Word(r, 10), USAGE_OXYGEN, Word(r, 8), GASMIX_UNKNOWN);
      WaitsTwice(s, reported, Interpreted(s, kind, r).state);
    } else if kind == ID_PO2_BOARD {
      Ppo2Waits(s, r, 3);
    } else if kind == ID_GAS_SWITCH || kind == ID_GAS_CONFIG {
      GasWaits(s, r[2], r[3], if kind == ID_GAS_CONFIG then GasMix(r[2], r[3], r[4]) else GasMix(0, 0, 0), 0);
    } else if kind == ID_TANK_TRANSMITTER {
      PressureWaits(s, r[2] + TRANSMITTER_ID, USAGE_NONE, Word(r, 6) / 10, GASMIX_UNKNOWN);
    } else if kind == ID_DECO {
      var deco := if r[3] != 0 then DecoStop(r[3], 0, Word(r, 8)) else NoDeco(r[2] as int * 60, Word(r, 8));
      ReportingWaits(s, deco, Cns(r[4]));
    } else if kind == ID_DEPTH || kind == ID_TEMPERATURE || kind == ID_COMPASS {
      ReportingWaits(s, Depth(Word(r, 2)), Temperature(Word(r, 2)));
      ReportingWaits(s, Temperature(Word(r, 2)), Depth(Word(r, 2)));
      ReportingWaits(s, Bearing(Word(r, 2)), Depth(Word(r, 2)));
    }
  }

  lemma NothingReported(s: State, s': State)
    requires s'.trace == s.trace && s'.time == s.time && s'.haveTime == s.haveTime
    ensures Waits(s, s') && Waits(s, s)
  {
  }

  lemma {:induction false} ParsedInOrder(data: seq<byte>, offset: nat, s: State)
    requires Clocked(s)
    ensures var s' := Parsed(data, offset, s).state;
      Clocked(s') && (Increasing(s'.trace) <==> Increasing(s.trace) && Advances(data, offset, s))
    decreases |data| - offset
  {
    hide Interpreted, Ticked, KindOf, WellSized, Ticks, Increasing, Spaced, UpTo, Reached, Continued;
    if offset + 2 <= |data| {
      var r := RecordAt(data, offset);
      if |r| >= 2 {
        var kind := KindOf(r[0], |r|);
        if WellSized(kind, r) {
          var ticked, s' := Ticked(s, kind), Interpreted(Ticked(s, kind), kind, r).state;
          TickedInOrder(s, kind);
          InterpretedWaits(ticked, kind, r);
          ContinuedKeeps(ticked.trace, s'.trace, 0, 1000 * s'.time);
        }
        if Step(s, r).status == Success {
          ParsedInOrder(data, offset + |r|, Step(s, r).state);
        }
      }
    }
  }

  /** The times that a dive reports never decrease, however it ends, and they strictly
      increase exactly if the interval is not zero at any tick but the first. */
  lemma TimesInOrder(data: seq<byte>)
    ensures var s := Parsed(data, 0, START).state;
      Spaced(s.trace, 0) && (Increasing(s.trace) <==> Advances(data, 0, START))
  {
    ParsedInOrder(data, 0, START);
  }

  /** Every header record sets an interval that is not zero. */
  predicate HeadersPositive(data: seq<byte>, offset: nat)
    decreases |data| - offset
  {
    if offset + 2 > |data| then true
    else
      var r := RecordAt(data, offset);
      r == [] || ((r[0] == ID_HEADER && |r| > 10 ==> r[10] > 0) && HeadersPositive(data, offset + |r|))
  }

  lemma {:induction false} Ppo2Interval(s: State, r: seq<byte>, n: nat)
    requires n <= 3 && |r| >= 5
    ensures Ppo2Reported(s, r, n).interval == s.interval
    decreases n
  {
    if n > 0 {
      Ppo2Interval(s, r, n - 1);
    }
  }

  lemma GasInterval(s: State, oxygen: nat, helium: nat, mix: GasMix, id: nat)
    ensures GasSwitched(s, oxygen, helium).state.interval == s.interval
    ensures GasConfigured(s, mix).state.interval == s.interval
    ensures GasSelected(s, id).state.interval == s.interval
  {
    hide FindMix, FindSameMix;
  }

  lemma PressureInterval(s: State, id: nat, usage: nat, pressure: nat, mix: nat)
    ensures PressureRead(s, id, usage, pressure, mix).state.interval == s.interval
  {
    hide FindTank;
  }

  /** Only a header sets the interval. */
  lemma IntervalSet(s: State, kind: nat, r: seq<byte>)
    requires WellSized(kind, r)
    ensures Interpreted(s, kind, r).state.interval == if kind == ID_HEADER then r[10] else s.interval
  {
    hide PressureRead, GasSelected, GasSwitched, GasConfigured, CurrentMix, Ppo2Reported, Word;
    if kind == ID_GAS_TRANSMITTER {
      GasInterval(s, 0, 0, GasMix(0, 0, 0), r[2]);
      var selected := GasSelected(s, r[2]).state;
      PressureInterval(selected, Word(r, 8), USAGE_NONE, Word(r, 6), CurrentMix(selected));
    } else if kind == ID_PO2_REBREATHER {
      Ppo2Interval(s, r, 3);
      PressureInterval(Ppo2Reported(s, r, 3), Word(r, 10), USAGE_OXYGEN, Word(r, 8), GASMIX_UNKNOWN);
    } else if kind == ID_PO2_BOARD {
      Ppo2Interval(s, r, 3);
    } else if kind == ID_GAS_SWITCH || kind == ID_GAS_CONFIG {
      GasInterval(s, r[2], r[3], if kind == ID_GAS_CONFIG then GasMix(r[2], r[3], r[4]) else GasMix(0, 0, 0), 0);
    } else if kind == ID_TANK_TRANSMITTER {
      PressureInterval(s, r[2] + TRANSMITTER_ID, USAGE_NONE, Word(r, 6) / 10, GASMIX_UNKNOWN);
    }
  }

  lemma IntervalKept(s: State, r: seq<byte>)
    requires s.interval > 0 && (|r| > 10 && r[0] == ID_HEADER ==> r[10] > 0)
    ensures Step(s, r).state.interval > 0
  {
    hide Interpreted;
    if |r| >= 2 && WellSized(KindOf(r[0], |r|), r) {
      var kind := KindOf(r[0], |r|);
      IntervalSet(Ticked(s, kind), kind, r);
    }
  }

  lemma AdvancesStep(data: seq<byte>, offset: nat, s: State)
    requires s.interval > 0 || !s.haveTime
    requires offset + 2 <= |data| ==>
      (var r := RecordAt(data, offset);
       r == [] || Step(s, r).status != Success || Advances(data, offset + |r|, Step(s, r).state))
    ensures Advances(data, offset, s)
  {
    hide Step, KindOf, WellSized, Ticks, RecordAt;
  }

  lemma {:induction false} PositiveAdvances(data: seq<byte>, offset: nat, s: State)
    requires s.interval > 0 && HeadersPositive(data, offset)
    ensures Advances(data, offset, s)
    decreases |data| - offset
  {
    hide Step, RecordAt, Advances;
    if offset + 2 <= |data| {
      var r := RecordAt(data, offset);
      if r != [] && Step(s, r).status == Success {
        IntervalKept(s, r);
        PositiveAdvances(data, offset + |r|, Step(s, r).state);
      }
    }
    AdvancesStep(data, offset, s);
  }

  /** Times strictly increase in every dive that begins with a header, as long as each of
      its headers has an interval that is not zero. */
  lemma HeaderFirstIncreases(data: seq<byte>)
    requires |data| >= 2 && data[0] == ID_HEADER && HeadersPositive(data, 0)
    ensures Increasing(Parsed(data, 0, START).state.trace)
  {
    hide Parsed, Increasing, Step, Advances;
    TimesInOrder(data);
    var r, s := RecordAt(data, 0), START;
    if r != [] && Step(s, r).status == Success {
      FirstInterval(s, r);
      PositiveAdvances(data, |r|, Step(s, r).state);
    }
    AdvancesStep(data, 0, s);
  }

  lemma FirstInterval(s: State, r: seq<byte>)
    requires |r| >= 2 && r[0] == ID_HEADER && (|r| > 10 ==> r[10] > 0) && Step(s, r).status == Success
    ensures Step(s, r).state.interval > 0
  {
    hide Interpreted, Ticked;
    if WellSized(ID_HEADER, r) {
      IntervalSet(Ticked(s, ID_HEADER), ID_HEADER, r);
    }
  }
}
