/** What parsers report: samples in the raw units of the dive computer, and what a trace of
    them says about times, gas mixes and tanks. */
module Samples {
  const SENSOR_NONE: nat := 0xFFFF_FFFF

  datatype Sample =
    | Time(ms: nat)
    | Depth(depth: nat)
    | Temperature(tenths: int)
    | Gas(index: nat)
    | Pressure(tank: nat, pressure: nat)
    | Ppo2(sensor: nat, value: nat)
    | Ppo2Mv(sensor: nat, value: nat, calibration: nat)
    | Setpoint(value: nat)
    | Cns(value: nat)
    | DecoStop(stop: nat, time: nat, tts: nat)
    | SafetyStop(stop: nat, time: nat)
    | NoDeco(time: nat, tts: nat)
    | Bearing(degrees: nat)
    | Bookmark
    | TransmitterLost
    | Alarm(alarm: nat)

  /** The samples refer only to gas mixes and tanks that exist. */
  ghost predicate InRange(trace: seq<Sample>, mixes: nat, tanks: nat) {
    forall i | 0 <= i < |trace| ::
      (trace[i].Gas? ==> trace[i].index < mixes) && (trace[i].Pressure? ==> trace[i].tank < tanks)
  }

  /** Times strictly increase. */
  ghost predicate Increasing(trace: seq<Sample>) {
    forall i, j | 0 <= i < j < |trace| && trace[i].Time? && trace[j].Time? :: trace[i].ms < trace[j].ms
  }

  /** The pressures reported for one tank, in order. */
  function PressuresOf(trace: seq<Sample>, tank: nat): seq<nat> {
    if trace == [] then []
    else
      var last := trace[|trace| - 1];
      PressuresOf(trace[..|trace| - 1], tank) + if last.Pressure? && last.tank == tank then [last.pressure] else []
  }

  lemma PressuresMore(trace: seq<Sample>, sample: Sample, i: nat)
    ensures PressuresOf(trace + [sample], i)
            == PressuresOf(trace, i) + if sample.Pressure? && sample.tank == i then [sample.pressure] else []
  {
    assert (trace + [sample])[..|trace|] == trace;
  }

  /** The first and the last of a tank's pressures. */
  ghost predicate Spans(first: nat, last: nat, pressures: seq<nat>) {
    pressures != [] && first == pressures[0] && last == pressures[|pressures| - 1]
  }
}
