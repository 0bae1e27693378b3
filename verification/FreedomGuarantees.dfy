/** What the first pass over a Divesoft Freedom dive guarantees to the second. */
module FreedomGuarantees {
  import opened Bytes
  import opened Samples
  import opened FreedomRecords

  // ---------- Tables only grow ----------

  /** A table of tanks that has been added to and updated, but not renumbered. */
  ghost predicate Grown(a: seq<Tank>, b: seq<Tank>) {
    |a| <= |b| && forall i | 0 <= i < |a| :: a[i].transmitter == b[i].transmitter
  }

  lemma FindTankStays(a: seq<Tank>, b: seq<Tank>, transmitter: nat)
    requires Grown(a, b) && FindTank(a, transmitter) < |a|
    ensures FindTank(b, transmitter) == FindTank(a, transmitter)
  {
    var i, j := FindTank(a, transmitter), FindTank(b, transmitter);
    assert a[i].transmitter == b[i].transmitter;
  }

  lemma FindMixStays(a: seq<GasMix>, b: seq<GasMix>, mix: GasMix)
    requires a <= b && FindGasMix(a, mix) < |a|
    ensures FindGasMix(b, mix) == FindGasMix(a, mix)
  {
    var i, j := FindGasMix(a, mix), FindGasMix(b, mix);
    assert a[i] == b[i];
  }

  lemma NewMixIsLast(a: seq<GasMix>, mix: GasMix)
    requires FindGasMix(a, mix) == |a|
    ensures FindGasMix(a + [mix], mix) == |a|
  {
    assert (a + [mix])[|a|] == mix;
    assert forall i | 0 <= i < |a| :: (a + [mix])[i] == a[i];
  }

  lemma WithMixKnows(table: seq<GasMix>, mix: GasMix)
    requires WithMix(table, mix).Ok?
    ensures var all := WithMix(table, mix).value;
      && table <= all && FindGasMix(all, mix) < |all| && FindGasMix(all, mix) == FindGasMix(table, mix)
      && (|table| <= NGASMIXES ==> |all| <= NGASMIXES)
  {
    hide FindGasMix;
    if FindGasMix(table, mix) == |table| {
      NewMixIsLast(table, mix);
    }
  }

  lemma {:induction false} WithMixesKnows(table: seq<GasMix>, mixes: seq<GasMix>)
    requires WithMixes(table, mixes).Ok?
    ensures var all := WithMixes(table, mixes).value;
      && table <= all && (|table| <= NGASMIXES ==> |all| <= NGASMIXES)
      && forall i | 0 <= i < |mixes| :: FindGasMix(all, mixes[i]) < |all|
    decreases |mixes|
  {
    hide FindGasMix, WithMix;
    if mixes != [] {
      var n := |mixes| - 1;
      WithMixesKnows(table, mixes[..n]);
      var before := WithMixes(table, mixes[..n]).value;
      WithMixKnows(before, mixes[n]);
      var all := WithMixes(table, mixes).value;
      forall i | 0 <= i < n
        ensures FindGasMix(all, mixes[i]) < |all|
      {
        assert mixes[..n][i] == mixes[i];
        FindMixStays(before, all, mixes[i]);
      }
    }
  }

  lemma {:induction false} WithPressuresKnows(tanks: seq<Tank>, r: Record, n: nat)
    requires n <= NTANKS && WithPressures(tanks, r, n).Ok?
    ensures var all := WithPressures(tanks, r, n).value;
      && |all| == |tanks| && Grown(tanks, all)
      && forall i | 0 <= i < n && HasPressure(r, i) :: FindTank(tanks, i) < |tanks|
    decreases n
  {
    hide FindTank;
    if n > 0 {
      WithPressuresKnows(tanks, r, n - 1);
      var before := WithPressures(tanks, r, n - 1).value;
      if HasPressure(r, n - 1) {
        FindTankStays(before, tanks, n - 1);
      }
    }
  }

  lemma {:induction false} WithDiluentsBounded(mixes: seq<GasMix>, r: Record, n: nat)
    requires n <= 4 && |mixes| <= NGASMIXES
    ensures WithDiluents(mixes, r, n).Ok? ==> |WithDiluents(mixes, r, n).value| <= NGASMIXES
    decreases n
  {
    if n > 0 {
      WithDiluentsBounded(mixes, r, n - 1);
    }
  }

  // ---------- The first pass knows what the second will look up ----------

  /** Every mix and tank that a record refers to is in the tables. */
  ghost predicate Known(mixes: seq<GasMix>, tanks: seq<Tank>, r: Record) {
    && (IsGasChange(r) ==> FindGasMix(mixes, MixOf(r)) < |mixes|)
    && (IsPressure(r) ==> forall i | 0 <= i < NTANKS && HasPressure(r, i) :: FindTank(tanks, i) < |tanks|)
  }

  ghost predicate TablesBounded(t: Tables) {
    && |t.ai| == |t.tanks| <= NTANKS && |t.diluents| <= NGASMIXES && |t.events| <= NGASMIXES
    && |t.calibration| == NSENSORS
  }

  lemma KnownStays(mixes: seq<GasMix>, tanks: seq<Tank>, more: seq<GasMix>, others: seq<Tank>, r: Record)
    requires Known(mixes, tanks, r) && Grown(tanks, others)
    requires IsGasChange(r) ==> FindGasMix(more, MixOf(r)) < |more|
    ensures Known(more, others, r)
  {
    hide FindTank, FindGasMix, IsGasChange;
    if IsPressure(r) {
      forall i | 0 <= i < NTANKS && HasPressure(r, i)
        ensures FindTank(others, i) < |others|
      {
        FindTankStays(tanks, others, i);
      }
    }
  }

  lemma WithRecordKnows(t: Tables, r: Record)
    requires TablesBounded(t) && WithRecord(t, r).Ok?
    ensures var t' := WithRecord(t, r).value;
      && TablesBounded(t') && t.ai <= t'.ai && t.events <= t'.events && Grown(t.tanks, t'.tanks)
      && Known(t'.events, t'.tanks, r)
  {
    hide FindTank, FindGasMix, MixOf, HasPressure, WithDiluents, WithPressures, WithMix;
    WithDiluentsBounded(t.diluents, r, 4);
    if IsGasChange(r) {
      WithMixKnows(t.events, MixOf(r));
    } else if IsPressure(r) {
      WithPressuresKnows(t.tanks, r, NTANKS);
      var all := WithPressures(t.tanks, r, NTANKS).value;
      forall i | 0 <= i < NTANKS && HasPressure(r, i)
        ensures FindTank(all, i) < |all|
      {
        FindTankStays(t.tanks, all, i);
      }
    }
  }

  lemma {:induction false} CollectedKnows(rs: seq<Record>)
    requires Collected(rs).Ok?
    ensures var t := Collected(rs).value;
      TablesBounded(t) && forall k | 0 <= k < |rs| :: Known(t.events, t.tanks, rs[k])
    decreases |rs|
  {
    hide WithRecord, Known, Grown;
    if rs != [] {
      var n := |rs| - 1;
      CollectedKnows(rs[..n]);
      var before, t := Collected(rs[..n]).value, Collected(rs).value;
      WithRecordKnows(before, rs[n]);
      forall k | 0 <= k < n
        ensures Known(t.events, t.tanks, rs[k])
      {
        assert rs[..n][k] == rs[k];
        MixStaysKnown(before.events, before.tanks, t.events, rs[k]);
        KnownStays(before.events, before.tanks, t.events, t.tanks, rs[k]);
      }
    }
  }

  lemma MixStaysKnown(mixes: seq<GasMix>, tanks: seq<Tank>, more: seq<GasMix>, r: Record)
    requires Known(mixes, tanks, r) && mixes <= more
    ensures IsGasChange(r) ==> FindGasMix(more, MixOf(r)) < |more|
  {
    if IsGasChange(r) {
      FindMixStays(mixes, more, MixOf(r));
    }
  }

  /** After a successful first pass every gas and tank the dive refers to will be found,
      the tables fit, and the initial diluent is one of the mixes. */
  lemma CachedKnows(h: Header, rs: seq<Record>)
    requires Cached(h, rs).Ok?
    ensures var c := Cached(h, rs).value;
      && (forall k | 0 <= k < |rs| :: Known(c.gasmixes, c.tanks, rs[k]))
      && |c.tanks| <= |c.gasmixes| <= NGASMIXES && |c.tanks| <= NTANKS && |c.calibration| == NSENSORS
      && (if HasInitialDiluent(h) then c.diluent == FindGasMix(c.gasmixes, InitialDiluent(h)) < |c.gasmixes|
          else c.diluent == UNDEFINED)
    ensures Collected(rs).value.ai <= Cached(h, rs).value.gasmixes
  {
    hide Collected, Known, WithMix, WithMixes, FindGasMix, FindTank, MixOf;
    var t, c := Collected(rs).value, Cached(h, rs).value;
    CollectedKnows(rs);
    WithMixesKnows(t.ai, t.diluents);
    var tabled := WithMixes(t.ai, t.diluents).value;
    if HasInitialDiluent(h) {
      WithMixKnows(tabled, InitialDiluent(h));
    }
    var started := if HasInitialDiluent(h) then WithMix(tabled, InitialDiluent(h)).value else tabled;
    WithMixesKnows(started, t.events);
    if HasInitialDiluent(h) {
      FindMixStays(started, c.gasmixes, InitialDiluent(h));
    }
    forall k | 0 <= k < |rs|
      ensures Known(c.gasmixes, c.tanks, rs[k])
    {
      KnownInMerged(t, c, rs[k]);
    }
  }

  lemma KnownInMerged(t: Tables, c: Cache, r: Record)
    requires Known(t.events, t.tanks, r) && c.tanks == t.tanks
    requires forall i | 0 <= i < |t.events| :: FindGasMix(c.gasmixes, t.events[i]) < |c.gasmixes|
    ensures Known(c.gasmixes, c.tanks, r)
  {
    if IsGasChange(r) {
      var mix := MixOf(r);
      var i := FindGasMix(t.events, mix);
      var j := FindGasMix(c.gasmixes, t.events[i]);
      assert SameMix(c.gasmixes[j], mix);
    }
  }

  // ---------- Mixes and tanks of the same record ----------

  function AiRecords(rs: seq<Record>): seq<Record> {
    if rs == [] then []
    else
      var n := |rs| - 1;
      AiRecords(rs[..n]) + if IsConfiguration(rs[n], CFG_ID_AI) then [rs[n]] else []
  }

  /** Tank and mix describe the same cylinder. */
  ghost predicate Describes(tank: Tank, mix: GasMix, r: Record) {
    && tank.volume == Word(r, 6) && tank.workpressure == Word(r, 8) && tank.transmitter == r[10]
    && mix.oxygen == r[4] && mix.helium == r[5]
  }

  ghost predicate DescribesAll(tanks: seq<Tank>, mixes: seq<GasMix>, rs: seq<Record>) {
    && |tanks| == |mixes| == |rs|
    && forall i | 0 <= i < |rs| :: Describes(tanks[i], mixes[i], rs[i])
  }

  lemma {:induction false} WithPressuresDescribes(tanks: seq<Tank>, mixes: seq<GasMix>, ai: seq<Record>,
                                                  r: Record, n: nat)
    requires n <= NTANKS && WithPressures(tanks, r, n).Ok? && DescribesAll(tanks, mixes, ai)
    ensures DescribesAll(WithPressures(tanks, r, n).value, mixes, ai)
    decreases n
  {
    hide FindTank, HasPressure;
    if n > 0 {
      WithPressuresDescribes(tanks, mixes, ai, r, n - 1);
    }
  }

  lemma {:induction false} CollectedDescribes(rs: seq<Record>)
    requires Collected(rs).Ok?
    ensures DescribesAll(Collected(rs).value.tanks, Collected(rs).value.ai, AiRecords(rs))
    decreases |rs|
  {
    hide WithDiluents, WithPressures, WithMix, Word;
    if rs != [] {
      var n := |rs| - 1;
      CollectedDescribes(rs[..n]);
      var before := Collected(rs[..n]).value;
      if IsPressure(rs[n]) {
        WithPressuresDescribes(before.tanks, before.ai, AiRecords(rs[..n]), rs[n], NTANKS);
      }
    }
  }

  /** Tank `i` is reported with gas mix `i`, and that is the mix of its own record. */
  lemma TanksHaveTheirMix(h: Header, rs: seq<Record>)
    requires Cached(h, rs).Ok?
    ensures var c := Cached(h, rs).value;
      |c.tanks| <= |c.gasmixes| && DescribesAll(c.tanks, c.gasmixes[..|c.tanks|], AiRecords(rs))
  {
    hide Collected, WithMix, WithMixes, FindGasMix, DescribesAll, AiRecords;
    CachedKnows(h, rs);
    CollectedKnows(rs);
    CollectedDescribes(rs);
    var t, c := Collected(rs).value, Cached(h, rs).value;
    assert c.gasmixes[..|c.tanks|] == t.ai;
  }

  // ---------- Pressures at the start and the end ----------

  /** The readings of one tank in one record, by the final numbering of the tanks. */
  function RecordReadings(tanks: seq<Tank>, r: Record, n: nat, i: nat): seq<nat>
    requires n <= NTANKS
  {
    if n == 0 then []
    else
      RecordReadings(tanks, r, n - 1, i)
      + if HasPressure(r, n - 1) && FindTank(tanks, n - 1) == i then [r[4 + n - 1]] else []
  }

  function Readings(tanks: seq<Tank>, rs: seq<Record>, i: nat): seq<nat> {
    if rs == [] then []
    else
      var n := |rs| - 1;
      Readings(tanks, rs[..n], i) + if IsPressure(rs[n]) then RecordReadings(tanks, rs[n], NTANKS, i) else []
  }

  /** A tank shows the first and the last of its readings. */
  ghost predicate Tracks(tank: Tank, readings: seq<nat>) {
    && (tank.active <==> readings != [])
    && (readings != [] ==> tank.beginpressure == readings[0] && tank.endpressure == readings[|readings| - 1])
    && (readings == [] ==> tank.beginpressure == 0 && tank.endpressure == 0)
  }

  /** A tank that is not in the table yet has no readings. */
  ghost predicate TracksAt(tanks: seq<Tank>, i: nat, readings: seq<nat>) {
    if i < |tanks| then Tracks(tanks[i], readings) else readings == []
  }

  lemma {:induction false} WithPressuresTracks(tanks: seq<Tank>, all: seq<Tank>, r: Record, n: nat, i: nat,
                                               before: seq<nat>)
    requires n <= NTANKS && WithPressures(tanks, r, n).Ok? && Grown(tanks, all) && TracksAt(tanks, i, before)
    ensures TracksAt(WithPressures(tanks, r, n).value, i, before + RecordReadings(all, r, n, i))
    decreases n
  {
    hide FindTank, HasPressure, Grown;
    if n > 0 {
      WithPressuresTracks(tanks, all, r, n - 1, i, before);
      WithPressuresKnows(tanks, r, n - 1);
      WithPressuresKnows(tanks, r, n);
      var mid := WithPressures(tanks, r, n - 1).value;
      var was, now := before + RecordReadings(all, r, n - 1, i), before + RecordReadings(all, r, n, i);
      if HasPressure(r, n - 1) {
        FindTankStays(tanks, all, n - 1);
        FindTankStays(tanks, mid, n - 1);
        if FindTank(all, n - 1) == i {
          assert now == was + [r[4 + n - 1]];
        } else {
          assert now == was;
        }
      } else {
        assert now == was;
      }
    } else {
      assert before + [] == before;
    }
  }

  lemma {:induction false} CollectedTracks(rs: seq<Record>, all: seq<Tank>, i: nat)
    requires Collected(rs).Ok? && Grown(Collected(rs).value.tanks, all)
    ensures TracksAt(Collected(rs).value.tanks, i, Readings(all, rs, i))
    decreases |rs|
  {
    hide WithDiluents, WithPressures, WithMix, Word, RecordReadings, Tracks;
    if rs != [] {
      var n := |rs| - 1;
      var r, before := rs[n], Collected(rs[..n]).value;
      CollectedKnows(rs[..n]);
      WithRecordKnows(before, r);
      CollectedTracks(rs[..n], all, i);
      if IsPressure(r) {
        WithPressuresTracks(before.tanks, all, r, NTANKS, i, Readings(all, rs[..n], i));
      } else {
        NewTankTracks(r);
        assert Readings(all, rs, i) == Readings(all, rs[..n], i);
      }
    }
  }

  lemma NewTankTracks(r: Record)
    ensures Tracks(TankOf(r), [])
  {
  }

  /** Every tank is reported with the first and the last of its recorded pressures. */
  lemma TanksTrackPressures(h: Header, rs: seq<Record>)
    requires Cached(h, rs).Ok?
    ensures var tanks := Cached(h, rs).value.tanks;
      forall i | 0 <= i < |tanks| :: Tracks(tanks[i], Readings(tanks, rs, i))
  {
    hide Collected, Tracks, Readings;
    var tanks := Cached(h, rs).value.tanks;
    forall i | 0 <= i < |tanks|
      ensures Tracks(tanks[i], Readings(tanks, rs, i))
    {
      CollectedTracks(rs, tanks, i);
    }
  }

  // ---------- The second pass ----------

  lemma {:induction false} PressuresFound(c: Cache, r: Record, n: nat)
    requires n <= NTANKS && forall i | 0 <= i < n && HasPressure(r, i) :: FindTank(c.tanks, i) < |c.tanks|
    ensures PressureSamples(c, r, n).status == Success
    decreases n
  {
    if n > 0 {
      PressuresFound(c, r, n - 1);
    }
  }

  /** A record whose gas and tanks are known is reported. */
  lemma KnownIsReported(c: Cache, r: Record)
    requires |c.calibration| == NSENSORS && !IsEmpty(r) && Known(c.gasmixes, c.tanks, r)
    ensures RecordSamples(c, r).status == Success
  {
    hide MixOf, HasPressure, FindTank, FindGasMix, PressureSamples;
    if IsPressure(r) {
      PressuresFound(c, r, NTANKS);
    }
  }

  /** At some point time moves back by more than five seconds from a time seen before. */
  ghost predicate JumpsBack(rs: seq<Record>) {
    exists j, k | 0 <= j < k < |rs| :: !IsEmpty(rs[j]) && !IsEmpty(rs[k]) && TimeOf(rs[j]) > TimeOf(rs[k]) + 5
  }

  /** While the second pass is going on, its time is the latest one seen. */
  ghost predicate LatestTime(rs: seq<Record>, time: nat) {
    && (forall k | 0 <= k < |rs| && !IsEmpty(rs[k]) :: TimeOf(rs[k]) <= time < 0x2_0000)
    && (time != UNDEFINED ==> exists k | 0 <= k < |rs| :: !IsEmpty(rs[k]) && TimeOf(rs[k]) == time)
  }

  lemma LatestStep(rs: seq<Record>, time: nat, r: Record, time': nat)
    requires LatestTime(rs, time) && (time == UNDEFINED || time < 0x2_0000)
    requires if IsEmpty(r) || TimeOf(r) < time < UNDEFINED then time' == time else time' == TimeOf(r)
    ensures LatestTime(rs + [r], time')
  {
    hide IsEmpty, TimeOf;
    var all := rs + [r];
    assert all[|rs|] == r;
    if time' == time != UNDEFINED {
      var k :| 0 <= k < |rs| && !IsEmpty(rs[k]) && TimeOf(rs[k]) == time;
      assert all[k] == rs[k];
    }
    forall k | 0 <= k < |all| && !IsEmpty(all[k])
      ensures TimeOf(all[k]) <= time' < 0x2_0000
    {
      if k < |rs| {
        assert all[k] == rs[k];
      }
    }
  }

  lemma JumpsStep(rs: seq<Record>, time: nat, r: Record)
    requires LatestTime(rs, time) && !JumpsBack(rs)
    ensures JumpsBack(rs + [r]) <==> !IsEmpty(r) && time != UNDEFINED && time > TimeOf(r) + 5
  {
    hide IsEmpty, TimeOf;
    var all := rs + [r];
    assert all[|rs|] == r;
    if !IsEmpty(r) && time != UNDEFINED && time > TimeOf(r) + 5 {
      var k :| 0 <= k < |rs| && !IsEmpty(rs[k]) && TimeOf(rs[k]) == time;
      assert all[k] == rs[k];
    }
    if JumpsBack(all) {
      var j, k :| 0 <= j < k < |all| && !IsEmpty(all[j]) && !IsEmpty(all[k]) && TimeOf(all[j]) > TimeOf(all[k]) + 5;
      assert all[j] == rs[j];
    }
  }

  lemma JumpsStay(rs: seq<Record>, r: Record)
    requires JumpsBack(rs)
    ensures JumpsBack(rs + [r])
  {
    hide IsEmpty, TimeOf;
    var j, k :| 0 <= j < k < |rs| && !IsEmpty(rs[j]) && !IsEmpty(rs[k]) && TimeOf(rs[j]) > TimeOf(rs[k]) + 5;
    var all := rs + [r];
    assert all[j] == rs[j] && all[k] == rs[k];
  }

  lemma ReportedStep(c: Cache, p: Pass, r: Record)
    requires |c.calibration| == NSENSORS && Known(c.gasmixes, c.tanks, r)
    ensures var p' := Reported(c, p, r);
      if IsEmpty(r) then p' == p
      else if TimeOf(r) < p.time && p.time != UNDEFINED then
        p' == p.(status := if p.time > TimeOf(r) + 5 then DataFormat else p.status)
      else p'.status == Success && p'.time == TimeOf(r)
  {
    hide IsEmpty, TimeOf, RecordSamples, Known;
    if !IsEmpty(r) {
      KnownIsReported(c, r);
    }
  }

  lemma {:induction false} PlayedOn(c: Cache, rs: seq<Record>)
    requires |c.calibration| == NSENSORS && forall k | 0 <= k < |rs| :: Known(c.gasmixes, c.tanks, rs[k])
    ensures var p := Played(c, rs);
      && (p.status == Success <==> !JumpsBack(rs))
      && (p.status == Success || p.status == DataFormat)
      && (p.status == Success ==> LatestTime(rs, p.time) && (p.time == UNDEFINED || p.time < 0x2_0000))
    decreases |rs|
  {
    hide Known, Reported, JumpsBack, LatestTime, IsEmpty, TimeOf;
    if rs == [] {
      NothingPlayed();
    } else {
      var n := |rs| - 1;
      var before := Played(c, rs[..n]);
      assert forall k | 0 <= k < n :: rs[..n][k] == rs[k];
      PlayedOn(c, rs[..n]);
      assert rs == rs[..n] + [rs[n]];
      if before.status == Success {
        ReportedStep(c, before, rs[n]);
        JumpsStep(rs[..n], before.time, rs[n]);
        if Played(c, rs).status == Success {
          LatestStep(rs[..n], before.time, rs[n], Played(c, rs).time);
        }
      } else {
        JumpsStay(rs[..n], rs[n]);
      }
    }
  }

  lemma NothingPlayed()
    ensures !JumpsBack([]) && LatestTime([], UNDEFINED)
  {
  }

  /** Once the first pass has succeeded the second never misses a gas or a tank: it fails
      exactly if time moves back by more than five seconds. */
  lemma OnlyTimeCanFail(h: Header, rs: seq<Record>)
    requires Cached(h, rs).Ok?
    ensures |Cached(h, rs).value.calibration| == NSENSORS
    ensures var status := Played(Cached(h, rs).value, rs).status;
      (status == Success || status == DataFormat) && (status == DataFormat <==> JumpsBack(rs))
  {
    hide Cached, Known, JumpsBack, FindGasMix;
    CachedKnows(h, rs);
    PlayedOn(Cached(h, rs).value, rs);
  }

  // ---------- What is reported ----------

  ghost predicate Until(trace: seq<Sample>, time: nat) {
    forall i | 0 <= i < |trace| && trace[i].Time? :: time != UNDEFINED && trace[i].ms <= time * 1000
  }

  ghost predicate Timeless(trace: seq<Sample>) {
    forall i | 0 <= i < |trace| :: !trace[i].Time?
  }

  lemma {:induction false} PressureSamplesSound(c: Cache, r: Record, n: nat)
    requires n <= NTANKS
    ensures InRange(PressureSamples(c, r, n).samples, |c.gasmixes|, |c.tanks|)
    ensures Timeless(PressureSamples(c, r, n).samples)
    decreases n
  {
    hide FindTank, HasPressure;
    if n > 0 {
      PressureSamplesSound(c, r, n - 1);
    }
  }

  lemma {:induction false} SensorSamplesSound(c: Cache, r: Record, n: nat)
    requires n <= NSENSORS == |c.calibration|
    ensures InRange(OxygenSamples(r, n), |c.gasmixes|, |c.tanks|) && Timeless(OxygenSamples(r, n))
    ensures InRange(VoltageSamples(c, r, n), |c.gasmixes|, |c.tanks|) && Timeless(VoltageSamples(c, r, n))
    decreases n
  {
    hide Word;
    if n > 0 {
      SensorSamplesSound(c, r, n - 1);
    }
  }

  lemma RecordSamplesSound(c: Cache, r: Record)
    requires |c.calibration| == NSENSORS && !IsEmpty(r)
    ensures InRange(RecordSamples(c, r).samples, |c.gasmixes|, |c.tanks|) && Timeless(RecordSamples(c, r).samples)
  {
    hide FindGasMix, MixOf, PressureSamples, OxygenSamples, VoltageSamples, IsEmpty, IdOf, Word;
    PressureSamplesSound(c, r, NTANKS);
    SensorSamplesSound(c, r, NSENSORS);
  }

  lemma TimeThenSamples(trace: seq<Sample>, time: nat, next: nat, more: seq<Sample>)
    requires Increasing(trace) && Until(trace, time) && Timeless(more)
    requires time == UNDEFINED || time <= next
    ensures var times := if next != time then [Time(next * 1000)] else [];
      next != UNDEFINED ==> Increasing(trace + times + more) && Until(trace + times + more, next)
  {
  }

  lemma {:induction false} PlayedSound(c: Cache, rs: seq<Record>)
    requires |c.calibration| == NSENSORS && (c.diluent == UNDEFINED || c.diluent < |c.gasmixes|)
    ensures var p := Played(c, rs);
      && InRange(p.trace, |c.gasmixes|, |c.tanks|) && Increasing(p.trace) && Until(p.trace, p.time)
    decreases |rs|
  {
    hide RecordSamples, IsEmpty, TimeOf, Increasing, Until, Timeless;
    if rs == [] {
      NothingReported();
    } else {
      var n := |rs| - 1;
      var r, before := rs[n], Played(c, rs[..n]);
      PlayedSound(c, rs[..n]);
      if before.status == Success && !IsEmpty(r) && !(TimeOf(r) < before.time && before.time != UNDEFINED) {
        RecordSamplesSound(c, r);
        var gases := if !before.initial && c.diluent != UNDEFINED then [Gas(c.diluent)] else [];
        var times := if TimeOf(r) != before.time then [Time(TimeOf(r) * 1000)] else [];
        var samples := RecordSamples(c, r).samples;
        TimelessSum(gases, samples);
        TimeThenSamples(before.trace, before.time, TimeOf(r), gases + samples);
        assert before.trace + times + gases + samples == before.trace + times + (gases + samples);
      }
    }
  }

  lemma NothingReported()
    ensures Increasing([]) && Until([], UNDEFINED)
  {
  }

  lemma TimelessSum(gases: seq<Sample>, samples: seq<Sample>)
    requires Timeless(samples) && forall i | 0 <= i < |gases| :: gases[i].Gas?
    ensures Timeless(gases + samples)
  {
  }

  /** Whatever the second pass reports, times strictly increase and every gas and tank
      index is in range. */
  lemma ReportsAreSound(h: Header, rs: seq<Record>)
    requires Cached(h, rs).Ok?
    ensures |Cached(h, rs).value.calibration| == NSENSORS
    ensures var c := Cached(h, rs).value;
      InRange(Played(c, rs).trace, |c.gasmixes|, |c.tanks|) && Increasing(Played(c, rs).trace)
  {
    hide Cached, Played, InRange, Increasing, Known;
    CachedKnows(h, rs);
    PlayedSound(Cached(h, rs).value, rs);
  }
}
