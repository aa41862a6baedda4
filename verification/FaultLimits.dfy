/** How far the simulator's alarms can be trusted: exactly which configurations let a temperature
    alarm be raised by a compressor that has not been hot, and exactly which identifiers let a
    compressor's flag be wrong. */
module FaultLimits {
  import opened Plant
  import opened Faults
  import opened Session
  import opened Runs
  import opened Latching

  // ----- the first cycle -----

  const IDLE := Command(false, false, false)
  const RUN := Command(false, true, false)

  /** The same command for every compressor, and no demand. */
  function FirstInput(station: StationConfig, command: Command): Input {
    Input(false, map id | id in Ids(station) :: command, 0.0)
  }

  /** What the rules see of a compressor in the first cycle when automatic mode is off. */
  lemma FirstCycle(config: FaultConfig, station: StationConfig, command: Command, elapsed: real)
    requires station.maximumDemand != 0.0 && !command.automaticMode
    ensures var inputs := [FirstInput(station, command)];
            && AcceptsAll(station, inputs)
            && Carried(config, station, inputs, elapsed) == NO_FAULTS
            && forall i | 0 <= i < |station.compressors| ::
                 Seen(config, station, inputs, elapsed).compressors[i] ==
                 Advance(Told(InitialCompressor(station.compressors[i]), command), false, elapsed)
  {
    var input := FirstInput(station, command);
    forall c | c in station.compressors
      ensures c.id in input.commands
    {
      var i :| 0 <= i < |station.compressors| && station.compressors[i] == c;
      assert Ids(station)[i] == c.id;
    }
    assert Before([input]) == [];
    var s := Seen(config, station, [input], elapsed);
    forall i | 0 <= i < |station.compressors|
      ensures s.compressors[i] == Advance(Told(InitialCompressor(station.compressors[i]), command), false, elapsed)
    {
      assert station.compressors[i] in station.compressors;
    }
  }

  /** A compressor that has not run yet stays as it is. */
  lemma IdleCompressor(config: CompressorConfig, elapsed: real)
    requires SaneCompressor(config) && elapsed >= 0.0
    ensures Advance(Told(InitialCompressor(config), IDLE), false, elapsed).temperature == config.stoppedTemperature
  {
    StepNonNegative(config.coolingRate, elapsed);
  }

  // ----- temperature alarms -----

  /** Whoever owns a latched temperature alarm has been hot since the last reset. */
  ghost predicate OnlyHotAlarm(config: FaultConfig, station: StationConfig, elapsed: real, inputs: seq<Input>, i: nat) {
    AcceptsAll(station, inputs) && i < |station.compressors| &&
    IsLatched(RunAll(config, station, inputs, elapsed).faults.active, station.compressors[i].id, HighTemperature) ==>
      SinceReset(inputs, Hot(config, station, elapsed, i))
  }

  /** A positive delay cannot pass without a hot cycle. */
  lemma DelayNeedsHeat(config: FaultConfig, station: StationConfig, elapsed: real, inputs: seq<Input>, i: nat)
    requires OwnIds(station) && config.highTemperatureDelay > 0.0
    ensures OnlyHotAlarm(config, station, elapsed, inputs, i)
  {
    if AcceptsAll(station, inputs) && i < |station.compressors| &&
       IsLatched(RunAll(config, station, inputs, elapsed).faults.active, station.compressors[i].id, HighTemperature)
    {
      LatchedSinceReset(config, station, inputs, elapsed, i, HighTemperature);
      var held := Condition(config, station, elapsed, i, HighTemperature);
      var k: nat :| NoResetAfter(inputs, k) && HeldIn(inputs, held, k);
      assert HoldsNow(config, station, inputs[..k + 1], elapsed, i, HighTemperature);
      assert Streak(inputs[..k + 1], Hot(config, station, elapsed, i)) > 0;
      assert HeldIn(inputs, Hot(config, station, elapsed, i), k);
    }
  }

  /** A compressor that is hot even at rest is hot in every cycle. */
  lemma HotAtRest(config: FaultConfig, station: StationConfig, elapsed: real, inputs: seq<Input>, i: nat)
    requires SaneStation(station) && elapsed >= 0.0
    requires i < |station.compressors| ==> station.compressors[i].stoppedTemperature > config.highTemperature
    ensures OnlyHotAlarm(config, station, elapsed, inputs, i)
  {
    if AcceptsAll(station, inputs) && i < |station.compressors| && inputs != [] {
      RunStaysInBounds(config, station, inputs, elapsed);
      var s := Seen(config, station, inputs, elapsed);
      assert CompressorInBounds(s.compressors[i]) && s.compressors[i].config == station.compressors[i];
      assert inputs[..|inputs| - 1 + 1] == inputs;
      assert HeldIn(inputs, Hot(config, station, elapsed, i), |inputs| - 1);
      assert NoResetAfter(inputs, |inputs| - 1);
    }
  }

  lemma ColdCycle(config: FaultConfig, station: StationConfig, inputs: seq<Input>, elapsed: real, i: nat)
    requires AcceptsAll(station, inputs) && inputs != [] && i < |station.compressors| &&
             config.highTemperatureDelay <= 0.0
    requires Seen(config, station, inputs, elapsed).compressors[i].temperature <= config.highTemperature
    ensures !Hot(config, station, elapsed, i)(inputs)
    ensures Condition(config, station, elapsed, i, HighTemperature)(inputs)
  {
    assert !Hot(config, station, elapsed, i)(inputs);
    assert Streak(inputs, Hot(config, station, elapsed, i)) == 0;
    assert HoldsNow(config, station, inputs, elapsed, i, HighTemperature);
  }

  /** Without a delay, a cold compressor's alarm is latched by the first cycle of a run. */
  lemma ColdStartRaises(config: FaultConfig, station: StationConfig, elapsed: real, i: nat)
    requires SaneStation(station) && OwnIds(station) && elapsed >= 0.0 && config.highTemperatureDelay <= 0.0
    requires i < |station.compressors| && station.compressors[i].stoppedTemperature <= config.highTemperature
    ensures var inputs := [FirstInput(station, IDLE)];
            && AcceptsAll(station, inputs)
            && IsLatched(RunAll(config, station, inputs, elapsed).faults.active, station.compressors[i].id,
                         HighTemperature)
            && !SinceReset(inputs, Hot(config, station, elapsed, i))
  {
    var inputs := [FirstInput(station, IDLE)];
    FirstCycle(config, station, IDLE, elapsed);
    IdleCompressor(station.compressors[i], elapsed);
    ColdCycle(config, station, inputs, elapsed, i);
    SingleCycle(inputs, Hot(config, station, elapsed, i));
    SingleCycle(inputs, Condition(config, station, elapsed, i, HighTemperature));
    LatchedSinceReset(config, station, inputs, elapsed, i, HighTemperature);
  }

  /** A latched temperature alarm means a hot compressor, in every run of a station, exactly when the
      delay is positive or every compressor is too hot even at rest. */
  lemma TemperatureAlarmsMeanHeat(config: FaultConfig, station: StationConfig, elapsed: real)
    requires SaneStation(station) && OwnIds(station) && elapsed >= 0.0
    ensures (forall inputs, i: nat :: OnlyHotAlarm(config, station, elapsed, inputs, i)) <==>
            || config.highTemperatureDelay > 0.0
            || forall i | 0 <= i < |station.compressors| ::
              station.compressors[i].stoppedTemperature > config.highTemperature
  {
    if config.highTemperatureDelay > 0.0 {
      forall inputs, i: nat
        ensures OnlyHotAlarm(config, station, elapsed, inputs, i)
      {
        DelayNeedsHeat(config, station, elapsed, inputs, i);
      }
    } else if i: nat :|
      i < |station.compressors| && station.compressors[i].stoppedTemperature <= config.highTemperature {
      ColdStartRaises(config, station, elapsed, i);
      assert !OnlyHotAlarm(config, station, elapsed, [FirstInput(station, IDLE)], i);
    } else {
      forall inputs, i: nat
        ensures OnlyHotAlarm(config, station, elapsed, inputs, i)
      {
        HotAtRest(config, station, elapsed, inputs, i);
      }
    }
  }

  // ----- flags -----

  /** A cold station with these identifiers whose receiver starts above the pressure threshold below.
      Compressor k draws more current than the overload threshold, the others draw less. */
  function Probe(ids: seq<string>, stationId: string, k: nat): StationConfig {
    StationConfig(stationId, stationId, 0.0, 1.0, 10.0, 0.0, 10.0, 0.0, 0.0, 0.0,
                  seq(|ids|, i requires 0 <= i < |ids| => ProbeCompressor(ids[i], if i == k then 40.0 else 20.0)))
  }

  function ProbeCompressor(id: string, current: real): CompressorConfig {
    CompressorConfig(id, id, 0.0, 0.0, 0.0, 25.0, 80.0, 0.0, 0.0, current, current)
  }

  const PROBE_FAULTS := FaultConfig(80.0, 5.0, 700, "", 30.0, 900, "", 600, "", 9.5, 800, "")

  /** The probe's first cycle, in which every compressor is told to run. */
  function ProbeInputs(ids: seq<string>, stationId: string, k: nat): seq<Input> {
    [FirstInput(Probe(ids, stationId, k), RUN)]
  }

  predicate IsQuiet(config: FaultConfig, c: Compressor) {
    c.temperature <= config.highTemperature && c.motorCurrent <= config.overloadCurrent && !c.sensorFaultCommand
  }

  lemma QuietOneRaisesNothing(config: FaultConfig, s: FaultState, c: Compressor, elapsed: real)
    requires s.active == [] && IsQuiet(config, c) && config.highTemperatureDelay > 0.0
    ensures AfterCompressor(config, s, c, elapsed).active == []
  {
    assert HotFor(config, s.durations, c, elapsed) == 0.0;
  }

  lemma {:induction false} QuietOnesRaiseNothing(config: FaultConfig, cs: seq<Compressor>, elapsed: real, n: nat)
    requires n <= |cs| && config.highTemperatureDelay > 0.0
    requires forall i | 0 <= i < n :: IsQuiet(config, cs[i])
    ensures AfterCompressors(config, NO_FAULTS, cs, elapsed, n).active == []
  {
    if n > 0 {
      QuietOnesRaiseNothing(config, cs, elapsed, n - 1);
      QuietOneRaisesNothing(config, AfterCompressors(config, NO_FAULTS, cs, elapsed, n - 1), cs[n - 1], elapsed);
    }
  }

  lemma ProbeRuns(id: string, current: real)
    requires current > 0.0
    ensures var c := Advance(Told(InitialCompressor(ProbeCompressor(id, current)), RUN), false, 1.0);
            c.config.id == id && c.temperature == 25.0 && c.motorCurrent == current && !c.sensorFaultCommand
  {
  }

  /** In its first cycle all compressors run at the current of their configuration. */
  lemma ProbeIsSeen(ids: seq<string>, stationId: string, k: nat)
    ensures AcceptsAll(Probe(ids, stationId, k), ProbeInputs(ids, stationId, k))
    ensures Carried(PROBE_FAULTS, Probe(ids, stationId, k), ProbeInputs(ids, stationId, k), 1.0) == NO_FAULTS
    ensures var seen := Seen(PROBE_FAULTS, Probe(ids, stationId, k), ProbeInputs(ids, stationId, k), 1.0);
            && seen.receiverPressure == 10.0 && |seen.compressors| == |ids|
            && forall i | 0 <= i < |ids| ::
                 && seen.compressors[i].config.id == ids[i]
                 && seen.compressors[i].motorCurrent == (if i == k then 40.0 else 20.0)
                 && (i != k ==> IsQuiet(PROBE_FAULTS, seen.compressors[i]))
  {
    var station, inputs := Probe(ids, stationId, k), ProbeInputs(ids, stationId, k);
    FirstCycle(PROBE_FAULTS, station, RUN, 1.0);
    ProbePressure(ids, stationId, k);
    var seen := Seen(PROBE_FAULTS, station, inputs, 1.0).compressors;
    forall i | 0 <= i < |ids|
      ensures seen[i].config.id == ids[i] && seen[i].motorCurrent == if i == k then 40.0 else 20.0
      ensures i != k ==> IsQuiet(PROBE_FAULTS, seen[i])
    {
      ProbeRuns(ids[i], if i == k then 40.0 else 20.0);
    }
  }

  lemma ProbePressure(ids: seq<string>, stationId: string, k: nat)
    requires AcceptsAll(Probe(ids, stationId, k), ProbeInputs(ids, stationId, k))
    ensures Seen(PROBE_FAULTS, Probe(ids, stationId, k), ProbeInputs(ids, stationId, k), 1.0).receiverPressure == 10.0
  {
    assert Before(ProbeInputs(ids, stationId, k)) == [];
  }

  /** The flags of the compressors before k are down. */
  lemma ProbeCycle(ids: seq<string>, stationId: string, k: nat, i: nat)
    requires i < |ids| && i < k
    ensures var station, inputs := Probe(ids, stationId, k), ProbeInputs(ids, stationId, k);
            && AcceptsAll(station, inputs)
            && !RunAll(PROBE_FAULTS, station, inputs, 1.0).station.compressors[i].alarmActive
  {
    var station, inputs := Probe(ids, stationId, k), ProbeInputs(ids, stationId, k);
    ProbeIsSeen(ids, stationId, k);
    var seen := Seen(PROBE_FAULTS, station, inputs, 1.0).compressors;
    QuietOnesRaiseNothing(PROBE_FAULTS, seen, 1.0, i + 1);
    LastFlags(PROBE_FAULTS, station, inputs, 1.0);
    FlaggedAt(PROBE_FAULTS, NO_FAULTS, seen, 1.0, |seen|, i);
  }

  lemma LatchedIsOwned(active: seq<Transition>, source: string, code: AlarmCode)
    requires IsLatched(active, source, code)
    ensures HasAlarm(active, source)
  {
  }

  /** The station's own rule is looked at after the flag of a compressor with its identifier. */
  lemma StationIdentifierMisleads(ids: seq<string>, stationId: string, i: nat)
    requires i < |ids| && ids[i] == stationId
    ensures var station, inputs := Probe(ids, stationId, |ids|), ProbeInputs(ids, stationId, |ids|);
            AcceptsAll(station, inputs) && !FlagIsTrue(PROBE_FAULTS, station, inputs, 1.0, i)
  {
    var station, inputs := Probe(ids, stationId, |ids|), ProbeInputs(ids, stationId, |ids|);
    ProbeCycle(ids, stationId, |ids|, i);
    ProbeIsSeen(ids, stationId, |ids|);
    LastCycle(PROBE_FAULTS, station, inputs, 1.0);
    StationExactly(PROBE_FAULTS, NO_FAULTS, Seen(PROBE_FAULTS, station, inputs, 1.0), 1.0);
    LatchedIsOwned(RunAll(PROBE_FAULTS, station, inputs, 1.0).faults.active, stationId, HighPressure);
  }

  /** The rules of a compressor are looked at after the flag of an earlier one with its identifier. Both
      read the same commands; their ratings differ. */
  lemma CompressorIdentifierMisleads(ids: seq<string>, stationId: string, i: nat, j: nat)
    requires i < j < |ids| && ids[i] == ids[j]
    ensures var station, inputs := Probe(ids, stationId, j), ProbeInputs(ids, stationId, j);
            AcceptsAll(station, inputs) && !FlagIsTrue(PROBE_FAULTS, station, inputs, 1.0, i)
  {
    var station, inputs := Probe(ids, stationId, j), ProbeInputs(ids, stationId, j);
    ProbeCycle(ids, stationId, j, i);
    ProbeIsSeen(ids, stationId, j);
    LastCycle(PROBE_FAULTS, station, inputs, 1.0);
    OverloadIsLatched(PROBE_FAULTS, Seen(PROBE_FAULTS, station, inputs, 1.0), 1.0, j);
    LatchedIsOwned(RunAll(PROBE_FAULTS, station, inputs, 1.0).faults.active, ids[j], MotorOverload);
  }

  lemma OverloadIsLatched(config: FaultConfig, station: Station, elapsed: real, j: nat)
    requires j < |station.compressors| && station.compressors[j].motorCurrent > config.overloadCurrent
    ensures IsLatched(AfterStation(config, NO_FAULTS, station, elapsed).active, station.compressors[j].config.id,
                      MotorOverload)
  {
    var cs, id := station.compressors, station.compressors[j].config.id;
    CompressorExactly(config, AfterCompressors(config, NO_FAULTS, cs, elapsed, j), cs[j], elapsed, id, MotorOverload);
    var after := AfterCompressors(config, NO_FAULTS, cs, elapsed, j + 1).active;
    CompressorsOnlyAdd(config, NO_FAULTS, cs, elapsed, j + 1, |cs|);
    EvaluationKeepsAll(config, station, elapsed);
    LatchedStays(after, AfterStation(config, NO_FAULTS, station, elapsed).active, id, MotorOverload);
  }

  lemma EvaluationKeepsAll(config: FaultConfig, station: Station, elapsed: real)
    ensures AfterCompressors(config, NO_FAULTS, station.compressors, elapsed, |station.compressors|).active <=
            AfterStation(config, NO_FAULTS, station, elapsed).active
  {
  }

  lemma LatchedStays(before: seq<Transition>, after: seq<Transition>, source: string, code: AlarmCode)
    requires before <= after && IsLatched(before, source, code)
    ensures IsLatched(after, source, code)
  {
    var i :| 0 <= i < |before| && before[i].source == source && before[i].code == code;
    assert after[i] == before[i];
  }

  /** In every run of every station with these identifiers, every flag is true. */
  ghost predicate FlagsAreTrue(ids: seq<string>, stationId: string, config: FaultConfig, station: StationConfig,
                               inputs: seq<Input>, elapsed: real)
  {
    Ids(station) == ids && station.id == stationId && AcceptsAll(station, inputs) ==>
      forall i | 0 <= i < |station.compressors| :: FlagIsTrue(config, station, inputs, elapsed, i)
  }

  /** Flags can be trusted exactly when all identifiers of a station differ. */
  lemma FlagsAreTrueExactlyWhenIdsDiffer(ids: seq<string>, stationId: string)
    ensures (forall config, station, inputs, elapsed ::
               FlagsAreTrue(ids, stationId, config, station, inputs, elapsed)) <==>
            AllDiffer(ids, stationId)
  {
    if AllDiffer(ids, stationId) {
      forall config, station, inputs, elapsed
        ensures FlagsAreTrue(ids, stationId, config, station, inputs, elapsed)
      {
        if Ids(station) == ids && station.id == stationId && AcceptsAll(station, inputs) {
          forall i | 0 <= i < |station.compressors|
            ensures FlagIsTrue(config, station, inputs, elapsed, i)
          {
            RunFlagsTellTheTruth(config, station, inputs, elapsed, i);
          }
        }
      }
    } else {
      assert forall k: nat :: Ids(Probe(ids, stationId, k)) == ids;
      if stationId in ids {
        var i: nat :| i < |ids| && ids[i] == stationId;
        StationIdentifierMisleads(ids, stationId, i);
        assert !FlagsAreTrue(ids, stationId, PROBE_FAULTS, Probe(ids, stationId, |ids|),
                             ProbeInputs(ids, stationId, |ids|), 1.0);
      } else {
        var i: nat, j: nat :| i < j < |ids| && ids[i] == ids[j];
        CompressorIdentifierMisleads(ids, stationId, i, j);
        assert !FlagsAreTrue(ids, stationId, PROBE_FAULTS, Probe(ids, stationId, j), ProbeInputs(ids, stationId, j),
                             1.0);
      }
    }
  }
}
