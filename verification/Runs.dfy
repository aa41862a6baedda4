/** Runs of the simulator, cycle by cycle: what every run keeps, whatever the operator does. */
module Runs {
  import opened Plant
  import opened Faults
  import opened Session

  function Before(inputs: seq<Input>): seq<Input>
    requires inputs != []
  {
    inputs[..|inputs| - 1]
  }

  function Latest(inputs: seq<Input>): Input
    requires inputs != []
  {
    inputs[|inputs| - 1]
  }

  lemma CycleIsStarted(config: FaultConfig, run: Run, input: Input, elapsed: real)
    requires Accepts(run.station, input)
    ensures var started, next := Started(run, input, elapsed), Cycle(config, run, input, elapsed);
            var after := AfterStation(config, started.faults, started.station, elapsed);
            && started.faults.active <= after.active
            && next.faults == after && next.emitted == started.emitted + after.active[|started.faults.active|..]
            && next.station.config == started.station.config
            && next.station.compressors ==
               Flagged(config, started.faults, started.station.compressors, elapsed, |started.station.compressors|)
  {
    var started := Started(run, input, elapsed);
    EvaluationKeeps(config, started.faults, started.station, elapsed);
  }

  /** The station as the rules see it in the last of these cycles. */
  function Seen(config: FaultConfig, station: StationConfig, inputs: seq<Input>, elapsed: real): (s: Station)
    requires AcceptsAll(station, inputs) && inputs != []
    ensures s.config == station && IsBuilt(s)
  {
    var before := RunAll(config, station, Before(inputs), elapsed);
    BuiltAccepts(before.station, inputs, |inputs| - 1);
    StartedIsBuilt(before, Latest(inputs), elapsed);
    Started(before, Latest(inputs), elapsed).station
  }

  /** The alarms and timers that the last cycle's evaluation starts from. */
  function Carried(config: FaultConfig, station: StationConfig, inputs: seq<Input>, elapsed: real): FaultState
    requires AcceptsAll(station, inputs) && inputs != []
  {
    if Latest(inputs).reset then NO_FAULTS else RunAll(config, station, Before(inputs), elapsed).faults
  }

  lemma LastCycle(config: FaultConfig, station: StationConfig, inputs: seq<Input>, elapsed: real)
    requires AcceptsAll(station, inputs) && inputs != []
    ensures RunAll(config, station, inputs, elapsed).faults ==
            AfterStation(config, Carried(config, station, inputs, elapsed), Seen(config, station, inputs, elapsed),
                         elapsed)
  {
    CycleIsStarted(config, RunAll(config, station, Before(inputs), elapsed), Latest(inputs), elapsed);
  }

  // ----- flags -----

  function Ids(station: StationConfig): seq<string> {
    seq(|station.compressors|, i requires 0 <= i < |station.compressors| => station.compressors[i].id)
  }

  ghost predicate OwnIds(station: StationConfig) {
    AllDiffer(Ids(station), station.id)
  }

  lemma StationIdsDiffer(station: Station)
    requires OwnIds(station.config) && IsBuilt(station)
    ensures AllDiffer(IdsOf(station.compressors), station.config.id)
  {
    assert IdsOf(station.compressors) == Ids(station.config);
  }

  lemma {:induction false} RunLatchesAreUnique(config: FaultConfig, station: StationConfig, inputs: seq<Input>,
                                               elapsed: real)
    requires AcceptsAll(station, inputs)
    ensures UniqueLatches(RunAll(config, station, inputs, elapsed).faults.active)
    decreases |inputs|
  {
    if inputs != [] {
      RunLatchesAreUnique(config, station, Before(inputs), elapsed);
      LastCycle(config, station, inputs, elapsed);
      EvaluationLatches(config, Carried(config, station, inputs, elapsed), Seen(config, station, inputs, elapsed),
                        elapsed);
    }
  }

  /** Every latched alarm says what the configuration says for its code. */
  ghost predicate AllFollowRules(config: FaultConfig, station: StationConfig, active: seq<Transition>) {
    forall t | t in active :: FollowsRule(config, station, t)
  }

  lemma {:induction false} RunLatchesFollowRules(config: FaultConfig, station: StationConfig, inputs: seq<Input>,
                                                 elapsed: real)
    requires AcceptsAll(station, inputs)
    ensures AllFollowRules(config, station, RunAll(config, station, inputs, elapsed).faults.active)
    decreases |inputs|
  {
    if inputs != [] {
      var carried, seen := Carried(config, station, inputs, elapsed), Seen(config, station, inputs, elapsed);
      RunLatchesFollowRules(config, station, Before(inputs), elapsed);
      RunLatchesAreUnique(config, station, Before(inputs), elapsed);
      LastCycle(config, station, inputs, elapsed);
      EvaluationRaisesByRule(config, carried, seen, elapsed);
      var after := AfterStation(config, carried, seen, elapsed).active;
      forall t | t in after
        ensures FollowsRule(config, station, t)
      {
        var i :| 0 <= i < |after| && after[i] == t;
        assert i < |carried.active| ==> t in carried.active;
      }
    }
  }

  lemma LastFlags(config: FaultConfig, station: StationConfig, inputs: seq<Input>, elapsed: real)
    requires AcceptsAll(station, inputs) && inputs != []
    ensures var seen := Seen(config, station, inputs, elapsed).compressors;
            RunAll(config, station, inputs, elapsed).station.compressors ==
            Flagged(config, Carried(config, station, inputs, elapsed), seen, elapsed, |seen|)
  {
    CycleIsStarted(config, RunAll(config, station, Before(inputs), elapsed), Latest(inputs), elapsed);
  }

  /** A flag says whether its compressor owns a latched alarm. */
  ghost predicate FlagIsTrue(config: FaultConfig, station: StationConfig, inputs: seq<Input>, elapsed: real, i: nat)
    requires AcceptsAll(station, inputs) && i < |station.compressors|
  {
    var run := RunAll(config, station, inputs, elapsed);
    run.station.compressors[i].alarmActive == HasAlarm(run.faults.active, station.compressors[i].id)
  }

  /** After every cycle of every run of a station whose identifiers differ, every flag is true. */
  lemma RunFlagsTellTheTruth(config: FaultConfig, station: StationConfig, inputs: seq<Input>, elapsed: real, i: nat)
    requires AcceptsAll(station, inputs) && i < |station.compressors| && OwnIds(station)
    ensures FlagIsTrue(config, station, inputs, elapsed, i)
  {
    if inputs != [] {
      var seen := Seen(config, station, inputs, elapsed);
      RunLatchesAreUnique(config, station, Before(inputs), elapsed);
      StationIdsDiffer(seen);
      LastCycle(config, station, inputs, elapsed);
      LastFlags(config, station, inputs, elapsed);
      FlagsTellTheTruth(config, Carried(config, station, inputs, elapsed), seen, elapsed, i);
    }
  }

  // ----- physical bounds -----

  lemma StartedInBounds(run: Run, input: Input, elapsed: real)
    requires SaneStation(run.station.config) && InBounds(run.station) && elapsed >= 0.0 && Accepts(run.station, input)
    ensures InBounds(Started(run, input, elapsed).station)
    ensures Started(run, input, elapsed).station.config == run.station.config
  {
    var commanded := run.station.(compressors := WithCommands(run.station.compressors, input.commands));
    var started := if input.reset then commanded.(compressors := Unflagged(commanded.compressors)) else commanded;
    assert InBounds(started);
    StationStaysInBounds(started, input.wave, elapsed);
  }

  lemma FlagsKeepBounds(config: FaultConfig, run: Run, input: Input, elapsed: real)
    requires Accepts(run.station, input) && InBounds(Started(run, input, elapsed).station)
    ensures InBounds(Cycle(config, run, input, elapsed).station)
  {
    var started, next := Started(run, input, elapsed), Cycle(config, run, input, elapsed);
    CycleIsStarted(config, run, input, elapsed);
    forall i | 0 <= i < |next.station.compressors|
      ensures next.station.compressors[i].config == next.station.config.compressors[i] &&
              CompressorInBounds(next.station.compressors[i])
    {
      FlaggedAt(config, started.faults, started.station.compressors, elapsed, |started.station.compressors|, i);
    }
  }

  /** Every reading stays within its physical range, in every run and as the rules see it. */
  lemma {:induction false} RunStaysInBounds(config: FaultConfig, station: StationConfig, inputs: seq<Input>,
                                            elapsed: real)
    requires SaneStation(station) && elapsed >= 0.0 && AcceptsAll(station, inputs)
    ensures InBounds(RunAll(config, station, inputs, elapsed).station)
    ensures inputs != [] ==> InBounds(Seen(config, station, inputs, elapsed))
    decreases |inputs|
  {
    if inputs == [] {
      InitialInBounds(station);
    } else {
      var run := RunAll(config, station, Before(inputs), elapsed);
      RunStaysInBounds(config, station, Before(inputs), elapsed);
      StartedInBounds(run, Latest(inputs), elapsed);
      FlagsKeepBounds(config, run, Latest(inputs), elapsed);
    }
  }

  /** With a real delay and thresholds at or above the ratings, no run ever latches a temperature or
      overload alarm, whatever the operator does. */
  lemma {:induction false} RatedStationNeverOverheats(config: FaultConfig, station: StationConfig, inputs: seq<Input>,
                                                      elapsed: real)
    requires SaneStation(station) && ThresholdsAboveRatings(config, station) && elapsed >= 0.0 &&
             AcceptsAll(station, inputs)
    ensures NoThermalOrOverload(RunAll(config, station, inputs, elapsed).faults.active)
    decreases |inputs|
  {
    if inputs != [] {
      RatedStationNeverOverheats(config, station, Before(inputs), elapsed);
      RunStaysInBounds(config, station, inputs, elapsed);
      LastCycle(config, station, inputs, elapsed);
      StationKeepsQuiet(config, Carried(config, station, inputs, elapsed), Seen(config, station, inputs, elapsed),
                        elapsed);
    }
  }
}
