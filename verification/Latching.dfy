/** What a latched alarm means: over every run, an alarm is latched exactly when its condition has
    held in some cycle since the last reset. */
module Latching {
  import opened Collections
  import opened AlarmTable
  import opened Plant
  import opened Faults
  import opened Session
  import opened Runs
  import opened Mirror

  // ----- one evaluation -----

  /** The condition of a compressor's rule. */
  predicate Raises(config: FaultConfig, durations: map<string, real>, c: Compressor, elapsed: real, code: AlarmCode) {
    match code
    case HighTemperature => HotFor(config, durations, c, elapsed) >= config.highTemperatureDelay
    case MotorOverload => c.motorCurrent > config.overloadCurrent
    case SensorFault => c.sensorFaultCommand
    case HighPressure => false
  }

  lemma LatchExactly(active: seq<Transition>, t: Transition, condition: bool, source: string, code: AlarmCode)
    ensures IsLatched(Latch(active, t, condition), source, code) <==>
            IsLatched(active, source, code) || (condition && t.source == source && t.code == code)
  {
    var after := Latch(active, t, condition);
    if IsLatched(active, source, code) {
      var i :| 0 <= i < |active| && active[i].source == source && active[i].code == code;
      assert after[i] == active[i];
    }
    if condition && !IsLatched(active, t.source, t.code) {
      assert after[|active|] == t;
    }
  }

  lemma CompressorExactly(config: FaultConfig, s: FaultState, c: Compressor, elapsed: real, source: string,
                          code: AlarmCode)
    ensures IsLatched(AfterCompressor(config, s, c, elapsed).active, source, code) <==>
            IsLatched(s.active, source, code) || (source == c.config.id &&
                                                  Raises(config, s.durations, c, elapsed, code))
  {
    var hot := HotFor(config, s.durations, c, elapsed) >= config.highTemperatureDelay;
    var a := Latch(s.active, TemperatureAlarm(config, c), hot);
    var b := Latch(a, OverloadAlarm(config, c), c.motorCurrent > config.overloadCurrent);
    LatchExactly(s.active, TemperatureAlarm(config, c), hot, source, code);
    LatchExactly(a, OverloadAlarm(config, c), c.motorCurrent > config.overloadCurrent, source, code);
    LatchExactly(b, SensorAlarm(config, c), c.sensorFaultCommand, source, code);
  }

  /** For how long the source has been hot; an unknown source has not been. */
  function HeldFor(durations: map<string, real>, id: string): real {
    if id in durations then durations[id] else 0.0
  }

  /** The rules of different compressors do not see each other's timers. */
  lemma {:induction false} TimersAreOwn(config: FaultConfig, s: FaultState, cs: seq<Compressor>, elapsed: real, n: nat,
                                        i: nat)
    requires Distinct(IdsOf(cs)) && n <= |cs| && i < |cs|
    ensures HeldFor(AfterCompressors(config, s, cs, elapsed, n).durations, cs[i].config.id) ==
            if i < n then HotFor(config, s.durations, cs[i], elapsed) else HeldFor(s.durations, cs[i].config.id)
  {
    if n > 0 {
      TimersAreOwn(config, s, cs, elapsed, n - 1, i);
      DifferentOwners(cs, i, n - 1);
    }
  }

  /** So a compressor's condition is the same when its turn comes. */
  lemma TurnDoesNotMatter(config: FaultConfig, s: FaultState, cs: seq<Compressor>, elapsed: real, i: nat,
                          code: AlarmCode)
    requires Distinct(IdsOf(cs)) && i < |cs|
    ensures Raises(config, AfterCompressors(config, s, cs, elapsed, i).durations, cs[i], elapsed, code) ==
            Raises(config, s.durations, cs[i], elapsed, code)
  {
    TimersAreOwn(config, s, cs, elapsed, i, i);
  }

  lemma {:induction false} CompressorsExactly(config: FaultConfig, s: FaultState, cs: seq<Compressor>, elapsed: real,
                                              n: nat, i: nat, code: AlarmCode)
    requires Distinct(IdsOf(cs)) && n <= |cs| && i < |cs|
    ensures IsLatched(AfterCompressors(config, s, cs, elapsed, n).active, cs[i].config.id, code) <==>
            IsLatched(s.active, cs[i].config.id, code) || (i < n && Raises(config, s.durations, cs[i], elapsed, code))
  {
    if n > 0 {
      CompressorsExactly(config, s, cs, elapsed, n - 1, i, code);
      CompressorExactly(config, AfterCompressors(config, s, cs, elapsed, n - 1), cs[n - 1], elapsed, cs[i].config.id,
                        code);
      DifferentOwners(cs, i, n - 1);
      if i == n - 1 {
        TurnDoesNotMatter(config, s, cs, elapsed, i, code);
      }
    }
  }

  /** One evaluation latches exactly the alarms whose conditions hold, besides those latched before. */
  lemma EvaluationExactly(config: FaultConfig, s: FaultState, station: Station, elapsed: real, i: nat, code: AlarmCode)
    requires AllDiffer(IdsOf(station.compressors), station.config.id) && i < |station.compressors|
    ensures var c, after := station.compressors[i], AfterStation(config, s, station, elapsed);
            && (IsLatched(after.active, c.config.id, code) <==>
                  IsLatched(s.active, c.config.id, code) || Raises(config, s.durations, c, elapsed, code))
            && HeldFor(after.durations, c.config.id) == HotFor(config, s.durations, c, elapsed)
  {
    var cs, n := station.compressors, |station.compressors|;
    CompressorsExactly(config, s, cs, elapsed, n, i, code);
    TimersAreOwn(config, s, cs, elapsed, n, i);
    NotTheStation(cs, station.config.id, i);
    LatchExactly(AfterCompressors(config, s, cs, elapsed, n).active, PressureAlarm(config, station.config),
                 station.receiverPressure > config.highPressure, cs[i].config.id, code);
  }

  lemma {:induction false} CompressorsLeaveStation(config: FaultConfig, s: FaultState, cs: seq<Compressor>,
                                                   elapsed: real, n: nat, source: string)
    requires n <= |cs|
    ensures IsLatched(AfterCompressors(config, s, cs, elapsed, n).active, source, HighPressure) <==>
            IsLatched(s.active, source, HighPressure)
  {
    if n > 0 {
      CompressorsLeaveStation(config, s, cs, elapsed, n - 1, source);
      CompressorExactly(config, AfterCompressors(config, s, cs, elapsed, n - 1), cs[n - 1], elapsed, source,
                        HighPressure);
    }
  }

  lemma StationExactly(config: FaultConfig, s: FaultState, station: Station, elapsed: real)
    ensures IsLatched(AfterStation(config, s, station, elapsed).active, station.config.id, HighPressure) <==>
            IsLatched(s.active, station.config.id, HighPressure) || station.receiverPressure > config.highPressure
  {
    var n := |station.compressors|;
    CompressorsLeaveStation(config, s, station.compressors, elapsed, n, station.config.id);
    LatchExactly(AfterCompressors(config, s, station.compressors, elapsed, n).active,
                 PressureAlarm(config, station.config),
                 station.receiverPressure > config.highPressure, station.config.id, HighPressure);
  }

  // ----- conditions over a history of cycles -----

  /** No reset comes after cycle k. */
  ghost predicate NoResetAfter(inputs: seq<Input>, k: int) {
    forall m | 0 <= m < |inputs| && k < m :: !inputs[m].reset
  }

  /** What holds of a history, held in cycle k. */
  ghost predicate HeldIn(inputs: seq<Input>, holds: seq<Input> -> bool, k: nat) {
    k < |inputs| && holds(inputs[..k + 1])
  }

  ghost predicate SinceReset(inputs: seq<Input>, holds: seq<Input> -> bool) {
    exists k: nat :: NoResetAfter(inputs, k) && HeldIn(inputs, holds, k)
  }

  /** In how many cycles in a row, up to the last and since the last reset, it has held. */
  function Streak(inputs: seq<Input>, holds: seq<Input> -> bool): nat {
    if inputs == [] || !holds(inputs) then 0
    else 1 + if Latest(inputs).reset then 0 else Streak(Before(inputs), holds)
  }

  lemma LaterReset(inputs: seq<Input>, k: nat)
    requires k < |inputs| - 1
    ensures NoResetAfter(inputs, k) <==> !Latest(inputs).reset && NoResetAfter(Before(inputs), k)
  {
    assert forall m | 0 <= m < |inputs| - 1 :: Before(inputs)[m] == inputs[m];
  }

  lemma HeldEarlier(inputs: seq<Input>, holds: seq<Input> -> bool, k: nat)
    requires k < |inputs|
    ensures HeldIn(inputs, holds, k) <==> if k < |inputs| - 1 then HeldIn(Before(inputs), holds, k) else holds(inputs)
  {
    assert inputs[..|inputs|] == inputs;
    if k < |inputs| - 1 {
      assert Before(inputs)[..k + 1] == inputs[..k + 1];
    }
  }

  /** What has held since the last reset: what holds now, or has held before unless it is reset now. */
  lemma SinceResetGrows(inputs: seq<Input>, holds: seq<Input> -> bool)
    requires inputs != []
    ensures SinceReset(inputs, holds) <==> holds(inputs) || (!Latest(inputs).reset && SinceReset(Before(inputs), holds))
  {
    var last: nat := |inputs| - 1;
    HeldEarlier(inputs, holds, last);
    if SinceReset(inputs, holds) {
      var k: nat :| NoResetAfter(inputs, k) && HeldIn(inputs, holds, k);
      HeldEarlier(inputs, holds, k);
      if k < last {
        LaterReset(inputs, k);
      }
    }
    if holds(inputs) {
      assert NoResetAfter(inputs, last);
    }
    if !Latest(inputs).reset && SinceReset(Before(inputs), holds) {
      var k: nat :| NoResetAfter(Before(inputs), k) && HeldIn(Before(inputs), holds, k);
      HeldEarlier(inputs, holds, k);
      LaterReset(inputs, k);
    }
  }

  lemma SingleCycle(inputs: seq<Input>, holds: seq<Input> -> bool)
    requires |inputs| == 1
    ensures SinceReset(inputs, holds) <==> holds(inputs)
  {
    SinceResetGrows(inputs, holds);
    assert Before(inputs) == [];
  }

  /** It held in every cycle from `first` on, and none of the later ones was a reset. */
  ghost predicate Unbroken(inputs: seq<Input>, holds: seq<Input> -> bool, first: nat) {
    NoResetAfter(inputs, first) && forall j: nat | first <= j < |inputs| :: HeldIn(inputs, holds, j)
  }

  lemma UnbrokenGrows(inputs: seq<Input>, holds: seq<Input> -> bool, first: nat)
    requires first < |inputs| - 1
    ensures Unbroken(inputs, holds, first) <==>
            holds(inputs) && !Latest(inputs).reset && Unbroken(Before(inputs), holds, first)
  {
    LaterReset(inputs, first);
    HeldEarlier(inputs, holds, |inputs| - 1);
    forall j: nat | j < |inputs| - 1
      ensures HeldIn(inputs, holds, j) <==> HeldIn(Before(inputs), holds, j)
    {
      HeldEarlier(inputs, holds, j);
    }
    if Unbroken(inputs, holds, first) {
      assert HeldIn(inputs, holds, |inputs| - 1);
    }
  }

  /** A streak is longer than m exactly when it held in the last m + 1 cycles and only the first of
      them can have been a reset. */
  lemma {:induction false} StreakMeaning(inputs: seq<Input>, holds: seq<Input> -> bool, m: nat)
    ensures Streak(inputs, holds) > m <==> m < |inputs| && Unbroken(inputs, holds, |inputs| - 1 - m)
    decreases |inputs|
  {
    if inputs != [] {
      if m == 0 {
        HeldEarlier(inputs, holds, |inputs| - 1);
      } else {
        StreakMeaning(Before(inputs), holds, m - 1);
        if m < |inputs| {
          UnbrokenGrows(inputs, holds, |inputs| - 1 - m);
        }
      }
    }
  }

  // ----- whole runs -----

  predicate IsHot(config: FaultConfig, station: StationConfig, inputs: seq<Input>, elapsed: real, i: nat)
    requires AcceptsAll(station, inputs) && inputs != [] && i < |station.compressors|
  {
    Seen(config, station, inputs, elapsed).compressors[i].temperature > config.highTemperature
  }

  /** The length of n cycles. */
  function Lasting(n: nat, elapsed: real): real {
    if n == 0 then 0.0 else Lasting(n - 1, elapsed) + elapsed
  }

  lemma StreakLasts(inputs: seq<Input>, holds: seq<Input> -> bool, elapsed: real)
    requires inputs != []
    ensures Lasting(Streak(inputs, holds), elapsed) ==
            if !holds(inputs) then 0.0
            else (if Latest(inputs).reset then 0.0 else Lasting(Streak(Before(inputs), holds), elapsed)) + elapsed
  {
  }

  /** Whether a compressor is above the threshold, cycle by cycle. */
  function Hot(config: FaultConfig, station: StationConfig, elapsed: real, i: nat): seq<Input> -> bool {
    (inputs: seq<Input>) =>
      AcceptsAll(station, inputs) && inputs != [] && i < |station.compressors| &&
        IsHot(config, station, inputs, elapsed, i)
  }

  /** The condition of a rule in the last of these cycles. */
  predicate HoldsNow(config: FaultConfig, station: StationConfig, inputs: seq<Input>, elapsed: real, i: nat,
                     code: AlarmCode)
    requires AcceptsAll(station, inputs) && inputs != [] && i < |station.compressors|
  {
    var c := Seen(config, station, inputs, elapsed).compressors[i];
    match code
    case HighTemperature => Lasting(Streak(inputs, Hot(config, station, elapsed, i)),
                                    elapsed) >= config.highTemperatureDelay
    case MotorOverload => c.motorCurrent > config.overloadCurrent
    case SensorFault => c.sensorFaultCommand
    case HighPressure => false
  }

  /** The condition of a rule, cycle by cycle. */
  function Condition(config: FaultConfig, station: StationConfig, elapsed: real, i: nat,
                     code: AlarmCode): seq<Input> -> bool {
    (inputs: seq<Input>) =>
      AcceptsAll(station, inputs) && inputs != [] && i < |station.compressors| &&
        HoldsNow(config, station, inputs, elapsed, i, code)
  }

  function TooMuchPressure(config: FaultConfig, station: StationConfig, elapsed: real): seq<Input> -> bool {
    (inputs: seq<Input>) =>
      AcceptsAll(station, inputs) && inputs != [] && Seen(config, station, inputs,
                                                          elapsed).receiverPressure > config.highPressure
  }

  lemma LastEvaluation(config: FaultConfig, station: StationConfig, inputs: seq<Input>, elapsed: real, i: nat,
                       code: AlarmCode)
    requires AcceptsAll(station, inputs) && inputs != [] && OwnIds(station) && i < |station.compressors|
    ensures var s, c := Carried(config, station, inputs, elapsed), Seen(config, station, inputs,
        elapsed).compressors[i];
            var after := RunAll(config, station, inputs, elapsed).faults;
            && c.config.id == station.compressors[i].id
            && (IsLatched(after.active, c.config.id, code) <==>
                  IsLatched(s.active, c.config.id, code) || Raises(config, s.durations, c, elapsed, code))
            && HeldFor(after.durations, c.config.id) == HotFor(config, s.durations, c, elapsed)
  {
    LastCycle(config, station, inputs, elapsed);
    StationIdsDiffer(Seen(config, station, inputs, elapsed));
    EvaluationExactly(config, Carried(config, station, inputs, elapsed), Seen(config, station, inputs, elapsed),
                      elapsed, i, code);
  }

  lemma LastTimer(config: FaultConfig, station: StationConfig, inputs: seq<Input>, elapsed: real, i: nat)
    requires AcceptsAll(station, inputs) && inputs != [] && OwnIds(station) && i < |station.compressors|
    ensures var id := station.compressors[i].id;
            HeldFor(RunAll(config, station, inputs, elapsed).faults.durations, id) ==
            if !Hot(config, station, elapsed, i)(inputs) then 0.0
            else (if Latest(inputs).reset then 0.0
                  else HeldFor(RunAll(config, station, Before(inputs), elapsed).faults.durations, id)) + elapsed
  {
    LastEvaluation(config, station, inputs, elapsed, i, HighTemperature);
  }

  /** The timer of a compressor counts its hot cycles in a row. */
  lemma {:induction false} TimerCountsStreak(config: FaultConfig, station: StationConfig, inputs: seq<Input>,
                                             elapsed: real, i: nat)
    requires AcceptsAll(station, inputs) && OwnIds(station) && i < |station.compressors|
    ensures HeldFor(RunAll(config, station, inputs, elapsed).faults.durations, station.compressors[i].id) ==
            Lasting(Streak(inputs, Hot(config, station, elapsed, i)), elapsed)
    decreases |inputs|
  {
    if inputs != [] {
      TimerCountsStreak(config, station, Before(inputs), elapsed, i);
      LastTimer(config, station, inputs, elapsed, i);
      StreakLasts(inputs, Hot(config, station, elapsed, i), elapsed);
    }
  }

  /** A sensor fault is one exactly when the last cycle commands it and is no reset. */
  lemma SensorFaultIsCommanded(config: FaultConfig, station: StationConfig, inputs: seq<Input>, elapsed: real, i: nat)
    requires AcceptsAll(station, inputs) && inputs != [] && i < |station.compressors|
    ensures station.compressors[i].id in Latest(inputs).commands
    ensures HoldsNow(config, station, inputs, elapsed, i, SensorFault) <==>
            Latest(inputs).commands[station.compressors[i].id].sensorFault && !Latest(inputs).reset
  {
    var before := RunAll(config, station, Before(inputs), elapsed);
    BuiltAccepts(before.station, inputs, |inputs| - 1);
    CommandedIsTold(before, Latest(inputs));
    AdvanceKeepsCommands(Commanded(before, Latest(inputs)).station, Latest(inputs).wave, elapsed, i);
    assert before.station.compressors[i].config == station.compressors[i];
  }

  lemma ConditionInCycle(config: FaultConfig, station: StationConfig, inputs: seq<Input>, elapsed: real, i: nat,
                         code: AlarmCode)
    requires AcceptsAll(station, inputs) && inputs != [] && OwnIds(station) && i < |station.compressors|
    ensures Raises(config, Carried(config, station, inputs, elapsed).durations,
                   Seen(config, station, inputs, elapsed).compressors[i],
                   elapsed, code) <==>
            HoldsNow(config, station, inputs, elapsed, i, code)
  {
    TimerCountsStreak(config, station, inputs, elapsed, i);
    LastEvaluation(config, station, inputs, elapsed, i, code);
  }

  /** After every run, an alarm of a compressor is latched exactly when its condition has held in some
      cycle since the last reset: the temperature for long enough in a row, the others at all. */
  lemma {:induction false} LatchedSinceReset(config: FaultConfig, station: StationConfig, inputs: seq<Input>,
                                             elapsed: real, i: nat, code: AlarmCode)
    requires AcceptsAll(station, inputs) && OwnIds(station) && i < |station.compressors|
    ensures IsLatched(RunAll(config, station, inputs, elapsed).faults.active, station.compressors[i].id, code) <==>
            SinceReset(inputs, Condition(config, station, elapsed, i, code))
    decreases |inputs|
  {
    if inputs != [] {
      LatchedSinceReset(config, station, Before(inputs), elapsed, i, code);
      LastEvaluation(config, station, inputs, elapsed, i, code);
      ConditionInCycle(config, station, inputs, elapsed, i, code);
      SinceResetGrows(inputs, Condition(config, station, elapsed, i, code));
    }
  }

  /** The same for the pressure alarm of the station. */
  lemma {:induction false} PressureLatchedSinceReset(config: FaultConfig, station: StationConfig, inputs: seq<Input>,
                                                     elapsed: real)
    requires AcceptsAll(station, inputs)
    ensures IsLatched(RunAll(config, station, inputs, elapsed).faults.active, station.id, HighPressure) <==>
            SinceReset(inputs, TooMuchPressure(config, station, elapsed))
    decreases |inputs|
  {
    if inputs != [] {
      PressureLatchedSinceReset(config, station, Before(inputs), elapsed);
      LastCycle(config, station, inputs, elapsed);
      StationExactly(config, Carried(config, station, inputs, elapsed), Seen(config, station, inputs, elapsed),
                     elapsed);
      SinceResetGrows(inputs, TooMuchPressure(config, station, elapsed));
    }
  }

  // ----- on the panel -----

  /** From the physics to the panel: the panel enumerates an alarm of a compressor exactly when its
      condition has held in some cycle since the last reset. */
  lemma PanelAlarmMeans(config: FaultConfig, station: StationConfig, net: Network, inputs: seq<Input>, elapsed: real,
                        i: nat, code: AlarmCode)
    requires CleanConfig(config) && AcceptsAll(station, inputs) && OwnIds(station)
    requires PanelSuffices(config, station, net, inputs, elapsed)
    requires SourcesDiffer(net, station) && SourcesFit(net, station)
    requires i < |station.compressors| && code != HighPressure
    ensures ShowsKey(History(Updates(config, station, net, inputs, elapsed)),
                     KeyOf(net, station.compressors[i].id, code)) <==>
            SinceReset(inputs, Condition(config, station, elapsed, i, code))
  {
    StationIsMirrored(config, station, net, inputs, elapsed, station.compressors[i].id, code);
    LatchedSinceReset(config, station, inputs, elapsed, i, code);
  }

  /** The same for the pressure alarm of the station. */
  lemma PanelPressureMeans(config: FaultConfig, station: StationConfig, net: Network, inputs: seq<Input>, elapsed: real)
    requires CleanConfig(config) && AcceptsAll(station, inputs)
    requires PanelSuffices(config, station, net, inputs, elapsed)
    requires SourcesDiffer(net, station) && SourcesFit(net, station)
    ensures ShowsKey(History(Updates(config, station, net, inputs, elapsed)), KeyOf(net, station.id, HighPressure)) <==>
            SinceReset(inputs, TooMuchPressure(config, station, elapsed))
  {
    StationIsMirrored(config, station, net, inputs, elapsed, station.id, HighPressure);
    PressureLatchedSinceReset(config, station, inputs, elapsed);
  }
}
