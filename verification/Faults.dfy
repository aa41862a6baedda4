/** The simulator's alarm rules: latching, the temperature delay and the reset. */
module Faults {
  import opened NodeIds
  import opened Collections
  import opened Plant

  datatype AlarmCode = HighTemperature | MotorOverload | SensorFault | HighPressure

  function CodeText(code: AlarmCode): string {
    match code
    case HighTemperature => "HIGH_TEMPERATURE"
    case MotorOverload => "MOTOR_OVERLOAD"
    case SensorFault => "SENSOR_FAULT"
    case HighPressure => "HIGH_PRESSURE"
  }

  /** Thresholds, severities and the message that each rule prints. */
  datatype FaultConfig = FaultConfig(
    highTemperature: real, highTemperatureDelay: real, highTemperatureSeverity: nat, highTemperatureMessage: string,
    overloadCurrent: real, overloadSeverity: nat, overloadMessage: string,
    sensorFaultSeverity: nat, sensorFaultMessage: string,
    highPressure: real, highPressureSeverity: nat, highPressureMessage: string)

  const TEMPERATURE_EXCEEDED := "Temperature exceeded "
  const CURRENT_EXCEEDED := "Motor current exceeded "
  const PRESSURE_EXCEEDED := "Receiver pressure exceeded "
  const SENSOR_VALUES := "Temperature and current sensor values"
  const ARE_UNRELIABLE := " are unreliable"
  /** The degree sign is two bytes. */
  const DEGREES := " \U{C2}\U{B0}C"

  /** The messages of the rules, given the thresholds as formatted text. */
  function WithMessages(config: FaultConfig, temperature: string, current: string, pressure: string): FaultConfig {
    config.(highTemperatureMessage := TEMPERATURE_EXCEEDED + temperature + DEGREES,
            overloadMessage := CURRENT_EXCEEDED + current + " A",
            sensorFaultMessage := SENSOR_VALUES + ARE_UNRELIABLE,
            highPressureMessage := PRESSURE_EXCEEDED + pressure + " bar")
  }

  datatype Transition = Transition(source: string, sourceName: string, code: AlarmCode, message: string, severity: nat,
                                   active: bool)

  /** Latched alarms in the order in which they were raised, and how long each source has been hot. */
  datatype FaultState = FaultState(active: seq<Transition>, durations: map<string, real>)

  const NO_FAULTS := FaultState([], map[])

  predicate IsLatched(active: seq<Transition>, source: string, code: AlarmCode) {
    exists i | 0 <= i < |active| :: active[i].source == source && active[i].code == code
  }

  predicate HasAlarm(active: seq<Transition>, source: string) {
    exists i | 0 <= i < |active| :: active[i].source == source
  }

  // ----- the rules -----

  /** A condition raises its alarm once, until the next reset. */
  function Raised(active: seq<Transition>, t: Transition, condition: bool): seq<Transition> {
    if condition && !IsLatched(active, t.source, t.code) then [t] else []
  }

  function Latch(active: seq<Transition>, t: Transition, condition: bool): seq<Transition> {
    active + Raised(active, t, condition)
  }

  function TemperatureAlarm(config: FaultConfig, c: Compressor): Transition {
    Transition(c.config.id, c.config.displayName, HighTemperature, config.highTemperatureMessage,
               config.highTemperatureSeverity, true)
  }

  function OverloadAlarm(config: FaultConfig, c: Compressor): Transition {
    Transition(c.config.id, c.config.displayName, MotorOverload, config.overloadMessage, config.overloadSeverity, true)
  }

  function SensorAlarm(config: FaultConfig, c: Compressor): Transition {
    Transition(c.config.id, c.config.displayName, SensorFault, config.sensorFaultMessage, config.sensorFaultSeverity,
               true)
  }

  function PressureAlarm(config: FaultConfig, station: StationConfig): Transition {
    Transition(station.id, station.displayName, HighPressure, config.highPressureMessage, config.highPressureSeverity,
               true)
  }

  function HotFor(config: FaultConfig, durations: map<string, real>, c: Compressor, elapsed: real): real {
    if c.temperature > config.highTemperature then
      (if c.config.id in durations then durations[c.config.id] else 0.0) + elapsed
    else 0.0
  }

  function AfterCompressor(config: FaultConfig, s: FaultState, c: Compressor, elapsed: real): FaultState {
    var hot := HotFor(config, s.durations, c, elapsed);
    var a := Latch(s.active, TemperatureAlarm(config, c), hot >= config.highTemperatureDelay);
    var b := Latch(a, OverloadAlarm(config, c), c.motorCurrent > config.overloadCurrent);
    FaultState(Latch(b, SensorAlarm(config, c), c.sensorFaultCommand), s.durations[c.config.id := hot])
  }

  /** The state after the first n compressors have been looked at. */
  function AfterCompressors(config: FaultConfig, s: FaultState, cs: seq<Compressor>, elapsed: real, n: nat): FaultState
    requires n <= |cs|
  {
    if n == 0 then s else AfterCompressor(config, AfterCompressors(config, s, cs, elapsed, n - 1), cs[n - 1], elapsed)
  }

  function AfterStation(config: FaultConfig, s: FaultState, station: Station, elapsed: real): FaultState {
    var t := AfterCompressors(config, s, station.compressors, elapsed, |station.compressors|);
    t.(active := Latch(t.active, PressureAlarm(config, station.config), station.receiverPressure > config.highPressure))
  }

  /** A compressor is flagged right after its own rules have been looked at. */
  function FlaggedOne(config: FaultConfig, s: FaultState, cs: seq<Compressor>, elapsed: real, i: nat): Compressor
    requires i < |cs|
  {
    cs[i].(alarmActive := HasAlarm(AfterCompressors(config, s, cs, elapsed, i + 1).active, cs[i].config.id))
  }

  /** The first n compressors after the evaluation. */
  function Flagged(config: FaultConfig, s: FaultState, cs: seq<Compressor>, elapsed: real, n: nat): seq<Compressor>
    requires n <= |cs|
  {
    if n == 0 then []
    else
      Flagged(config, s, cs, elapsed, n - 1) + [FlaggedOne(config, s, cs, elapsed, n - 1)]
  }

  lemma {:induction false} FlaggedAt(config: FaultConfig, s: FaultState, cs: seq<Compressor>, elapsed: real, n: nat,
                                     i: nat)
    requires i < n <= |cs|
    ensures |Flagged(config, s, cs, elapsed, n)| == n
    ensures Flagged(config, s, cs, elapsed, n)[i] == FlaggedOne(config, s, cs, elapsed, i)
  {
    FlaggedLength(config, s, cs, elapsed, n - 1);
    if i < n - 1 {
      FlaggedAt(config, s, cs, elapsed, n - 1, i);
    }
  }

  lemma {:induction false} FlaggedLength(config: FaultConfig, s: FaultState, cs: seq<Compressor>, elapsed: real, n: nat)
    requires n <= |cs|
    ensures |Flagged(config, s, cs, elapsed, n)| == n
  {
    if n > 0 {
      FlaggedLength(config, s, cs, elapsed, n - 1);
    }
  }

  lemma FlaggedConfigs(config: FaultConfig, s: FaultState, cs: seq<Compressor>, elapsed: real)
    ensures |Flagged(config, s, cs, elapsed, |cs|)| == |cs|
    ensures forall i | 0 <= i < |cs| :: Flagged(config, s, cs, elapsed, |cs|)[i].config == cs[i].config
  {
    FlaggedLength(config, s, cs, elapsed, |cs|);
    forall i | 0 <= i < |cs|
      ensures Flagged(config, s, cs, elapsed, |cs|)[i].config == cs[i].config
    {
      FlaggedAt(config, s, cs, elapsed, |cs|, i);
    }
  }

  lemma AllFlagged(config: FaultConfig, s: FaultState, cs: seq<Compressor>, elapsed: real, after: seq<Compressor>)
    requires |after| == |cs| && forall j | 0 <= j < |cs| :: after[j] == FlaggedOne(config, s, cs, elapsed, j)
    ensures after == Flagged(config, s, cs, elapsed, |cs|)
  {
    FlaggedLength(config, s, cs, elapsed, |cs|);
    forall j | 0 <= j < |cs|
      ensures after[j] == Flagged(config, s, cs, elapsed, |cs|)[j]
    {
      FlaggedAt(config, s, cs, elapsed, |cs|, j);
    }
  }

  function Cleared(t: Transition): Transition {
    Transition(t.source, t.sourceName, t.code, "Reset: " + t.message, 0, false)
  }

  function AllCleared(active: seq<Transition>): seq<Transition> {
    seq(|active|, i requires 0 <= i < |active| => Cleared(active[i]))
  }

  /** One clearing for each alarm, in order: the same source and code, no severity, and a message that
      says so. */
  predicate AreClearings(active: seq<Transition>, clearings: seq<Transition>) {
    |clearings| == |active| &&
    forall i | 0 <= i < |active| ::
      && clearings[i].source == active[i].source && clearings[i].sourceName == active[i].sourceName
      && clearings[i].code == active[i].code && !clearings[i].active
      && clearings[i].severity == 0 && clearings[i].message == "Reset: " + active[i].message
  }

  function Unflagged(cs: seq<Compressor>): seq<Compressor> {
    seq(|cs|, i requires 0 <= i < |cs| => cs[i].(alarmActive := false, sensorFaultCommand := false))
  }

  // ----- what evaluation keeps -----

  ghost predicate UniqueLatches(active: seq<Transition>) {
    forall i, j | 0 <= i < j < |active| :: active[i].source != active[j].source || active[i].code != active[j].code
  }

  lemma LatchKeepsUnique(active: seq<Transition>, t: Transition, condition: bool)
    requires UniqueLatches(active)
    ensures UniqueLatches(Latch(active, t, condition)) && active <= Latch(active, t, condition)
    ensures condition ==> IsLatched(Latch(active, t, condition), t.source, t.code)
  {
    var after := Latch(active, t, condition);
    if condition {
      if IsLatched(active, t.source, t.code) {
        var i :| 0 <= i < |active| && active[i].source == t.source && active[i].code == t.code;
        assert after[i] == active[i];
      } else {
        assert after[|active|] == t;
      }
    }
  }

  predicate IsOwnAlarm(config: FaultConfig, c: Compressor, t: Transition) {
    t == TemperatureAlarm(config, c) || t == OverloadAlarm(config, c) || t == SensorAlarm(config, c)
  }

  /** The longer list keeps the shorter one and adds alarms of this compressor only. */
  ghost predicate AddsOwn(config: FaultConfig, c: Compressor, before: seq<Transition>, after: seq<Transition>) {
    && before <= after && UniqueLatches(after)
    && forall i | |before| <= i < |after| :: IsOwnAlarm(config, c, after[i])
  }

  lemma LatchAddsOwn(config: FaultConfig, c: Compressor, before: seq<Transition>, active: seq<Transition>,
                     t: Transition, condition: bool)
    requires AddsOwn(config, c, before, active) && IsOwnAlarm(config, c, t)
    ensures AddsOwn(config, c, before, Latch(active, t, condition))
  {
    LatchKeepsUnique(active, t, condition);
  }

  /** What a compressor's rules add is its own: latches only grow, and other sources keep theirs. */
  lemma CompressorAddsOwn(config: FaultConfig, s: FaultState, c: Compressor, elapsed: real)
    requires UniqueLatches(s.active)
    ensures AddsOwn(config, c, s.active, AfterCompressor(config, s, c, elapsed).active)
  {
    var hot := HotFor(config, s.durations, c, elapsed);
    var a := Latch(s.active, TemperatureAlarm(config, c), hot >= config.highTemperatureDelay);
    var b := Latch(a, OverloadAlarm(config, c), c.motorCurrent > config.overloadCurrent);
    LatchAddsOwn(config, c, s.active, s.active, TemperatureAlarm(config, c), hot >= config.highTemperatureDelay);
    LatchAddsOwn(config, c, s.active, a, OverloadAlarm(config, c), c.motorCurrent > config.overloadCurrent);
    LatchAddsOwn(config, c, s.active, b, SensorAlarm(config, c), c.sensorFaultCommand);
  }

  lemma {:induction false} LatchesStayUnique(config: FaultConfig, s: FaultState, cs: seq<Compressor>, elapsed: real,
                                             n: nat)
    requires UniqueLatches(s.active) && n <= |cs|
    ensures UniqueLatches(AfterCompressors(config, s, cs, elapsed, n).active)
  {
    if n > 0 {
      LatchesStayUnique(config, s, cs, elapsed, n - 1);
      CompressorAddsOwn(config, AfterCompressors(config, s, cs, elapsed, n - 1), cs[n - 1], elapsed);
    }
  }

  /** The rules of one compressor add alarms of its own behind those of the compressors before it. */
  lemma NextAddsOwn(config: FaultConfig, s: FaultState, cs: seq<Compressor>, elapsed: real, n: nat)
    requires UniqueLatches(s.active) && n < |cs|
    ensures AddsOwn(config, cs[n], AfterCompressors(config, s, cs, elapsed, n).active,
                    AfterCompressors(config, s, cs, elapsed, n + 1).active)
  {
    LatchesStayUnique(config, s, cs, elapsed, n);
    CompressorAddsOwn(config, AfterCompressors(config, s, cs, elapsed, n), cs[n], elapsed);
  }

  lemma PrefixChain(a: seq<Transition>, b: seq<Transition>, c: seq<Transition>)
    requires a <= b && b <= c
    ensures a <= c
  {
  }

  lemma {:induction false} CompressorsOnlyAdd(config: FaultConfig, s: FaultState, cs: seq<Compressor>, elapsed: real,
                                              m: nat, n: nat)
    requires UniqueLatches(s.active) && m <= n <= |cs|
    ensures AfterCompressors(config, s, cs, elapsed, m).active <= AfterCompressors(config, s, cs, elapsed, n).active
    ensures UniqueLatches(AfterCompressors(config, s, cs, elapsed, n).active)
    decreases n
  {
    LatchesStayUnique(config, s, cs, elapsed, n);
    if m < n {
      CompressorsOnlyAdd(config, s, cs, elapsed, m, n - 1);
      NextAddsOwn(config, s, cs, elapsed, n - 1);
      PrefixChain(AfterCompressors(config, s, cs, elapsed, m).active, AfterCompressors(config, s, cs, elapsed,
          n - 1).active,
                  AfterCompressors(config, s, cs, elapsed, n).active);
    }
  }

  /** Evaluation latches: it never drops an alarm and never holds one twice. */
  lemma EvaluationLatches(config: FaultConfig, s: FaultState, station: Station, elapsed: real)
    requires UniqueLatches(s.active)
    ensures s.active <= AfterStation(config, s, station, elapsed).active
    ensures UniqueLatches(AfterStation(config, s, station, elapsed).active)
  {
    CompressorsOnlyAdd(config, s, station.compressors, elapsed, 0, |station.compressors|);
    LatchKeepsUnique(AfterCompressors(config, s, station.compressors, elapsed, |station.compressors|).active,
                     PressureAlarm(config, station.config), station.receiverPressure > config.highPressure);
  }

  /** Every alarm that is new after an evaluation was raised by a rule of this station. */
  ghost predicate ByRule(config: FaultConfig, station: Station, t: Transition) {
    || t == PressureAlarm(config, station.config)
    || exists c | c in station.compressors :: IsOwnAlarm(config, c, t)
  }

  /** The longer list keeps the shorter one and adds alarms by rule only. */
  ghost predicate AddsByRule(config: FaultConfig, station: Station, first: seq<Transition>, after: seq<Transition>) {
    first <= after && forall i | |first| <= i < |after| :: ByRule(config, station, after[i])
  }

  lemma NextIsByRule(config: FaultConfig, s: FaultState, station: Station, elapsed: real, n: nat)
    requires UniqueLatches(s.active) && n < |station.compressors|
    requires AddsByRule(config, station, s.active, AfterCompressors(config, s, station.compressors, elapsed, n).active)
    ensures AddsByRule(config, station, s.active, AfterCompressors(config, s, station.compressors, elapsed,
                                                                   n + 1).active)
  {
    NextAddsOwn(config, s, station.compressors, elapsed, n);
    OwnAreByRule(config, station, n, s.active, AfterCompressors(config, s, station.compressors, elapsed, n).active,
                 AfterCompressors(config, s, station.compressors, elapsed, n + 1).active);
  }

  lemma {:induction false} NewAreByRule(config: FaultConfig, s: FaultState, station: Station, elapsed: real, n: nat)
    requires UniqueLatches(s.active) && n <= |station.compressors|
    ensures AddsByRule(config, station, s.active, AfterCompressors(config, s, station.compressors, elapsed, n).active)
  {
    if n > 0 {
      NewAreByRule(config, s, station, elapsed, n - 1);
      NextIsByRule(config, s, station, elapsed, n - 1);
    }
  }

  lemma OwnAreByRule(config: FaultConfig, station: Station, n: nat, first: seq<Transition>, before: seq<Transition>,
                     after: seq<Transition>)
    requires n < |station.compressors| && AddsByRule(config, station, first, before)
    requires AddsOwn(config, station.compressors[n], before, after)
    ensures AddsByRule(config, station, first, after)
  {
    forall i | |first| <= i < |after|
      ensures ByRule(config, station, after[i])
    {
      if i < |before| {
        assert after[i] == before[i];
      } else {
        assert IsOwnAlarm(config, station.compressors[n], after[i]);
      }
    }
  }

  /** What a rule's alarm says: the severity and the message that are configured for its code, and the
      identifier and name of one compressor, or of the station for its pressure. */
  ghost predicate FollowsRule(config: FaultConfig, station: StationConfig, t: Transition) {
    && t.active
    && (t.code == HighTemperature ==>
          t.severity == config.highTemperatureSeverity && t.message == config.highTemperatureMessage)
    && (t.code == MotorOverload ==> t.severity == config.overloadSeverity && t.message == config.overloadMessage)
    && (t.code == SensorFault ==> t.severity == config.sensorFaultSeverity && t.message == config.sensorFaultMessage)
    && (t.code == HighPressure ==> t.severity == config.highPressureSeverity && t.message == config.highPressureMessage)
    && (if t.code == HighPressure then t.source == station.id && t.sourceName == station.displayName
        else exists c | c in station.compressors :: t.source == c.id && t.sourceName == c.displayName)
  }

  lemma ByRuleFollows(config: FaultConfig, station: Station, t: Transition)
    requires IsBuilt(station) && ByRule(config, station, t)
    ensures FollowsRule(config, station.config, t)
  {
    if t != PressureAlarm(config, station.config) {
      var c :| c in station.compressors && IsOwnAlarm(config, c, t);
      var i :| 0 <= i < |station.compressors| && station.compressors[i] == c;
      assert station.config.compressors[i] in station.config.compressors;
    }
  }

  lemma EvaluationRaisesByRule(config: FaultConfig, s: FaultState, station: Station, elapsed: real)
    requires UniqueLatches(s.active)
    ensures var t := AfterStation(config, s, station, elapsed);
            && s.active <= t.active
            && (forall i | |s.active| <= i < |t.active| :: ByRule(config, station, t.active[i]))
            && (IsBuilt(station) ==>
                  forall i | |s.active| <= i < |t.active| :: FollowsRule(config, station.config, t.active[i]))
  {
    NewAreByRule(config, s, station, elapsed, |station.compressors|);
    var t := AfterStation(config, s, station, elapsed);
    if IsBuilt(station) {
      forall i | |s.active| <= i < |t.active|
        ensures FollowsRule(config, station.config, t.active[i])
      {
        assert ByRule(config, station, t.active[i]);
        ByRuleFollows(config, station, t.active[i]);
      }
    }
  }

  // ----- the flag of a compressor -----

  function IdsOf(cs: seq<Compressor>): seq<string> {
    seq(|cs|, i requires 0 <= i < |cs| => cs[i].config.id)
  }

  /** No identifier is used twice, neither by two compressors nor by a compressor and the station. */
  ghost predicate AllDiffer(ids: seq<string>, stationId: string) {
    Distinct(ids) && stationId !in ids
  }

  lemma DifferentOwners(cs: seq<Compressor>, i: nat, j: nat)
    requires Distinct(IdsOf(cs)) && i < |cs| && j < |cs|
    ensures cs[i].config.id == cs[j].config.id <==> i == j
  {
    assert IdsOf(cs)[i] == cs[i].config.id && IdsOf(cs)[j] == cs[j].config.id;
  }

  lemma NotTheStation(cs: seq<Compressor>, stationId: string, i: nat)
    requires stationId !in IdsOf(cs) && i < |cs|
    ensures cs[i].config.id != stationId
  {
    assert IdsOf(cs)[i] == cs[i].config.id;
  }

  lemma HasAlarmGrows(before: seq<Transition>, after: seq<Transition>, source: string)
    requires before <= after && forall i | |before| <= i < |after| :: after[i].source != source
    ensures HasAlarm(before, source) <==> HasAlarm(after, source)
  {
    if HasAlarm(before, source) {
      var i :| 0 <= i < |before| && before[i].source == source;
      assert after[i] == before[i];
    }
    if HasAlarm(after, source) {
      var i :| 0 <= i < |after| && after[i].source == source;
      assert before[i] == after[i];
    }
  }

  lemma OtherSourcesUnaffected(config: FaultConfig, s: FaultState, c: Compressor, elapsed: real, source: string)
    requires UniqueLatches(s.active) && source != c.config.id
    ensures HasAlarm(s.active, source) <==> HasAlarm(AfterCompressor(config, s, c, elapsed).active, source)
  {
    CompressorAddsOwn(config, s, c, elapsed);
    HasAlarmGrows(s.active, AfterCompressor(config, s, c, elapsed).active, source);
  }

  lemma {:induction false} LaterRulesAreOthers(config: FaultConfig, s: FaultState, station: Station, elapsed: real,
                                               i: nat, n: nat)
    requires UniqueLatches(s.active) && Distinct(IdsOf(station.compressors)) && i < n <= |station.compressors|
    ensures var id := station.compressors[i].config.id;
            HasAlarm(AfterCompressors(config, s, station.compressors, elapsed, i + 1).active, id) <==>
            HasAlarm(AfterCompressors(config, s, station.compressors, elapsed, n).active, id)
    decreases n
  {
    if i + 1 < n {
      LaterRulesAreOthers(config, s, station, elapsed, i, n - 1);
      DifferentOwners(station.compressors, i, n - 1);
      var before := AfterCompressors(config, s, station.compressors, elapsed, n - 1);
      CompressorsOnlyAdd(config, s, station.compressors, elapsed, 0, n - 1);
      OtherSourcesUnaffected(config, before, station.compressors[n - 1], elapsed, station.compressors[i].config.id);
    }
  }

  /** Each compressor's alarm flag says whether it owns a latched alarm, when all sources have
      different identifiers. */
  lemma FlagsTellTheTruth(config: FaultConfig, s: FaultState, station: Station, elapsed: real, i: nat)
    requires UniqueLatches(s.active) && AllDiffer(IdsOf(station.compressors), station.config.id)
    requires i < |station.compressors|
    ensures |Flagged(config, s, station.compressors, elapsed, |station.compressors|)| == |station.compressors|
    ensures Flagged(config, s, station.compressors, elapsed, |station.compressors|)[i].alarmActive ==
            HasAlarm(AfterStation(config, s, station, elapsed).active, station.compressors[i].config.id)
  {
    var n := |station.compressors|;
    FlaggedAt(config, s, station.compressors, elapsed, n, i);
    LaterRulesAreOthers(config, s, station, elapsed, i, n);
    NotTheStation(station.compressors, station.config.id, i);
    HasAlarmGrows(AfterCompressors(config, s, station.compressors, elapsed, n).active,
                  AfterStation(config, s, station, elapsed).active, station.compressors[i].config.id);
  }

  // ----- alarms that cannot happen -----

  /** Nothing runs hotter or draws more than the thresholds, and the delay is real. */
  predicate ThresholdsAboveRatings(config: FaultConfig, station: StationConfig) {
    && config.highTemperatureDelay > 0.0
    && forall i | 0 <= i < |station.compressors| ::
         && station.compressors[i].runningTemperature <= config.highTemperature
         && station.compressors[i].runningCurrent <= config.overloadCurrent
  }

  ghost predicate NoThermalOrOverload(active: seq<Transition>) {
    forall i | 0 <= i < |active| :: active[i].code != HighTemperature && active[i].code != MotorOverload
  }

  lemma {:induction false} RatingsKeepQuiet(config: FaultConfig, s: FaultState, station: Station, elapsed: real, n: nat)
    requires ThresholdsAboveRatings(config, station.config) && InBounds(station) && n <= |station.compressors|
    requires NoThermalOrOverload(s.active)
    ensures NoThermalOrOverload(AfterCompressors(config, s, station.compressors, elapsed, n).active)
  {
    if n > 0 {
      RatingsKeepQuiet(config, s, station, elapsed, n - 1);
      var c := station.compressors[n - 1];
      assert c.config == station.config.compressors[n - 1] && CompressorInBounds(c);
    }
  }

  lemma StationKeepsQuiet(config: FaultConfig, s: FaultState, station: Station, elapsed: real)
    requires ThresholdsAboveRatings(config, station.config) && InBounds(station) && NoThermalOrOverload(s.active)
    ensures NoThermalOrOverload(AfterStation(config, s, station, elapsed).active)
  {
    RatingsKeepQuiet(config, s, station, elapsed, |station.compressors|);
  }

  // ----- the manager object -----

  lemma Appended(first: seq<Transition>, some: seq<Transition>, more: seq<Transition>, all: seq<Transition>)
    requires (first + some) + more == all
    ensures first + (some + more) == all
  {
  }

  class FaultManager {
    const config: FaultConfig
    /** The dictionary of active alarms, in insertion order. */
    var activeAlarms: seq<Transition>
    var highTemperatureDurations: map<string, real>

    function State(): FaultState
      reads this
    {
      FaultState(activeAlarms, highTemperatureDurations)
    }

    constructor (config: FaultConfig)
      ensures State() == NO_FAULTS && this.config == config
    {
      this.config := config;
      activeAlarms, highTemperatureDurations := [], map[];
    }

    method SetAlarm(t: Transition, condition: bool) returns (transitions: seq<Transition>)
      modifies this`activeAlarms
      ensures transitions == Raised(old(activeAlarms), t, condition)
      ensures activeAlarms == old(activeAlarms) + transitions
    {
      transitions := [];
      if condition && !IsLatched(activeAlarms, t.source, t.code) {
        activeAlarms := activeAlarms + [t];
        transitions := [t];
      }
    }

    method EvaluateCompressor(compressor: CompressorModel, elapsedSeconds: real) returns (transitions: seq<Transition>)
      modifies this, compressor
      ensures State() == AfterCompressor(config, old(State()), old(compressor.View()), elapsedSeconds)
      ensures old(activeAlarms) + transitions == activeAlarms
      ensures compressor.View() ==
              old(compressor.View()).(alarmActive := HasAlarm(activeAlarms, compressor.config.id))
    {
      var c := compressor.View();
      var hot := HotFor(config, highTemperatureDurations, c, elapsedSeconds);
      highTemperatureDurations := highTemperatureDurations[c.config.id := hot];
      transitions := SetAlarm(TemperatureAlarm(config, c), hot >= config.highTemperatureDelay);
      var more := SetAlarm(OverloadAlarm(config, c), c.motorCurrent > config.overloadCurrent);
      Appended(old(activeAlarms), transitions, more, activeAlarms);
      transitions := transitions + more;
      more := SetAlarm(SensorAlarm(config, c), c.sensorFaultCommand);
      Appended(old(activeAlarms), transitions, more, activeAlarms);
      transitions := transitions + more;
      compressor.alarmActive := HasAlarm(activeAlarms, c.config.id);
    }

    method Evaluate(station: StationModel, elapsedSeconds: real) returns (transitions: seq<Transition>)
      requires station.Valid()
      modifies this, station.compressors
      ensures State() == AfterStation(config, old(State()), old(station.View()), elapsedSeconds)
      ensures station.View() ==
              old(station.View()).(compressors :=
                Flagged(config, old(State()), old(station.Views()), elapsedSeconds, |station.compressors|))
      ensures old(activeAlarms) + transitions == activeAlarms
    {
      transitions := EvaluateCompressors(station, elapsedSeconds);
      var more := SetAlarm(PressureAlarm(config, station.config), station.receiverPressure > config.highPressure);
      transitions := transitions + more;
    }

    /** The first n compressors have been evaluated. */
    ghost predicate Evaluated(station: StationModel, before: FaultState, cs: seq<Compressor>, elapsedSeconds: real,
                              n: nat)
      reads this, station.compressors
    {
      && n <= |cs| == |station.compressors|
      && State() == AfterCompressors(config, before, cs, elapsedSeconds, n)
      && (forall j | 0 <= j < n :: station.compressors[j].View() == FlaggedOne(config, before, cs, elapsedSeconds, j))
      && (forall j | n <= j < |cs| :: station.compressors[j].View() == cs[j])
    }

    method EvaluateNext(station: StationModel, elapsedSeconds: real, n: nat, ghost before: FaultState,
                        ghost cs: seq<Compressor>)
      returns (transitions: seq<Transition>)
      requires station.Valid() && Evaluated(station, before, cs, elapsedSeconds, n) && n < |cs|
      modifies this, station.compressors
      ensures Evaluated(station, before, cs, elapsedSeconds, n + 1)
      ensures old(activeAlarms) + transitions == activeAlarms
    {
      transitions := EvaluateCompressor(station.compressors[n], elapsedSeconds);
    }

    lemma NoneEvaluated(station: StationModel, elapsedSeconds: real)
      ensures Evaluated(station, State(), station.Views(), elapsedSeconds, 0)
    {
    }

    lemma AllEvaluated(station: StationModel, before: FaultState, cs: seq<Compressor>, elapsedSeconds: real)
      requires Evaluated(station, before, cs, elapsedSeconds, |cs|)
      ensures State() == AfterCompressors(config, before, cs, elapsedSeconds, |station.compressors|)
      ensures station.Views() == Flagged(config, before, cs, elapsedSeconds, |station.compressors|)
    {
      AllFlagged(config, before, cs, elapsedSeconds, station.Views());
    }

    /** The loop over the compressors. */
    method EvaluateEach(station: StationModel, elapsedSeconds: real, ghost before: FaultState,
                        ghost cs: seq<Compressor>)
      returns (transitions: seq<Transition>)
      requires station.Valid() && Evaluated(station, before, cs, elapsedSeconds, 0)
      modifies this, station.compressors
      ensures Evaluated(station, before, cs, elapsedSeconds, |cs|)
      ensures old(activeAlarms) + transitions == activeAlarms
    {
      transitions := [];
      var i := 0;
      while i < |station.compressors|
        invariant 0 <= i && Evaluated(station, before, cs, elapsedSeconds, i)
        invariant old(activeAlarms) + transitions == activeAlarms
      {
        var more := EvaluateNext(station, elapsedSeconds, i, before, cs);
        Appended(old(activeAlarms), transitions, more, activeAlarms);
        transitions := transitions + more;
        i := i + 1;
      }
    }

    method EvaluateCompressors(station: StationModel, elapsedSeconds: real) returns (transitions: seq<Transition>)
      requires station.Valid()
      modifies this, station.compressors
      ensures State() == AfterCompressors(config, old(State()), old(station.Views()), elapsedSeconds,
                                          |station.compressors|)
      ensures station.Views() == Flagged(config, old(State()), old(station.Views()), elapsedSeconds,
                                         |station.compressors|)
      ensures old(activeAlarms) + transitions == activeAlarms
    {
      ghost var before, cs := State(), station.Views();
      NoneEvaluated(station, elapsedSeconds);
      transitions := EvaluateEach(station, elapsedSeconds, before, cs);
      AllEvaluated(station, before, cs, elapsedSeconds);
    }

    method Reset(station: StationModel) returns (transitions: seq<Transition>)
      requires station.Valid()
      modifies this, station.compressors
      ensures transitions == AllCleared(old(activeAlarms)) && State() == NO_FAULTS
      ensures AreClearings(old(activeAlarms), transitions)
      ensures station.View() == old(station.View()).(compressors := Unflagged(old(station.Views())))
    {
      transitions := AllCleared(activeAlarms);
      activeAlarms := [];
      highTemperatureDurations := map[];
      var i := 0;
      while i < |station.compressors|
        invariant i <= |station.compressors|
        invariant State() == NO_FAULTS
        invariant forall j | 0 <= j < i :: station.compressors[j].View() == Unflagged(old(station.Views()))[j]
        invariant forall j | i <= j < |station.compressors| :: station.compressors[j].View() == old(station.Views())[j]
      {
        station.compressors[i].alarmActive := false;
        station.compressors[i].sensorFaultCommand := false;
        i := i + 1;
      }
      assert station.Views() == Unflagged(old(station.Views()));
    }
  }
}
