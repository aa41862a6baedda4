/** The alarm path end to end: the simulator's cycle, the events that it emits, and the alarm table
    that the panel builds from them over a whole session. */
module Session {
  import opened CStrings
  import opened NodeIds
  import opened AlarmTable
  import opened Events
  import opened Plant
  import opened Faults
  import DataModel

  // ----- one event -----

  /** The node and name of every event source; unknown sources speak through the station. */
  datatype Network = Network(nodes: map<string, NodeId>, names: map<string, string>, station: NodeId,
                             stationName: string)

  function SourceNode(net: Network, source: string): NodeId {
    if source in net.nodes then net.nodes[source] else net.station
  }

  function SourceName(net: Network, source: string): string {
    if source in net.names then net.names[source] else net.stationName
  }

  /** The record that the panel makes of an event, if it can make one. */
  function Record(node: NodeId, name: string, text: string, severity: nat): Alarm {
    match ParseText(Received(text))
    case Malformed => BLANK_ALARM
    case Parsed(code, active, reason) => Alarm(Rendered(node), CString(Clip(name, NAME_LENGTH)), code, reason, severity,
                                               active)
  }

  function EventRecord(net: Network, t: Transition): Alarm {
    Record(SourceNode(net, t.source), SourceName(net, t.source), Print(CodeText(t.code), t.active, t.message),
           t.severity)
  }

  /** The alarm that a parsed event makes, field by field. */
  predicate IsReport(a: Alarm, node: NodeId, name: string, event: ParsedEvent, severity: nat)
    requires event.Parsed?
  {
    && a.source == Rendered(node)
    && IsCut(a.sourceName, name, NAME_LENGTH)
    && a.code == event.code && a.active == event.active && a.reason == event.reason
    && a.severity == severity
  }

  /** The panel's event handler: an event that parses updates the table, any other is ignored. */
  method EventNotification(model: DataModel.Model, node: NodeId, name: string, text: string, severity: nat)
    requires model.Valid()
    modifies model`alarmCount, model`alarmGeneration, model.alarms
    ensures model.Valid()
    ensures model.Alarms() == Apply(old(model.Alarms()), Record(node, name, text, severity)).slots
    ensures var event := ParseText(Received(text));
            if event.Parsed? then
              exists a: Alarm :: IsReport(a, node, name, event, severity) &&
                                 model.Alarms() == Apply(old(model.Alarms()), a).slots
            else model.Alarms() == old(model.Alarms())
  {
    RenderedNotEmpty(node);
    ClippedIsCut(name, NAME_LENGTH);
    var event := ParseEvent(text);
    match event {
      case Malformed =>
      case Parsed(code, active, reason) =>
        var source := NodeIdToText(node);
        var alarm := Alarm(source, CString(Clip(name, NAME_LENGTH)), code, reason, severity, active);
        var result := model.UpdateAlarm(alarm);
        assert IsReport(alarm, node, name, event, severity);
    }
  }

  lemma RenderedNotEmpty(node: NodeId)
    ensures Rendered(node) != ""
  {
    PrefixShape(node);
  }

  /** A message whose clearing event cannot be mistaken for a raising one. */
  predicate Clean(t: Transition) {
    t.active && ':' !in t.message
  }

  predicate CleanConfig(config: FaultConfig) {
    && ':' !in config.highTemperatureMessage && ':' !in config.overloadMessage
    && ':' !in config.sensorFaultMessage && ':' !in config.highPressureMessage
  }

  lemma JoinIsClean(a: string, b: string, c: string)
    requires ':' !in a && ':' !in b && ':' !in c
    ensures ':' !in a + b + c
  {
  }

  lemma SensorMessageIsClean()
    ensures ':' !in SENSOR_VALUES && ':' !in ARE_UNRELIABLE
  {
  }

  lemma OpeningsAreClean()
    ensures ':' !in TEMPERATURE_EXCEEDED && ':' !in CURRENT_EXCEEDED && ':' !in PRESSURE_EXCEEDED
  {
  }

  /** The messages of the rules are clean as long as numbers are printed without a colon. */
  lemma MessagesAreClean(config: FaultConfig, temperature: string, current: string, pressure: string)
    requires ':' !in temperature && ':' !in current && ':' !in pressure
    ensures CleanConfig(WithMessages(config, temperature, current, pressure))
  {
    SensorMessageIsClean();
    OpeningsAreClean();
    JoinIsClean(TEMPERATURE_EXCEEDED, temperature, DEGREES);
    JoinIsClean(CURRENT_EXCEEDED, current, " A");
    JoinIsClean(PRESSURE_EXCEEDED, pressure, " bar");
  }

  lemma CodesAreCodes(code: AlarmCode)
    ensures IsCode(CodeText(code))
  {
  }

  lemma CodesAreDifferent(a: AlarmCode, b: AlarmCode)
    requires CodeText(a) == CodeText(b)
    ensures a == b
  {
    assert CodeText(HighTemperature)[5] == 'T' && CodeText(MotorOverload)[5] == '_';
    assert CodeText(SensorFault)[5] == 'R' && CodeText(HighPressure)[5] == 'P';
  }

  lemma NoColonIsQuiet(message: string)
    requires ':' !in message
    ensures Quiet(message) && Quiet("Reset: " + message)
  {
    NoColonNoPattern(" " + message);
    assert " " + ("Reset: " + message) == " Reset:" + (" " + message);
    OccursBeyond(" Reset:", " " + message, " ACTIVE:");
  }

  lemma NoColonNoPattern(s: string)
    requires ':' !in s
    ensures !Occurs(s, " ACTIVE:")
  {
    forall k | 0 <= k <= |s| - 8
      ensures !IsAt(s, " ACTIVE:", k)
    {
      assert s[k..k + 8][7] == s[k + 7];
    }
  }

  function KeyOf(net: Network, source: string, code: AlarmCode): AlarmKey {
    AlarmKey(Rendered(SourceNode(net, source)), CodeText(code))
  }

  /** Raising and clearing events arrive with their source, code and state, however long the text. */
  lemma RecordKeepsKey(net: Network, t: Transition)
    requires Clean(t)
    ensures var a := EventRecord(net, t);
            a.Named() && a.active && a.Key() == KeyOf(net, t.source, t.code)
    ensures var c := EventRecord(net, Cleared(t));
            c.Named() && !c.active && c.Key() == KeyOf(net, t.source, t.code)
  {
    CodesAreCodes(t.code);
    NoColonIsQuiet(t.message);
    KeyAndStateSurvive(CodeText(t.code), true, t.message);
    KeyAndStateSurvive(CodeText(t.code), false, "Reset: " + t.message);
    RenderedNotEmpty(SourceNode(net, t.source));
  }

  /** The operator reads the simulator's own message whenever the whole text fits the buffer. */
  lemma ReasonArrives(net: Network, t: Transition)
    requires Clean(t) && Printable(CodeText(t.code), true, t.message)
    ensures EventRecord(net, t).reason == t.message
  {
    ParseUndoesPrint(CodeText(t.code), true, t.message);
  }

  /** The alarm is this transition as the panel can have it: the node and the name of its source, its
      code, state and severity, and as much of its message as the text has room for. */
  predicate ArrivesAs(net: Network, t: Transition, a: Alarm) {
    && a.source == Rendered(if t.source in net.nodes then net.nodes[t.source] else net.station)
    && IsCut(a.sourceName, if t.source in net.names then net.names[t.source] else net.stationName, NAME_LENGTH)
    && a.code == CodeText(t.code) && a.active == t.active && a.severity == t.severity
    && |Print(a.code, t.active, "")| < REASON_LENGTH
    && (t.message == "" || t.message[0] != ' ' ==>
          IsCut(a.reason, t.message, REASON_LENGTH - |Print(a.code, t.active, "")|))
  }

  lemma PrintedArrives(net: Network, t: Transition)
    requires t.active || Quiet(t.message)
    ensures ArrivesAs(net, t, EventRecord(net, t))
  {
    CodesAreCodes(t.code);
    KeyAndStateSurvive(CodeText(t.code), t.active, t.message);
    ClippedIsCut(SourceName(net, t.source), NAME_LENGTH);
    PrintHead(CodeText(t.code), t.active, "");
    if t.message == "" || t.message[0] != ' ' {
      ReasonIsCut(CodeText(t.code), t.active, t.message);
    }
  }

  /** Raising and clearing events arrive with everything that the operator reads. */
  lemma AlarmArrives(net: Network, t: Transition)
    requires Clean(t)
    ensures ArrivesAs(net, t, EventRecord(net, t)) && ArrivesAs(net, Cleared(t), EventRecord(net, Cleared(t)))
  {
    NoColonIsQuiet(t.message);
    PrintedArrives(net, t);
    PrintedArrives(net, Cleared(t));
  }

  // ----- the simulator's cycle -----

  datatype Command = Command(automaticMode: bool, runCommand: bool, sensorFault: bool)

  /** What one cycle reads: the reset command, the command variables, which belong to identifiers, and
      the demand wave. */
  datatype Input = Input(reset: bool, commands: map<string, Command>, wave: real)

  /** The simulator's state and every event that it has emitted. */
  datatype Run = Run(station: Station, faults: FaultState, emitted: seq<Transition>)

  /** Every compressor finds the command variables of its identifier. */
  predicate HaveCommands(cs: seq<Compressor>, commands: map<string, Command>) {
    forall i | 0 <= i < |cs| :: cs[i].config.id in commands
  }

  function Told(c: Compressor, command: Command): Compressor {
    c.(automaticMode := command.automaticMode, manualRunCommand := command.runCommand,
       sensorFaultCommand := command.sensorFault)
  }

  function WithCommands(cs: seq<Compressor>, commands: map<string, Command>): seq<Compressor>
    requires HaveCommands(cs, commands)
  {
    seq(|cs|, i requires 0 <= i < |cs| => Told(cs[i], commands[cs[i].config.id]))
  }

  /** The station after it has read its commands: every compressor has the three values that belong to its
      identifier, a reset takes back sensor faults and flags, and nothing else changes. */
  predicate IsTold(before: Station, input: Input, after: Station) {
    && after == before.(compressors := after.compressors)
    && |after.compressors| == |before.compressors| && HaveCommands(before.compressors, input.commands)
    && forall i | 0 <= i < |after.compressors| ::
         var command := input.commands[before.compressors[i].config.id];
         after.compressors[i] == before.compressors[i].(
           automaticMode := command.automaticMode,
           manualRunCommand := command.runCommand,
           sensorFaultCommand := command.sensorFault && !input.reset,
           alarmActive := before.compressors[i].alarmActive && !input.reset)
  }

  predicate Accepts(station: Station, input: Input) {
    HaveCommands(station.compressors, input.commands) && station.config.maximumDemand != 0.0
  }

  /** After the commands have been read and a requested reset has been carried out. */
  function Commanded(run: Run, input: Input): Run
    requires Accepts(run.station, input)
  {
    var station := run.station.(compressors := WithCommands(run.station.compressors, input.commands));
    if input.reset then
      Run(station.(compressors := Unflagged(station.compressors)), NO_FAULTS,
          run.emitted + AllCleared(run.faults.active))
    else Run(station, run.faults, run.emitted)
  }

  /** The state as it enters evaluation, and what has been sent and is latched by then. */
  function Started(run: Run, input: Input, elapsed: real): Run
    requires Accepts(run.station, input)
  {
    var commanded := Commanded(run, input);
    commanded.(station := AdvanceStation(commanded.station, input.wave, elapsed))
  }

  lemma CommandedIsTold(run: Run, input: Input)
    requires Accepts(run.station, input)
    ensures IsTold(run.station, input, Commanded(run, input).station)
  {
  }

  /** What the rules see in a cycle: the commands of this cycle are obeyed, and then the station moves. */
  lemma StartedObeys(run: Run, input: Input, elapsed: real) returns (told: Station)
    requires Accepts(run.station, input)
    ensures IsTold(run.station, input, told)
    ensures Moves(told, Started(run, input, elapsed).station, input.wave, elapsed)
  {
    told := Commanded(run, input).station;
    CommandedIsTold(run, input);
    StationMoves(told, input.wave, elapsed);
  }

  lemma StartedIsBuilt(run: Run, input: Input, elapsed: real)
    requires Accepts(run.station, input) && IsBuilt(run.station)
    ensures IsBuilt(Started(run, input, elapsed).station)
  {
  }

  /** After the evaluation of a station that has moved, with the events of what it has latched. */
  function Evaluated(config: FaultConfig, started: Run, elapsed: real): (next: Run)
    ensures next.station.config == started.station.config
    ensures IsBuilt(started.station) ==> IsBuilt(next.station)
  {
    var compressors := started.station.compressors;
    var after := AfterStation(config, started.faults, started.station, elapsed);
    EvaluationKeeps(config, started.faults, started.station, elapsed);
    FlaggedConfigs(config, started.faults, compressors, elapsed);
    Run(started.station.(compressors := Flagged(config, started.faults, compressors, elapsed, |compressors|)), after,
        started.emitted + after.active[|started.faults.active|..])
  }

  /** Commands, reset with its events, physics, evaluation, events: the order of the main loop. */
  function Cycle(config: FaultConfig, run: Run, input: Input, elapsed: real): (next: Run)
    requires Accepts(run.station, input)
    ensures next.station.config == run.station.config
    ensures IsBuilt(run.station) ==> IsBuilt(next.station)
  {
    Evaluated(config, Started(run, input, elapsed), elapsed)
  }

  /** The same cycle on the simulator's objects, after `emitted` has been sent. */
  method RunCycle(station: StationModel, manager: FaultManager, input: Input, elapsed: real,
                  ghost emitted: seq<Transition>)
    returns (events: seq<Transition>)
    requires station.Valid() && Accepts(station.View(), input)
    modifies station, station.compressors, manager
    ensures station.Valid()
    ensures Run(station.View(), manager.State(), emitted + events) ==
            Cycle(manager.config, Run(old(station.View()), old(manager.State()), emitted), input, elapsed)
  {
    events := ObeyCommands(station, manager, input, emitted);
    ghost var sent := emitted + events;
    var transitions := Simulate(station, manager, input.wave, elapsed, sent);
    Appended(emitted, events, transitions, sent + transitions);
    events := events + transitions;
  }

  method ObeyCommands(station: StationModel, manager: FaultManager, input: Input, ghost emitted: seq<Transition>)
    returns (events: seq<Transition>)
    requires station.Valid() && Accepts(station.View(), input)
    modifies station.compressors, manager
    ensures Run(station.View(), manager.State(), emitted + events) ==
            Commanded(Run(old(station.View()), old(manager.State()), emitted), input)
    ensures IsTold(old(station.View()), input, station.View())
  {
    CommandedIsTold(Run(station.View(), manager.State(), emitted), input);
    ReadCommands(station, input.commands);
    events := [];
    if input.reset {
      events := manager.Reset(station);
    }
  }

  method Simulate(station: StationModel, manager: FaultManager, wave: real, elapsed: real,
                  ghost emitted: seq<Transition>)
    returns (transitions: seq<Transition>)
    requires station.Valid() && station.config.maximumDemand != 0.0
    modifies station, station.compressors, manager
    ensures station.Valid()
    ensures Run(station.View(), manager.State(), emitted + transitions) ==
            Evaluated(manager.config, Run(AdvanceStation(old(station.View()), wave, elapsed), old(manager.State()),
                                          emitted), elapsed)
  {
    station.Update(wave, elapsed);
    ghost var latched := manager.activeAlarms;
    transitions := manager.Evaluate(station, elapsed);
    assert transitions == manager.activeAlarms[|latched|..];
  }

  method ReadCommands(station: StationModel, commands: map<string, Command>)
    requires station.Valid() && HaveCommands(station.Views(), commands)
    modifies station.compressors
    ensures station.Views() == WithCommands(old(station.Views()), commands)
  {
    ghost var before := station.Views();
    var i := 0;
    while i < |station.compressors|
      invariant i <= |station.compressors|
      invariant forall j | 0 <= j < i :: station.compressors[j].View() == WithCommands(before, commands)[j]
      invariant forall j | i <= j < |station.compressors| :: station.compressors[j].View() == before[j]
    {
      var compressor := station.compressors[i];
      assert compressor.View() == before[i];
      var command := commands[compressor.config.id];
      compressor.automaticMode := command.automaticMode;
      compressor.manualRunCommand := command.runCommand;
      compressor.sensorFaultCommand := command.sensorFault;
      i := i + 1;
    }
    assert station.Views() == WithCommands(before, commands);
  }

  lemma {:induction false} CompressorsKeep(config: FaultConfig, s: FaultState, cs: seq<Compressor>, elapsed: real,
                                           n: nat)
    requires n <= |cs|
    ensures s.active <= AfterCompressors(config, s, cs, elapsed, n).active
  {
    if n > 0 {
      CompressorsKeep(config, s, cs, elapsed, n - 1);
    }
  }

  lemma EvaluationKeeps(config: FaultConfig, s: FaultState, station: Station, elapsed: real)
    ensures s.active <= AfterStation(config, s, station, elapsed).active
  {
    CompressorsKeep(config, s, station.compressors, elapsed, |station.compressors|);
  }

  /** Every cycle can read the commands of every compressor of the station. */
  predicate AcceptsAll(station: StationConfig, inputs: seq<Input>) {
    station.maximumDemand != 0.0 &&
    forall i | 0 <= i < |inputs| :: forall c | c in station.compressors :: c.id in inputs[i].commands
  }

  lemma BuiltAccepts(station: Station, inputs: seq<Input>, i: nat)
    requires IsBuilt(station) && AcceptsAll(station.config, inputs) && i < |inputs|
    ensures Accepts(station, inputs[i])
  {
    forall k | 0 <= k < |station.compressors|
      ensures station.compressors[k].config.id in inputs[i].commands
    {
      assert station.config.compressors[k] in station.config.compressors;
    }
  }

  /** The simulator after these cycles, from its start. */
  function RunAll(config: FaultConfig, station: StationConfig, inputs: seq<Input>, elapsed: real): (run: Run)
    requires AcceptsAll(station, inputs)
    ensures run.station.config == station && IsBuilt(run.station)
  {
    if inputs == [] then Run(InitialStation(station), NO_FAULTS, [])
    else
      var before := RunAll(config, station, inputs[..|inputs| - 1], elapsed);
      BuiltAccepts(before.station, inputs, |inputs| - 1);
      Cycle(config, before, inputs[|inputs| - 1], elapsed)
  }
}
