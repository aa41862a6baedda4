/** The simulator's physical station: compressors that heat, cool and ramp their current, and a
    receiver and network that follow supply and demand. Numbers are reals. */
module Plant {
  import opened NodeIds

  datatype CompressorConfig = CompressorConfig(
    id: string, displayName: string, dispatchStartPercent: real, ratedFlow: real, ratedPower: real,
    stoppedTemperature: real, runningTemperature: real, heatingRate: real, coolingRate: real,
    runningCurrent: real, currentRamp: real)

  datatype StationConfig = StationConfig(
    id: string, displayName: string, initialDemand: real, maximumDemand: real, initialReceiverPressure: real,
    minimumPressure: real, maximumPressure: real, pressureResponse: real, networkPressureDrop: real,
    networkPressureResponse: real, compressors: seq<CompressorConfig>)

  /** One compressor at one moment. */
  datatype Compressor = Compressor(
    config: CompressorConfig, manualRunCommand: bool, automaticMode: bool, sensorFaultCommand: bool,
    temperature: real, motorCurrent: real, runtimeHours: real, isRunning: bool, alarmActive: bool)

  datatype Station = Station(
    config: StationConfig, compressors: seq<Compressor>, elapsed: real, airDemand: real, receiverPressure: real,
    networkPressure: real, totalPower: real, dryerRunning: bool)

  function Min(a: real, b: real): real {
    if b < a then b else a
  }

  function Max(a: real, b: real): real {
    if b > a then b else a
  }

  function MoveToward(current: real, target: real, maximumStep: real): real {
    if current < target then Min(current + maximumStep, target) else Max(current - maximumStep, target)
  }

  /** A non-negative step goes towards the target, by no more than the step, and never past it. */
  lemma MoveTowardMeaning(current: real, target: real, step: real)
    requires step >= 0.0
    ensures var next := MoveToward(current, target, step);
            && -step <= next - current <= step
            && (current <= target ==> current <= next <= target && (next == target || next == current + step))
            && (current >= target ==> target <= next <= current && (next == target || next == current - step))
  {
  }

  // ----- one compressor -----

  function InitialCompressor(config: CompressorConfig): Compressor {
    Compressor(config, false, true, false, config.stoppedTemperature, 0.0, 0.0, false, false)
  }

  function ShouldRun(c: Compressor, automaticRequest: bool): bool {
    if c.automaticMode then automaticRequest else c.manualRunCommand
  }

  /** How far a reading can move in this time. */
  function StepSize(rate: real, elapsed: real): real {
    rate * elapsed
  }

  function NextTemperature(config: CompressorConfig, temperature: real, run: bool, elapsed: real): real {
    MoveToward(temperature, if run then config.runningTemperature else config.stoppedTemperature,
               StepSize(if run then config.heatingRate else config.coolingRate, elapsed))
  }

  function NextCurrent(config: CompressorConfig, current: real, run: bool, elapsed: real): real {
    MoveToward(current, if run then config.runningCurrent else 0.0, StepSize(config.currentRamp, elapsed))
  }

  function Advance(c: Compressor, automaticRequest: bool, elapsed: real): Compressor {
    var run := ShouldRun(c, automaticRequest);
    c.(isRunning := run,
       temperature := NextTemperature(c.config, c.temperature, run, elapsed),
       motorCurrent := NextCurrent(c.config, c.motorCurrent, run, elapsed),
       runtimeHours := if run then c.runtimeHours + elapsed / 3600.0 else c.runtimeHours)
  }

  function DeliveredFlow(c: Compressor): real {
    if c.isRunning then c.config.ratedFlow else 0.0
  }

  function PowerConsumption(c: Compressor): real {
    if c.config.runningCurrent <= 0.0 then 0.0
    else c.config.ratedPower * Min(c.motorCurrent / c.config.runningCurrent, 1.0)
  }

  // ----- the station -----

  function InitialStation(config: StationConfig): Station {
    Station(config, seq(|config.compressors|,
                        i requires 0 <= i < |config.compressors| => InitialCompressor(config.compressors[i])),
            0.0, config.initialDemand, config.initialReceiverPressure, config.initialReceiverPressure, 0.0, false)
  }

  /** The compressors of the station are those of its configuration, in order. */
  predicate IsBuilt(s: Station) {
    && |s.compressors| == |s.config.compressors|
    && forall i | 0 <= i < |s.compressors| :: s.compressors[i].config == s.config.compressors[i]
  }

  /** The demand profile is an arbitrary wave, clamped to what the station can ask for. */
  function ClampDemand(config: StationConfig, wave: real): real {
    Min(config.maximumDemand, Max(0.0, wave))
  }

  function TotalFlow(cs: seq<Compressor>): real {
    if cs == [] then 0.0 else TotalFlow(cs[..|cs| - 1]) + DeliveredFlow(cs[|cs| - 1])
  }

  function TotalPower(cs: seq<Compressor>): real {
    if cs == [] then 0.0 else TotalPower(cs[..|cs| - 1]) + PowerConsumption(cs[|cs| - 1])
  }

  function AdvanceAll(cs: seq<Compressor>, demandPercent: real, elapsed: real): seq<Compressor> {
    seq(|cs|, i requires 0 <= i < |cs| => Advance(cs[i], demandPercent >= cs[i].config.dispatchStartPercent, elapsed))
  }

  function DemandPercent(config: StationConfig, demand: real): real
    requires config.maximumDemand != 0.0
  {
    100.0 * demand / config.maximumDemand
  }

  function NextReceiver(config: StationConfig, receiver: real, supply: real, demand: real, elapsed: real): real {
    Min(config.maximumPressure,
        Max(config.minimumPressure, receiver + (supply - demand) * config.pressureResponse * elapsed))
  }

  function NextNetwork(config: StationConfig, network: real, receiver: real, demand: real, elapsed: real): real {
    MoveToward(network, Max(0.0, receiver - demand * config.networkPressureDrop),
               config.networkPressureResponse * elapsed)
  }

  predicate AnyRunning(cs: seq<Compressor>) {
    exists i | 0 <= i < |cs| :: cs[i].isRunning
  }

  function AdvanceStation(s: Station, wave: real, elapsed: real): Station
    requires s.config.maximumDemand != 0.0
  {
    var demand := ClampDemand(s.config, wave);
    var cs := AdvanceAll(s.compressors, DemandPercent(s.config, demand), elapsed);
    var receiver := NextReceiver(s.config, s.receiverPressure, TotalFlow(cs), demand, elapsed);
    Station(s.config, cs, s.elapsed + elapsed, demand, receiver,
            NextNetwork(s.config, s.networkPressure, receiver, demand, elapsed),
            TotalPower(cs), AnyRunning(cs))
  }

  // ----- what a step means -----

  /** A reading goes a whole step towards its target, or the rest of the way. */
  predicate Approaches(before: real, target: real, step: real, after: real) {
    if -step <= target - before <= step then after == target
    else if before < target then after == before + step
    else after == before - step
  }

  /** One compressor: in automatic mode it runs on demand, otherwise on command; running it heats up,
      draws current and counts hours, stopped it cools down. */
  predicate Works(before: Compressor, after: Compressor, demandPercent: real, elapsed: real) {
    var c := before.config;
    && after == before.(isRunning := after.isRunning, temperature := after.temperature,
                        motorCurrent := after.motorCurrent, runtimeHours := after.runtimeHours)
    && (before.automaticMode ==> (after.isRunning <==> demandPercent >= c.dispatchStartPercent))
    && (!before.automaticMode ==> (after.isRunning <==> before.manualRunCommand))
    && (if after.isRunning then
          Approaches(before.temperature, c.runningTemperature, c.heatingRate * elapsed, after.temperature)
        else
          Approaches(before.temperature, c.stoppedTemperature, c.coolingRate * elapsed, after.temperature))
    && Approaches(before.motorCurrent, if after.isRunning then c.runningCurrent else 0.0, c.currentRamp * elapsed,
                  after.motorCurrent)
    && after.runtimeHours == before.runtimeHours + if after.isRunning then elapsed / 3600.0 else 0.0
  }

  ghost predicate AllWork(before: seq<Compressor>, after: seq<Compressor>, demandPercent: real, elapsed: real) {
    |after| == |before| && forall i | 0 <= i < |after| :: Works(before[i], after[i], demandPercent, elapsed)
  }

  function Sum(values: seq<real>): real {
    if values == [] then 0.0 else Sum(values[..|values| - 1]) + values[|values| - 1]
  }

  /** What each compressor delivers. */
  function Flows(cs: seq<Compressor>): seq<real> {
    seq(|cs|, i requires 0 <= i < |cs| => if cs[i].isRunning then cs[i].config.ratedFlow else 0.0)
  }

  /** What a compressor draws: its rated power in proportion to its current, and never more. */
  function Load(c: Compressor): real {
    var rated := c.config.runningCurrent;
    if rated <= 0.0 then 0.0
    else if c.motorCurrent >= rated then c.config.ratedPower
    else c.config.ratedPower * c.motorCurrent / rated
  }

  function Loads(cs: seq<Compressor>): seq<real> {
    seq(|cs|, i requires 0 <= i < |cs| => Load(cs[i]))
  }

  predicate DemandFollows(config: StationConfig, wave: real, demand: real) {
    && (0.0 <= wave <= config.maximumDemand ==> demand == wave)
    && (wave > config.maximumDemand ==> demand == config.maximumDemand)
    && (wave < 0.0 <= config.maximumDemand ==> demand == 0.0)
  }

  /** The receiver takes what is delivered and gives what is asked for, between its limits. */
  predicate ReceiverFollows(config: StationConfig, before: real, supply: real, demand: real, elapsed: real,
                            after: real)
  {
    var balanced := before + (supply - demand) * config.pressureResponse * elapsed;
    && (config.minimumPressure <= balanced <= config.maximumPressure ==> after == balanced)
    && (balanced > config.maximumPressure ==> after == config.maximumPressure)
    && (balanced < config.minimumPressure <= config.maximumPressure ==> after == config.minimumPressure)
  }

  /** The network goes towards the receiver's pressure less the drop, but not below zero. */
  predicate NetworkFollows(config: StationConfig, before: real, receiver: real, demand: real, elapsed: real,
                           after: real)
  {
    var rest := receiver - demand * config.networkPressureDrop;
    Approaches(before, if rest > 0.0 then rest else 0.0, config.networkPressureResponse * elapsed, after)
  }

  /** The demand and the compressors that answer to it. */
  ghost predicate MachinesMove(before: Station, after: Station, wave: real, elapsed: real) {
    && before.config.maximumDemand != 0.0
    && after.config == before.config && after.elapsed == before.elapsed + elapsed
    && DemandFollows(before.config, wave, after.airDemand)
    && AllWork(before.compressors, after.compressors, 100.0 * after.airDemand / before.config.maximumDemand, elapsed)
  }

  /** What follows from the compressors as they are after the step. */
  ghost predicate AirMoves(before: Station, after: Station, elapsed: real) {
    && ReceiverFollows(before.config, before.receiverPressure, Sum(Flows(after.compressors)), after.airDemand, elapsed,
                       after.receiverPressure)
    && NetworkFollows(before.config, before.networkPressure, after.receiverPressure, after.airDemand, elapsed,
                      after.networkPressure)
    && after.totalPower == Sum(Loads(after.compressors))
    && (after.dryerRunning <==> exists i | 0 <= i < |after.compressors| :: after.compressors[i].isRunning)
  }

  /** One step of the station, part by part. */
  ghost predicate Moves(before: Station, after: Station, wave: real, elapsed: real) {
    MachinesMove(before, after, wave, elapsed) && AirMoves(before, after, elapsed)
  }

  lemma {:induction false} TotalFlowIsSum(cs: seq<Compressor>)
    ensures TotalFlow(cs) == Sum(Flows(cs))
  {
    if cs != [] {
      TotalFlowIsSum(cs[..|cs| - 1]);
      assert Flows(cs)[..|cs| - 1] == Flows(cs[..|cs| - 1]);
    }
  }

  lemma {:induction false} TotalPowerIsSum(cs: seq<Compressor>)
    ensures TotalPower(cs) == Sum(Loads(cs))
  {
    if cs != [] {
      TotalPowerIsSum(cs[..|cs| - 1]);
      PowerIsLoad(cs[|cs| - 1]);
      assert Loads(cs)[..|cs| - 1] == Loads(cs[..|cs| - 1]);
    }
  }

  lemma PowerIsLoad(c: Compressor)
    ensures PowerConsumption(c) == Load(c)
  {
    var current, rated := c.motorCurrent, c.config.runningCurrent;
    if rated > 0.0 {
      assert current / rated * rated == current;
      assert current >= rated <==> current / rated >= 1.0;
      assert c.config.ratedPower * (current / rated) == c.config.ratedPower * current / rated;
    }
  }

  lemma MoveTowardApproaches(before: real, target: real, step: real)
    ensures Approaches(before, target, step, MoveToward(before, target, step))
  {
  }

  lemma TemperatureStep(config: CompressorConfig, temperature: real, run: bool, elapsed: real)
    ensures var next := NextTemperature(config, temperature, run, elapsed);
            if run then Approaches(temperature, config.runningTemperature, config.heatingRate * elapsed, next)
            else Approaches(temperature, config.stoppedTemperature, config.coolingRate * elapsed, next)
  {
    if run {
      MoveTowardApproaches(temperature, config.runningTemperature, config.heatingRate * elapsed);
    } else {
      MoveTowardApproaches(temperature, config.stoppedTemperature, config.coolingRate * elapsed);
    }
  }

  lemma CurrentStep(config: CompressorConfig, current: real, run: bool, elapsed: real)
    ensures Approaches(current, if run then config.runningCurrent else 0.0, config.currentRamp * elapsed,
                       NextCurrent(config, current, run, elapsed))
  {
    MoveTowardApproaches(current, if run then config.runningCurrent else 0.0, config.currentRamp * elapsed);
  }

  lemma AdvanceWorks(c: Compressor, demandPercent: real, elapsed: real)
    ensures Works(c, Advance(c, demandPercent >= c.config.dispatchStartPercent, elapsed), demandPercent, elapsed)
  {
    var run := ShouldRun(c, demandPercent >= c.config.dispatchStartPercent);
    TemperatureStep(c.config, c.temperature, run, elapsed);
    CurrentStep(c.config, c.motorCurrent, run, elapsed);
  }

  lemma AdvanceAllWorks(cs: seq<Compressor>, demandPercent: real, elapsed: real)
    ensures AllWork(cs, AdvanceAll(cs, demandPercent, elapsed), demandPercent, elapsed)
  {
    forall i | 0 <= i < |cs|
      ensures Works(cs[i], AdvanceAll(cs, demandPercent, elapsed)[i], demandPercent, elapsed)
    {
      AdvanceWorks(cs[i], demandPercent, elapsed);
    }
  }

  lemma ReceiverStep(config: StationConfig, receiver: real, supply: real, demand: real, elapsed: real)
    ensures ReceiverFollows(config, receiver, supply, demand, elapsed,
                            NextReceiver(config, receiver, supply, demand, elapsed))
  {
  }

  lemma NetworkStep(config: StationConfig, network: real, receiver: real, demand: real, elapsed: real)
    ensures NetworkFollows(config, network, receiver, demand, elapsed,
                           NextNetwork(config, network, receiver, demand, elapsed))
  {
    var target := Max(0.0, receiver - demand * config.networkPressureDrop);
    MoveTowardApproaches(network, target, config.networkPressureResponse * elapsed);
  }

  lemma AdvanceMovesMachines(s: Station, wave: real, elapsed: real)
    requires s.config.maximumDemand != 0.0
    ensures MachinesMove(s, AdvanceStation(s, wave, elapsed), wave, elapsed)
  {
    AdvanceAllWorks(s.compressors, DemandPercent(s.config, ClampDemand(s.config, wave)), elapsed);
  }

  lemma AdvanceMovesAir(s: Station, wave: real, elapsed: real)
    requires s.config.maximumDemand != 0.0
    ensures AirMoves(s, AdvanceStation(s, wave, elapsed), elapsed)
  {
    var next := AdvanceStation(s, wave, elapsed);
    TotalFlowIsSum(next.compressors);
    TotalPowerIsSum(next.compressors);
    ReceiverStep(s.config, s.receiverPressure, TotalFlow(next.compressors), next.airDemand, elapsed);
    NetworkStep(s.config, s.networkPressure, next.receiverPressure, next.airDemand, elapsed);
  }

  /** The step that the station's update takes is such a step. */
  lemma StationMoves(s: Station, wave: real, elapsed: real)
    requires s.config.maximumDemand != 0.0
    ensures Moves(s, AdvanceStation(s, wave, elapsed), wave, elapsed)
  {
    AdvanceMovesMachines(s, wave, elapsed);
    AdvanceMovesAir(s, wave, elapsed);
  }

  lemma SignOfProduct(a: real, b: real, c: real)
    requires b >= 0.0 && c >= 0.0
    ensures a >= 0.0 ==> a * b * c >= 0.0
    ensures a <= 0.0 ==> a * b * c <= 0.0
  {
    if a >= 0.0 {
      assert a * b >= 0.0;
    } else {
      assert a * b <= 0.0;
    }
  }

  /** The pressure does not fall while at least as much is delivered as is asked for, and does not rise
      while no more is. */
  lemma PressureFollowsSupply(config: StationConfig, before: real, supply: real, demand: real, elapsed: real,
                              after: real)
    requires ReceiverFollows(config, before, supply, demand, elapsed, after)
    requires config.pressureResponse >= 0.0 && elapsed >= 0.0
    requires config.minimumPressure <= before <= config.maximumPressure
    ensures supply >= demand ==> after >= before
    ensures supply <= demand ==> after <= before
  {
    SignOfProduct(supply - demand, config.pressureResponse, elapsed);
  }

  /** The physics leaves the commands as they are. */
  lemma AdvanceKeepsCommands(s: Station, wave: real, elapsed: real, i: nat)
    requires s.config.maximumDemand != 0.0 && i < |s.compressors|
    ensures var c, next := s.compressors[i], AdvanceStation(s, wave, elapsed).compressors[i];
            next.config == c.config && next.sensorFaultCommand == c.sensorFaultCommand
  {
  }

  // ----- physical bounds -----

  predicate SaneCompressor(c: CompressorConfig) {
    && c.stoppedTemperature <= c.runningTemperature
    && c.heatingRate >= 0.0 && c.coolingRate >= 0.0 && c.currentRamp >= 0.0
    && c.runningCurrent >= 0.0 && c.ratedPower >= 0.0
  }

  predicate SaneStation(s: StationConfig) {
    && 0.0 < s.maximumDemand
    && 0.0 <= s.minimumPressure <= s.initialReceiverPressure <= s.maximumPressure
    && s.networkPressureDrop >= 0.0 && s.networkPressureResponse >= 0.0
    && forall i | 0 <= i < |s.compressors| :: SaneCompressor(s.compressors[i])
  }

  function TotalRating(cs: seq<CompressorConfig>): real {
    if cs == [] then 0.0 else TotalRating(cs[..|cs| - 1]) + cs[|cs| - 1].ratedPower
  }

  predicate CompressorInBounds(c: Compressor) {
    && c.config.stoppedTemperature <= c.temperature <= c.config.runningTemperature
    && 0.0 <= c.motorCurrent <= c.config.runningCurrent
  }

  /** The state belongs to its configuration and every reading is within its physical range. */
  predicate InBounds(s: Station) {
    && IsBuilt(s)
    && (forall i | 0 <= i < |s.compressors| :: CompressorInBounds(s.compressors[i]))
    && s.config.minimumPressure <= s.receiverPressure <= s.config.maximumPressure
    && 0.0 <= s.networkPressure <= s.config.maximumPressure
    && 0.0 <= s.totalPower <= TotalRating(s.config.compressors)
  }

  lemma {:induction false} TotalRatingNonNegative(cs: seq<CompressorConfig>)
    requires forall i | 0 <= i < |cs| :: SaneCompressor(cs[i])
    ensures TotalRating(cs) >= 0.0
  {
    if cs != [] {
      TotalRatingNonNegative(cs[..|cs| - 1]);
    }
  }

  lemma PowerInBounds(c: Compressor)
    requires SaneCompressor(c.config) && CompressorInBounds(c)
    ensures 0.0 <= PowerConsumption(c) <= c.config.ratedPower
  {
    if c.config.runningCurrent > 0.0 {
      var share := Min(c.motorCurrent / c.config.runningCurrent, 1.0);
      assert c.motorCurrent / c.config.runningCurrent >= 0.0;
      Scaled(c.config.ratedPower, share);
    }
  }

  lemma Scaled(amount: real, share: real)
    requires amount >= 0.0 && 0.0 <= share <= 1.0
    ensures 0.0 <= amount * share <= amount
  {
  }

  lemma {:induction false} TotalPowerInBounds(cs: seq<Compressor>, configs: seq<CompressorConfig>)
    requires |cs| == |configs|
    requires forall i | 0 <= i < |cs| ::
               cs[i].config == configs[i] && SaneCompressor(configs[i]) && CompressorInBounds(cs[i])
    ensures 0.0 <= TotalPower(cs) <= TotalRating(configs)
  {
    if cs != [] {
      TotalPowerInBounds(cs[..|cs| - 1], configs[..|configs| - 1]);
      PowerInBounds(cs[|cs| - 1]);
    }
  }

  lemma AdvanceInBounds(c: Compressor, automaticRequest: bool, elapsed: real)
    requires SaneCompressor(c.config) && CompressorInBounds(c) && elapsed >= 0.0
    ensures CompressorInBounds(Advance(c, automaticRequest, elapsed))
    ensures Advance(c, automaticRequest, elapsed).config == c.config
  {
    StepNonNegative(c.config.heatingRate, elapsed);
    StepNonNegative(c.config.coolingRate, elapsed);
    StepNonNegative(c.config.currentRamp, elapsed);
  }

  lemma StepNonNegative(rate: real, elapsed: real)
    requires rate >= 0.0 && elapsed >= 0.0
    ensures rate * elapsed >= 0.0
  {
  }

  lemma InitialInBounds(config: StationConfig)
    requires SaneStation(config)
    ensures InBounds(InitialStation(config))
  {
    TotalRatingNonNegative(config.compressors);
  }

  /** One step of the station, with any demand wave and any commands, stays within every limit. */
  lemma StationStaysInBounds(s: Station, wave: real, elapsed: real)
    requires SaneStation(s.config) && InBounds(s) && elapsed >= 0.0
    ensures InBounds(AdvanceStation(s, wave, elapsed))
  {
    var next := AdvanceStation(s, wave, elapsed);
    forall i | 0 <= i < |s.compressors|
      ensures next.compressors[i].config == s.config.compressors[i] && CompressorInBounds(next.compressors[i])
    {
      var percent := DemandPercent(s.config, next.airDemand);
      AdvanceInBounds(s.compressors[i], percent >= s.compressors[i].config.dispatchStartPercent, elapsed);
    }
    TotalPowerInBounds(next.compressors, s.config.compressors);
    NetworkInBounds(s.config, s.networkPressure, next.receiverPressure, next.airDemand, elapsed);
  }

  lemma NetworkInBounds(config: StationConfig, network: real, receiver: real, demand: real, elapsed: real)
    requires SaneStation(config) && elapsed >= 0.0 && demand >= 0.0
    requires 0.0 <= network <= config.maximumPressure && 0.0 <= receiver <= config.maximumPressure
    ensures 0.0 <= NextNetwork(config, network, receiver, demand, elapsed) <= config.maximumPressure
  {
    StepNonNegative(config.networkPressureResponse, elapsed);
    StepNonNegative(demand, config.networkPressureDrop);
  }

  // ----- the model objects -----

  class CompressorModel {
    const config: CompressorConfig
    var manualRunCommand: bool
    var automaticMode: bool
    var sensorFaultCommand: bool
    var temperatureCelsius: real
    var motorCurrentAmperes: real
    var runtimeHours: real
    var isRunning: bool
    var alarmActive: bool

    function View(): Compressor
      reads this
    {
      Compressor(config, manualRunCommand, automaticMode, sensorFaultCommand, temperatureCelsius, motorCurrentAmperes,
                 runtimeHours, isRunning, alarmActive)
    }

    constructor (config: CompressorConfig)
      ensures View() == InitialCompressor(config) && this.config == config
      ensures automaticMode && !manualRunCommand && !sensorFaultCommand && !isRunning && !alarmActive
      ensures temperatureCelsius == config.stoppedTemperature && motorCurrentAmperes == runtimeHours == 0.0
    {
      this.config := config;
      manualRunCommand, automaticMode, sensorFaultCommand := false, true, false;
      temperatureCelsius, motorCurrentAmperes, runtimeHours := config.stoppedTemperature, 0.0, 0.0;
      isRunning, alarmActive := false, false;
    }

    method Update(automaticRunRequest: bool, elapsedSeconds: real)
      modifies this
      ensures View() == Advance(old(View()), automaticRunRequest, elapsedSeconds)
    {
      var shouldRun := if automaticMode then automaticRunRequest else manualRunCommand;
      isRunning := shouldRun;
      var targetTemperature := if shouldRun then config.runningTemperature else config.stoppedTemperature;
      var temperatureRate := if shouldRun then config.heatingRate else config.coolingRate;
      temperatureCelsius := MoveToward(temperatureCelsius, targetTemperature,
                                       StepSize(temperatureRate, elapsedSeconds));
      var targetCurrent := if shouldRun then config.runningCurrent else 0.0;
      motorCurrentAmperes := MoveToward(motorCurrentAmperes, targetCurrent,
                                        StepSize(config.currentRamp, elapsedSeconds));
      if shouldRun {
        runtimeHours := runtimeHours + elapsedSeconds / 3600.0;
      }
    }
  }

  class StationModel {
    const config: StationConfig
    const compressors: seq<CompressorModel>
    var elapsedSimulationSeconds: real
    var airDemand: real
    var receiverPressure: real
    var networkPressure: real
    var totalPower: real
    var dryerRunning: bool

    /** The compressors are different objects. */
    ghost predicate Valid() {
      forall i, j | 0 <= i < j < |compressors| :: compressors[i] != compressors[j]
    }

    function Views(): seq<Compressor>
      reads compressors
    {
      seq(|compressors|, i requires 0 <= i < |compressors| reads compressors => compressors[i].View())
    }

    function View(): Station
      reads this, compressors
    {
      Station(config, Views(), elapsedSimulationSeconds, airDemand, receiverPressure, networkPressure, totalPower,
              dryerRunning)
    }

    constructor (config: StationConfig)
      ensures Valid() && fresh(compressors) && View() == InitialStation(config)
      ensures airDemand == config.initialDemand && !dryerRunning && totalPower == elapsedSimulationSeconds == 0.0
      ensures receiverPressure == networkPressure == config.initialReceiverPressure
    {
      var built: seq<CompressorModel> := [];
      var i := 0;
      while i < |config.compressors|
        invariant i == |built| <= |config.compressors|
        invariant fresh(built)
        invariant forall j | 0 <= j < i :: built[j].View() == InitialCompressor(config.compressors[j])
        invariant forall j, k | 0 <= j < k < i :: built[j] != built[k]
      {
        var c := new CompressorModel(config.compressors[i]);
        built := built + [c];
        i := i + 1;
      }
      this.config := config;
      compressors := built;
      elapsedSimulationSeconds, airDemand := 0.0, config.initialDemand;
      receiverPressure, networkPressure := config.initialReceiverPressure, config.initialReceiverPressure;
      totalPower, dryerRunning := 0.0, false;
      new;
      assert Views() == InitialStation(config).compressors;
    }

    /** `wave` is the value of the demand profile at the new time. */
    method Update(wave: real, elapsedSeconds: real)
      requires Valid() && config.maximumDemand != 0.0
      modifies this, compressors
      ensures Valid() && View() == AdvanceStation(old(View()), wave, elapsedSeconds)
      ensures Moves(old(View()), View(), wave, elapsedSeconds)
    {
      StationMoves(View(), wave, elapsedSeconds);
      UpdateParts(wave, elapsedSeconds);
    }

    /** Demand, compressors and network, in this order. */
    method UpdateParts(wave: real, elapsedSeconds: real)
      requires Valid() && config.maximumDemand != 0.0
      modifies this, compressors
      ensures View() == AdvanceStation(old(View()), wave, elapsedSeconds)
    {
      elapsedSimulationSeconds := elapsedSimulationSeconds + elapsedSeconds;
      airDemand := ClampDemand(config, wave);
      UpdateCompressors(DemandPercent(config, airDemand), elapsedSeconds);
      UpdateNetwork(elapsedSeconds);
    }

    /** The part of the update that follows the compressors. */
    method UpdateNetwork(elapsedSeconds: real)
      modifies this`receiverPressure, this`networkPressure, this`dryerRunning, this`totalPower
      ensures receiverPressure == NextReceiver(config, old(receiverPressure), TotalFlow(Views()), airDemand,
                                               elapsedSeconds)
      ensures networkPressure == NextNetwork(config, old(networkPressure), receiverPressure, airDemand, elapsedSeconds)
      ensures dryerRunning == AnyRunning(Views()) && totalPower == TotalPower(Views())
    {
      var totalSupply, power, running := Totals();
      receiverPressure := NextReceiver(config, receiverPressure, totalSupply, airDemand, elapsedSeconds);
      networkPressure := NextNetwork(config, networkPressure, receiverPressure, airDemand, elapsedSeconds);
      dryerRunning := running;
      totalPower := power;
    }

    method UpdateCompressors(demandPercent: real, elapsedSeconds: real)
      requires Valid()
      modifies compressors
      ensures Views() == AdvanceAll(old(Views()), demandPercent, elapsedSeconds)
    {
      var i := 0;
      while i < |compressors|
        invariant i <= |compressors|
        invariant forall j | 0 <= j < i ::
                    compressors[j].View() == AdvanceAll(old(Views()), demandPercent, elapsedSeconds)[j]
        invariant forall j | i <= j < |compressors| :: compressors[j].View() == old(Views())[j]
      {
        var request := demandPercent >= compressors[i].config.dispatchStartPercent;
        compressors[i].Update(request, elapsedSeconds);
        i := i + 1;
      }
      assert Views() == AdvanceAll(old(Views()), demandPercent, elapsedSeconds);
    }

    method Totals() returns (supply: real, power: real, running: bool)
      ensures supply == TotalFlow(Views()) && power == TotalPower(Views())
      ensures running <==> AnyRunning(Views())
    {
      supply, power, running := 0.0, 0.0, false;
      var i := 0;
      while i < |compressors|
        invariant i <= |compressors|
        invariant supply == TotalFlow(Views()[..i]) && power == TotalPower(Views()[..i])
        invariant running <==> AnyRunning(Views()[..i])
      {
        var c := compressors[i].View();
        assert Views()[..i + 1][..i] == Views()[..i] && Views()[..i + 1][i] == c;
        supply := supply + DeliveredFlow(c);
        power := power + PowerConsumption(c);
        running := running || c.isRunning;
        i := i + 1;
      }
      assert Views()[..i] == Views();
    }
  }
}
