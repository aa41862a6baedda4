/** The panel mirrors the simulator: over every run of cycles, with any commands, resets and demand,
    the alarms shown are the alarms latched, as long as the slots suffice. */
module Mirror {
  import opened Collections
  import opened NodeIds
  import opened AlarmTable
  import opened Plant
  import opened Faults
  import opened Session
  import opened Runs
  import opened Events
  import DataModel

  // ----- the wire between simulator and panel -----

  /** What becomes of an event on its way to the panel, and the key that identifies its alarm there. */
  datatype Wire = Wire(record: Transition -> Alarm, key: (string, AlarmCode) -> AlarmKey)

  function WireOf(net: Network): Wire {
    Wire(t => EventRecord(net, t), (source, code) => KeyOf(net, source, code))
  }

  ghost predicate Carries(wire: Wire, t: Transition) {
    && wire.record(t).Named() && wire.record(t).active && wire.record(t).Key() == wire.key(t.source, t.code)
    && wire.record(Cleared(t)).Named() && !wire.record(Cleared(t)).active
    && wire.record(Cleared(t)).Key() == wire.key(t.source, t.code)
  }

  /** Every clean alarm can be raised and cleared over the wire. */
  ghost predicate Faithful(wire: Wire) {
    forall t :: Clean(t) ==> Carries(wire, t)
  }

  lemma NetworkIsFaithful(net: Network)
    ensures Faithful(WireOf(net))
  {
    forall t | Clean(t)
      ensures Carries(WireOf(net), t)
    {
      RecordKeepsKey(net, t);
    }
  }

  /** The records of these events, in order. */
  function Records(wire: Wire, ts: seq<Transition>): seq<Alarm> {
    if ts == [] then [] else Records(wire, ts[..|ts| - 1]) + [wire.record(ts[|ts| - 1])]
  }

  lemma RecordsAppend(wire: Wire, ts: seq<Transition>, t: Transition)
    ensures Records(wire, ts + [t]) == Records(wire, ts) + [wire.record(t)]
  {
    assert (ts + [t])[..|ts|] == ts;
  }

  // ----- what the events add up to -----

  lemma OneMoreRecord(updates: seq<Alarm>, a: Alarm)
    ensures Standing(updates + [a]) == if a.active then Standing(updates)[a.Key() := a]
            else Standing(updates) - {a.Key()}
    ensures Contents(updates + [a]) == Contents(updates)[a.Key() := a]
  {
    assert (updates + [a])[..|updates|] == updates;
  }

  lemma OneMoreRaised(wire: Wire, emitted: seq<Transition>, active: seq<Transition>, t: Transition,
                      emittedNow: seq<Transition>, activeNow: seq<Transition>)
    requires Carries(wire, t) && Standing(Records(wire, emitted)) == Contents(Records(wire, active))
    requires emittedNow == emitted + [t] && activeNow == active + [t]
    ensures Standing(Records(wire, emittedNow)) == Contents(Records(wire, activeNow))
  {
    RecordsAppend(wire, emitted, t);
    RecordsAppend(wire, active, t);
    OneMoreRecord(Records(wire, emitted), wire.record(t));
    OneMoreRecord(Records(wire, active), wire.record(t));
  }

  lemma OneByOne(some: seq<Transition>, more: seq<Transition>)
    requires more != []
    ensures some + more == some + [more[0]] + more[1..]
  {
  }

  lemma {:induction false} RaisingMirrors(wire: Wire, emitted: seq<Transition>, active: seq<Transition>,
                                          more: seq<Transition>,
                                          emittedNow: seq<Transition>, activeNow: seq<Transition>)
    requires Faithful(wire) && forall t | t in more :: Clean(t)
    requires Standing(Records(wire, emitted)) == Contents(Records(wire, active))
    requires emittedNow == emitted + more && activeNow == active + more
    ensures Standing(Records(wire, emittedNow)) == Contents(Records(wire, activeNow))
    decreases |more|
  {
    if more == [] {
      assert emittedNow == emitted && activeNow == active;
    } else {
      var t, rest := more[0], more[1..];
      OneMoreRaised(wire, emitted, active, t, emitted + [t], active + [t]);
      OneByOne(emitted, more);
      OneByOne(active, more);
      RaisingMirrors(wire, emitted + [t], active + [t], rest, emittedNow, activeNow);
    }
  }

  lemma OneMoreCleared(wire: Wire, emitted: seq<Transition>, t: Transition, emittedNow: seq<Transition>)
    requires Carries(wire, t) && emittedNow == emitted + [Cleared(t)]
    ensures Standing(Records(wire, emittedNow)) == Standing(Records(wire, emitted)) - {wire.key(t.source, t.code)}
  {
    RecordsAppend(wire, emitted, Cleared(t));
    OneMoreRecord(Records(wire, emitted), wire.record(Cleared(t)));
  }

  lemma ClearedOneByOne(some: seq<Transition>, active: seq<Transition>)
    requires active != []
    ensures some + AllCleared(active) == some + [Cleared(active[0])] + AllCleared(active[1..])
  {
  }

  lemma {:induction false} ClearingRemoves(wire: Wire, emitted: seq<Transition>, active: seq<Transition>,
                                           emittedNow: seq<Transition>)
    requires Faithful(wire) && forall i | 0 <= i < |active| :: Clean(active[i])
    requires emittedNow == emitted + AllCleared(active)
    ensures var left := Standing(Records(wire, emittedNow));
            && left.Keys <= Standing(Records(wire, emitted)).Keys
            && forall i | 0 <= i < |active| :: wire.key(active[i].source, active[i].code) !in left
    decreases |active|
  {
    if active == [] {
      assert emittedNow == emitted;
    } else {
      var now := emitted + [Cleared(active[0])];
      OneMoreCleared(wire, emitted, active[0], now);
      ClearedOneByOne(emitted, active);
      ClearingRemoves(wire, now, active[1..], emittedNow);
    }
  }

  lemma {:induction false} ContentsKeys(wire: Wire, active: seq<Transition>)
    requires Faithful(wire) && forall t | t in active :: Clean(t)
    ensures forall k | k in Contents(Records(wire, active)) :: exists t | t in active :: wire.key(t.source, t.code) == k
    ensures forall t | t in active :: wire.key(t.source, t.code) in Contents(Records(wire, active))
  {
    if active != [] {
      var before, last := active[..|active| - 1], active[|active| - 1];
      assert active == before + [last];
      ContentsKeys(wire, before);
      assert Carries(wire, last);
      RecordsAppend(wire, before, last);
      OneMoreRecord(Records(wire, before), wire.record(last));
      forall k | k in Contents(Records(wire, active))
        ensures exists t | t in active :: wire.key(t.source, t.code) == k
      {
        if k == wire.key(last.source, last.code) {
          assert last in active;
        } else {
          var t :| t in before && wire.key(t.source, t.code) == k;
          assert t in active;
        }
      }
    }
  }

  lemma ResetMirrors(wire: Wire, emitted: seq<Transition>, active: seq<Transition>)
    requires Faithful(wire) && forall t | t in active :: Clean(t)
    requires Standing(Records(wire, emitted)) == Contents(Records(wire, active))
    ensures Standing(Records(wire, emitted + AllCleared(active))) == map[]
  {
    var left := Standing(Records(wire, emitted + AllCleared(active)));
    ClearingRemoves(wire, emitted, active, emitted + AllCleared(active));
    ContentsKeys(wire, active);
    assert left.Keys == {};
  }

  // ----- which keys can occur -----

  /** A source of the station with a code that its rules use. */
  ghost predicate Possible(station: StationConfig, source: string, code: AlarmCode) {
    if code == HighPressure then source == station.id
    else exists i | 0 <= i < |station.compressors| :: station.compressors[i].id == source
  }

  function CompressorKeys(wire: Wire, cs: seq<CompressorConfig>): set<AlarmKey> {
    if cs == [] then {}
    else
      CompressorKeys(wire, cs[..|cs| - 1]) +
      {wire.key(cs[|cs| - 1].id, HighTemperature), wire.key(cs[|cs| - 1].id, MotorOverload),
       wire.key(cs[|cs| - 1].id, SensorFault)}
  }

  function PossibleKeys(wire: Wire, station: StationConfig): set<AlarmKey> {
    CompressorKeys(wire, station.compressors) + {wire.key(station.id, HighPressure)}
  }

  lemma {:induction false} CompressorKeysMeaning(wire: Wire, cs: seq<CompressorConfig>)
    ensures |CompressorKeys(wire, cs)| <= 3 * |cs|
    ensures forall i, code: AlarmCode | 0 <= i < |cs| && code != HighPressure ::
            wire.key(cs[i].id, code) in CompressorKeys(wire, cs)
  {
    if cs != [] {
      CompressorKeysMeaning(wire, cs[..|cs| - 1]);
      var three := {wire.key(cs[|cs| - 1].id, HighTemperature), wire.key(cs[|cs| - 1].id, MotorOverload),
                    wire.key(cs[|cs| - 1].id, SensorFault)};
      assert |three| <= 3;
    }
  }

  /** Three alarms for each compressor and one for the station. */
  lemma PossibleKeysBound(wire: Wire, station: StationConfig)
    ensures |PossibleKeys(wire, station)| <= 3 * |station.compressors| + 1
    ensures forall source, code :: Possible(station, source, code) ==>
            wire.key(source, code) in PossibleKeys(wire, station)
  {
    CompressorKeysMeaning(wire, station.compressors);
  }

  // ----- the invariant of every run -----

  ghost predicate EventsInOrder(wire: Wire, station: StationConfig, emitted: seq<Transition>) {
    AllNamed(Records(wire, emitted)) && ActiveKeys(Records(wire, emitted)) <= PossibleKeys(wire, station)
  }

  ghost predicate LatchesInOrder(station: StationConfig, active: seq<Transition>) {
    && UniqueLatches(active)
    && forall t | t in active :: Clean(t) && Possible(station, t.source, t.code)
  }

  ghost predicate Mirrored(wire: Wire, run: Run) {
    && IsBuilt(run.station)
    && EventsInOrder(wire, run.station.config, run.emitted)
    && LatchesInOrder(run.station.config, run.faults.active)
    && Standing(Records(wire, run.emitted)) == Contents(Records(wire, run.faults.active))
  }

  lemma OneMoreInOrder(wire: Wire, station: StationConfig, emitted: seq<Transition>, t: Transition)
    requires EventsInOrder(wire, station, emitted) && wire.record(t).Named()
    requires wire.record(t).active ==> wire.record(t).Key() in PossibleKeys(wire, station)
    ensures EventsInOrder(wire, station, emitted + [t])
  {
    RecordsAppend(wire, emitted, t);
    ActiveKeysGrow(Records(wire, emitted), wire.record(t));
  }

  lemma OneMorePair(wire: Wire, station: StationConfig, raised: seq<Transition>, cleared: seq<Transition>,
                    t: Transition)
    requires Faithful(wire) && Clean(t) && Possible(station, t.source, t.code)
    requires EventsInOrder(wire, station, raised) && EventsInOrder(wire, station, cleared)
    ensures EventsInOrder(wire, station, raised + [t]) && EventsInOrder(wire, station, cleared + [Cleared(t)])
  {
    assert Carries(wire, t);
    PossibleKeysBound(wire, station);
    OneMoreInOrder(wire, station, raised, t);
    OneMoreInOrder(wire, station, cleared, Cleared(t));
  }

  lemma ClearedAtEnd(emitted: seq<Transition>, more: seq<Transition>)
    requires more != []
    ensures var some, last := more[..|more| - 1], more[|more| - 1];
            && emitted + more == (emitted + some) + [last]
            && emitted + AllCleared(more) == (emitted + AllCleared(some)) + [Cleared(last)]
  {
  }

  lemma {:induction false} MoreEventsInOrder(wire: Wire, station: StationConfig, emitted: seq<Transition>,
                                             more: seq<Transition>)
    requires Faithful(wire) && EventsInOrder(wire, station, emitted)
    requires forall t | t in more :: Clean(t) && Possible(station, t.source, t.code)
    ensures EventsInOrder(wire, station, emitted + more)
    ensures EventsInOrder(wire, station, emitted + AllCleared(more))
  {
    if more == [] {
      assert emitted + more == emitted && AllCleared(more) == [] && emitted + AllCleared(more) == emitted;
    } else {
      var some, last := more[..|more| - 1], more[|more| - 1];
      MoreEventsInOrder(wire, station, emitted, some);
      OneMorePair(wire, station, emitted + some, emitted + AllCleared(some), last);
      ClearedAtEnd(emitted, more);
    }
  }

  lemma RuleAlarmsInOrder(config: FaultConfig, station: Station, t: Transition)
    requires CleanConfig(config) && ByRule(config, station, t)
    requires IsBuilt(station)
    ensures Clean(t) && Possible(station.config, t.source, t.code)
  {
    if t != PressureAlarm(config, station.config) {
      var c :| c in station.compressors && IsOwnAlarm(config, c, t);
      var i :| 0 <= i < |station.compressors| && station.compressors[i] == c;
      assert station.config.compressors[i].id == t.source;
    }
  }

  lemma EvaluationInOrder(config: FaultConfig, s: FaultState, station: Station, elapsed: real)
    requires CleanConfig(config) && LatchesInOrder(station.config, s.active)
    requires IsBuilt(station)
    ensures var after := AfterStation(config, s, station, elapsed).active;
            && s.active <= after && LatchesInOrder(station.config, after)
            && forall t | t in after[|s.active|..] :: Clean(t) && Possible(station.config, t.source, t.code)
  {
    EvaluationLatches(config, s, station, elapsed);
    EvaluationRaisesByRule(config, s, station, elapsed);
    var after := AfterStation(config, s, station, elapsed).active;
    forall t | t in after
      ensures Clean(t) && Possible(station.config, t.source, t.code)
    {
      var i :| 0 <= i < |after| && after[i] == t;
      if i < |s.active| {
        assert s.active[i] == t;
      } else {
        RuleAlarmsInOrder(config, station, t);
      }
    }
  }

  lemma StartedIsMirrored(wire: Wire, run: Run, input: Input, elapsed: real)
    requires Faithful(wire) && Mirrored(wire, run) && Accepts(run.station, input)
    ensures Mirrored(wire, Started(run, input, elapsed))
  {
    if input.reset {
      ResetMirrors(wire, run.emitted, run.faults.active);
      MoreEventsInOrder(wire, run.station.config, run.emitted, run.faults.active);
      assert Records(wire, []) == [];
    }
  }

  lemma CycleMirrors(config: FaultConfig, wire: Wire, run: Run, input: Input, elapsed: real)
    requires CleanConfig(config) && Faithful(wire) && Mirrored(wire, run) && Accepts(run.station, input)
    ensures Mirrored(wire, Cycle(config, run, input, elapsed))
  {
    var started := Started(run, input, elapsed);
    StartedIsMirrored(wire, run, input, elapsed);
    EvaluationInOrder(config, started.faults, started.station, elapsed);
    var after := AfterStation(config, started.faults, started.station, elapsed).active;
    var more := after[|started.faults.active|..];
    assert started.faults.active + more == after;
    RaisingMirrors(wire, started.emitted, started.faults.active, more, started.emitted + more, after);
    MoreEventsInOrder(wire, run.station.config, started.emitted, more);
    CycleIsStarted(config, run, input, elapsed);
  }

  lemma {:induction false} RunMirrors(config: FaultConfig, station: StationConfig, wire: Wire, inputs: seq<Input>,
                                      elapsed: real)
    requires CleanConfig(config) && Faithful(wire) && AcceptsAll(station, inputs)
    ensures Mirrored(wire, RunAll(config, station, inputs, elapsed))
  {
    if inputs == [] {
      assert Records(wire, []) == [];
      assert Standing([]) == map[] == Contents([]);
    } else {
      var before := inputs[..|inputs| - 1];
      RunMirrors(config, station, wire, before, elapsed);
      CycleMirrors(config, wire, RunAll(config, station, before, elapsed), inputs[|inputs| - 1], elapsed);
    }
  }

  // ----- the main theorems -----

  /** The updates that the panel receives during a run. */
  function Updates(config: FaultConfig, station: StationConfig, net: Network, inputs: seq<Input>,
                   elapsed: real): seq<Alarm>
    requires AcceptsAll(station, inputs)
  {
    Records(WireOf(net), RunAll(config, station, inputs, elapsed).emitted)
  }

  /** No more different alarms have been raised than the panel has slots for. */
  ghost predicate PanelSuffices(config: FaultConfig, station: StationConfig, net: Network, inputs: seq<Input>,
                                elapsed: real)
    requires AcceptsAll(station, inputs)
  {
    |ActiveKeys(Updates(config, station, net, inputs, elapsed))| <= MAX_ALARMS
  }

  /** After every run, the panel enumerates exactly the latched alarms, with the contents of their
      events, unless more different keys have been active than there are slots. */
  lemma PanelShowsLatchedAlarms(config: FaultConfig, station: StationConfig, net: Network, inputs: seq<Input>,
                                elapsed: real)
    requires CleanConfig(config) && AcceptsAll(station, inputs)
    ensures var updates := Updates(config, station, net, inputs, elapsed);
            var latched := RunAll(config, station, inputs, elapsed).faults.active;
            && AllNamed(updates)
            && (AlwaysShowsStanding(updates) <==> PanelSuffices(config, station, net, inputs, elapsed))
            && (PanelSuffices(config, station, net, inputs, elapsed) ==>
                  Lists(ActiveOnes(History(updates)), Contents(Records(WireOf(net), latched))))
  {
    NetworkIsFaithful(net);
    RunMirrors(config, station, WireOf(net), inputs, elapsed);
    var updates := Updates(config, station, net, inputs, elapsed);
    ShowsStandingExactlyWhenFewKeys(updates);
    if PanelSuffices(config, station, net, inputs, elapsed) {
      ShowsStandingNow(updates);
    }
  }

  /** The alarms shown are latched alarms of the rules as they arrive, one for each key, and every
      latched alarm has its key among them. */
  ghost predicate ShowsRuleAlarms(config: FaultConfig, station: StationConfig, net: Network, latched: seq<Transition>,
                                  shown: seq<Alarm>)
  {
    && UniqueKeys(shown)
    && (forall i | 0 <= i < |shown| :: ComesFrom(config, station, net, latched, shown[i]))
    && (forall t | t in latched :: exists i | 0 <= i < |shown| :: shown[i].Key() == KeyOf(net, t.source, t.code))
  }

  ghost predicate ComesFrom(config: FaultConfig, station: StationConfig, net: Network, latched: seq<Transition>,
                            a: Alarm)
  {
    exists t | t in latched :: FollowsRule(config, station, t) && ArrivesAs(net, t, a)
  }

  lemma {:induction false} RecordsComeFrom(wire: Wire, ts: seq<Transition>, a: Alarm) returns (t: Transition)
    requires a in Records(wire, ts)
    ensures t in ts && wire.record(t) == a
  {
    var last := ts[|ts| - 1];
    if a == wire.record(last) {
      t := last;
    } else {
      t := RecordsComeFrom(wire, ts[..|ts| - 1], a);
    }
  }

  lemma ListedComesFrom(config: FaultConfig, station: StationConfig, net: Network, latched: seq<Transition>,
                        a: Alarm)
    requires AllFollowRules(config, station, latched) && forall t | t in latched :: Clean(t)
    requires a in Records(WireOf(net), latched)
    ensures ComesFrom(config, station, net, latched, a)
  {
    var t := RecordsComeFrom(WireOf(net), latched, a);
    AlarmArrives(net, t);
  }

  lemma AllListed(wire: Wire, latched: seq<Transition>, shown: seq<Alarm>, t: Transition)
    requires Faithful(wire) && forall u | u in latched :: Clean(u)
    requires Lists(shown, Contents(Records(wire, latched))) && t in latched
    ensures exists i | 0 <= i < |shown| :: shown[i].Key() == wire.key(t.source, t.code)
  {
    ContentsKeys(wire, latched);
    var a := Contents(Records(wire, latched))[wire.key(t.source, t.code)];
    var i :| 0 <= i < |shown| && shown[i] == a;
  }

  lemma ListedIsRecord(slots: seq<Alarm>, shown: seq<Alarm>, i: nat)
    requires Lists(shown, Contents(slots)) && i < |shown|
    ensures shown[i] in slots
  {
    ContentsInSlots(slots, shown[i].Key());
  }

  lemma ListedAreRuleAlarms(config: FaultConfig, station: StationConfig, net: Network, latched: seq<Transition>,
                            shown: seq<Alarm>)
    requires AllFollowRules(config, station, latched) && forall t | t in latched :: Clean(t)
    requires Lists(shown, Contents(Records(WireOf(net), latched)))
    ensures ShowsRuleAlarms(config, station, net, latched, shown)
  {
    forall i | 0 <= i < |shown|
      ensures ComesFrom(config, station, net, latched, shown[i])
    {
      ListedIsRecord(Records(WireOf(net), latched), shown, i);
      ListedComesFrom(config, station, net, latched, shown[i]);
    }
    NetworkIsFaithful(net);
    forall t | t in latched
      ensures exists i | 0 <= i < |shown| :: shown[i].Key() == KeyOf(net, t.source, t.code)
    {
      AllListed(WireOf(net), latched, shown, t);
    }
  }

  /** While the slots suffice, every alarm that the panel enumerates has the severity that is configured
      for its rule, the message, and the node and name of its source. */
  lemma PanelShowsRuleAlarms(config: FaultConfig, station: StationConfig, net: Network, inputs: seq<Input>,
                             elapsed: real)
    requires CleanConfig(config) && AcceptsAll(station, inputs) && PanelSuffices(config, station, net, inputs, elapsed)
    ensures ShowsRuleAlarms(config, station, net, RunAll(config, station, inputs, elapsed).faults.active,
                            ActiveOnes(History(Updates(config, station, net, inputs, elapsed))))
  {
    var latched := RunAll(config, station, inputs, elapsed).faults.active;
    PanelShowsLatchedAlarms(config, station, net, inputs, elapsed);
    RunLatchesFollowRules(config, station, inputs, elapsed);
    NetworkIsFaithful(net);
    RunMirrors(config, station, WireOf(net), inputs, elapsed);
    ListedAreRuleAlarms(config, station, net, latched,
                        ActiveOnes(History(Updates(config, station, net, inputs, elapsed))));
  }

  /** All event sources of the station have nodes whose stored texts are their own. */
  ghost predicate SourcesDiffer(net: Network, station: StationConfig) {
    forall a, b, code: AlarmCode, code': AlarmCode ::
      Possible(station, a, code) && Possible(station, b, code') && SourceNode(net, a) == SourceNode(net, b) ==> a == b
  }

  ghost predicate SourcesFit(net: Network, station: StationConfig) {
    forall a, code: AlarmCode :: Possible(station, a, code) ==> FitsBuffer(SourceNode(net, a))
  }

  /** The panel's enumeration has an alarm with this key. */
  ghost predicate ShowsKey(slots: seq<Alarm>, key: AlarmKey) {
    exists i :: 0 <= i < |ActiveOnes(slots)| && ActiveOnes(slots)[i].Key() == key
  }

  lemma ListedKeys(slots: seq<Alarm>, m: map<AlarmKey, Alarm>, key: AlarmKey)
    requires Lists(ActiveOnes(slots), m)
    ensures ShowsKey(slots, key) <==> key in m
  {
    if key in m {
      var i :| 0 <= i < |ActiveOnes(slots)| && ActiveOnes(slots)[i] == m[key];
    }
  }

  lemma LatchedKeys(config: FaultConfig, station: StationConfig, net: Network, inputs: seq<Input>, elapsed: real,
                    source: string, code: AlarmCode)
    requires CleanConfig(config) && AcceptsAll(station, inputs)
    requires SourcesDiffer(net, station) && SourcesFit(net, station) && Possible(station, source, code)
    ensures var latched := RunAll(config, station, inputs, elapsed).faults.active;
            IsLatched(latched, source, code) <==> KeyOf(net, source, code) in Contents(Records(WireOf(net), latched))
  {
    var latched := RunAll(config, station, inputs, elapsed).faults.active;
    NetworkIsFaithful(net);
    RunMirrors(config, station, WireOf(net), inputs, elapsed);
    ContentsKeys(WireOf(net), latched);
    forall t | t in latched && KeyOf(net, t.source, t.code) == KeyOf(net, source, code)
      ensures t.source == source && t.code == code
    {
      SameKeySameSource(net, station, t.source, t.code, source, code);
    }
    assert KeyOf(net, source, code) == WireOf(net).key(source, code);
    if IsLatched(latched, source, code) {
      var i :| 0 <= i < |latched| && latched[i].source == source && latched[i].code == code;
      assert latched[i] in latched;
    }
  }

  /** A station whose alarms have found room is mirrored key for key after every run. */
  lemma StationIsMirrored(config: FaultConfig, station: StationConfig, net: Network, inputs: seq<Input>, elapsed: real,
                          source: string, code: AlarmCode)
    requires CleanConfig(config) && AcceptsAll(station, inputs) && PanelSuffices(config, station, net, inputs, elapsed)
    requires SourcesDiffer(net, station) && SourcesFit(net, station) && Possible(station, source, code)
    ensures IsLatched(RunAll(config, station, inputs, elapsed).faults.active, source, code) <==>
            ShowsKey(History(Updates(config, station, net, inputs, elapsed)), KeyOf(net, source, code))
  {
    PanelShowsLatchedAlarms(config, station, net, inputs, elapsed);
    LatchedKeys(config, station, net, inputs, elapsed, source, code);
    ListedKeys(History(Updates(config, station, net, inputs, elapsed)),
               Contents(Records(WireOf(net), RunAll(config, station, inputs, elapsed).faults.active)),
                 KeyOf(net, source, code));
  }

  /** The alarms of ten compressors always find room. */
  lemma PanelSufficesForTen(config: FaultConfig, station: StationConfig, net: Network, inputs: seq<Input>,
                            elapsed: real)
    requires CleanConfig(config) && AcceptsAll(station, inputs) && |station.compressors| <= 10
    ensures PanelSuffices(config, station, net, inputs, elapsed)
  {
    NetworkIsFaithful(net);
    RunMirrors(config, station, WireOf(net), inputs, elapsed);
    PossibleKeysBound(WireOf(net), station);
    SubsetSize(ActiveKeys(Updates(config, station, net, inputs, elapsed)), PossibleKeys(WireOf(net), station));
  }

  lemma SameKeySameSource(net: Network, station: StationConfig, a: string, c: AlarmCode, b: string, d: AlarmCode)
    requires SourcesDiffer(net, station) && SourcesFit(net, station) && Possible(station, a, c) &&
             Possible(station, b, d)
    requires KeyOf(net, a, c) == KeyOf(net, b, d)
    ensures a == b && c == d
  {
    CodesAreDifferent(c, d);
    RenderedIdentity(SourceNode(net, a), SourceNode(net, b));
  }

  // ----- the session itself -----

  lemma HistoryNext(updates: seq<Alarm>, a: Alarm)
    ensures History(updates + [a]) == Apply(History(updates), a).slots
  {
    assert (updates + [a])[..|updates|] == updates;
  }

  lemma OneMoreSent(net: Network, sent: seq<Transition>, t: Transition)
    ensures History(Records(WireOf(net), sent + [t])) == Apply(History(Records(WireOf(net), sent)),
                                                               EventRecord(net, t)).slots
  {
    RecordsAppend(WireOf(net), sent, t);
    HistoryNext(Records(WireOf(net), sent), EventRecord(net, t));
  }

  /** The table is the history of the events sent so far. */
  ghost predicate Follows(model: DataModel.Model, net: Network, sent: seq<Transition>)
    reads model, model.alarms
  {
    model.Valid() && model.Alarms() == History(Records(WireOf(net), sent))
  }

  method DeliverOne(model: DataModel.Model, net: Network, t: Transition, ghost sent: seq<Transition>)
    requires Follows(model, net, sent)
    modifies model`alarmCount, model`alarmGeneration, model.alarms
    ensures Follows(model, net, sent + [t])
  {
    OneMoreSent(net, sent, t);
    EventNotification(model, SourceNode(net, t.source), SourceName(net, t.source),
                      Print(CodeText(t.code), t.active, t.message), t.severity);
  }

  lemma OneLonger(before: seq<Transition>, events: seq<Transition>, i: nat)
    requires i < |events|
    ensures before + events[..i] + [events[i]] == before + events[..i + 1]
  {
  }

  lemma WholeSlice(before: seq<Transition>, events: seq<Transition>)
    ensures before + events[..|events|] == before + events
    ensures before + events[..0] == before
  {
  }

  /** Events reach the panel one by one, in order. */
  method Deliver(model: DataModel.Model, net: Network, events: seq<Transition>, ghost before: seq<Transition>)
    requires Follows(model, net, before)
    modifies model`alarmCount, model`alarmGeneration, model.alarms
    ensures Follows(model, net, before + events)
  {
    var i := 0;
    ghost var sent := before;
    WholeSlice(before, events);
    while i < |events|
      invariant 0 <= i <= |events| && sent == before + events[..i]
      invariant Follows(model, net, sent)
    {
      DeliverOne(model, net, events[i], sent);
      OneLonger(before, events, i);
      sent := sent + [events[i]];
      i := i + 1;
    }
    WholeSlice(before, events);
  }

  /** One cycle of the simulator with its events delivered. */
  method RunCycleAndDeliver(station: StationModel, manager: FaultManager, model: DataModel.Model, net: Network,
                            input: Input, elapsed: real, ghost before: Run)
    returns (ghost after: Run)
    requires station.Valid() && Accepts(station.View(), input)
    requires before == Run(station.View(), manager.State(), before.emitted) && Follows(model, net, before.emitted)
    modifies station, station.compressors, manager, model`alarmCount, model`alarmGeneration, model.alarms
    ensures station.Valid() && after == Cycle(manager.config, before, input, elapsed)
    ensures after == Run(station.View(), manager.State(), after.emitted) && Follows(model, net, after.emitted)
  {
    var events := RunCycle(station, manager, input, elapsed, before.emitted);
    Deliver(model, net, events, before.emitted);
    after := Run(station.View(), manager.State(), before.emitted + events);
  }

  lemma RunNext(config: FaultConfig, station: StationConfig, inputs: seq<Input>, elapsed: real, i: nat)
    requires AcceptsAll(station, inputs) && i < |inputs|
    ensures AcceptsAll(station, inputs[..i]) && AcceptsAll(station, inputs[..i + 1])
    ensures Accepts(RunAll(config, station, inputs[..i], elapsed).station, inputs[i])
    ensures RunAll(config, station, inputs[..i + 1], elapsed) ==
            Cycle(config, RunAll(config, station, inputs[..i], elapsed), inputs[i], elapsed)
  {
    assert inputs[..i + 1][..i] == inputs[..i];
  }

  /** Simulator and panel together: after any number of cycles the panel's table is the history of the
      simulator's events, and its enumeration the latched alarms. */
  method RunSession(station: StationModel, manager: FaultManager, model: DataModel.Model, net: Network,
                    inputs: seq<Input>, elapsed: real)
    requires station.Valid() && station.View() == InitialStation(station.config) && manager.State() == NO_FAULTS
    requires Follows(model, net, []) && AcceptsAll(station.config, inputs)
    modifies station, station.compressors, manager, model`alarmCount, model`alarmGeneration, model.alarms
    ensures station.Valid() && model.Valid()
    ensures var run := RunAll(manager.config, station.config, inputs, elapsed);
            station.View() == run.station && manager.State() == run.faults && Follows(model, net, run.emitted)
    ensures CleanConfig(manager.config) && PanelSuffices(manager.config, station.config, net, inputs, elapsed) ==>
              Lists(ActiveOnes(model.Alarms()), Contents(Records(WireOf(net), manager.activeAlarms)))
    ensures CleanConfig(manager.config) && PanelSuffices(manager.config, station.config, net, inputs, elapsed) ==>
              ShowsRuleAlarms(manager.config, station.config, net, manager.activeAlarms, ActiveOnes(model.Alarms()))
  {
    ghost var run := RunAll(manager.config, station.config, [], elapsed);
    assert inputs[..0] == [];
    var i := 0;
    while i < |inputs|
      invariant 0 <= i <= |inputs| && station.Valid()
      invariant run == RunAll(manager.config, station.config, inputs[..i], elapsed)
      invariant run == Run(station.View(), manager.State(), run.emitted) && Follows(model, net, run.emitted)
    {
      RunNext(manager.config, station.config, inputs, elapsed, i);
      run := RunCycleAndDeliver(station, manager, model, net, inputs[i], elapsed, run);
      i := i + 1;
    }
    assert inputs[..|inputs|] == inputs;
    if CleanConfig(manager.config) {
      PanelShowsLatchedAlarms(manager.config, station.config, net, inputs, elapsed);
      if PanelSuffices(manager.config, station.config, net, inputs, elapsed) {
        PanelShowsRuleAlarms(manager.config, station.config, net, inputs, elapsed);
      }
    }
  }
}
