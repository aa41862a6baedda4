/** The panel's control state: nested pauses of the client, the endpoint handshake with its task,
    and the sleep mode whose events pause and resume the client. */
module Control {
  import opened NodeIds

  // ----- the client's control fields, each operation under the configuration mutex -----

  /** The client task either waits to connect or runs a session with the endpoint that it copied. */
  datatype Session = Waiting | Connected(endpoint: string)

  datatype ClientControl = ClientControl(pauseDepth: UInt32, pauseRequested: bool, reconnectRequested: bool,
                                         endpoint: string, session: Session)

  const ENDPOINT_LENGTH := 256
  const ENDPOINT_PREFIX := "opc.tcp://"

  function AfterPause(c: ClientControl): ClientControl {
    c.(pauseDepth := if c.pauseDepth == 0xFFFF_FFFF then 0 else c.pauseDepth + 1, pauseRequested := true,
       reconnectRequested := true)
  }

  function AfterResume(c: ClientControl): ClientControl {
    var depth := if c.pauseDepth > 0 then c.pauseDepth - 1 else 0;
    c.(pauseDepth := depth, pauseRequested := depth > 0)
  }

  predicate ValidEndpoint(url: string) {
    ENDPOINT_PREFIX <= url && |url| < ENDPOINT_LENGTH
  }

  function AfterSetEndpoint(c: ClientControl, url: string): ClientControl {
    if ValidEndpoint(url) then c.(endpoint := url, reconnectRequested := true) else c
  }

  /** The client's task copies the endpoint and clears the request in one critical section. */
  function AfterConnect(c: ClientControl): ClientControl {
    c.(session := Connected(c.endpoint), reconnectRequested := false)
  }

  predicate MayContinue(c: ClientControl) {
    !c.pauseRequested && !c.reconnectRequested
  }

  /** The session loop looks at the flags before every iteration. */
  function AfterGuard(c: ClientControl): ClientControl {
    if c.session.Connected? && !MayContinue(c) then c.(session := Waiting) else c
  }

  // ----- sleep mode, each operation under its own mutex -----

  datatype SleepEvent = Enter | Wake

  datatype SleepMode = SleepMode(sleeping: bool, brightness: int, normalBrightness: int, sleepBrightness: int,
                                 wakeDelay: nat, wakeTimerRunning: bool)

  function AfterEnter(s: SleepMode): SleepMode {
    if s.sleeping then s
    else s.(sleeping := true, brightness := s.sleepBrightness, wakeTimerRunning := false)
  }

  function AfterWake(s: SleepMode): SleepMode {
    if !s.sleeping then s
    else if s.wakeDelay == 0 then s.(sleeping := false, brightness := s.normalBrightness)
    else s.(sleeping := false, wakeTimerRunning := true)
  }

  /** The callback may still be on its way when the timer has been stopped. */
  function AfterWakeTimer(s: SleepMode): SleepMode {
    (if s.sleeping then s else s.(brightness := s.normalBrightness)).(wakeTimerRunning := false)
  }

  // ----- the panel -----

  /** `pending` are events of transitions that are done but not posted yet: posting happens after the
      mutex has been given back, so different threads may post in any order. `queue` is the event loop's.
      `transitions` and `handled` are histories, `wasted` counts the resumes at depth zero. */
  datatype Panel = Panel(control: ClientControl, sleep: SleepMode, settingsOpen: bool,
                         pending: seq<SleepEvent>, queue: seq<SleepEvent>,
                         transitions: seq<SleepEvent>, handled: seq<SleepEvent>, wasted: nat)

  datatype Step =
    | GoToSleep
    | Activity
    | WakeTimer
    | ChangeBrightness(level: int)
    | Post(which: nat)
    | HandleEvent
    | OpenSettings
    | CloseSettings
    | ChangeEndpoint(url: string)
    | TaskConnects
    | TaskIterates

  function Resumed(p: Panel): Panel {
    p.(control := AfterResume(p.control), wasted := if p.control.pauseDepth == 0 then p.wasted + 1 else p.wasted)
  }

  function Next(p: Panel, step: Step): Panel {
    match step
    case GoToSleep =>
      if p.sleep.sleeping then p
      else p.(sleep := AfterEnter(p.sleep), pending := p.pending + [Enter], transitions := p.transitions + [Enter])
    case Activity =>
      if !p.sleep.sleeping then p
      else p.(sleep := AfterWake(p.sleep), pending := p.pending + [Wake], transitions := p.transitions + [Wake])
    case WakeTimer => p.(sleep := AfterWakeTimer(p.sleep))
    case ChangeBrightness(level) => p.(sleep := p.sleep.(normalBrightness := level))
    case Post(which) =>
      if which >= |p.pending| then p
      else p.(pending := p.pending[..which] + p.pending[which + 1..], queue := p.queue + [p.pending[which]])
    case HandleEvent =>
      if p.queue == [] then p
      else
        var q := p.(queue := p.queue[1..], handled := p.handled + [p.queue[0]]);
        if p.queue[0] == Enter then q.(control := AfterPause(q.control)) else Resumed(q)
    case OpenSettings => if p.settingsOpen then p else p.(settingsOpen := true, control := AfterPause(p.control))
    case CloseSettings => if !p.settingsOpen then p else Resumed(p).(settingsOpen := false)
    case ChangeEndpoint(url) => p.(control := AfterSetEndpoint(p.control, url))
    case TaskConnects => p.(control := AfterConnect(p.control))
    case TaskIterates => p.(control := AfterGuard(p.control))
  }

  function RunSteps(p: Panel, steps: seq<Step>): Panel {
    if steps == [] then p else Next(RunSteps(p, steps[..|steps| - 1]), steps[|steps| - 1])
  }

  predicate InOrder(step: Step) {
    step.Post? ==> step.which == 0
  }

  function Bit(b: bool): nat {
    if b then 1 else 0
  }

  /** Awake, settings closed, nothing on its way, not paused. */
  predicate Fresh(p: Panel) {
    && !p.sleep.sleeping && !p.settingsOpen && p.pending == [] && p.queue == [] && p.transitions == [] &&
       p.handled == []
    && p.wasted == 0 && p.control.pauseDepth == 0 && !p.control.pauseRequested && p.control.session == Waiting
  }

  /** No event is on its way. */
  predicate Settled(p: Panel) {
    p.pending == [] && p.queue == []
  }

  // ----- the endpoint handshake, under every interleaving -----

  /** A session whose copy is out of date has a request to reconnect. */
  predicate EndpointKept(c: ClientControl) {
    c.session.Connected? && !c.reconnectRequested ==> c.session.endpoint == c.endpoint
  }

  lemma GuardTrustsTheCopy(c: ClientControl)
    requires EndpointKept(c) && AfterGuard(c).session.Connected?
    ensures AfterGuard(c) == c && c.session.endpoint == c.endpoint
  {
  }

  lemma NextKeepsEndpoint(p: Panel, step: Step)
    requires EndpointKept(p.control)
    ensures EndpointKept(Next(p, step).control)
  {
    match step {
      case HandleEvent =>
        if p.queue != [] {
          assert Next(p, step).control == if p.queue[0] == Enter then AfterPause(p.control) else AfterResume(p.control);
        }
      case _ =>
    }
  }

  /** No interleaving loses an endpoint change: a session that passes its loop guard runs with the
      configured endpoint. */
  lemma {:induction false} NoEndpointChangeIsLost(p: Panel, steps: seq<Step>)
    requires EndpointKept(p.control)
    ensures var c := RunSteps(p, steps).control;
            && EndpointKept(c)
            && (AfterGuard(c).session.Connected? ==> AfterGuard(c).session.endpoint == c.endpoint)
    decreases |steps|
  {
    if steps != [] {
      NoEndpointChangeIsLost(p, steps[..|steps| - 1]);
      NextKeepsEndpoint(RunSteps(p, steps[..|steps| - 1]), steps[|steps| - 1]);
    }
    var c := RunSteps(p, steps).control;
    if AfterGuard(c).session.Connected? {
      GuardTrustsTheCopy(c);
    }
  }

  // ----- brightness -----

  /** Under every interleaving, a sleeping panel has its sleep brightness. */
  lemma {:induction false} SleepingIsDark(p: Panel, steps: seq<Step>)
    requires p.sleep.sleeping ==> p.sleep.brightness == p.sleep.sleepBrightness
    ensures var s := RunSteps(p, steps).sleep;
            s.sleepBrightness == p.sleep.sleepBrightness && (s.sleeping ==> s.brightness == s.sleepBrightness)
  {
    if steps != [] {
      SleepingIsDark(p, steps[..|steps| - 1]);
      StaysDark(RunSteps(p, steps[..|steps| - 1]), steps[|steps| - 1]);
    }
  }

  lemma StaysDark(p: Panel, step: Step)
    requires p.sleep.sleeping ==> p.sleep.brightness == p.sleep.sleepBrightness
    ensures var s := Next(p, step).sleep;
            s.sleepBrightness == p.sleep.sleepBrightness && (s.sleeping ==> s.brightness == s.sleepBrightness)
  {
  }

  // ----- pauses and sleep events -----

  function Weight(e: SleepEvent): int {
    if e == Enter then 1 else -1
  }

  /** How many more ENTER than WAKE events. */
  function Balance(events: seq<SleepEvent>): int {
    if events == [] then 0 else Balance(events[..|events| - 1]) + Weight(events[|events| - 1])
  }

  lemma {:induction false} BalanceConcat(a: seq<SleepEvent>, b: seq<SleepEvent>)
    ensures Balance(a + b) == Balance(a) + Balance(b)
  {
    if b == [] {
      assert a + b == a;
    } else {
      assert (a + b)[..|a + b| - 1] == a + b[..|b| - 1];
      BalanceConcat(a, b[..|b| - 1]);
    }
  }

  lemma BalanceAppend(events: seq<SleepEvent>, e: SleepEvent)
    ensures Balance(events + [e]) == Balance(events) + Weight(e)
  {
    assert (events + [e])[..|events|] == events;
  }

  /** Taking one event out of the middle. */
  lemma BalanceMiddle(a: seq<SleepEvent>, e: SleepEvent, b: seq<SleepEvent>)
    ensures Balance(a + [e] + b) == Balance(a + b) + Weight(e)
  {
    BalanceConcat(a + [e], b);
    BalanceAppend(a, e);
    BalanceConcat(a, b);
  }

  predicate EndsAsleep(events: seq<SleepEvent>) {
    events != [] && events[|events| - 1] == Enter
  }

  /** ENTER and WAKE transitions alternate, beginning with ENTER. */
  predicate Alternates(events: seq<SleepEvent>) {
    events == [] ||
    (Alternates(events[..|events| - 1]) && EndsAsleep(events) != EndsAsleep(events[..|events| - 1]))
  }

  lemma {:induction false} AlternatingBalance(events: seq<SleepEvent>)
    requires Alternates(events)
    ensures Balance(events) == Bit(EndsAsleep(events))
  {
    if events != [] {
      AlternatingBalance(events[..|events| - 1]);
    }
  }

  /** No event is lost or made up, and transitions alternate with the sleep state. */
  ghost predicate EventsConserved(p: Panel) {
    AllAccounted(p.handled, p.queue, p.pending, p.transitions, p.sleep.sleeping)
  }

  ghost predicate AllAccounted(handled: seq<SleepEvent>, queue: seq<SleepEvent>, pending: seq<SleepEvent>,
                               transitions: seq<SleepEvent>, sleeping: bool) {
    && Balance(handled) + Balance(queue) + Balance(pending) == Balance(transitions)
    && |handled| + |queue| + |pending| == |transitions|
    && Alternates(transitions)
    && (sleeping <==> EndsAsleep(transitions))
  }

  /** The depth is the balance of the handled events, plus the open settings, plus every resume that
      found nothing to release. */
  ghost predicate DepthConserved(p: Panel) {
    && p.control.pauseDepth == Balance(p.handled) + Bit(p.settingsOpen) + p.wasted
    && p.control.pauseRequested == (p.control.pauseDepth > 0)
  }

  lemma TransitionConserves(handled: seq<SleepEvent>, queue: seq<SleepEvent>, pending: seq<SleepEvent>,
                            transitions: seq<SleepEvent>, e: SleepEvent)
    requires AllAccounted(handled, queue, pending, transitions, e == Wake)
    ensures AllAccounted(handled, queue, pending + [e], transitions + [e], e == Enter)
  {
    BalanceAppend(pending, e);
    BalanceAppend(transitions, e);
    AlternatesAppend(transitions, e);
  }

  lemma AlternatesAppend(events: seq<SleepEvent>, e: SleepEvent)
    requires Alternates(events) && e == if EndsAsleep(events) then Wake else Enter
    ensures Alternates(events + [e]) && (EndsAsleep(events + [e]) <==> e == Enter)
  {
    assert (events + [e])[..|events|] == events;
  }

  /** In an alternating history every event differs in direction from the one before. */
  lemma {:induction false} AlternatesAt(events: seq<SleepEvent>, k: nat)
    requires Alternates(events) && k < |events|
    ensures events[k] == if EndsAsleep(events[..k]) then Wake else Enter
  {
    if k < |events| - 1 {
      AlternatesAt(events[..|events| - 1], k);
      assert events[..|events| - 1][..k] == events[..k];
    }
  }

  lemma PostConserves(handled: seq<SleepEvent>, queue: seq<SleepEvent>, pending: seq<SleepEvent>,
                      transitions: seq<SleepEvent>, sleeping: bool, k: nat)
    requires AllAccounted(handled, queue, pending, transitions, sleeping) && k < |pending|
    ensures AllAccounted(handled, queue + [pending[k]], pending[..k] + pending[k + 1..], transitions, sleeping)
  {
    assert pending == pending[..k] + [pending[k]] + pending[k + 1..];
    BalanceMiddle(pending[..k], pending[k], pending[k + 1..]);
    BalanceAppend(queue, pending[k]);
  }

  lemma HandleConserves(handled: seq<SleepEvent>, queue: seq<SleepEvent>, pending: seq<SleepEvent>,
                        transitions: seq<SleepEvent>, sleeping: bool)
    requires AllAccounted(handled, queue, pending, transitions, sleeping) && queue != []
    ensures AllAccounted(handled + [queue[0]], queue[1..], pending, transitions, sleeping)
  {
    assert queue == [] + [queue[0]] + queue[1..] && [] + queue[1..] == queue[1..];
    BalanceMiddle([], queue[0], queue[1..]);
    BalanceAppend(handled, queue[0]);
  }

  lemma TransitionStepConserves(p: Panel, step: Step)
    requires EventsConserved(p) && (step.GoToSleep? || step.Activity?)
    ensures EventsConserved(Next(p, step))
  {
    var e := if step.GoToSleep? then Enter else Wake;
    if p.sleep.sleeping == (e == Wake) {
      TransitionConserves(p.handled, p.queue, p.pending, p.transitions, e);
    }
  }

  lemma PostStepConserves(p: Panel, which: nat)
    requires EventsConserved(p)
    ensures EventsConserved(Next(p, Post(which)))
  {
    if which < |p.pending| {
      PostingMoves(p, which);
      PostConserves(p.handled, p.queue, p.pending, p.transitions, p.sleep.sleeping, which);
    }
  }

  lemma PostingMoves(p: Panel, which: nat)
    requires which < |p.pending|
    ensures var q := Next(p, Post(which));
            q.pending == p.pending[..which] + p.pending[which + 1..] && q.queue == p.queue + [p.pending[which]] &&
            q.handled == p.handled && q.transitions == p.transitions && q.sleep == p.sleep
  {
  }

  lemma HandleStepConserves(p: Panel)
    requires EventsConserved(p)
    ensures EventsConserved(Next(p, HandleEvent))
  {
    if p.queue != [] {
      HandlingMoves(p);
      HandleConserves(p.handled, p.queue, p.pending, p.transitions, p.sleep.sleeping);
    }
  }

  lemma HandlingMoves(p: Panel)
    requires p.queue != []
    ensures var q := Next(p, HandleEvent);
            q.handled == p.handled + [p.queue[0]] && q.queue == p.queue[1..] && q.pending == p.pending &&
            q.transitions == p.transitions && q.sleep == p.sleep
  {
  }

  predicate MovesEvents(step: Step) {
    step.GoToSleep? || step.Activity? || step.Post? || step.HandleEvent?
  }

  lemma OtherStepsMoveNothing(p: Panel, step: Step)
    requires !MovesEvents(step)
    ensures var q := Next(p, step);
            q.handled == p.handled && q.queue == p.queue && q.pending == p.pending &&
            q.transitions == p.transitions && q.sleep.sleeping == p.sleep.sleeping
  {
  }

  lemma NextConservesEvents(p: Panel, step: Step)
    requires EventsConserved(p)
    ensures EventsConserved(Next(p, step))
  {
    if step.GoToSleep? || step.Activity? {
      TransitionStepConserves(p, step);
    } else if step.Post? {
      PostStepConserves(p, step.which);
    } else if step.HandleEvent? {
      HandleStepConserves(p);
    } else {
      OtherStepsMoveNothing(p, step);
    }
  }

  /** A pause adds one to the depth, a resume takes one off or is wasted. */
  lemma CountsPause(c: ClientControl)
    requires c.pauseDepth < 0xFFFF_FFFF
    ensures AfterPause(c).pauseDepth == c.pauseDepth + 1 && AfterPause(c).pauseRequested
  {
  }

  lemma CountsResume(p: Panel)
    ensures Resumed(p).control.pauseDepth - Resumed(p).wasted == p.control.pauseDepth - p.wasted - 1
    ensures Resumed(p).control.pauseRequested == (Resumed(p).control.pauseDepth > 0)
    ensures Resumed(p).control.pauseDepth <= p.control.pauseDepth
  {
  }

  lemma HandleConservesDepth(p: Panel)
    requires DepthConserved(p) && p.control.pauseDepth < 0xFFFF_FFFF && p.queue != []
    ensures DepthConserved(Next(p, HandleEvent))
    ensures Next(p, HandleEvent).control.pauseDepth <= p.control.pauseDepth + 1
  {
    var e := p.queue[0];
    var q := p.(queue := p.queue[1..], handled := p.handled + [e]);
    BalanceAppend(p.handled, e);
    CountsPause(p.control);
    CountsResume(q);
  }

  lemma OtherStepsKeepDepth(p: Panel, step: Step)
    requires !step.HandleEvent? && !step.OpenSettings? && !step.CloseSettings?
    ensures var q := Next(p, step);
            && q.control.pauseDepth == p.control.pauseDepth && q.control.pauseRequested == p.control.pauseRequested
            && q.handled == p.handled && q.settingsOpen == p.settingsOpen && q.wasted == p.wasted
  {
  }

  lemma NextConservesDepth(p: Panel, step: Step)
    requires DepthConserved(p) && p.control.pauseDepth < 0xFFFF_FFFF
    ensures DepthConserved(Next(p, step))
    ensures Next(p, step).control.pauseDepth <= p.control.pauseDepth + 1
  {
    match step {
      case HandleEvent =>
        if p.queue != [] {
          HandleConservesDepth(p);
        }
      case OpenSettings => CountsPause(p.control);
      case CloseSettings => CountsResume(p);
      case _ => OtherStepsKeepDepth(p, step);
    }
  }

  lemma {:induction false} RunConserves(p: Panel, steps: seq<Step>)
    requires EventsConserved(p) && DepthConserved(p) && p.control.pauseDepth + |steps| <= 0xFFFF_FFFF
    ensures EventsConserved(RunSteps(p, steps)) && DepthConserved(RunSteps(p, steps))
    ensures RunSteps(p, steps).control.pauseDepth <= p.control.pauseDepth + |steps|
  {
    if steps != [] {
      RunConserves(p, steps[..|steps| - 1]);
      NextConservesEvents(RunSteps(p, steps[..|steps| - 1]), steps[|steps| - 1]);
      NextConservesDepth(RunSteps(p, steps[..|steps| - 1]), steps[|steps| - 1]);
    }
  }

  /** A WAKE is handled, or the settings are closed, while the depth is zero. */
  predicate TooEarly(p: Panel, step: Step) {
    p.control.pauseDepth == 0 &&
    ((step.HandleEvent? && p.queue != [] && p.queue[0] == Wake) || (step.CloseSettings? && p.settingsOpen))
  }

  ghost predicate TooEarlyAt(p: Panel, steps: seq<Step>, i: nat) {
    i < |steps| && TooEarly(RunSteps(p, steps[..i]), steps[i])
  }

  /** Some resume of the run comes before its pause. */
  ghost predicate SomeTooEarly(p: Panel, steps: seq<Step>) {
    exists i: nat :: TooEarlyAt(p, steps, i)
  }

  lemma NextWastes(p: Panel, step: Step)
    ensures Next(p, step).wasted == if TooEarly(p, step) then p.wasted + 1 else p.wasted
  {
  }

  lemma SomeTooEarlyGrows(p: Panel, steps: seq<Step>)
    requires steps != []
    ensures var before, last := steps[..|steps| - 1], steps[|steps| - 1];
            SomeTooEarly(p, steps) <==> SomeTooEarly(p, before) || TooEarly(RunSteps(p, before), last)
  {
    var before, n := steps[..|steps| - 1], |steps| - 1;
    forall i: nat | i < n
      ensures TooEarlyAt(p, steps, i) <==> TooEarlyAt(p, before, i)
    {
      assert steps[..i] == before[..i];
    }
    assert TooEarlyAt(p, steps, n) <==> TooEarly(RunSteps(p, before), steps[n]);
    if SomeTooEarly(p, steps) {
      var i: nat :| TooEarlyAt(p, steps, i);
      assert i == n || TooEarlyAt(p, before, i);
    }
  }

  /** Resumes are wasted by exactly those steps. */
  lemma {:induction false} WastedMeaning(p: Panel, steps: seq<Step>)
    ensures RunSteps(p, steps).wasted >= p.wasted
    ensures RunSteps(p, steps).wasted > p.wasted <==> SomeTooEarly(p, steps)
    decreases |steps|
  {
    if steps != [] {
      WastedMeaning(p, steps[..|steps| - 1]);
      NextWastes(RunSteps(p, steps[..|steps| - 1]), steps[|steps| - 1]);
      SomeTooEarlyGrows(p, steps);
    }
  }

  /** Once every event has been handled, whatever the order of posting, the client is paused for
      sleep, for the settings, and for good once a resume has come too early. So the pause is right,
      there for sleep or settings and for nothing else, exactly when one of these asks for it or no
      resume has come too early. */
  lemma SettledDepth(p: Panel, steps: seq<Step>)
    requires Fresh(p) && |steps| <= 0xFFFF_FFFF
    ensures var q := RunSteps(p, steps);
            var wanted := q.sleep.sleeping || q.settingsOpen;
            Settled(q) ==>
              && q.control.pauseDepth == Bit(q.sleep.sleeping) + Bit(q.settingsOpen) + q.wasted
              && (q.control.pauseRequested <==> wanted || SomeTooEarly(p, steps))
              && ((q.control.pauseRequested <==> wanted) <==> (wanted || !SomeTooEarly(p, steps)))
  {
    FreshIsConserved(p);
    RunConserves(p, steps);
    WastedMeaning(p, steps);
    if Settled(RunSteps(p, steps)) {
      SettledBalance(RunSteps(p, steps));
    }
  }

  lemma FreshIsConserved(p: Panel)
    requires Fresh(p)
    ensures EventsConserved(p) && DepthConserved(p)
  {
  }

  lemma SettledBalance(q: Panel)
    requires EventsConserved(q) && Settled(q)
    ensures Balance(q.handled) == Bit(q.sleep.sleeping)
  {
    AlternatingBalance(q.transitions);
  }

  // ----- runs that post in order -----

  ghost predicate AllInOrder(steps: seq<Step>) {
    forall i | 0 <= i < |steps| :: InOrder(steps[i])
  }

  ghost predicate OrderKept(p: Panel) {
    && p.handled + p.queue + p.pending == p.transitions
    && Alternates(p.transitions)
    && (p.sleep.sleeping <==> EndsAsleep(p.transitions))
    && p.wasted == 0
    && p.control.pauseDepth == Bit(EndsAsleep(p.handled)) + Bit(p.settingsOpen)
    && p.control.pauseRequested == (p.control.pauseDepth > 0)
  }

  lemma PostingFirst(handled: seq<SleepEvent>, queue: seq<SleepEvent>, pending: seq<SleepEvent>)
    requires pending != []
    ensures handled + (queue + [pending[0]]) + (pending[..0] + pending[0 + 1..]) == handled + queue + pending
  {
  }

  lemma PostKeepsOrder(p: Panel)
    requires OrderKept(p)
    ensures OrderKept(Next(p, Post(0)))
  {
    if p.pending != [] {
      PostingFirst(p.handled, p.queue, p.pending);
    }
  }

  lemma HandleKeepsOrder(p: Panel)
    requires OrderKept(p)
    ensures OrderKept(Next(p, HandleEvent))
  {
    if p.queue != [] {
      var e, rest := p.queue[0], p.queue[1..];
      assert p.queue == [e] + rest;
      assert (p.handled + [e]) + rest + p.pending == p.handled + p.queue + p.pending;
      assert p.transitions[|p.handled|] == e && p.transitions[..|p.handled|] == p.handled;
      AlternatesAt(p.transitions, |p.handled|);
    }
  }

  lemma TransitionKeepsOrder(p: Panel, step: Step)
    requires OrderKept(p) && (step.GoToSleep? || step.Activity?)
    ensures OrderKept(Next(p, step))
  {
    var e := if step.GoToSleep? then Enter else Wake;
    assert p.handled + p.queue + (p.pending + [e]) == p.handled + p.queue + p.pending + [e];
    if p.sleep.sleeping == (e == Wake) {
      AlternatesAppend(p.transitions, e);
    }
  }

  lemma NextKeepsOrder(p: Panel, step: Step)
    requires OrderKept(p) && InOrder(step)
    ensures OrderKept(Next(p, step))
  {
    match step {
      case GoToSleep => TransitionKeepsOrder(p, step);
      case Activity => TransitionKeepsOrder(p, step);
      case Post(_) => PostKeepsOrder(p);
      case HandleEvent => HandleKeepsOrder(p);
      case _ =>
    }
  }

  /** While events are posted in the order of their transitions, the depth is at all times one for a
      handled ENTER plus one for open settings, and no resume is ever wasted. */
  lemma {:induction false} OrderedDepth(p: Panel, steps: seq<Step>)
    requires OrderKept(p) && AllInOrder(steps)
    ensures OrderKept(RunSteps(p, steps))
  {
    if steps != [] {
      OrderedDepth(p, steps[..|steps| - 1]);
      NextKeepsOrder(RunSteps(p, steps[..|steps| - 1]), steps[|steps| - 1]);
    }
  }

  /** So once every event has been handled, the client is paused exactly for sleep or settings. */
  lemma OrderedPauseIsRight(p: Panel, steps: seq<Step>)
    requires Fresh(p) && AllInOrder(steps)
    ensures var q := RunSteps(p, steps);
            Settled(q) ==> (q.control.pauseRequested <==> q.sleep.sleeping || q.settingsOpen)
  {
    OrderedDepth(p, steps);
    var q := RunSteps(p, steps);
    assert q.handled + [] + [] == q.handled;
  }

  /** The order of posting is not guaranteed: falling asleep and waking up on two tasks can post WAKE
      first, and then the awake panel stays paused with its settings closed. */
  lemma RacingPostsLeakAPause(p: Panel)
    requires Fresh(p)
    ensures var q := RunSteps(p, [GoToSleep, Activity, Post(1), Post(0), HandleEvent, HandleEvent]);
            && Settled(q) && !q.sleep.sleeping && !q.settingsOpen
            && q.control.pauseRequested && q.control.pauseDepth == 1 && q.wasted == 1
  {
    SixSteps(p, GoToSleep, Activity, Post(1), Post(0), HandleEvent, HandleEvent);
    var s2 := Next(Next(p, GoToSleep), Activity);
    assert s2.pending == [Enter, Wake] && s2.queue == [] && s2.control == p.control;
    var s4 := Next(Next(s2, Post(1)), Post(0));
    assert s4.pending == [] && s4.queue == [Wake, Enter];
    var s5 := Next(s4, HandleEvent);
    assert s5.queue == [Enter] && s5.wasted == 1 && s5.control.pauseDepth == 0;
  }

  lemma SixSteps(p: Panel, a: Step, b: Step, c: Step, d: Step, e: Step, f: Step)
    ensures RunSteps(p, [a, b, c, d, e, f]) == Next(Next(Next(Next(Next(Next(p, a), b), c), d), e), f)
  {
    assert [a, b, c, d, e, f] == [a, b, c, d, e] + [f] && [a, b, c, d, e] == [a, b, c, d] + [e];
    assert [a, b, c, d] == [a, b, c] + [d] && [a, b, c] == [a, b] + [c] && [a, b] == [a] + [b] && [a] == [] + [a];
    StepsUnfold(p, [a, b, c, d, e], f);
    StepsUnfold(p, [a, b, c, d], e);
    StepsUnfold(p, [a, b, c], d);
    StepsUnfold(p, [a, b], c);
    StepsUnfold(p, [a], b);
    StepsUnfold(p, [], a);
  }

  lemma StepsUnfold(p: Panel, steps: seq<Step>, step: Step)
    ensures RunSteps(p, steps + [step]) == Next(RunSteps(p, steps), step)
  {
    assert (steps + [step])[..|steps|] == steps;
  }

  lemma TooEarlyStays(p: Panel, steps: seq<Step>, more: seq<Step>)
    requires SomeTooEarly(p, steps)
    ensures SomeTooEarly(p, steps + more)
  {
    var i: nat :| TooEarlyAt(p, steps, i);
    assert (steps + more)[..i] == steps[..i];
    assert TooEarlyAt(p, steps + more, i);
  }

  /** A leaked pause is never made up for: after one resume that came too early, every settled panel
      is paused. */
  lemma LeakedPauseStays(p: Panel, steps: seq<Step>, more: seq<Step>)
    requires Fresh(p) && |steps + more| <= 0xFFFF_FFFF && SomeTooEarly(p, steps)
    ensures Settled(RunSteps(p, steps + more)) ==> RunSteps(p, steps + more).control.pauseRequested
  {
    TooEarlyStays(p, steps, more);
    SettledDepth(p, steps + more);
  }
}
