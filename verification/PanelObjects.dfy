/** The objects that share the control state: the client's control fields, the sleep mode's context,
    and the panel that connects them. */
module PanelObjects {
  import opened NodeIds
  import opened Control

  /** The client's control fields; every method is one critical section of its mutex. */
  class ControlFields {
    var pauseDepth: UInt32
    var pauseRequested: bool
    var reconnectRequested: bool
    var endpointUrl: string
    /** The endpoint copied by the client's task, while it runs a session. */
    var session: Session

    function View(): ClientControl
      reads this
    {
      ClientControl(pauseDepth, pauseRequested, reconnectRequested, endpointUrl, session)
    }

    /** A session whose endpoint is out of date has been asked to reconnect. */
    ghost predicate Valid()
      reads this
    {
      EndpointKept(View())
    }

    constructor (endpoint: string)
      ensures Valid() && View() == ClientControl(0, false, false, endpoint, Waiting)
    {
      pauseDepth, pauseRequested, reconnectRequested := 0, false, false;
      endpointUrl, session := endpoint, Waiting;
    }

    /** Stops the session at its next guard, even when it is resumed before; one resume undoes the
        pause, unless the counter wraps. */
    method Pause()
      requires Valid()
      modifies this
      ensures Valid() && View() == AfterPause(old(View()))
      ensures AfterGuard(View()).session == Waiting && AfterGuard(AfterResume(View())).session == Waiting
      ensures endpointUrl == old(endpointUrl) && session == old(session)
      ensures old(pauseDepth) < 0xFFFF_FFFF ==> AfterResume(View()).pauseDepth == old(pauseDepth)
    {
      pauseDepth := if pauseDepth == 0xFFFF_FFFF then 0 else pauseDepth + 1;
      pauseRequested := true;
      reconnectRequested := true;
    }

    /** Undoes the latest pause; the client stays paused exactly while another one is open. */
    method Resume()
      requires Valid()
      modifies this
      ensures Valid() && View() == AfterResume(old(View()))
      ensures pauseRequested <==> old(pauseDepth) > 1
      ensures old(pauseDepth) > 0 ==> AfterPause(View()).pauseDepth == old(pauseDepth)
      ensures reconnectRequested == old(reconnectRequested) && endpointUrl == old(endpointUrl)
      ensures session == old(session)
    {
      if pauseDepth > 0 {
        pauseDepth := pauseDepth - 1;
      }
      pauseRequested := pauseDepth > 0;
    }

    /** A running session does not outlive an accepted endpoint. */
    method SetEndpoint(url: string) returns (accepted: bool)
      requires Valid()
      modifies this
      ensures Valid() && View() == AfterSetEndpoint(old(View()), url)
      ensures accepted <==> ENDPOINT_PREFIX <= url && |url| < ENDPOINT_LENGTH
      ensures accepted ==> AfterGuard(View()).session == Waiting && AfterConnect(View()).session == Connected(url)
      ensures !accepted ==> View() == old(View())
      ensures pauseDepth == old(pauseDepth) && pauseRequested == old(pauseRequested) && session == old(session)
    {
      if !(ENDPOINT_PREFIX <= url) || |url| >= ENDPOINT_LENGTH {
        return false;
      }
      endpointUrl := url;
      reconnectRequested := true;
      accepted := true;
    }

    /** The critical section of the client's task before it connects. */
    method CopyEndpoint()
      requires Valid()
      modifies this
      ensures Valid() && View() == AfterConnect(old(View()))
      ensures !pauseRequested ==> AfterGuard(View()) == View()
      ensures endpointUrl == old(endpointUrl) && pauseDepth == old(pauseDepth)
      ensures pauseRequested == old(pauseRequested)
    {
      session := Connected(endpointUrl);
      reconnectRequested := false;
    }

    /** The guard of the session loop: what goes on is not paused and has the configured endpoint. */
    method CheckSession()
      requires Valid()
      modifies this
      ensures Valid() && View() == AfterGuard(old(View()))
      ensures session.Connected? ==> session.endpoint == endpointUrl && !pauseRequested
    {
      if session.Connected? && (pauseRequested || reconnectRequested) {
        session := Waiting;
      }
    }
  }

  /** The sleep mode's context; an event is returned to be posted after the mutex is given back. */
  class SleepContext {
    var sleeping: bool
    var brightness: int
    var normalBrightness: int
    var sleepBrightness: int
    var wakeBrightnessDelay: nat
    var wakeTimerRunning: bool

    function View(): SleepMode
      reads this
    {
      SleepMode(sleeping, brightness, normalBrightness, sleepBrightness, wakeBrightnessDelay, wakeTimerRunning)
    }

    /** A sleeping panel is dark. */
    ghost predicate Valid()
      reads this
    {
      sleeping ==> brightness == sleepBrightness
    }

    constructor (normal: int, asleep: int, delay: nat)
      ensures Valid() && View() == SleepMode(false, normal, normal, asleep, delay, false)
    {
      sleeping, wakeTimerRunning := false, false;
      brightness, normalBrightness, sleepBrightness, wakeBrightnessDelay := normal, normal, asleep, delay;
    }

    method EnterSleepInternal() returns (emit: bool)
      requires Valid()
      modifies this
      ensures Valid() && View() == AfterEnter(old(View()))
      ensures sleeping && (emit <==> sleeping != old(sleeping))
      ensures emit ==> !wakeTimerRunning
    {
      emit := false;
      if !sleeping {
        wakeTimerRunning := false;
        brightness := sleepBrightness;
        sleeping := true;
        emit := true;
      }
    }

    /** Light comes back at once, or with the timer. */
    method WakeInternal() returns (emit: bool)
      requires Valid()
      modifies this
      ensures Valid() && View() == AfterWake(old(View()))
      ensures !sleeping && (emit <==> sleeping != old(sleeping))
      ensures emit ==>
                AfterWakeTimer(View()).brightness == normalBrightness &&
                (if wakeBrightnessDelay == 0 then brightness == normalBrightness
                 else wakeTimerRunning && brightness == old(brightness))
    {
      emit := false;
      if sleeping {
        sleeping := false;
        emit := true;
        if wakeBrightnessDelay == 0 {
          brightness := normalBrightness;
        } else {
          wakeTimerRunning := true;
        }
      }
    }

    /** A callback that comes late does not light a panel that sleeps again. */
    method WakeBrightnessTimerCallback()
      requires Valid()
      modifies this
      ensures Valid() && View() == AfterWakeTimer(old(View()))
      ensures brightness == if sleeping then sleepBrightness else normalBrightness
    {
      wakeTimerRunning := false;
      if !sleeping {
        brightness := normalBrightness;
      }
    }

    method UpdateNormalBrightness(level: int)
      requires Valid()
      modifies this
      ensures Valid() && View() == old(View()).(normalBrightness := level)
    {
      normalBrightness := level;
    }
  }

  /** The panel: its sleep mode and settings overlay pause and resume the client through the event
      loop. `start` and `steps` are the history of the object. */
  class PanelObject {
    const control: ControlFields
    const sleep: SleepContext
    var settingsOpen: bool
    /** Events of transitions that have not been posted yet, and the event loop's queue. */
    var pending: seq<SleepEvent>
    var queue: seq<SleepEvent>
    ghost const start: Panel
    ghost var steps: seq<Step>

    ghost function History(): Panel
      reads this
    {
      RunSteps(start, steps)
    }

    /** The fields are where the recorded steps of a fresh panel lead. */
    ghost predicate Valid()
      reads this, control, sleep
    {
      && Fresh(start) && control.Valid() && sleep.Valid()
      && History().control == control.View()
      && History().sleep == sleep.View()
      && History().settingsOpen == settingsOpen
      && History().pending == pending
      && History().queue == queue
    }

    constructor (endpoint: string, normal: int, asleep: int, delay: nat)
      ensures Valid() && fresh(control) && fresh(sleep) && steps == []
    {
      control := new ControlFields(endpoint);
      sleep := new SleepContext(normal, asleep, delay);
      settingsOpen, pending, queue := false, [], [];
      start := Panel(ClientControl(0, false, false, endpoint, Waiting),
                     SleepMode(false, normal, normal, asleep, delay, false),
                     false, [], [], [], [], 0);
      steps := [];
    }

    method GoToSleep()
      requires Valid()
      modifies this, sleep
      ensures Valid() && steps == old(steps) + [Step.GoToSleep]
    {
      StepsUnfold(start, steps, Step.GoToSleep);
      var emit := sleep.EnterSleepInternal();
      if emit {
        pending := pending + [Enter];
      }
      steps := steps + [Step.GoToSleep];
    }

    method NoticeActivity()
      requires Valid()
      modifies this, sleep
      ensures Valid() && steps == old(steps) + [Activity]
    {
      StepsUnfold(start, steps, Activity);
      var emit := sleep.WakeInternal();
      if emit {
        pending := pending + [Wake];
      }
      steps := steps + [Activity];
    }

    method WakeTimerFires()
      requires Valid()
      modifies this, sleep
      ensures Valid() && steps == old(steps) + [WakeTimer]
    {
      StepsUnfold(start, steps, WakeTimer);
      sleep.WakeBrightnessTimerCallback();
      steps := steps + [WakeTimer];
    }

    method SetNormalBrightness(level: int)
      requires Valid()
      modifies this, sleep
      ensures Valid() && steps == old(steps) + [ChangeBrightness(level)]
    {
      StepsUnfold(start, steps, ChangeBrightness(level));
      sleep.UpdateNormalBrightness(level);
      steps := steps + [ChangeBrightness(level)];
    }

    /** The thread of one transition gets to post its event. */
    method PostEvent(which: nat)
      requires Valid()
      modifies this
      ensures Valid() && steps == old(steps) + [Post(which)]
    {
      StepsUnfold(start, steps, Post(which));
      if which < |pending| {
        queue := queue + [pending[which]];
        pending := pending[..which] + pending[which + 1..];
      }
      steps := steps + [Post(which)];
    }

    /** The event loop's handler. */
    method HandleSleepEvent()
      requires Valid()
      modifies this, control
      ensures Valid() && steps == old(steps) + [HandleEvent]
    {
      StepsUnfold(start, steps, HandleEvent);
      if queue != [] {
        var event := queue[0];
        queue := queue[1..];
        if event == Enter {
          control.Pause();
        } else {
          control.Resume();
        }
      }
      steps := steps + [HandleEvent];
    }

    method OpenSettingsOverlay()
      requires Valid()
      modifies this, control
      ensures Valid() && steps == old(steps) + [OpenSettings]
    {
      StepsUnfold(start, steps, OpenSettings);
      if !settingsOpen {
        control.Pause();
        settingsOpen := true;
      }
      steps := steps + [OpenSettings];
    }

    method CloseSettingsOverlay()
      requires Valid()
      modifies this, control
      ensures Valid() && steps == old(steps) + [CloseSettings]
    {
      StepsUnfold(start, steps, CloseSettings);
      if settingsOpen {
        control.Resume();
        settingsOpen := false;
      }
      steps := steps + [CloseSettings];
    }

    method ApplyEndpoint(url: string) returns (accepted: bool)
      requires Valid()
      modifies this, control
      ensures Valid() && steps == old(steps) + [ChangeEndpoint(url)]
      ensures accepted ==> control.endpointUrl == url
    {
      StepsUnfold(start, steps, ChangeEndpoint(url));
      accepted := control.SetEndpoint(url);
      steps := steps + [ChangeEndpoint(url)];
    }

    method ConnectTask()
      requires Valid()
      modifies this, control
      ensures Valid() && steps == old(steps) + [TaskConnects]
    {
      StepsUnfold(start, steps, TaskConnects);
      control.CopyEndpoint();
      steps := steps + [TaskConnects];
    }

    /** A session that goes on has the endpoint that is configured now, whatever happened before. */
    method IterateTask() returns (running: bool)
      requires Valid()
      modifies this, control
      ensures Valid() && steps == old(steps) + [TaskIterates]
      ensures running ==> control.session == Connected(control.endpointUrl) && !control.pauseRequested
    {
      StepsUnfold(start, steps, TaskIterates);
      control.CheckSession();
      running := control.session.Connected?;
      steps := steps + [TaskIterates];
    }

    /** When no event is on its way, the client is paused for sleep, for settings, or because some
        resume of the history came too early; and for nothing else but the first two when the events
        have been posted in order. */
    method IsPaused() returns (paused: bool)
      requires Valid()
      ensures paused == control.pauseRequested
      ensures pending == [] && queue == [] && |steps| <= 0xFFFF_FFFF ==>
                (paused <==> sleep.sleeping || settingsOpen || SomeTooEarly(start, steps))
      ensures pending == [] && queue == [] && AllInOrder(steps) ==> (paused <==> sleep.sleeping || settingsOpen)
    {
      paused := control.pauseRequested;
      if |steps| <= 0xFFFF_FFFF {
        SettledDepth(start, steps);
      }
      if AllInOrder(steps) {
        OrderedPauseIsRight(start, steps);
      }
    }
  }
}
