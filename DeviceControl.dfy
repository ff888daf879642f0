/** The actuator state machine of the automation: opening and closing the trap
    valve, starting and stopping the flow, polling the camera until enough
    traps are filled, and the experiment loop that repeats one fixed cycle of
    these steps until it is stopped.

    Every call into the microscope (pumps, stage, configuration groups, camera,
    acquisition, live mode, log and sleep) is an entry appended to the trace of
    a `Core` object.  The environment is fixed up front: the set of trace
    positions whose call throws, the particle counts the camera's successive
    images yield (asking past the last one throws), and, for each sleep, whether
    the user asks to stop during it.  The atomics of the source are plain
    fields of a single-threaded model. */
module DeviceControl {

  import Settings

  /** The fixed texts the core logs, or wraps exceptions with; Text gives
      each one's wording. */
  datatype Message =
    | NoValveToOpen
    | NoValveToClose
    | NoFlowController
    | StoppingFlow
    | OpenTrapFailed
    | CloseTrapFailed
    | StartFlowFailed
    | StopFlowFailed
    | MoveStageFailed
    | ExperimentFailed

  function Text(m: Message): string
  {
    match m
    case NoValveToOpen => "Cannot open trap, as no flow controller is set!"
    case NoValveToClose => "Cannot close trap, as no flow controller is set!"
    case NoFlowController => "Cannot start flow, as no flow controller is set!"
    case StoppingFlow => "Stopping flow"
    case OpenTrapFailed => "Error occurred while opening the trap"
    case CloseTrapFailed => "Error occurred while closing the trap"
    case StartFlowFailed => "Error occurred while starting the flow"
    case StopFlowFailed => "Error occurred while stopping the flow"
    case MoveStageFailed => "Error occurred while moving the stage"
    case ExperimentFailed => "Error occurred during the automated experiments."
  }

  /** One call into the microscope. */
  datatype Command =
    | SetPumpPressureKPa(device: string, kPa: real)
    | SetPumpFlowrate(device: string, rate: real)
    | PumpDispenseVolumeUl(device: string, volume: real)
    | PumpStart(device: string)
    | VolumetricPumpStop(device: string)
    | SetXYPosition(x: real, y: real)
    | SetConfig(group: string, config: string)
    | GetImageWidth | GetImageHeight | GetImageBitDepth | GetLastImage
    | SetAcquisitionSettings | RunAcquisition | SetLiveModeOn(on: bool)
    | Sleep(seconds: nat)
    /** studio.core().logMessage */
    | CoreLog(message: Message)
    /** studio.getLogManager().logMessage, constant text */
    | Log(message: Message)
    /** "Starting flow: setting pressure of <device> to: <kPa>" or "Stopping flow: ..." */
    | LogPressure(starting: bool, device: string, kPa: real)
    /** "Starting flow with flowrate: <rate>" */
    | LogFlowrate(rate: real)
    /** studio.getLogManager().logError(e) */
    | LogError

  /** An exception: thrown by a device call, or wrapped with a message. */
  datatype Exception = DeviceFailure | Wrapped(message: Message, cause: Exception)

  datatype Status = Ok | Thrown(e: Exception)

  /** How one run of the experiment loop ends: `running` found false at the top
      of the loop, an exception caught and reported, or an exception raised
      while reporting one, which leaves the thread. */
  datatype Ending = Stopped | Recovered | Escaped(e: Exception)

  // ---------------------------------------------------------------------------
  // Commands and failures

  /** The calls issued when commands cmds are tried in order from trace
      position start: all of them, or up to and including the first that throws. */
  function Attempted(cmds: seq<Command>, start: nat, faults: set<nat>): (r: seq<Command>)
    ensures |r| <= |cmds| && r == cmds[..|r|]
    decreases |cmds|
  {
    if |cmds| == 0 then []
    else if start in faults then [cmds[0]]
    else [cmds[0]] + Attempted(cmds[1..], start + 1, faults)
  }

  /** None of the commands throws. */
  predicate Succeeds(cmds: seq<Command>, start: nat, faults: set<nat>)
  {
    forall k :: start <= k < start + |cmds| ==> k !in faults
  }

  /** The last call of trace t, issued at or after position start, threw. */
  predicate Threw(t: seq<Command>, start: nat, faults: set<nat>)
  {
    start < |t| && |t| - 1 in faults
  }

  /** All commands succeed when the first does and then all the rest. */
  lemma SucceedsCons(cmds: seq<Command>, start: nat, faults: set<nat>)
    requires |cmds| > 0
    ensures Succeeds(cmds, start, faults) <==> start !in faults && Succeeds(cmds[1..], start + 1, faults)
  {
  }

  /** When all commands succeed all are issued; otherwise the issued ones stop
      exactly at the first that throws. */
  lemma {:induction false} AttemptedStopsAtFault(cmds: seq<Command>, start: nat, faults: set<nat>)
    ensures Succeeds(cmds, start, faults) ==> Attempted(cmds, start, faults) == cmds
    ensures !Succeeds(cmds, start, faults) ==>
      var r := Attempted(cmds, start, faults);
      |r| > 0 && start + |r| - 1 in faults && forall k :: start <= k < start + |r| - 1 ==> k !in faults
    decreases |cmds|
  {
    if |cmds| > 0 && start !in faults {
      AttemptedStopsAtFault(cmds[1..], start + 1, faults);
    }
  }

  /** The calls openTrap makes on a closed trap. */
  function OpenTrapCommands(kind: Settings.DeviceKind, device: string, openValue: real, closedValue: real): seq<Command>
  {
    match kind
    case PressurePumpDevice => [SetPumpPressureKPa(device, openValue)]
    case VolumetricPumpDevice => [SetPumpFlowrate(device, -closedValue), PumpDispenseVolumeUl(device, openValue)]
    case OtherDevice => [CoreLog(NoValveToOpen)]
  }

  /** The calls closeTrap makes on an open trap. */
  function CloseTrapCommands(kind: Settings.DeviceKind, device: string, openValue: real, closedValue: real): seq<Command>
  {
    match kind
    case PressurePumpDevice => [SetPumpPressureKPa(device, closedValue)]
    case VolumetricPumpDevice => [SetPumpFlowrate(device, closedValue), PumpDispenseVolumeUl(device, openValue)]
    case OtherDevice => [CoreLog(NoValveToClose)]
  }

  /** Opening and closing act on the same device.  A pressure valve is set to
      the open or the closed pressure; a volumetric valve gets opposite flow
      rates and then the same dispensed volume. */
  lemma TrapCommandsMirror(kind: Settings.DeviceKind, device: string, openValue: real, closedValue: real)
    ensures var o := OpenTrapCommands(kind, device, openValue, closedValue);
            var c := CloseTrapCommands(kind, device, openValue, closedValue);
            && |o| == |c|
            && (kind == Settings.PressurePumpDevice ==>
                  o == [SetPumpPressureKPa(device, openValue)] && c == [SetPumpPressureKPa(device, closedValue)])
            && (kind == Settings.VolumetricPumpDevice ==>
                  o[0].rate == -c[0].rate == -closedValue && o[1] == c[1] == PumpDispenseVolumeUl(device, openValue))
  {
  }

  /** The calls startFlow makes when the flow is stopped. */
  function StartFlowCommands(kind: Settings.DeviceKind, device: string, active: real): seq<Command>
  {
    match kind
    case PressurePumpDevice => [LogPressure(true, device, active), SetPumpPressureKPa(device, active)]
    case VolumetricPumpDevice => [LogFlowrate(active), SetPumpFlowrate(device, active), PumpStart(device)]
    case OtherDevice => [CoreLog(NoFlowController)]
  }

  /** The calls stopFlow makes when the flow runs.  The unknown-device message
      is the one startFlow uses. */
  function StopFlowCommands(kind: Settings.DeviceKind, device: string, inactive: real): seq<Command>
  {
    match kind
    case PressurePumpDevice => [LogPressure(false, device, inactive), SetPumpPressureKPa(device, inactive)]
    case VolumetricPumpDevice => [Log(StoppingFlow), VolumetricPumpStop(device)]
    case OtherDevice => [CoreLog(NoFlowController)]
  }

  /** The trace of n polls of the camera. */
  function Polls(n: nat): (r: seq<Command>)
    ensures |r| == 2 * n
  {
    if n == 0 then [] else Polls(n - 1) + [GetLastImage, Sleep(1)]
  }

  /** Poll m, for each m < n, is a getLastImage followed by a one-second sleep. */
  lemma {:induction false} PollsShape(n: nat)
    ensures forall m :: 0 <= m < n ==> Polls(n)[2 * m] == GetLastImage && Polls(n)[2 * m + 1] == Sleep(1)
  {
    if n > 0 {
      PollsShape(n - 1);
      assert Polls(n) == Polls(n - 1) + [GetLastImage, Sleep(1)];
    }
  }

  /** The trace after n polls, from the trace t before them, built the way
      the polls append to it. */
  function AfterPolls(t: seq<Command>, n: nat): (r: seq<Command>)
    ensures |r| == |t| + 2 * n
  {
    if n == 0 then t else AfterPolls(t, n - 1) + [GetLastImage, Sleep(1)]
  }

  /** The polls append Polls(n) to the trace. */
  lemma {:induction false} AfterPollsAppends(t: seq<Command>, n: nat)
    ensures AfterPolls(t, n) == t + Polls(n)
  {
    if n > 0 {
      AfterPollsAppends(t, n - 1);
      assert t + Polls(n - 1) + [GetLastImage, Sleep(1)] == t + (Polls(n - 1) + [GetLastImage, Sleep(1)]);
    }
  }

  /** Fewer polls leave a prefix of the trace of more. */
  lemma {:induction false} AfterPollsPrefix(t: seq<Command>, k: nat, n: nat)
    requires k <= n
    ensures AfterPolls(t, k) <= AfterPolls(t, n)
    decreases n
  {
    if k < n {
      AfterPollsPrefix(t, k, n - 1);
    }
  }

  /** A trace that broke off within poll k + 1 is a prefix of n > k polls. */
  lemma PollBrokeOff(t: seq<Command>, u: seq<Command>, k: nat, n: nat)
    requires k < n && u <= AfterPolls(t, k) + [GetLastImage, Sleep(1)]
    ensures u <= AfterPolls(t, n)
  {
    AfterPollsPrefix(t, k + 1, n);
  }

  /** After the geometry, a run of polls that ended or broke off within the
      next poll extends the trace before it and is within one more poll. */
  lemma WaitTrace(t: seq<Command>, u: seq<Command>, n: nat)
    requires u == AfterPolls(t + Geometry, n) || u == AfterPolls(t + Geometry, n) + [GetLastImage]
    ensures t <= u <= AfterPolls(t + Geometry, n + 1)
  {
    AfterPollsPrefix(t + Geometry, 0, n);
    PollBrokeOff(t + Geometry, u, n, n + 1);
  }

  // ---------------------------------------------------------------------------
  // The calls of one cycle

  /* Each function below gives the trace after one part of runFullAnalysis'
     loop has run without an exception, from the trace t before it, the
     configuration c, the pump values d, and whether the trap is closed
     and the flow on when the part begins.  closeTrap, openTrap, startFlow and
     stopFlow add nothing when the trap or the flow is already where they
     would put it. */

  /** The parameter values the valve and flow calls send to the pumps. */
  datatype Drive = Drive(open: real, closed: real, active: real, inactive: real)

  function DriveOf(v: Settings.Values): Drive
  {
    Drive(v.valveOpenValue, v.valveClosedValue, v.flowActiveValue, v.flowInactiveValue)
  }

  /** openTrap. */
  function AfterOpen(t: seq<Command>, c: Settings.Setup, d: Drive, closed: bool): seq<Command>
  {
    if closed then t + OpenTrapCommands(c.valveType, c.valveController, d.open, d.closed)
    else t
  }

  /** closeTrap. */
  function AfterClose(t: seq<Command>, c: Settings.Setup, d: Drive, closed: bool): seq<Command>
  {
    if closed then t
    else t + CloseTrapCommands(c.valveType, c.valveController, d.open, d.closed)
  }

  /** startFlow. */
  function AfterStart(t: seq<Command>, c: Settings.Setup, d: Drive, flowing: bool): seq<Command>
  {
    if flowing then t else t + StartFlowCommands(c.flowType, c.flowController, d.active)
  }

  /** stopFlow. */
  function AfterStop(t: seq<Command>, c: Settings.Setup, d: Drive, flowing: bool): seq<Command>
  {
    if flowing then t + StopFlowCommands(c.flowType, c.flowController, d.inactive) else t
  }

  /** setPosition(overview), setConfig(trap), closeTrap, startFlow. */
  function AfterPrepare(t: seq<Command>, c: Settings.Setup, d: Drive, closed: bool, flowing: bool): seq<Command>
  {
    AfterStart(AfterClose(t + [SetXYPosition(c.overviewX, c.overviewY)] + [SetConfig(c.currGroup, c.trapConfig)],
                          c, d, closed), c, d, flowing)
  }

  /** waitForParticles' three reads of the image geometry. */
  const Geometry: seq<Command> := [GetImageWidth, GetImageHeight, GetImageBitDepth]

  /** waitForParticles with its polls of the camera, stopFlow. */
  function AfterCollect(t: seq<Command>, c: Settings.Setup, d: Drive, flowing: bool, polls: nat): seq<Command>
  {
    AfterStop(AfterPolls(t + Geometry, polls), c, d, flowing)
  }

  /** Live mode off, the acquisition, live mode on, one second's sleep. */
  function AfterAcquisition(t: seq<Command>): seq<Command>
  {
    t + [SetLiveModeOn(false)] + [RunAcquisition] + [SetLiveModeOn(true)] + [Sleep(1)]
  }

  /** openTrap, startFlow, setConfig(release), ten seconds' sleep. */
  function AfterFlush(t: seq<Command>, c: Settings.Setup, d: Drive, closed: bool, flowing: bool): seq<Command>
  {
    AfterStart(AfterOpen(t, c, d, closed), c, d, flowing) + [SetConfig(c.currGroup, c.releaseConfig)] + [Sleep(10)]
  }

  /** The first half of a cycle, which leaves the trap closed and the flow off. */
  function AfterCapture(t: seq<Command>, c: Settings.Setup, d: Drive, closed: bool, flowing: bool,
                        polls: nat): seq<Command>
  {
    AfterCollect(AfterPrepare(t, c, d, closed, flowing), c, d, true, polls)
  }

  /** The second half of a cycle. */
  function AfterRelease(t: seq<Command>, c: Settings.Setup, d: Drive, closed: bool, flowing: bool): seq<Command>
  {
    AfterFlush(AfterAcquisition(t), c, d, closed, flowing)
  }

  /** One whole cycle: the second half starts where the first left the trap
      and the flow. */
  function AfterCycle(t: seq<Command>, c: Settings.Setup, d: Drive, closed: bool, flowing: bool,
                      polls: nat): seq<Command>
  {
    AfterRelease(AfterCapture(t, c, d, closed, flowing, polls), c, d, true, false)
  }

  /** Whole cycles, one per entry of polls: each cycle after the first starts
      with the trap open and the flow on, as a cycle leaves them. */
  function AfterCycles(t: seq<Command>, c: Settings.Setup, d: Drive, closed: bool, flowing: bool,
                       polls: seq<nat>): seq<Command>
    decreases |polls|
  {
    if |polls| == 0 then t
    else AfterCycles(AfterCycle(t, c, d, closed, flowing, polls[0]), c, d, false, true, polls[1..])
  }

  /** The sleeps of whole cycles, one per entry of polls: one per poll, then
      the acquisition's and the flush's. */
  function SleepsOf(polls: seq<nat>): nat
    decreases |polls|
  {
    if |polls| == 0 then 0 else SleepsOf(polls[..|polls| - 1]) + polls[|polls| - 1] + 2
  }

  /** One more cycle extends the trace of the cycles before it; it starts
      from the given state only when it is the first. */
  lemma {:induction false} AfterCyclesSnoc(t: seq<Command>, c: Settings.Setup, d: Drive,
                                           closed: bool, flowing: bool, polls: seq<nat>, n: nat)
    ensures AfterCycles(t, c, d, closed, flowing, polls + [n]) ==
      if |polls| == 0 then AfterCycle(t, c, d, closed, flowing, n)
      else AfterCycle(AfterCycles(t, c, d, closed, flowing, polls), c, d, false, true, n)
    decreases |polls|
  {
    if |polls| == 0 {
      assert polls + [n] == [n];
    } else {
      assert (polls + [n])[0] == polls[0] && (polls + [n])[1..] == polls[1..] + [n];
      AfterCyclesSnoc(AfterCycle(t, c, d, closed, flowing, polls[0]), c, d, false, true, polls[1..], n);
    }
  }

  /** Within the parts of a cycle, each call only appends to the trace. */
  lemma StepsExtend(t: seq<Command>, c: Settings.Setup, d: Drive, closed: bool, flowing: bool, polls: nat)
    ensures AfterOpen(t, c, d, closed) <= AfterStart(AfterOpen(t, c, d, closed), c, d, flowing)
            <= AfterFlush(t, c, d, closed, flowing)
    ensures t <= AfterPolls(t + Geometry, polls) <= AfterCollect(t, c, d, flowing, polls)
  {
    AfterPollsPrefix(t + Geometry, 0, polls);
  }

  /** The first half of a cycle only appends to the trace. */
  lemma CaptureExtends(t: seq<Command>, c: Settings.Setup, d: Drive, closed: bool, flowing: bool, polls: nat)
    ensures t <= AfterPrepare(t, c, d, closed, flowing) <= AfterCapture(t, c, d, closed, flowing, polls)
  {
    AfterPollsPrefix(AfterPrepare(t, c, d, closed, flowing) + Geometry, 0, polls);
  }

  /** The second half of a cycle only appends to the trace. */
  lemma ReleaseExtends(t: seq<Command>, c: Settings.Setup, d: Drive, closed: bool, flowing: bool)
    ensures t <= AfterAcquisition(t) <= AfterRelease(t, c, d, closed, flowing)
  {
  }

  /** A whole cycle only appends to the trace. */
  lemma CycleExtends(t: seq<Command>, c: Settings.Setup, d: Drive, closed: bool, flowing: bool, polls: nat)
    ensures t <= AfterCycle(t, c, d, closed, flowing, polls)
  {
    CaptureExtends(t, c, d, closed, flowing, polls);
    ReleaseExtends(AfterCapture(t, c, d, closed, flowing, polls), c, d, true, false);
  }

  /** A cycle from the state another cycle leaves, written out: the twelve
      steps in the source's order, with the trap closed from an open state and
      reopened at the end, and the flow stopped once and restarted once. */
  lemma SteadyCycle(t: seq<Command>, c: Settings.Setup, d: Drive, polls: nat)
    ensures AfterCycle(t, c, d, false, true, polls) == t
      + [SetXYPosition(c.overviewX, c.overviewY), SetConfig(c.currGroup, c.trapConfig)]
      + CloseTrapCommands(c.valveType, c.valveController, d.open, d.closed)
      + Geometry + Polls(polls)
      + StopFlowCommands(c.flowType, c.flowController, d.inactive)
      + [SetLiveModeOn(false), RunAcquisition, SetLiveModeOn(true), Sleep(1)]
      + OpenTrapCommands(c.valveType, c.valveController, d.open, d.closed)
      + StartFlowCommands(c.flowType, c.flowController, d.active)
      + [SetConfig(c.currGroup, c.releaseConfig), Sleep(10)]
  {
    var prepared := t + [SetXYPosition(c.overviewX, c.overviewY), SetConfig(c.currGroup, c.trapConfig)]
      + CloseTrapCommands(c.valveType, c.valveController, d.open, d.closed);
    assert AfterPrepare(t, c, d, false, true) == prepared;
    AfterPollsAppends(prepared + Geometry, polls);
    var captured := prepared + Geometry + Polls(polls) + StopFlowCommands(c.flowType, c.flowController, d.inactive);
    assert AfterCapture(t, c, d, false, true, polls) == captured;
  }

  /** The calls of a cycle read only pump values that a run leaves alone. */
  lemma RunKeepsDrive(v: Settings.Values, w: Settings.Values)
    requires RunEffects(v, w)
    ensures DriveOf(v) == DriveOf(w)
  {
  }

  // ---------------------------------------------------------------------------
  // Effects on the settings

  /** Only isRunning and trapsFilled change, and isRunning only to 0. */
  predicate RunEffects(v0: Settings.Values, v1: Settings.Values)
  {
    v1 == v0.(isRunning := v1.isRunning, trapsFilled := v1.trapsFilled)
    && (v1.isRunning == v0.isRunning || v1.isRunning == 0.0)
  }

  /** The effects of two parts of a run are those of a run. */
  lemma RunEffectsCompose(u: Settings.Values, v: Settings.Values, w: Settings.Values)
    requires RunEffects(u, v) && RunEffects(v, w)
    ensures RunEffects(u, w)
  {
  }

  /** The events announced between two states all publish isRunning = 0. */
  ghost predicate OnlyStops(e0: seq<Settings.Delivery>, e1: seq<Settings.Delivery>)
  {
    e0 <= e1 &&
    forall k :: |e0| <= k < |e1| ==> e1[k].event.property == Settings.PropertyName(Settings.IsRunning) && e1[k].event.newValue == 0.0
  }

  // ---------------------------------------------------------------------------
  // The microscope

  class Core {
    var trace: seq<Command>
    const faults: set<nat>
    const frames: seq<int>
    var frame: nat

    constructor (faults: set<nat>, frames: seq<int>)
      ensures trace == [] && this.faults == faults && this.frames == frames && frame == 0
    {
      trace := [];
      this.faults := faults;
      this.frames := frames;
      frame := 0;
    }

    /** Issue one call; it throws when its trace position is a fault. */
    method Issue(c: Command) returns (ok: bool)
      modifies this`trace
      ensures trace == old(trace) + [c]
      ensures ok == (|old(trace)| !in faults)
    {
      ok := |trace| !in faults;
      trace := trace + [c];
    }

    /** Statements issuing cmds one after another: the first one that throws
        ends the sequence. */
    method IssueAll(cmds: seq<Command>) returns (ok: bool)
      modifies this`trace
      ensures trace == old(trace) + Attempted(cmds, |old(trace)|, faults)
      ensures ok == Succeeds(cmds, |old(trace)|, faults)
      decreases |cmds|
    {
      if |cmds| == 0 {
        return true;
      }
      ghost var start := |trace|;
      SucceedsCons(cmds, start, faults);
      ok := Issue(cmds[0]);
      if !ok {
        assert Attempted(cmds, start, faults) == [cmds[0]];
        return;
      }
      ok := IssueAll(cmds[1..]);
      assert Attempted(cmds, start, faults) == [cmds[0]] + Attempted(cmds[1..], start + 1, faults);
    }

    /** getLastImage, analysed: the particle count of the next image. */
    method LastImage() returns (ok: bool, count: int)
      modifies this`trace, this`frame
      ensures trace == old(trace) + [GetLastImage]
      ensures ok == (|old(trace)| !in faults && old(frame) < |frames|)
      ensures ok ==> count == frames[old(frame)] && frame == old(frame) + 1
      ensures !ok ==> frame == old(frame)
    {
      ok := |trace| !in faults && frame < |frames|;
      trace := trace + [GetLastImage];
      count := 0;
      if ok {
        count := frames[frame];
        frame := frame + 1;
      }
    }
  }

  // ---------------------------------------------------------------------------
  // DeviceControl

  class DeviceControl {
    const settings: Settings.Settings
    const core: Core
    /** For each sleep, whether the user asks to stop during it. */
    const stops: seq<bool>
    var isClosed: bool
    var isFlowing: bool
    var running: bool
    /** The number of sleeps so far. */
    var sleeps: nat

    constructor (settings: Settings.Settings, core: Core, stops: seq<bool>)
      ensures this.settings == settings && this.core == core && this.stops == stops
      ensures !isClosed && !isFlowing && !running && sleeps == 0
    {
      this.settings := settings;
      this.core := core;
      this.stops := stops;
      isClosed := false;
      isFlowing := false;
      running := false;
      sleeps := 0;
    }

    /** A stop is requested during sleep k. */
    predicate StopAt(k: nat)
    {
      k < |stops| && stops[k]
    }

    /** No stop is requested during sleeps a up to, not including, b. */
    ghost predicate NoStop(a: nat, b: nat)
    {
      forall k :: a <= k < b ==> !StopAt(k)
    }

    /** Sleeps without a stop split at any point between them. */
    lemma NoStopSplit(a: nat, b: nat, c: nat)
      requires a <= b <= c
      ensures NoStop(a, c) == (NoStop(a, b) && NoStop(b, c))
    {
    }

    /** From sleep s0, the whole cycles of polls ran, and the cycle after
        them began, with no stop requested; s1 sleeps have passed since. */
    ghost predicate Began(s0: nat, polls: seq<nat>, s1: nat)
    {
      s0 + SleepsOf(polls) <= s1 && NoStop(s0, s0 + SleepsOf(polls))
    }

    /** From sleep s0, the whole cycles of polls ran up to sleep s1; the last
        of them began with no stop requested, and one was requested during it. */
    ghost predicate StoppedIn(s0: nat, polls: seq<nat>, s1: nat)
    {
      && |polls| > 0 && s1 == s0 + SleepsOf(polls)
      && var last := s0 + SleepsOf(polls[..|polls| - 1]);
         NoStop(s0, last) && !NoStop(last, s1)
    }

    /** A loop that ended stopped saw a stop requested during its last cycle,
        so a run in which no stop is ever requested never ends stopped. */
    lemma StoppedInRequested(s0: nat, polls: seq<nat>, s1: nat)
      requires StoppedIn(s0, polls, s1)
      ensures exists k :: s0 + SleepsOf(polls[..|polls| - 1]) <= k < s1 && StopAt(k)
      ensures !NoStop(s0, s1)
    {
      NoStopSplit(s0, s0 + SleepsOf(polls[..|polls| - 1]), s1);
    }

    /** The loop of runFullAnalysis between cycles: from sleep s0, the whole
        cycles of polls ran up to sleep s1, each begun with no stop requested,
        and it still runs exactly when no stop has been requested since s0. */
    ghost predicate Cycling(s0: nat, polls: seq<nat>, s1: nat, running: bool)
    {
      && s1 == s0 + SleepsOf(polls)
      && running == NoStop(s0, s1)
      && (|polls| > 0 ==> NoStop(s0, s0 + SleepsOf(polls[..|polls| - 1])))
    }

    /** A whole cycle begun while running keeps the loop going exactly when no
        stop is requested during it. */
    lemma CycleDone(s0: nat, polls: seq<nat>, n: nat, s1: nat, s2: nat)
      requires Cycling(s0, polls, s1, true) && s2 == s1 + n + 2
      ensures Cycling(s0, polls + [n], s2, NoStop(s1, s2))
    {
      assert (polls + [n])[..|polls|] == polls;
      NoStopSplit(s0, s1, s2);
    }

    /** A cycle that throws was begun while running. */
    lemma CycleBroke(s0: nat, polls: seq<nat>, s1: nat, s2: nat)
      requires Cycling(s0, polls, s1, true) && s1 <= s2
      ensures Began(s0, polls, s2)
    {
    }

    /** The loop ended by a stop during its last whole cycle. */
    lemma CyclesStopped(s0: nat, polls: seq<nat>, s1: nat)
      requires Cycling(s0, polls, s1, false)
      ensures StoppedIn(s0, polls, s1)
    {
      if |polls| > 0 {
        NoStopSplit(s0, s0 + SleepsOf(polls[..|polls| - 1]), s1);
      }
    }

    /** openTrap: only a closed trap is opened. */
    method OpenTrap() returns (status: Status)
      modifies this`isClosed, core`trace
      ensures isFlowing == old(isFlowing) && running == old(running)
      ensures old(core.trace) <= core.trace
      ensures !old(isClosed) ==> status == Ok && !isClosed && core.trace == old(core.trace)
      ensures old(isClosed) ==>
        var cmds := OpenTrapCommands(settings.valveType, settings.valveController,
                                     settings.valveOpenValue, settings.valveClosedValue);
        && core.trace == old(core.trace) + Attempted(cmds, |old(core.trace)|, core.faults)
        && (status == Ok <==> Succeeds(cmds, |old(core.trace)|, core.faults))
        && isClosed == (status != Ok)
        && (status != Ok ==> status == Thrown(Wrapped(OpenTrapFailed, DeviceFailure)))
      ensures status == Ok ==> core.trace == AfterOpen(old(core.trace), settings.Configuration(), DriveOf(settings.Parameters()), old(isClosed))
      ensures status != Ok ==>
        core.trace <= AfterOpen(old(core.trace), settings.Configuration(), DriveOf(settings.Parameters()), old(isClosed)) && Threw(core.trace, |old(core.trace)|, core.faults)
    {
      if !isClosed {
        return Ok;
      }
      ghost var s0 := |core.trace|;
      var ok := core.IssueAll(OpenTrapCommands(settings.valveType, settings.valveController,
                                               settings.valveOpenValue, settings.valveClosedValue));
      AttemptedStopsAtFault(OpenTrapCommands(settings.valveType, settings.valveController,
                            settings.valveOpenValue, settings.valveClosedValue), s0, core.faults);
      if !ok {
        return Thrown(Wrapped(OpenTrapFailed, DeviceFailure));
      }
      isClosed := false;
      status := Ok;
    }

    /** closeTrap: only an open trap is closed. */
    method CloseTrap() returns (status: Status)
      modifies this`isClosed, core`trace
      ensures isFlowing == old(isFlowing) && running == old(running)
      ensures old(core.trace) <= core.trace
      ensures old(isClosed) ==> status == Ok && isClosed && core.trace == old(core.trace)
      ensures !old(isClosed) ==>
        var cmds := CloseTrapCommands(settings.valveType, settings.valveController,
                                      settings.valveOpenValue, settings.valveClosedValue);
        && core.trace == old(core.trace) + Attempted(cmds, |old(core.trace)|, core.faults)
        && (status == Ok <==> Succeeds(cmds, |old(core.trace)|, core.faults))
        && isClosed == (status == Ok)
        && (status != Ok ==> status == Thrown(Wrapped(CloseTrapFailed, DeviceFailure)))
      ensures status == Ok ==> core.trace == AfterClose(old(core.trace), settings.Configuration(), DriveOf(settings.Parameters()), old(isClosed))
      ensures status != Ok ==>
        core.trace <= AfterClose(old(core.trace), settings.Configuration(), DriveOf(settings.Parameters()), old(isClosed)) && Threw(core.trace, |old(core.trace)|, core.faults)
    {
      if isClosed {
        return Ok;
      }
      ghost var s0 := |core.trace|;
      var ok := core.IssueAll(CloseTrapCommands(settings.valveType, settings.valveController,
                                                settings.valveOpenValue, settings.valveClosedValue));
      AttemptedStopsAtFault(CloseTrapCommands(settings.valveType, settings.valveController,
                             settings.valveOpenValue, settings.valveClosedValue), s0, core.faults);
      if !ok {
        return Thrown(Wrapped(CloseTrapFailed, DeviceFailure));
      }
      isClosed := true;
      status := Ok;
    }

    /** isClosed() */
    function IsClosed(): bool
      reads this
    {
      isClosed
    }

    /** isFlowing() */
    function IsFlowing(): bool
      reads this
    {
      isFlowing
    }

    /** startFlow: only a stopped flow is started. */
    method StartFlow() returns (status: Status)
      modifies this`isFlowing, core`trace
      ensures isClosed == old(isClosed) && running == old(running)
      ensures old(core.trace) <= core.trace
      ensures old(isFlowing) ==> status == Ok && isFlowing && core.trace == old(core.trace)
      ensures !old(isFlowing) ==>
        var cmds := StartFlowCommands(settings.flowType, settings.flowController, settings.flowActiveValue);
        && core.trace == old(core.trace) + Attempted(cmds, |old(core.trace)|, core.faults)
        && (status == Ok <==> Succeeds(cmds, |old(core.trace)|, core.faults))
        && isFlowing == (status == Ok)
        && (status != Ok ==> status == Thrown(Wrapped(StartFlowFailed, DeviceFailure)))
      ensures status == Ok ==> core.trace == AfterStart(old(core.trace), settings.Configuration(), DriveOf(settings.Parameters()), old(isFlowing))
      ensures status != Ok ==>
        core.trace <= AfterStart(old(core.trace), settings.Configuration(), DriveOf(settings.Parameters()), old(isFlowing)) && Threw(core.trace, |old(core.trace)|, core.faults)
    {
      if isFlowing {
        return Ok;
      }
      ghost var s0 := |core.trace|;
      var ok := core.IssueAll(StartFlowCommands(settings.flowType, settings.flowController, settings.flowActiveValue));
      AttemptedStopsAtFault(StartFlowCommands(settings.flowType, settings.flowController,
                            settings.flowActiveValue), s0, core.faults);
      if !ok {
        return Thrown(Wrapped(StartFlowFailed, DeviceFailure));
      }
      isFlowing := true;
      status := Ok;
    }

    /** stopFlow: only a running flow is stopped. */
    method StopFlow() returns (status: Status)
      modifies this`isFlowing, core`trace
      ensures isClosed == old(isClosed) && running == old(running)
      ensures old(core.trace) <= core.trace
      ensures !old(isFlowing) ==> status == Ok && !isFlowing && core.trace == old(core.trace)
      ensures old(isFlowing) ==>
        var cmds := StopFlowCommands(settings.flowType, settings.flowController, settings.flowInactiveValue);
        && core.trace == old(core.trace) + Attempted(cmds, |old(core.trace)|, core.faults)
        && (status == Ok <==> Succeeds(cmds, |old(core.trace)|, core.faults))
        && isFlowing == (status != Ok)
        && (status != Ok ==> status == Thrown(Wrapped(StopFlowFailed, DeviceFailure)))
      ensures status == Ok ==> core.trace == AfterStop(old(core.trace), settings.Configuration(), DriveOf(settings.Parameters()), old(isFlowing))
      ensures status != Ok ==>
        core.trace <= AfterStop(old(core.trace), settings.Configuration(), DriveOf(settings.Parameters()), old(isFlowing)) && Threw(core.trace, |old(core.trace)|, core.faults)
    {
      if !isFlowing {
        return Ok;
      }
      ghost var s0 := |core.trace|;
      var ok := core.IssueAll(StopFlowCommands(settings.flowType, settings.flowController, settings.flowInactiveValue));
      AttemptedStopsAtFault(StopFlowCommands(settings.flowType, settings.flowController,
                            settings.flowInactiveValue), s0, core.faults);
      if !ok {
        return Thrown(Wrapped(StopFlowFailed, DeviceFailure));
      }
      isFlowing := false;
      status := Ok;
    }

    /** setPosition(x, y) */
    method SetPosition(x: real, y: real) returns (status: Status)
      modifies core`trace
      ensures core.trace == old(core.trace) + [SetXYPosition(x, y)]
      ensures status == if |old(core.trace)| in core.faults
                        then Thrown(Wrapped(MoveStageFailed, DeviceFailure)) else Ok
    {
      var ok := core.Issue(SetXYPosition(x, y));
      status := if ok then Ok else Thrown(Wrapped(MoveStageFailed, DeviceFailure));
    }

    /** stopAutomation: acts only while the automation runs, and publishes
        isRunning = 0 through setParameter. */
    method StopAutomation()
      modifies this`running, settings
      ensures !old(running) ==> !running && unchanged(settings)
      ensures old(running) ==> !running
      ensures old(running) ==>
        settings.Parameters() == Settings.Assign(old(settings.Parameters()), Settings.IsRunning, 0.0)
      ensures old(running) ==>
        settings.events == old(settings.events)
          + Settings.Announced(old(settings.Parameters()), Settings.IsRunning, 0.0, settings.listeners)
      ensures settings.Configuration() == old(settings.Configuration())
      ensures settings.listeners == old(settings.listeners) && settings.messages == old(settings.messages)
    {
      if running {
        running := false;
        settings.SetParameter(Settings.IsRunning, 0.0);
      }
    }

    /** TimeUnit.SECONDS.sleep(seconds), during which the user may ask to stop:
        a stop while running is stopAutomation, publishing isRunning = 0. */
    method Pause(seconds: nat) returns (status: Status)
      modifies this`running, this`sleeps, core`trace, settings
      ensures core.trace == old(core.trace) + [Sleep(seconds)]
      ensures status == if |old(core.trace)| in core.faults then Thrown(DeviceFailure) else Ok
      ensures sleeps == old(sleeps) + 1
      ensures running == (old(running) && !StopAt(old(sleeps)))
      ensures running == (old(running) && NoStop(old(sleeps), sleeps)) && old(sleeps) <= sleeps
      ensures old(running) && StopAt(old(sleeps)) ==>
        && settings.Parameters() == Settings.Assign(old(settings.Parameters()), Settings.IsRunning, 0.0)
        && settings.events == old(settings.events)
             + Settings.Announced(old(settings.Parameters()), Settings.IsRunning, 0.0, settings.listeners)
      ensures !(old(running) && StopAt(old(sleeps))) ==>
        settings.Parameters() == old(settings.Parameters()) && settings.events == old(settings.events)
      ensures settings.Configuration() == old(settings.Configuration())
      ensures settings.listeners == old(settings.listeners) && settings.messages == old(settings.messages)
      ensures RunEffects(old(settings.Parameters()), settings.Parameters())
      ensures OnlyStops(old(settings.events), settings.events)
      ensures old(running) && !running ==> settings.isRunning == 0.0
    {
      var ok := core.Issue(Sleep(seconds));
      if StopAt(sleeps) {
        StopAutomation();
      }
      sleeps := sleeps + 1;
      status := if ok then Ok else Thrown(DeviceFailure);
    }

    /** Each count read from frame f0 up to, not including, the last read frame
        f1 - 1 was below the trigger, while running and with no stop asked
        during the sleep after it. */
    ghost predicate KeptWaiting(f0: nat, f1: nat, s0: nat, wasRunning: bool, trigger: real)
    {
      f1 <= |core.frames| &&
      forall m :: f0 <= m < f1 - 1 ==>
        core.frames[m] as real < trigger && wasRunning && !StopAt(s0 + m - f0)
    }

    /** One round of waitForParticles' loop: count, store, sleep. */
    method Poll() returns (status: Status)
      modifies this`running, this`sleeps, core`trace, core`frame, settings
      ensures status == Ok ==>
        && old(core.frame) < |core.frames| && core.frame == old(core.frame) + 1
        && settings.trapsFilled == core.frames[old(core.frame)]
        && core.trace == old(core.trace) + [GetLastImage, Sleep(1)]
        && sleeps == old(sleeps) + 1
        && running == (old(running) && !StopAt(old(sleeps)))
      ensures status != Ok ==>
        || (core.frame == old(core.frame) && core.trace == old(core.trace) + [GetLastImage])
        || (core.frame == old(core.frame) + 1 && core.trace == old(core.trace) + [GetLastImage, Sleep(1)])
      ensures core.frame == old(core.frame) || (old(core.frame) < |core.frames| && core.frame == old(core.frame) + 1)
      ensures running ==> old(running)
      ensures running == (old(running) && NoStop(old(sleeps), sleeps)) && old(sleeps) <= sleeps
      ensures settings.Configuration() == old(settings.Configuration())
      ensures settings.listeners == old(settings.listeners) && settings.messages == old(settings.messages)
      ensures RunEffects(old(settings.Parameters()), settings.Parameters())
      ensures OnlyStops(old(settings.events), settings.events)
      ensures old(running) && !running ==> settings.isRunning == 0.0
    {
      var ok, count := core.LastImage();
      if !ok {
        return Thrown(DeviceFailure);
      }
      settings.trapsFilled := count;
      status := Pause(1);
    }

    /** waitForParticles: read the image geometry, then poll at least once,
        storing each count, until the count reaches the trigger or the
        automation is stopped.  A failure breaks off the calls within the
        next poll. */
    method WaitForParticles() returns (status: Status)
      requires core.frame <= |core.frames|
      modifies this`running, this`sleeps, core`trace, core`frame, settings
      ensures status == Ok ==>
        && old(core.frame) < core.frame <= |core.frames|
        && settings.trapsFilled == core.frames[core.frame - 1]
        && (settings.trapsFilled as real >= settings.triggerValue || !running)
      ensures status == Ok ==>
        core.trace == AfterPolls(old(core.trace) + Geometry, core.frame - old(core.frame))
      ensures old(core.frame) <= core.frame <= |core.frames| && (running ==> old(running))
      ensures status != Ok ==>
        core.trace <= AfterPolls(old(core.trace) + Geometry, core.frame - old(core.frame) + 1)
      ensures old(core.trace) <= core.trace
      ensures status == Ok ==>
        KeptWaiting(old(core.frame), core.frame, old(sleeps), old(running), settings.triggerValue)
      ensures status == Ok ==>
        sleeps == old(sleeps) + (core.frame - old(core.frame)) && running == (old(running) && !StopAt(sleeps - 1))
      ensures running == (old(running) && NoStop(old(sleeps), sleeps)) && old(sleeps) <= sleeps
      ensures settings.Configuration() == old(settings.Configuration())
      ensures settings.listeners == old(settings.listeners) && settings.messages == old(settings.messages)
      ensures RunEffects(old(settings.Parameters()), settings.Parameters())
      ensures OnlyStops(old(settings.events), settings.events)
      ensures old(running) && !running ==> settings.isRunning == 0.0
    {
      ghost var t0 := core.trace;
      var ok := core.IssueAll(Geometry);
      if !ok {
        assert core.trace <= t0 + Geometry <= AfterPolls(t0 + Geometry, 1);
        return Thrown(DeviceFailure);
      }
      AttemptedStopsAtFault(Geometry, |t0|, core.faults);
      assert core.frame == old(core.frame) && sleeps == old(sleeps) && running == old(running);
      status := PollUntilFilled();
      WaitTrace(t0, core.trace, core.frame - old(core.frame));
    }

    /** The do-while loop of waitForParticles. */
    method PollUntilFilled() returns (status: Status)
      requires core.frame <= |core.frames|
      modifies this`running, this`sleeps, core`trace, core`frame, settings
      ensures status == Ok ==>
        && old(core.frame) < core.frame <= |core.frames|
        && settings.trapsFilled == core.frames[core.frame - 1]
        && (settings.trapsFilled as real >= settings.triggerValue || !running)
        && core.trace == AfterPolls(old(core.trace), core.frame - old(core.frame))
      ensures old(core.frame) <= core.frame <= |core.frames| && (running ==> old(running))
      ensures status != Ok ==>
        var polled := AfterPolls(old(core.trace), core.frame - old(core.frame));
        core.trace == polled || core.trace == polled + [GetLastImage]
      ensures status == Ok ==>
        KeptWaiting(old(core.frame), core.frame, old(sleeps), old(running), settings.triggerValue)
      ensures status == Ok ==>
        sleeps == old(sleeps) + (core.frame - old(core.frame)) && running == (old(running) && !StopAt(sleeps - 1))
      ensures running == (old(running) && NoStop(old(sleeps), sleeps)) && old(sleeps) <= sleeps
      ensures settings.Configuration() == old(settings.Configuration())
      ensures settings.listeners == old(settings.listeners) && settings.messages == old(settings.messages)
      ensures RunEffects(old(settings.Parameters()), settings.Parameters())
      ensures OnlyStops(old(settings.events), settings.events)
      ensures old(running) && !running ==> settings.isRunning == 0.0
    {
      status := Poll();
      if status != Ok {
        return;
      }
      ghost var trigger := settings.triggerValue;
      while settings.trapsFilled as real < settings.triggerValue && running
        invariant old(core.frame) < core.frame <= |core.frames| && (running ==> old(running))
        invariant settings.trapsFilled == core.frames[core.frame - 1]
        invariant core.trace == AfterPolls(old(core.trace), core.frame - old(core.frame))
        invariant sleeps == old(sleeps) + (core.frame - old(core.frame))
        invariant running == (old(running) && !StopAt(sleeps - 1))
        invariant running == (old(running) && NoStop(old(sleeps), sleeps))
        invariant settings.triggerValue == trigger
        invariant KeptWaiting(old(core.frame), core.frame, old(sleeps), old(running), trigger)
        invariant settings.Configuration() == old(settings.Configuration())
        invariant settings.listeners == old(settings.listeners) && settings.messages == old(settings.messages)
        invariant RunEffects(old(settings.Parameters()), settings.Parameters())
        invariant OnlyStops(old(settings.events), settings.events)
        invariant old(running) && !running ==> settings.isRunning == 0.0
        decreases |core.frames| - core.frame
      {
        ghost var last := core.frame - 1;
        assert core.frames[last] as real < trigger && old(running)
            && !StopAt(old(sleeps) + last - old(core.frame));
        ghost var before := sleeps;
        status := Poll();
        NoStopSplit(old(sleeps), before, sleeps);
        if status != Ok {
          return;
        }
      }
    }

    /** One cycle of runFullAnalysis' loop.  On success it made every call of
        the cycle, whether or not a stop was asked while waiting, and left the
        trap open and the flow on; otherwise its calls broke off early. */
    method RunCycle() returns (status: Status, ghost polls: nat)
      requires core.frame <= |core.frames|
      modifies this`running, this`sleeps, this`isClosed, this`isFlowing, core`trace, core`frame, settings
      ensures status == Ok ==> sleeps == old(sleeps) + polls + 2
      ensures running == (old(running) && NoStop(old(sleeps), sleeps)) && old(sleeps) <= sleeps
      ensures var after := AfterCycle(old(core.trace), old(settings.Configuration()), DriveOf(old(settings.Parameters())),
                                      old(isClosed), old(isFlowing), polls);
        && (status == Ok ==> core.trace == after && !isClosed && isFlowing && polls == core.frame - old(core.frame) > 0)
        && (status != Ok ==> core.trace <= after)
      ensures old(core.trace) <= core.trace
      ensures old(core.frame) <= core.frame <= |core.frames| && (running ==> old(running))
      ensures settings.Configuration() == old(settings.Configuration())
      ensures settings.listeners == old(settings.listeners) && settings.messages == old(settings.messages)
      ensures RunEffects(old(settings.Parameters()), settings.Parameters())
      ensures OnlyStops(old(settings.events), settings.events)
      ensures old(running) && !running ==> settings.isRunning == 0.0
    {
      ghost var t0, c, v, closed, flowing := core.trace, settings.Configuration(), settings.Parameters(), isClosed, isFlowing;
      status, polls := Capture();
      CaptureExtends(t0, c, DriveOf(v), closed, flowing, polls);
      ReleaseExtends(AfterCapture(t0, c, DriveOf(v), closed, flowing, polls), c, DriveOf(v), true, false);
      if status != Ok {
        return;
      }
      RunKeepsDrive(v, settings.Parameters());
      ghost var s1 := sleeps;
      status := Release();
      NoStopSplit(old(sleeps), s1, sleeps);
    }

    /** The first half of a cycle: trap the particles and wait for them. */
    method Capture() returns (status: Status, ghost polls: nat)
      requires core.frame <= |core.frames|
      modifies this`running, this`sleeps, this`isClosed, this`isFlowing, core`trace, core`frame, settings
      ensures status == Ok ==> sleeps == old(sleeps) + polls
      ensures running == (old(running) && NoStop(old(sleeps), sleeps)) && old(sleeps) <= sleeps
      ensures var after := AfterCapture(old(core.trace), old(settings.Configuration()), DriveOf(old(settings.Parameters())),
                                        old(isClosed), old(isFlowing), polls);
        && (status == Ok ==> core.trace == after && isClosed && !isFlowing && polls == core.frame - old(core.frame) > 0)
        && (status != Ok ==> core.trace <= after)
      ensures old(core.trace) <= core.trace
      ensures old(core.frame) <= core.frame <= |core.frames| && (running ==> old(running))
      ensures settings.Configuration() == old(settings.Configuration())
      ensures settings.listeners == old(settings.listeners) && settings.messages == old(settings.messages)
      ensures RunEffects(old(settings.Parameters()), settings.Parameters())
      ensures OnlyStops(old(settings.events), settings.events)
      ensures old(running) && !running ==> settings.isRunning == 0.0
    {
      ghost var t0, c, d, closed, flowing := core.trace, settings.Configuration(), DriveOf(settings.Parameters()), isClosed, isFlowing;
      status := Prepare();
      polls := 1;
      if status != Ok {
        CaptureExtends(t0, c, d, closed, flowing, polls);
        return;
      }
      status, polls := Collect();
    }

    /** Move to the centre of the channel, switch to the overview objective,
        close the traps and start the flow to capture particles; the calls
        break off at the first that throws. */
    method Prepare() returns (status: Status)
      modifies this`isClosed, this`isFlowing, core`trace
      ensures var after := AfterPrepare(old(core.trace), old(settings.Configuration()), DriveOf(old(settings.Parameters())),
                                        old(isClosed), old(isFlowing));
        && (status == Ok ==> core.trace == after && isClosed && isFlowing)
        && (status != Ok ==> core.trace <= after && Threw(core.trace, |old(core.trace)|, core.faults))
    {
      status := SetPosition(settings.overviewX, settings.overviewY);
      if status != Ok {
        return;
      }
      var ok := core.Issue(SetConfig(settings.currGroup, settings.trapConfig));
      if !ok {
        return Thrown(DeviceFailure);
      }
      status := CloseTrap();
      if status != Ok {
        return;
      }
      status := StartFlow();
    }

    /** Wait until enough traps are filled, and stop the flow. */
    method Collect() returns (status: Status, ghost polls: nat)
      requires core.frame <= |core.frames|
      modifies this`running, this`sleeps, this`isFlowing, core`trace, core`frame, settings
      ensures status == Ok ==> sleeps == old(sleeps) + polls
      ensures running == (old(running) && NoStop(old(sleeps), sleeps)) && old(sleeps) <= sleeps
      ensures var after := AfterCollect(old(core.trace), old(settings.Configuration()), DriveOf(old(settings.Parameters())),
                                        old(isFlowing), polls);
        && (status == Ok ==> core.trace == after && !isFlowing && polls == core.frame - old(core.frame) > 0)
        && (status != Ok ==> core.trace <= after)
      ensures old(core.trace) <= core.trace
      ensures old(core.frame) <= core.frame <= |core.frames| && (running ==> old(running))
      ensures settings.Configuration() == old(settings.Configuration())
      ensures settings.listeners == old(settings.listeners) && settings.messages == old(settings.messages)
      ensures RunEffects(old(settings.Parameters()), settings.Parameters())
      ensures OnlyStops(old(settings.events), settings.events)
      ensures old(running) && !running ==> settings.isRunning == 0.0
    {
      ghost var t0, c, v, flowing := core.trace, settings.Configuration(), settings.Parameters(), isFlowing;
      status := WaitForParticles();
      polls := core.frame - old(core.frame) + if status == Ok then 0 else 1;
      StepsExtend(t0, c, DriveOf(v), false, flowing, polls);
      if status != Ok {
        return;
      }
      RunKeepsDrive(v, settings.Parameters());
      status := StopFlow();
    }

    /** Switch live mode off for the acquisition, then on again, and let the
        circular buffer fill; the calls break off at the first that throws. */
    method Acquisition() returns (status: Status)
      modifies this`running, this`sleeps, core`trace, settings
      ensures status == Ok ==> sleeps == old(sleeps) + 1
      ensures running == (old(running) && NoStop(old(sleeps), sleeps)) && old(sleeps) <= sleeps
      ensures status == Ok ==> core.trace == AfterAcquisition(old(core.trace))
      ensures status != Ok ==>
        core.trace <= AfterAcquisition(old(core.trace)) && Threw(core.trace, |old(core.trace)|, core.faults)
      ensures running ==> old(running)
      ensures settings.Configuration() == old(settings.Configuration())
      ensures settings.listeners == old(settings.listeners) && settings.messages == old(settings.messages)
      ensures RunEffects(old(settings.Parameters()), settings.Parameters())
      ensures OnlyStops(old(settings.events), settings.events)
      ensures old(running) && !running ==> settings.isRunning == 0.0
    {
      var ok := core.Issue(SetLiveModeOn(false));
      if !ok { return Thrown(DeviceFailure); }
      ok := core.Issue(RunAcquisition);
      if !ok { return Thrown(DeviceFailure); }
      ok := core.Issue(SetLiveModeOn(true));
      if !ok { return Thrown(DeviceFailure); }
      status := Pause(1);
    }

    /** Open the traps, flush the particles out and switch to the release
        configuration; the calls break off at the first that throws. */
    method Flush() returns (status: Status)
      modifies this`running, this`sleeps, this`isClosed, this`isFlowing, core`trace, settings
      ensures status == Ok ==> sleeps == old(sleeps) + 1
      ensures running == (old(running) && NoStop(old(sleeps), sleeps)) && old(sleeps) <= sleeps
      ensures var after := AfterFlush(old(core.trace), old(settings.Configuration()), DriveOf(old(settings.Parameters())),
                                      old(isClosed), old(isFlowing));
        && (status == Ok ==> core.trace == after && !isClosed && isFlowing)
        && (status != Ok ==> core.trace <= after && Threw(core.trace, |old(core.trace)|, core.faults))
      ensures running ==> old(running)
      ensures settings.Configuration() == old(settings.Configuration())
      ensures settings.listeners == old(settings.listeners) && settings.messages == old(settings.messages)
      ensures RunEffects(old(settings.Parameters()), settings.Parameters())
      ensures OnlyStops(old(settings.events), settings.events)
      ensures old(running) && !running ==> settings.isRunning == 0.0
    {
      StepsExtend(core.trace, settings.Configuration(), DriveOf(settings.Parameters()), isClosed, isFlowing, 0);
      status := OpenTrap();
      if status != Ok { return; }
      status := StartFlow();
      if status != Ok { return; }
      var ok := core.Issue(SetConfig(settings.currGroup, settings.releaseConfig));
      if !ok { return Thrown(DeviceFailure); }
      status := Pause(10);
    }

    /** The second half of a cycle: acquire, then release the particles; the
        calls break off at the first that throws. */
    method Release() returns (status: Status)
      modifies this`running, this`sleeps, this`isClosed, this`isFlowing, core`trace, settings
      ensures status == Ok ==> sleeps == old(sleeps) + 2
      ensures running == (old(running) && NoStop(old(sleeps), sleeps)) && old(sleeps) <= sleeps
      ensures var after := AfterRelease(old(core.trace), old(settings.Configuration()), DriveOf(old(settings.Parameters())),
                                        old(isClosed), old(isFlowing));
        && (status == Ok ==> core.trace == after && !isClosed && isFlowing)
        && (status != Ok ==> core.trace <= after && Threw(core.trace, |old(core.trace)|, core.faults))
      ensures running ==> old(running)
      ensures settings.Configuration() == old(settings.Configuration())
      ensures settings.listeners == old(settings.listeners) && settings.messages == old(settings.messages)
      ensures RunEffects(old(settings.Parameters()), settings.Parameters())
      ensures OnlyStops(old(settings.events), settings.events)
      ensures old(running) && !running ==> settings.isRunning == 0.0
    {
      ghost var t0, c, v, closed, flowing := core.trace, settings.Configuration(), settings.Parameters(), isClosed, isFlowing;
      status := Acquisition();
      ReleaseExtends(t0, c, DriveOf(v), closed, flowing);
      if status != Ok {
        return;
      }
      RunKeepsDrive(v, settings.Parameters());
      ghost var s1 := sleeps;
      status := Flush();
      NoStopSplit(old(sleeps), s1, sleeps);
    }

    /** runFullAnalysis: repeat the cycle while running; on an exception,
        report it, stop, and reset isRunning directly, without an event.
        The number of polls in each whole cycle and in the cycle that threw,
        and the trace and the events at the exception, are returned as ghost
        results. */
    method RunFullAnalysis() returns (ending: Ending, ghost polls: seq<nat>, ghost broken: nat,
                                      ghost cut: seq<Command>, ghost raised: seq<Settings.Delivery>)
      requires core.frame <= |core.frames|
      modifies this`running, this`sleeps, this`isClosed, this`isFlowing, core`trace, core`frame, settings
      ensures !running || ending.Escaped?
      ensures var done := AfterCycles(old(core.trace) + [SetAcquisitionSettings], old(settings.Configuration()),
                                      DriveOf(old(settings.Parameters())), old(isClosed), old(isFlowing), polls);
        done <= core.trace && (ending == Stopped ==> core.trace == done)
      ensures ending != Stopped ==>
        cut <= AfterCycles(old(core.trace) + [SetAcquisitionSettings], old(settings.Configuration()),
                           DriveOf(old(settings.Parameters())), old(isClosed), old(isFlowing), polls + [broken])
      ensures ending == Stopped ==> settings.isRunning == 0.0
      ensures ending == Recovered ==>
        settings.isRunning == 0.0 && core.trace == cut + [CoreLog(ExperimentFailed), LogError]
      ensures ending.Escaped? ==> cut <= core.trace <= cut + [CoreLog(ExperimentFailed), LogError]
      ensures ending == Stopped ==> StoppedIn(old(sleeps), polls, sleeps)
      ensures ending != Stopped ==> Began(old(sleeps), polls, sleeps)
      ensures OnlyStops(old(settings.events), raised) && settings.events == raised
      ensures settings.Configuration() == old(settings.Configuration())
      ensures settings.listeners == old(settings.listeners) && settings.messages == old(settings.messages)
      ensures RunEffects(old(settings.Parameters()), settings.Parameters())
    {
      running := true;
      var status;
      status, polls, broken := Experiment();
      raised, cut := settings.events, core.trace;
      ghost var v := settings.Parameters();
      if status == Ok {
        ending := Stopped;
      } else {
        ending := Recover();
      }
      RunEffectsCompose(old(settings.Parameters()), v, settings.Parameters());
    }

    /** The try block of runFullAnalysis, entered running: set the acquisition
        settings, then cycle until the automation is stopped or a call throws. */
    method Experiment() returns (status: Status, ghost polls: seq<nat>, ghost broken: nat)
      requires running && core.frame <= |core.frames|
      modifies this`running, this`sleeps, this`isClosed, this`isFlowing, core`trace, core`frame, settings
      ensures var done := AfterCycles(old(core.trace) + [SetAcquisitionSettings], old(settings.Configuration()),
                                      DriveOf(old(settings.Parameters())), old(isClosed), old(isFlowing), polls);
        done <= core.trace && (status == Ok ==> core.trace == done && !running && settings.isRunning == 0.0)
      ensures status != Ok ==>
        core.trace <= AfterCycles(old(core.trace) + [SetAcquisitionSettings], old(settings.Configuration()),
                                  DriveOf(old(settings.Parameters())), old(isClosed), old(isFlowing), polls + [broken])
      ensures status == Ok ==> StoppedIn(old(sleeps), polls, sleeps)
      ensures status != Ok ==> Began(old(sleeps), polls, sleeps)
      ensures settings.Configuration() == old(settings.Configuration())
      ensures settings.listeners == old(settings.listeners) && settings.messages == old(settings.messages)
      ensures RunEffects(old(settings.Parameters()), settings.Parameters())
      ensures OnlyStops(old(settings.events), settings.events)
    {
      ghost var t1, c, d, closed, flowing := old(core.trace) + [SetAcquisitionSettings], settings.Configuration(),
                                             DriveOf(settings.Parameters()), isClosed, isFlowing;
      polls, broken := [], 0;
      var ok := core.Issue(SetAcquisitionSettings);
      if ok {
        status, polls, broken := RepeatCycles();
      } else {
        AfterCyclesSnoc(t1, c, d, closed, flowing, [], 0);
        CycleExtends(t1, c, d, closed, flowing, 0);
        status := Thrown(DeviceFailure);
      }
    }

    /** The catch block of runFullAnalysis: log the failure and the exception,
        then stop and reset isRunning directly, without an event.  A call
        that throws here ends the block early and leaves the thread. */
    method Recover() returns (ending: Ending)
      modifies this`running, core`trace, settings`isRunning
      ensures ending != Stopped && old(core.trace) <= core.trace
      ensures ending == Recovered ==>
        core.trace == old(core.trace) + [CoreLog(ExperimentFailed), LogError] &&
        !running && settings.isRunning == 0.0
      ensures ending.Escaped? ==>
        ending == Escaped(DeviceFailure) && core.trace <= old(core.trace) + [CoreLog(ExperimentFailed), LogError] &&
        running == old(running) && settings.isRunning == old(settings.isRunning)
      ensures settings.Configuration() == old(settings.Configuration())
      ensures RunEffects(old(settings.Parameters()), settings.Parameters())
    {
      var ok := core.Issue(CoreLog(ExperimentFailed));
      if ok {
        ok := core.Issue(LogError);
      }
      if !ok {
        return Escaped(DeviceFailure);
      }
      running := false;
      settings.isRunning := 0.0;
      ending := Recovered;
    }

    /** The while loop of runFullAnalysis, entered running: cycles until the
        automation is stopped or a cycle throws.  The trace is that of the
        whole cycles, one per entry of polls, then a prefix of the cycle that
        threw, which polled broken times. */
    method RepeatCycles() returns (status: Status, ghost polls: seq<nat>, ghost broken: nat)
      requires running && core.frame <= |core.frames|
      modifies this`running, this`sleeps, this`isClosed, this`isFlowing, core`trace, core`frame, settings
      ensures var done := AfterCycles(old(core.trace), old(settings.Configuration()), DriveOf(old(settings.Parameters())),
                                      old(isClosed), old(isFlowing), polls);
        done <= core.trace && (status == Ok ==> core.trace == done && !running)
      ensures status != Ok ==>
        core.trace <= AfterCycles(old(core.trace), old(settings.Configuration()), DriveOf(old(settings.Parameters())),
                                  old(isClosed), old(isFlowing), polls + [broken])
      ensures !running ==> settings.isRunning == 0.0
      ensures status == Ok ==> StoppedIn(old(sleeps), polls, sleeps)
      ensures status != Ok ==> Began(old(sleeps), polls, sleeps)
      ensures settings.Configuration() == old(settings.Configuration())
      ensures settings.listeners == old(settings.listeners) && settings.messages == old(settings.messages)
      ensures RunEffects(old(settings.Parameters()), settings.Parameters())
      ensures OnlyStops(old(settings.events), settings.events)
    {
      ghost var t0, c, v, closed, flowing := core.trace, settings.Configuration(), settings.Parameters(), isClosed, isFlowing;
      ghost var s0 := sleeps;
      polls, broken := [], 0;
      status := Ok;
      while status == Ok && running
        invariant core.frame <= |core.frames|
        invariant AfterCycles(t0, c, DriveOf(v), closed, flowing, polls) <= core.trace
        invariant status == Ok ==> core.trace == AfterCycles(t0, c, DriveOf(v), closed, flowing, polls)
        invariant status != Ok ==> core.trace <= AfterCycles(t0, c, DriveOf(v), closed, flowing, polls + [broken])
        invariant status == Ok && |polls| == 0 ==> isClosed == closed && isFlowing == flowing
        invariant status == Ok && |polls| > 0 ==> !isClosed && isFlowing
        invariant !running ==> settings.isRunning == 0.0
        invariant status == Ok ==> Cycling(s0, polls, sleeps, running)
        invariant status != Ok ==> Began(s0, polls, sleeps)
        invariant settings.Configuration() == c
        invariant settings.listeners == old(settings.listeners) && settings.messages == old(settings.messages)
        invariant RunEffects(v, settings.Parameters())
        invariant OnlyStops(old(settings.events), settings.events)
        decreases |core.frames| - core.frame, if status == Ok then 1 else 0
      {
        RunKeepsDrive(v, settings.Parameters());
        ghost var n, before := 0, sleeps;
        status, n := RunCycle();
        AfterCyclesSnoc(t0, c, DriveOf(v), closed, flowing, polls, n);
        if status == Ok {
          CycleDone(s0, polls, n, before, sleeps);
          polls := polls + [n];
        } else {
          CycleBroke(s0, polls, before, sleeps);
          broken := n;
        }
      }
      if status == Ok {
        CyclesStopped(s0, polls, sleeps);
      }
    }
  }
}
