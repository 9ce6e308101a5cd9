/** The server's global state and the code that changes it: the simulation
    control handler of the websocket, the cleanup after a cancelled run, the
    replay step that replaces the cached vehicles, and the `POST /state`
    handler. Calls into SUMO and the launch of the simulation loop are
    recorded in an effect log instead of being performed. */
module Server {
  import opened Wrappers
  import opened Text
  import opened Deltas
  import opened Scenarios
  import opened Replay

  const StatusOff := "off"
  const StatusRunning := "running"
  const StatusPaused := "paused"

  /** What the server asks of the outside world, in order. */
  datatype Effect =
    | StartSumo                            // `sumo_start_fn()`
    | StopSumo                             // `stop_sumo()`, which closes the TraCI connection
    | CloseTraci                           // `traci.close()`, called directly by the older copy
    | LaunchRun                            // `loop.create_task(run_simulation(ws))`
    | CancelRun                            // `simulation_task.cancel()`, which ends the run loop
    | SendState(delayMs: int, status: string)  // the state message sent after an action

  /** The globals the control code reads and writes. */
  datatype Globals = Globals(
    status: string,
    delayMs: int,
    lastVehicles: Snapshot,
    lastLights: Snapshot,
    effects: seq<Effect>)

  /* ---------------------------------------------------------------------- */
  /* Messages                                                               */
  /* ---------------------------------------------------------------------- */

  /** A decoded JSON text message. `delayLengthMs` is `None` when the key is
      absent. */
  datatype ControlMsg =
    | Action(action: string, delayLengthMs: Option<int>)
    | NotAnAction   // a message whose `type` is not `action`

  /** A frame received on the control websocket. */
  datatype WsMessage = TextFrame(body: ControlMsg) | ErrorFrame | OtherFrame

  /** The exceptions the handler raises. `NoScenario` is the `AttributeError`
      of asking `None` whether it is live, when no scenario was chosen. */
  datatype ControlError = UnrecognizedAction | UnrecognizedMessage | MissingDelay | NoScenario

  /* ---------------------------------------------------------------------- */
  /* The transition function                                                */
  /* ---------------------------------------------------------------------- */

  /** `cleanup_sumo_simulation(task, live)`: with a task, the run task is
      cancelled, the cached snapshots are emptied and, in a live run, SUMO is
      stopped; without one nothing happens. */
  function Cleanup(g: Globals, task: bool, live: bool): (r: Globals)
    ensures !task ==> r == g
    ensures task ==> r.lastVehicles == map[] && r.lastLights == map[]
    ensures r.status == g.status && r.delayMs == g.delayMs
    ensures r.effects == g.effects + (if task then [CancelRun] + (if live then [StopSumo] else []) else [])
  {
    if !task then g
    else g.(lastVehicles := map[], lastLights := map[], effects := g.effects + [CancelRun] + (if live then [StopSumo] else []))
  }

  datatype StepOk = StepOk(g: Globals, task: bool)

  /** One received frame. `task` says whether the handler's local `task` holds
      a simulation task; cleanup never clears it. */
  function Step(g: Globals, task: bool, live: bool, msg: WsMessage): Result<StepOk, ControlError>
  {
    match msg
    case OtherFrame => Success(StepOk(g, task))
    case ErrorFrame => Success(StepOk(Cleanup(g.(status := StatusOff), task, live), task))
    case TextFrame(NotAnAction) => Failure(UnrecognizedMessage)
    case TextFrame(Action(action, delay)) =>
      var next: Result<StepOk, ControlError> :=
        if action == "start" then
          Success(StepOk(g.(status := StatusRunning, effects := g.effects + (if live then [StartSumo] else []) + [LaunchRun]), true))
        else if action == "pause" then Success(StepOk(g.(status := StatusPaused), task))
        else if action == "resume" then Success(StepOk(g.(status := StatusRunning), task))
        else if action == "cancel" then Success(StepOk(Cleanup(g.(status := StatusOff), task, live), task))
        else if action == "changeDelay" then
          if delay.None? then Failure(MissingDelay) else Success(StepOk(g.(delayMs := delay.value), task))
        else Failure(UnrecognizedAction);
      match next
      case Failure(e) => Failure(e)
      case Success(ok) => Success(ok.(g := ok.g.(effects := ok.g.effects + [SendState(ok.g.delayMs, ok.g.status)])))
  }

  datatype RunResult = RunResult(g: Globals, task: bool, error: Option<ControlError>)

  /** The frames of one connection in turn, until the first exception. */
  function Run(g: Globals, task: bool, live: bool, msgs: seq<WsMessage>): RunResult
    decreases |msgs|
  {
    if msgs == [] then RunResult(g, task, None)
    else match Step(g, task, live, msgs[0])
      case Failure(e) => RunResult(g, task, Some(e))
      case Success(ok) => Run(ok.g, ok.task, live, msgs[1..])
  }

  /** What each action does: `start` and `resume` set running, `pause` sets
      paused, `cancel` sets off and cleans up, `changeDelay` sets only the
      delay; every accepted action ends by sending the new state; any other
      action, and any text message that is not an action, raises without
      changing anything. */
  lemma ActionOutcomes(g: Globals, task: bool, live: bool, action: string, delay: Option<int>)
    ensures var r := Step(g, task, live, TextFrame(Action(action, delay)));
      && (r.Success? <==> action in {"start", "pause", "resume", "cancel"} || (action == "changeDelay" && delay.Some?))
      && (action in {"start", "resume"} ==> r.value.g.status == StatusRunning)
      && (action == "pause" ==> r.value.g == g.(status := StatusPaused, effects := g.effects + [SendState(g.delayMs, StatusPaused)]))
      && (action == "start" ==> r.value.task)
      && (action == "cancel" ==>
            && r.value.g.status == StatusOff && r.value.g.delayMs == g.delayMs
            && (task ==> r.value.g.lastVehicles == map[] && r.value.g.lastLights == map[])
            && (!task ==> r.value.g.lastVehicles == g.lastVehicles && r.value.g.lastLights == g.lastLights))
      && (action == "changeDelay" && delay.Some? ==>
            r.value.g == g.(delayMs := delay.value, effects := g.effects + [SendState(delay.value, g.status)]))
      && (r.Success? ==> r.value.g.effects[|r.value.g.effects| - 1] == SendState(r.value.g.delayMs, r.value.g.status))
    ensures Step(g, task, live, TextFrame(NotAnAction)) == Failure(UnrecognizedMessage)
  {
  }

  /** A socket error sets the status to off and cleans up, whatever the state. */
  lemma ErrorFrameStops(g: Globals, task: bool, live: bool)
    ensures Step(g, task, live, ErrorFrame) == Success(StepOk(Cleanup(g.(status := StatusOff), task, live), task))
    ensures Step(g, task, live, ErrorFrame).value.g.status == StatusOff
  {
  }

  /** With a task, `cancel` and an ERROR frame first cancel the run task,
      which ends `run_simulation`, and only then stop SUMO; the status is
      off afterwards. */
  lemma CancelEndsRun(g: Globals, live: bool, msg: WsMessage)
    requires msg == ErrorFrame || (msg.TextFrame? && msg.body.Action? && msg.body.action == "cancel")
    ensures var r := Step(g, true, live, msg);
      && r.Success? && r.value.g.status == StatusOff
      && |r.value.g.effects| > |g.effects| && r.value.g.effects[|g.effects|] == CancelRun
      && (live ==> r.value.g.effects[|g.effects| + 1] == StopSumo)
  {
  }

  predicate ValidStatus(s: string)
  {
    s == StatusOff || s == StatusRunning || s == StatusPaused
  }

  /** The control handler only ever writes one of the three statuses. */
  lemma {:induction false} RunKeepsValidStatus(g: Globals, task: bool, live: bool, msgs: seq<WsMessage>)
    requires ValidStatus(g.status)
    ensures ValidStatus(Run(g, task, live, msgs).g.status)
    decreases |msgs|
  {
    if msgs != [] {
      var r := Step(g, task, live, msgs[0]);
      if r.Success? {
        RunKeepsValidStatus(r.value.g, r.value.task, live, msgs[1..]);
      }
    }
  }

  predicate NoSumoCalls(effects: seq<Effect>)
  {
    forall i | 0 <= i < |effects| :: effects[i] != StartSumo && effects[i] != StopSumo
  }

  /** A replay (not live) never starts or stops SUMO, whatever it is sent. */
  lemma {:induction false} ReplayNeverCallsSumo(g: Globals, task: bool, msgs: seq<WsMessage>)
    requires NoSumoCalls(g.effects)
    ensures NoSumoCalls(Run(g, task, false, msgs).g.effects)
    decreases |msgs|
  {
    if msgs != [] {
      var r := Step(g, task, false, msgs[0]);
      if r.Success? {
        assert NoSumoCalls(r.value.g.effects);
        ReplayNeverCallsSumo(r.value.g, r.value.task, msgs[1..]);
      }
    }
  }

  /** Nothing the handler does touches the cached snapshots except a cleanup
      with a task, which empties both. */
  lemma {:induction false} RunSnapshotsOnlyEmptied(g: Globals, task: bool, live: bool, msgs: seq<WsMessage>)
    ensures var r := Run(g, task, live, msgs);
      (r.g.lastVehicles == g.lastVehicles && r.g.lastLights == g.lastLights)
      || (r.g.lastVehicles == map[] && r.g.lastLights == map[])
    decreases |msgs|
  {
    if msgs != [] {
      var r := Step(g, task, live, msgs[0]);
      if r.Success? {
        RunSnapshotsOnlyEmptied(r.value.g, r.value.task, live, msgs[1..]);
      }
    }
  }

  /* ---------------------------------------------------------------------- */
  /* Cleanup clears the task (as evidently intended)                        */
  /* ---------------------------------------------------------------------- */

  function Count(effects: seq<Effect>, e: Effect): nat
  {
    if effects == [] then 0 else (if effects[0] == e then 1 else 0) + Count(effects[1..], e)
  }

  lemma {:induction false} CountAppend(a: seq<Effect>, b: seq<Effect>, e: Effect)
    ensures Count(a + b, e) == Count(a, e) + Count(b, e)
  {
    if a == [] {
      assert a + b == b;
    } else {
      assert (a + b)[0] == a[0];
      assert (a + b)[1..] == a[1..] + b;
      CountAppend(a[1..], b, e);
    }
  }

  lemma {:induction false} CountAbsent(effects: seq<Effect>, e: Effect)
    requires e !in effects
    ensures Count(effects, e) == 0
  {
    if effects != [] {
      assert effects[0] != e;
      CountAbsent(effects[1..], e);
    }
  }

  const Start := TextFrame(Action("start", None))
  const Cancel := TextFrame(Action("cancel", None))
  const Idle := Globals(StatusOff, 30, map[], map[], [])

  /** As written: `simulation_task = None` inside the cleanup only rebinds its
      parameter, so the handler keeps its task, and a second `cancel` in a
      live session stops SUMO a second time although it was started once. */
  lemma CancelTwiceStopsTwice()
    ensures var r := Run(Idle, false, true, [Start, Cancel, Cancel]);
      r.error.None? && Count(r.g.effects, StartSumo) == 1 && Count(r.g.effects, StopSumo) == 2
  {
    var started := [StartSumo, LaunchRun, SendState(30, StatusRunning)];
    var stopped := [CancelRun, StopSumo, SendState(30, StatusOff)];
    var g1 := Globals(StatusRunning, 30, map[], map[], started);
    var g2 := Globals(StatusOff, 30, map[], map[], started + stopped);
    var g3 := Globals(StatusOff, 30, map[], map[], started + stopped + stopped);
    assert [] + [StartSumo] + [LaunchRun] + [SendState(30, StatusRunning)] == started;
    assert Step(Idle, false, true, Start) == Success(StepOk(g1, true));
    assert started + [CancelRun] + [StopSumo] + [SendState(30, StatusOff)] == started + stopped;
    assert Step(g1, true, true, Cancel) == Success(StepOk(g2, true));
    assert started + stopped + [CancelRun] + [StopSumo] + [SendState(30, StatusOff)] == started + stopped + stopped;
    assert Step(g2, true, true, Cancel) == Success(StepOk(g3, true));
    assert [Start, Cancel, Cancel][1..] == [Cancel, Cancel];
    assert [Cancel, Cancel][1..] == [Cancel];
    assert Run(g2, true, true, [Cancel]) == RunResult(g3, true, None);
    assert Run(g1, true, true, [Cancel, Cancel]) == RunResult(g3, true, None);
    assert Run(Idle, false, true, [Start, Cancel, Cancel]) == RunResult(g3, true, None);
    assert Count(started, StartSumo) == 1 && Count(started, StopSumo) == 0 by {
      CountAbsent(started, StopSumo);
      CountAbsent(started[1..], StartSumo);
    }
    assert Count(stopped, StartSumo) == 0 && Count(stopped, StopSumo) == 1 by {
      CountAbsent(stopped, StartSumo);
      CountAbsent(stopped[2..], StopSumo);
    }
    CountAppend(started, stopped, StartSumo);
    CountAppend(started, stopped, StopSumo);
    CountAppend(started + stopped, stopped, StartSumo);
    CountAppend(started + stopped, stopped, StopSumo);
  }

  /** What a cleanup adds to the effect log. */
  function CleanupEffects(task: bool, live: bool): seq<Effect>
  {
    if task then [CancelRun] + (if live then [StopSumo] else []) else []
  }

  lemma CleanupEffectCounts(task: bool, live: bool)
    ensures Count(CleanupEffects(task, live), StopSumo) == (if task && live then 1 else 0)
    ensures Count(CleanupEffects(task, live), StartSumo) == 0
  {
    if task {
      var tail: seq<Effect> := if live then [StopSumo] else [];
      assert CleanupEffects(task, live) == [CancelRun] + tail;
      CountAppend([CancelRun], tail, StopSumo);
      CountAppend([CancelRun], tail, StartSumo);
    }
  }

  /** The transition with the task cleared by every cleanup. */
  function StepClearing(g: Globals, task: bool, live: bool, msg: WsMessage): Result<StepOk, ControlError>
  {
    match Step(g, task, live, msg)
    case Failure(e) => Failure(e)
    case Success(ok) =>
      if msg.ErrorFrame? || (msg.TextFrame? && msg.body.Action? && msg.body.action == "cancel")
      then Success(ok.(task := false))
      else Success(ok)
  }

  function RunClearing(g: Globals, task: bool, live: bool, msgs: seq<WsMessage>): RunResult
    decreases |msgs|
  {
    if msgs == [] then RunResult(g, task, None)
    else match StepClearing(g, task, live, msgs[0])
      case Failure(e) => RunResult(g, task, Some(e))
      case Success(ok) => RunClearing(ok.g, ok.task, live, msgs[1..])
  }

  /** The count of SUMO stops, plus one for a task that may still stop it,
      never exceeds the count of starts. */
  predicate Balanced(effects: seq<Effect>, task: bool, live: bool)
  {
    live ==> Count(effects, StopSumo) + (if task then 1 else 0) <= Count(effects, StartSumo)
  }

  lemma StepClearingBalanced(g: Globals, task: bool, live: bool, msg: WsMessage)
    requires Balanced(g.effects, task, live)
    requires !live ==> Count(g.effects, StopSumo) == 0
    ensures var r := StepClearing(g, task, live, msg);
      r.Success? ==>
        && Balanced(r.value.g.effects, r.value.task, live)
        && (!live ==> Count(r.value.g.effects, StopSumo) == 0)
  {
    var r := StepClearing(g, task, live, msg);
    if r.Success? {
      var added: seq<Effect>;
      var send := [SendState(r.value.g.delayMs, r.value.g.status)];
      if msg.OtherFrame? {
        added := [];
        assert g.effects + added == g.effects;
      } else if msg.ErrorFrame? {
        added := CleanupEffects(task, live);
        CleanupEffectCounts(task, live);
        assert !r.value.task;
      } else if msg.body.action == "start" {
        added := (if live then [StartSumo] else []) + [LaunchRun] + send;
        CountAbsent([LaunchRun] + send, StopSumo);
        CountAbsent([LaunchRun] + send, StartSumo);
        CountAppend(if live then [StartSumo] else [], [LaunchRun] + send, StopSumo);
        CountAppend(if live then [StartSumo] else [], [LaunchRun] + send, StartSumo);
        assert g.effects + added == g.effects + (if live then [StartSumo] else []) + [LaunchRun] + send;
      } else if msg.body.action == "cancel" {
        added := CleanupEffects(task, live) + send;
        CleanupEffectCounts(task, live);
        CountAbsent(send, StopSumo);
        CountAbsent(send, StartSumo);
        CountAppend(CleanupEffects(task, live), send, StopSumo);
        CountAppend(CleanupEffects(task, live), send, StartSumo);
        assert g.effects + added == g.effects + CleanupEffects(task, live) + send;
      } else {
        added := send;
      }
      assert r.value.g.effects == g.effects + added;
      CountAppend(g.effects, added, StopSumo);
      CountAppend(g.effects, added, StartSumo);
    }
  }

  /** With the task cleared, a session that starts idle never stops SUMO more
      often than it started it. */
  lemma {:induction false} ClearingNeverOverStops(g: Globals, task: bool, live: bool, msgs: seq<WsMessage>)
    requires Balanced(g.effects, task, live)
    requires !live ==> Count(g.effects, StopSumo) == 0
    ensures Count(RunClearing(g, task, live, msgs).g.effects, StopSumo)
         <= Count(RunClearing(g, task, live, msgs).g.effects, StartSumo)
    decreases |msgs|
  {
    if msgs == [] {
    } else {
      StepClearingBalanced(g, task, live, msgs[0]);
      var r := StepClearing(g, task, live, msgs[0]);
      if r.Success? {
        ClearingNeverOverStops(r.value.g, r.value.task, live, msgs[1..]);
      }
    }
  }

  /* ---------------------------------------------------------------------- */
  /* The older control handler                                              */
  /* ---------------------------------------------------------------------- */

  /** What the older handler receives: a text message, or the end of the
      connection. */
  datatype LegacyMsg = Received(body: ControlMsg) | ConnectionClosed

  /** The older `cleanup_sumo_simulation(task)`: with a task, cancel it, empty
      the cached snapshots and close the TraCI connection, live or not. */
  function LegacyCleanup(g: Globals, task: bool): (r: Globals)
    ensures !task ==> r == g
    ensures task ==> r == g.(lastVehicles := map[], lastLights := map[], effects := g.effects + [CancelRun, CloseTraci])
  {
    if !task then g else g.(lastVehicles := map[], lastLights := map[], effects := g.effects + [CancelRun, CloseTraci])
  }

  /** One message of the older handler; SUMO is started on every `start`. */
  function LegacyStep(g: Globals, task: bool, body: ControlMsg): Result<StepOk, ControlError>
  {
    match body
    case NotAnAction => Failure(UnrecognizedMessage)
    case Action(action, delay) =>
      var next: Result<StepOk, ControlError> :=
        if action == "start" then Success(StepOk(g.(status := StatusRunning, effects := g.effects + [StartSumo, LaunchRun]), true))
        else if action == "pause" then Success(StepOk(g.(status := StatusPaused), task))
        else if action == "resume" then Success(StepOk(g.(status := StatusRunning), task))
        else if action == "cancel" then Success(StepOk(LegacyCleanup(g.(status := StatusOff), task), task))
        else if action == "changeDelay" then
          if delay.None? then Failure(MissingDelay) else Success(StepOk(g.(delayMs := delay.value), task))
        else Failure(UnrecognizedAction);
      match next
      case Failure(e) => Failure(e)
      case Success(ok) => Success(ok.(g := ok.g.(effects := ok.g.effects + [SendState(ok.g.delayMs, ok.g.status)])))
  }

  /** The older handler's loop: it ends at the first exception or when the
      connection closes, after a cleanup that leaves the status as it was. */
  function LegacyRun(g: Globals, task: bool, msgs: seq<LegacyMsg>): RunResult
    decreases |msgs|
  {
    if msgs == [] then RunResult(g, task, None)
    else match msgs[0]
      case ConnectionClosed => RunResult(LegacyCleanup(g, task), task, None)
      case Received(body) =>
        match LegacyStep(g, task, body)
        case Failure(e) => RunResult(g, task, Some(e))
        case Success(ok) => LegacyRun(ok.g, ok.task, msgs[1..])
  }

  /** The older handler starts SUMO on every `start`, recorded or not. */
  lemma LegacyStartStartsSumo(g: Globals, task: bool, delay: Option<int>)
    ensures var r := LegacyStep(g, task, Action("start", delay));
      r.Success? && r.value.task && r.value.g.status == StatusRunning
      && r.value.g.effects == g.effects + [StartSumo, LaunchRun, SendState(g.delayMs, StatusRunning)]
  {
  }

  /** When the connection closes the older handler cleans up but does not
      reset the status, and reads nothing further. */
  lemma LegacyCloseKeepsStatus(g: Globals, task: bool, rest: seq<LegacyMsg>)
    ensures var r := LegacyRun(g, task, [ConnectionClosed] + rest);
      r.g.status == g.status && r.error.None? && r.g == LegacyCleanup(g, task)
  {
  }

  /** The older handler only ever writes one of the three statuses. */
  lemma {:induction false} LegacyRunKeepsValidStatus(g: Globals, task: bool, msgs: seq<LegacyMsg>)
    requires ValidStatus(g.status)
    ensures ValidStatus(LegacyRun(g, task, msgs).g.status)
    decreases |msgs|
  {
    if msgs != [] && msgs[0].Received? {
      var r := LegacyStep(g, task, msgs[0].body);
      if r.Success? {
        LegacyRunKeepsValidStatus(r.value.g, r.value.task, msgs[1..]);
      }
    }
  }

  /* ---------------------------------------------------------------------- */
  /* Replay step and POST /state                                            */
  /* ---------------------------------------------------------------------- */

  /** What `read_next_step` sends: the parsed time in seconds, the delta
      against the previous step, the per-class counts, and the seconds spent
      simulating and building the snapshot. */
  datatype StepSnapshot = StepSnapshot(
    time: Float,
    vehicles: Delta,
    counts: map<Value, nat>,
    simulateSecs: real,
    snapshotSecs: real)

  /** The body of `POST /state`. */
  datatype PostBody = PostBody(scenario: string, delayLengthMs: int, simulationStatus: string)

  /** The JSON the state endpoints answer with (`get_state`). */
  datatype StateReply = StateReply(delayMs: int, scenario: string, simulationStatus: string)

  function StateOf(delayMs: int, s: Scenario, status: string): StateReply
  {
    StateReply(delayMs, KebabCase(s.name), status)
  }

  /** Every scenario sits under its own name, which is the kebab-case form of
      its display name, as `Scenario.from_config_json` and
      `load_scenarios_file` build the catalogue. */
  predicate Catalogue(scenarios: map<string, Scenario>)
  {
    forall k | k in scenarios :: scenarios[k].name == k && k == KebabCase(scenarios[k].displayName)
  }

  /** After a successful `POST /state` the reply names the scenario that was
      asked for. */
  lemma PostReplyNamesRequested(scenarios: map<string, Scenario>, body: PostBody)
    requires Catalogue(scenarios) && body.scenario in scenarios
    ensures StateOf(body.delayLengthMs, scenarios[body.scenario], body.simulationStatus).scenario == body.scenario
  {
    KebabCaseIdempotent(scenarios[body.scenario].displayName);
  }

  class ServerState {
    var status: string
    var delayMs: int
    var currentScenario: Option<Scenario>
    var lastVehicles: Snapshot
    var lastLights: Snapshot
    var effects: seq<Effect>

    /** The values the module starts with. */
    constructor ()
      ensures State() == Idle && currentScenario.None?
    {
      status := StatusOff;
      delayMs := 30;
      currentScenario := None;
      lastVehicles := map[];
      lastLights := map[];
      effects := [];
    }

    function State(): Globals
      reads this
    {
      Globals(status, delayMs, lastVehicles, lastLights, effects)
    }

    /** `cleanup_sumo_simulation(simulation_task, live)` */
    method CleanupSumoSimulation(task: bool, live: bool)
      modifies this
      ensures State() == Cleanup(old(State()), task, live)
      ensures currentScenario == old(currentScenario)
    {
      if task {
        effects := effects + [CancelRun];
        lastVehicles := map[];
        lastLights := map[];
        if live {
          effects := effects + [StopSumo];
        }
      }
    }

    /** One frame of `websocket_simulation_control`; returns the new `task`. */
    method HandleFrame(msg: WsMessage, task: bool, live: bool) returns (r: Result<bool, ControlError>)
      modifies this
      ensures var s := Step(old(State()), task, live, msg);
        && (r.Success? <==> s.Success?)
        && (s.Success? ==> State() == s.value.g && r.value == s.value.task)
        && (s.Failure? ==> State() == old(State()) && r.error == s.error)
      ensures currentScenario == old(currentScenario)
    {
      match msg
      case OtherFrame =>
        return Success(task);
      case ErrorFrame =>
        status := StatusOff;
        CleanupSumoSimulation(task, live);
        return Success(task);
      case TextFrame(body) =>
        if body.NotAnAction? {
          return Failure(UnrecognizedMessage);
        }
        var newTask := task;
        if body.action == "start" {
          if live {
            effects := effects + [StartSumo];
          }
          status := StatusRunning;
          effects := effects + [LaunchRun];
          newTask := true;
        } else if body.action == "pause" {
          status := StatusPaused;
        } else if body.action == "resume" {
          status := StatusRunning;
        } else if body.action == "cancel" {
          status := StatusOff;
          CleanupSumoSimulation(task, live);
        } else if body.action == "changeDelay" {
          if body.delayLengthMs.None? {
            return Failure(MissingDelay);
          }
          delayMs := body.delayLengthMs.value;
        } else {
          return Failure(UnrecognizedAction);
        }
        effects := effects + [SendState(delayMs, status)];
        return Success(newTask);
    }

    /** `websocket_simulation_control` over the frames of one connection:
        `live` is read from the current scenario when the connection opens,
        and the handler stops at the first exception. With no scenario chosen
        yet, reading `live` raises before any frame is read. */
    method ServeConnection(msgs: seq<WsMessage>) returns (error: Option<ControlError>)
      modifies this
      ensures old(currentScenario).None? ==> error == Some(NoScenario) && State() == old(State())
      ensures old(currentScenario).Some? ==>
        var r := Run(old(State()), false, IsLive(old(currentScenario).value), msgs);
        State() == r.g && error == r.error
      ensures currentScenario == old(currentScenario)
    {
      if currentScenario.None? {
        return Some(NoScenario);
      }
      var task := false;
      var live := IsLive(currentScenario.value);
      var i := 0;
      while i < |msgs|
        invariant 0 <= i <= |msgs|
        invariant currentScenario == old(currentScenario)
        invariant Run(State(), task, live, msgs[i..]) == Run(old(State()), false, live, msgs)
      {
        assert msgs[i..][1..] == msgs[i + 1..];
        var r := HandleFrame(msgs[i], task, live);
        if r.Failure? {
          return Some(r.error);
        }
        task := r.value;
        i := i + 1;
      }
      return None;
    }

    /** The older `websocket_simulation_control`, whose caller passes in the
        task. */
    method LegacyServeConnection(msgs: seq<LegacyMsg>, task: bool) returns (error: Option<ControlError>)
      modifies this
      ensures var r := LegacyRun(old(State()), task, msgs);
        State() == r.g && error == r.error
      ensures currentScenario == old(currentScenario)
    {
      var t := task;
      var i := 0;
      while i < |msgs|
        invariant 0 <= i <= |msgs|
        invariant currentScenario == old(currentScenario)
        invariant LegacyRun(State(), t, msgs[i..]) == LegacyRun(old(State()), task, msgs)
      {
        assert msgs[i..][1..] == msgs[i + 1..];
        match msgs[i]
        case ConnectionClosed =>
          if t {
            lastVehicles := map[];
            lastLights := map[];
            effects := effects + [CancelRun, CloseTraci];
          }
          return None;
        case Received(body) =>
          var r := LegacyStep(State(), t, body);
          if r.Failure? {
            return Some(r.error);
          }
          status, delayMs, lastVehicles, lastLights, effects :=
            r.value.g.status, r.value.g.delayMs, r.value.g.lastVehicles, r.value.g.lastLights, r.value.g.effects;
          t := r.value.task;
        i := i + 1;
      }
      return None;
    }

    /** `read_next_step(timestep, vehicles)`: the timestep's records replace
        the cached vehicles, and the reply carries their delta against the
        previous step and their counts per class. When reading a vehicle or
        the time raises, nothing changes. `startSecs`, `endSimSecs` and
        `endUpdateSecs` are the three readings of `time.time()`, in order. */
    method ReadNextStep(timestep: string, vehicles: seq<Attrs>, parseFloat: string -> Option<Float>, legacy: bool,
                        startSecs: real, endSimSecs: real, endUpdateSecs: real)
      returns (r: Result<StepSnapshot, FcdError>)
      modifies this
      ensures var records := RecordsById(vehicles, parseFloat, legacy);
        && (r.Success? <==> records.Success? && parseFloat(timestep).Some?)
        && (r.Success? ==>
              && Classed(records.value)
              && r.value.time == parseFloat(timestep).value
              && r.value.vehicles == DiffDicts(old(lastVehicles), records.value)
              && r.value.counts == ClassCounts(records.value)
              && r.value.simulateSecs == endSimSecs - startSecs
              && r.value.snapshotSecs == endUpdateSecs - endSimSecs
              && lastVehicles == records.value)
        && (r.Failure? ==> lastVehicles == old(lastVehicles))
      ensures status == old(status) && delayMs == old(delayMs) && lastLights == old(lastLights)
      ensures effects == old(effects) && currentScenario == old(currentScenario)
    {
      var records := RecordsById(vehicles, parseFloat, legacy);
      if records.Failure? {
        return Failure(records.error);
      }
      RecordsClassed(map[], vehicles, parseFloat, legacy);
      var counts := ClassCounts(records.value);
      var update := DiffDicts(lastVehicles, records.value);
      var time := parseFloat(timestep);
      if time.None? {
        return Failure(NotANumber("time"));
      }
      lastVehicles := records.value;
      return Success(StepSnapshot(time.value, update, counts, endSimSecs - startSecs, endUpdateSecs - endSimSecs));
    }

    /** `post_state(scenarios, request)`: an unknown scenario is refused with
        `None` and nothing changes; otherwise the scenario, the delay and the
        status are set and the new state is the reply. */
    method PostState(scenarios: map<string, Scenario>, body: PostBody) returns (reply: Option<StateReply>)
      modifies this
      ensures body.scenario !in scenarios ==>
        reply.None? && State() == old(State()) && currentScenario == old(currentScenario)
      ensures body.scenario in scenarios ==>
        && currentScenario == Some(scenarios[body.scenario])
        && State() == old(State()).(delayMs := body.delayLengthMs, status := body.simulationStatus)
        && reply == Some(StateOf(body.delayLengthMs, scenarios[body.scenario], body.simulationStatus))
    {
      if body.scenario !in scenarios {
        return None;
      }
      currentScenario := Some(scenarios[body.scenario]);
      delayMs := body.delayLengthMs;
      status := body.simulationStatus;
      return Some(StateOf(delayMs, currentScenario.value, status));
    }
  }
}
