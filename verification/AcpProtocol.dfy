/**
 The prompt/steer/cancel protocol of the ACP client, on values.

 The agent, the clock and the pipe are the environment: an `Env` says what one iteration
 of the read loop sees, and a run is a function from iteration numbers to `Env`.
 `Step` is one iteration; `RunTo` is the loop cut after n iterations; `RunCall` is one
 client call, complete or abandoned (its future dropped at an await point).

 The history fields (`writes`, `asked`, `accepted`, `resolutions`, `steps`) record what
 happened and never decide what happens next.
 */
module AcpProtocol {
  import opened Wrappers

  type Time = nat

  // ---- Wire messages -------------------------------------------------------------

  /** A JSON-RPC id: our own ids are numbers, the agent may use anything. */
  datatype JsonId = Number(n: nat) | Text(s: string) | OtherId

  /** `_meta.goose.activeRunId`: a string, null, or anything else (left untouched). */
  datatype RunField = RunText(run: string) | RunNull | RunAbsent

  datatype Update = ToolCall | SessionInfo(run: RunField) | OtherUpdate

  datatype PermissionOption = PermissionOption(kind: Option<string>, optionId: Option<string>)

  datatype Method =
    | SessionUpdate(update: Update)
    | GooseUsage
    | RequestPermission(options: Option<seq<PermissionOption>>)
    | OtherMethod(name: string)

  /** The `method` field: absent, present but not a string, or a method with its params. */
  datatype MethodField = NoMethod | NonText | Named(call: Method)

  datatype Outcome = NoOutcome | OutcomeText(text: string) | OutcomeOther(json: string)

  datatype StopReason = EndTurn | Cancelled | MaxTokens | MaxTurnRequests | Refusal

  datatype StopField = MissingStop | UnknownStop(text: string) | Known(reason: StopReason)

  datatype RpcError = RpcError(code: Option<int>, text: string)

  datatype Message = Message(
    id: Option<JsonId>, verb: MethodField, error: Option<RpcError>,
    outcome: Outcome, stop: StopField)

  datatype Incoming = Eof | TooLong | ReadFailed | Blank | BadJson | Json(msg: Message)

  datatype WriteResult = Wrote | WriteFailed | WriteCut

  /** Which method carries a steer; goose's names the run it is meant for. */
  datatype Transport = Goose(run: string) | AcpExtension

  datatype Choice = Selected(optionId: string) | CancelledChoice

  /** A completed write to the agent's stdin. Permission replies carry the request they answer. */
  datatype Wire =
    | PromptSent(id: nat)
    | SteerSent(id: nat, transport: Transport)
    | PermissionReply(arrival: nat, to: JsonId, choice: Choice)
    | MethodNotFound(to: JsonId)
    | CancelSent

  datatype AcpError =
    | Io
    | AgentExited
    | IdleTimeout(after: Time)
    | HardTimeout(silence: Time)
    | CancelDrainTimeout(grace: Time)
    | WriteError
    | Protocol(reason: string)
    | AgentError(code: int, text: string)

  datatype SteerError =
    | ExpectedRunIdMissing
    | TransportFailed
    | AgentRejected(code: int, text: string)
    | OutcomeRejected(outcome: string)

  datatype SteerAck = Success | Failure(error: SteerError) | PromptCompletedNeutral

  // ---- State ---------------------------------------------------------------------

  /** A permission request, numbered by arrival: agents may reuse ids. */
  datatype Permission = Permission(arrival: nat, id: JsonId)

  datatype Client = Client(
    nextId: nat,
    lastPromptId: Option<nat>,
    storedDeadline: Option<Time>,
    pendingPermission: Option<Permission>,
    responded: bool,
    activeRun: Option<string>,
    steeringSupported: bool,
    steerRx: bool,
    asked: seq<JsonId>,
    writes: seq<Wire>)

  /** A steer that was written: which one (by order of acceptance), under which id. */
  datatype InFlight = InFlight(steer: nat, id: nat, transport: Transport)

  /** How a steer's ack sender ended: used to send an ack, or dropped without sending. */
  datatype How = Acked(ack: SteerAck) | Dropped

  datatype Resolution = Resolution(steer: nat, request: Option<InFlight>, how: How, at: nat)

  datatype Exit = Responded(stop: StopField) | Failed(error: AcpError) | Abandoned

  datatype Settings = Settings(expectedId: nat, idleTimeout: Time, maxDuration: Time, receiver: bool)

  datatype Loop = Loop(
    client: Client,
    settings: Settings,
    idleDeadline: Time,
    hardDeadline: Time,
    lastActivity: Time,
    pending: Option<InFlight>,
    accepted: nat,
    resolutions: seq<Resolution>,
    steps: nat,
    exit: Option<Exit>)

  /**
   One iteration's environment: the clock at the deadline check, what is ready when the
   select completes, whether a write made in this iteration goes through, the clock when
   the frame is handled, and the clock at a second reading in the same iteration.
   */
  datatype Env = Env(now: Time, line: Option<Incoming>, steer: bool, write: WriteResult, at: Time, later: Time)

  type Script = nat -> Env

  // ---- One iteration -------------------------------------------------------------

  function Settle(s: Loop, how: How): Loop {
    if s.pending.None? then s
    else s.(pending := None,
            resolutions := s.resolutions + [Resolution(s.pending.value.steer, s.pending, how, s.steps)])
  }

  /** Leave by an explicit return: the pending steer is told the prompt completed. */
  function Return(s: Loop, exit: Exit): Loop {
    Settle(s, Acked(PromptCompletedNeutral)).(exit := Some(exit))
  }

  /** Leave by `?` or by a dropped future: the pending ack sender goes out of scope unsent. */
  function Propagate(s: Loop, exit: Exit): Loop {
    Settle(s, Dropped).(exit := Some(exit))
  }

  predicate IdleFirst(s: Loop) { s.idleDeadline < s.hardDeadline }

  function NextDeadline(s: Loop): Time { if IdleFirst(s) then s.idleDeadline else s.hardDeadline }

  function Since(now: Time, earlier: Time): Time { if now >= earlier then now - earlier else 0 }

  function TimeOut(s: Loop, now: Time): Loop {
    Return(s, Failed(if IdleFirst(s) then IdleTimeout(s.settings.idleTimeout)
                     else HardTimeout(Since(now, s.lastActivity))))
  }

  function Iterate(s: Loop, e: Env): Loop {
    if e.now >= NextDeadline(s) then TimeOut(s, e.now)
    else if e.line.Some? then OnLine(s, e, e.line.value)
    else if e.steer && s.settings.receiver && s.pending.None? then OnSteer(s, e)
    else TimeOut(s, e.at)
  }

  function Step(s: Loop, e: Env): Loop {
    if s.exit.Some? then s else Iterate(s, e).(steps := s.steps + 1)
  }

  function RunTo(s: Loop, script: Script, n: nat): Loop {
    if n == 0 then s else Step(RunTo(s, script, n - 1), script(n - 1))
  }

  /** The steer arm: goose's run id first, then the advertised extension, else refuse. */
  function OnSteer(s: Loop, e: Env): Loop {
    var steer := s.accepted;
    var t := s.(accepted := steer + 1);
    if s.client.activeRun.None? && !s.client.steeringSupported then
      t.(resolutions := t.resolutions + [Resolution(steer, None, Acked(Failure(ExpectedRunIdMissing)), s.steps)])
    else
      var transport := if s.client.activeRun.Some? then Goose(s.client.activeRun.value) else AcpExtension;
      var id := s.client.nextId;
      var u := t.(client := t.client.(nextId := id + 1));
      match e.write
      case Wrote =>
        u.(client := u.client.(writes := u.client.writes + [SteerSent(id, transport)]),
           pending := Some(InFlight(steer, id, transport)))
      case WriteFailed =>
        u.(resolutions := u.resolutions + [Resolution(steer, None, Acked(Failure(TransportFailed)), s.steps)])
      case WriteCut =>
        u.(resolutions := u.resolutions + [Resolution(steer, None, Dropped, s.steps)], exit := Some(Abandoned))
  }

  function OnLine(s: Loop, e: Env, line: Incoming): Loop {
    match line
    case Eof => Return(s, Failed(AgentExited))
    case TooLong => Return(s, Failed(Protocol("line too long")))
    case ReadFailed => Return(s, Failed(Io))
    case Blank => s
    case BadJson => s
    case Json(m) => OnMessage(s.(idleDeadline := e.at + s.settings.idleTimeout, lastActivity := e.at), e, m)
  }

  predicate IsResponseTo(m: Message, id: nat) { m.id == Some(Number(id)) && m.verb.NoMethod? }

  function OnMessage(s: Loop, e: Env, m: Message): Loop {
    if s.pending.Some? && IsResponseTo(m, s.pending.value.id) then OnSteerResponse(s, e, m)
    else if IsResponseTo(m, s.settings.expectedId) then
      Return(s, if m.error.Some? then Failed(PromptError(m.error.value)) else Responded(m.stop))
    else if m.verb.Named? then Dispatch(s, e, m.id, m.verb.call)
    else s
  }

  function PromptError(e: RpcError): AcpError {
    AgentError(if e.code.Some? then e.code.value else -32000, e.text)
  }

  const INJECTED := "injected"
  const STARTED_NEW_TURN := "startedNewTurn"

  /** The outcome a success response counts as; None is a rejection. */
  function Recognized(transport: Transport, m: Message): Option<string> {
    match transport
    case Goose(_) => Some(INJECTED)
    case AcpExtension =>
      if m.outcome.OutcomeText? && (m.outcome.text == INJECTED || m.outcome.text == STARTED_NEW_TURN)
      then Some(m.outcome.text) else None
  }

  function Reported(o: Outcome): string {
    match o case NoOutcome => "<absent>" case OutcomeText(t) => t case OutcomeOther(j) => j
  }

  function Verdict(transport: Transport, m: Message): SteerAck {
    if m.error.Some? then
      Failure(AgentRejected(if m.error.value.code.Some? then m.error.value.code.value else -1, m.error.value.text))
    else if Recognized(transport, m).Some? then Success
    else Failure(OutcomeRejected(Reported(m.outcome)))
  }

  predicate Renews(transport: Transport, m: Message) {
    m.error.None? && Recognized(transport, m) == Some(INJECTED)
  }

  function OnSteerResponse(s: Loop, e: Env, m: Message): Loop
    requires s.pending.Some?
  {
    var transport := s.pending.value.transport;
    var t := Settle(s, Acked(Verdict(transport, m)));
    if Renews(transport, m) && e.later + s.settings.maxDuration > s.hardDeadline then
      t.(hardDeadline := e.later + s.settings.maxDuration,
         client := t.client.(storedDeadline := Some(e.later + s.settings.maxDuration)))
    else t
  }

  function NewRun(known: Option<string>, f: RunField): Option<string> {
    match f case RunText(r) => Some(r) case RunNull => None case RunAbsent => known
  }

  function Dispatch(s: Loop, e: Env, id: Option<JsonId>, verb: Method): Loop {
    match verb
    case SessionUpdate(ToolCall) =>
      s.(idleDeadline := e.later + s.settings.idleTimeout, lastActivity := e.later)
    case SessionUpdate(SessionInfo(run)) =>
      s.(client := s.client.(activeRun := NewRun(s.client.activeRun, run)))
    case SessionUpdate(OtherUpdate) => s
    case GooseUsage => s
    case RequestPermission(options) =>
      var (c, err) := HandlePermission(s.client, id, options, e.write);
      if err.None? then s.(client := c) else Propagate(s.(client := c), err.value)
    case OtherMethod(_) =>
      if id.None? then s
      else match e.write
        case Wrote => s.(client := s.client.(writes := s.client.writes + [MethodNotFound(id.value)]))
        case WriteFailed => Propagate(s, Failed(WriteError))
        case WriteCut => Propagate(s, Abandoned)
  }

  // ---- Permission requests -------------------------------------------------------

  /** The first option of a kind. */
  function FindKind(options: seq<PermissionOption>, kind: string): (r: Option<PermissionOption>)
    ensures r.None? <==> forall i :: 0 <= i < |options| ==> options[i].kind != Some(kind)
    ensures r.Some? ==>
      exists i :: 0 <= i < |options| && options[i] == r.value && options[i].kind == Some(kind)
                  && forall j :: 0 <= j < i ==> options[j].kind != Some(kind)
  {
    if options == [] then None
    else if options[0].kind == Some(kind) then Some(options[0])
    else FindKind(options[1..], kind)
  }

  /** The option to select: the first allow_once, else the first reject_once, else an error. */
  function ChooseOption(options: Option<seq<PermissionOption>>): Result<string, string> {
    if options.None? then Err("missing options")
    else match FindKind(options.value, "allow_once")
      case Some(o) => if o.optionId.Some? then Ok(o.optionId.value) else Err("allow_once missing optionId")
      case None =>
        match FindKind(options.value, "reject_once")
        case Some(o) => Ok(if o.optionId.Some? then o.optionId.value else "reject")
        case None => Err("no suitable option")
  }

  function HandlePermission(c: Client, id: Option<JsonId>, options: Option<seq<PermissionOption>>,
                            write: WriteResult): (Client, Option<Exit>)
  {
    if id.None? then (c, Some(Failed(Protocol("permission request missing id"))))
    else
      var p := Permission(|c.asked|, id.value);
      var c1 := c.(pendingPermission := Some(p), responded := false, asked := c.asked + [id.value]);
      match ChooseOption(options)
      case Err(reason) => (c1, Some(Failed(Protocol(reason))))
      case Ok(optionId) =>
        match write
        case Wrote =>
          (c1.(writes := c1.writes + [PermissionReply(p.arrival, p.id, Selected(optionId))],
               responded := true, pendingPermission := None), None)
        case WriteFailed => (c1, Some(Failed(WriteError)))
        case WriteCut => (c1, Some(Abandoned))
  }

  // ---- Client calls --------------------------------------------------------------

  /** The loop on entry: the steer receiver moves from the client into the loop. */
  function Enter(c: Client, expectedId: nat, idleTimeout: Time, hardDeadline: Time,
                 maxDuration: Time, now: Time): Loop
  {
    Loop(c.(steerRx := false), Settings(expectedId, idleTimeout, maxDuration, c.steerRx),
         now + idleTimeout, hardDeadline, now, None, 0, [], 0, None)
  }

  /** The loop over `cut` iterations; a loop still running then is abandoned. */
  function ReadLoop(s: Loop, script: Script, cut: nat): Loop {
    var t := RunTo(s, script, cut);
    if t.exit.Some? then t else Propagate(t, Abandoned)
  }

  datatype Report = Stopped(reason: StopReason) | Raised(error: AcpError) | Cut | Panicked | Done

  function ParseStop(stop: StopField): Report {
    match stop
    case Known(reason) => Stopped(reason)
    case MissingStop => Raised(Protocol("missing stopReason"))
    case UnknownStop(_) => Raised(Protocol("unknown stopReason"))
  }

  function ReportOf(exit: Exit): Report {
    match exit
    case Responded(stop) => ParseStop(stop)
    case Failed(error) => Raised(error)
    case Abandoned => Cut
  }

  datatype PromptArgs = PromptArgs(
    now: Time, idleTimeout: Time, maxDuration: Time, write: WriteResult,
    entered: Time, script: Script, cut: nat)

  function PromptEnter(c: Client, p: PromptArgs): Loop {
    var c1 := c.(storedDeadline := Some(p.now + p.maxDuration), lastPromptId := Some(c.nextId),
                 nextId := c.nextId + 1, writes := c.writes + [PromptSent(c.nextId)]);
    Enter(c1, c.nextId, p.idleTimeout, p.now + p.maxDuration, p.maxDuration, p.entered)
  }

  predicate KeepsPrompt(exit: Exit) {
    exit.Abandoned? || (exit.Failed? && (exit.error.IdleTimeout? || exit.error.HardTimeout?))
  }

  function Prompt(c: Client, p: PromptArgs): (Client, Report) {
    match p.write
    case WriteFailed =>
      (c.(storedDeadline := None, lastPromptId := None, nextId := c.nextId + 1), Raised(WriteError))
    case WriteCut =>
      (c.(storedDeadline := Some(p.now + p.maxDuration), lastPromptId := Some(c.nextId),
          nextId := c.nextId + 1), Cut)
    case Wrote =>
      var s := ReadLoop(PromptEnter(c, p), p.script, p.cut);
      (if KeepsPrompt(s.exit.value) then s.client
       else s.client.(lastPromptId := None, storedDeadline := None),
       ReportOf(s.exit.value))
  }

  const CLEANUP := 30

  datatype CancelArgs = CancelArgs(
    now: Time, permissionWrite: WriteResult, cancelWrite: WriteResult,
    entered: Time, script: Script, cut: nat)

  function Max(a: Time, b: Time): Time { if a > b then a else b }

  /** Answer a permission request still waiting, as cancelled. */
  function CancelPermission(c: Client, write: WriteResult): (Client, Option<Report>) {
    if c.pendingPermission.None? then (c, None)
    else
      var p := c.pendingPermission.value;
      if c.responded then (c.(pendingPermission := None, responded := false), None)
      else match write
        case Wrote =>
          (c.(writes := c.writes + [PermissionReply(p.arrival, p.id, CancelledChoice)],
              pendingPermission := None, responded := false), None)
        case WriteFailed => (c, Some(Raised(WriteError)))
        case WriteCut => (c, Some(Cut))
  }

  function DrainEnter(c: Client, id: nat, hardDeadline: Time, a: CancelArgs): Loop {
    Enter(c.(writes := c.writes + [CancelSent]), id, CLEANUP, hardDeadline, Since(hardDeadline, a.entered), a.entered)
  }

  function CancelUntil(c: Client, hardDeadline: Time, a: CancelArgs): (Client, Report) {
    if c.lastPromptId.None? then (c, Raised(Protocol("no in-flight prompt")))
    else
      var (c1, stop) := CancelPermission(c.(lastPromptId := None), a.permissionWrite);
      if stop.Some? then (c1, stop.value)
      else match a.cancelWrite
        case WriteFailed => (c1, Raised(WriteError))
        case WriteCut => (c1, Cut)
        case Wrote =>
          var s := ReadLoop(DrainEnter(c1, c.lastPromptId.value, hardDeadline, a), a.script, a.cut);
          (s.client, ReportOf(s.exit.value))
  }

  /** The timed-out turn's remaining budget, but at least the cleanup floor. */
  function DrainDeadline(stored: Option<Time>, now: Time): Time {
    if stored.Some? then Max(stored.value, now + CLEANUP) else now + CLEANUP
  }

  function Cancel(c: Client, a: CancelArgs): (Client, Report) {
    CancelUntil(c.(storedDeadline := None), DrainDeadline(c.storedDeadline, a.now), a)
  }

  function CancelGrace(c: Client, grace: Time, a: CancelArgs): (Client, Report) {
    var (d, r) := CancelUntil(c.(storedDeadline := None), a.now + grace, a);
    (d, if r.Raised? && r.error.HardTimeout? then Raised(CancelDrainTimeout(grace)) else r)
  }

  datatype Call =
    | InstallSteer
    | ClearSteer
    | PromptCall(prompt: PromptArgs)
    | CancelCall(cancel: CancelArgs)
    | GraceCall(grace: Time, cancel: CancelArgs)

  function RunCall(c: Client, call: Call): (Client, Report) {
    match call
    case InstallSteer => if c.steerRx then (c, Panicked) else (c.(steerRx := true), Done)
    case ClearSteer => (c.(steerRx := false), Done)
    case PromptCall(p) => Prompt(c, p)
    case CancelCall(a) => Cancel(c, a)
    case GraceCall(g, a) => CancelGrace(c, g, a)
  }

  function RunCalls(c: Client, calls: seq<Call>): Client {
    if calls == [] then c else RunCall(RunCalls(c, calls[..|calls| - 1]), calls[|calls| - 1]).0
  }

  function Fresh(steeringSupported: bool): Client {
    Client(0, None, None, None, false, None, steeringSupported, false, [], [])
  }
}
