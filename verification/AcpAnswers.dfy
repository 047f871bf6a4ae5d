/**
 What the client does with each input: how an iteration of the read loop ends or goes on, what
 it writes in answer, and what each call reports, all in terms of the frame, the clock and the
 pipe.
 */
module AcpAnswers {
  import opened Wrappers
  import opened AcpProtocol
  import opened AcpGuarantees

  predicate InTime(s: Loop, e: Env) { s.exit.None? && e.now < NextDeadline(s) }

  predicate Reads(e: Env, m: Message) { e.line == Some(Json(m)) }

  // ---- The awaited response --------------------------------------------------------

  /** What the response to the awaited id makes of the loop. */
  function Answer(m: Message): Exit {
    match m.error
    case None => Responded(m.stop)
    case Some(RpcError(Some(code), text)) => Failed(AgentError(code, text))
    case Some(RpcError(None, text)) => Failed(AgentError(-32000, text))
  }

  predicate IsAnswer(exit: Exit) { exit.Responded? || (exit.Failed? && exit.error.AgentError?) }

  /** The awaited response, read in time, ends the loop with what it says. */
  lemma AwaitedResponseEnds(s: Loop, e: Env, m: Message)
    requires SteerInv(s) && InTime(s, e) && Reads(e, m)
    requires m.id == Some(Number(s.settings.expectedId)) && m.verb.NoMethod?
    ensures Step(s, e).exit == Some(Answer(m))
  {
    hide Dispatch, OnSteerResponse, OnSteer, TimeOut;
  }

  /** Nothing else ends it so. */
  lemma OnlyTheAwaitedResponseAnswers(s: Loop, e: Env)
    requires SteerInv(s) && s.exit.None? && Step(s, e).exit.Some? && IsAnswer(Step(s, e).exit.value)
    ensures e.now < NextDeadline(s) && ReadsResponseTo(e, s.settings.expectedId)
    ensures Step(s, e).exit.value == Answer(e.line.value.msg)
  {
    hide ChooseOption;
  }

  /** Iteration k of the run is still running, is in time, and reads the response to this id. */
  predicate AnsweredAt(s: Loop, script: Script, k: nat, id: nat) {
    InTime(RunTo(s, script, k), script(k)) && ReadsResponseTo(script(k), id)
  }

  lemma RunEndsWithAnswer(s: Loop, script: Script, k: nat, n: nat)
    requires Entered(s) && k < n && AnsweredAt(s, script, k, s.settings.expectedId)
    ensures RunTo(s, script, n).exit == Some(Answer(script(k).line.value.msg))
  {
    EnteredInv(s);
    RunKeepsSteerInv(s, script, k);
    LoopKeepsSettings(s, script, k);
    hide Step, SteerInv;
    AwaitedResponseEnds(RunTo(s, script, k), script(k), script(k).line.value.msg);
    assert RunTo(s, script, k + 1) == Step(RunTo(s, script, k), script(k));
    assert ExitsBy(s, script, k + 1);
    ExitIsFinal(s, script, k + 1, n);
  }

  /** A run ends with an answer exactly when some iteration of it reads, in time, the awaited response. */
  lemma RunAnswersWhen(s: Loop, script: Script, n: nat)
    requires Entered(s)
    ensures RunTo(s, script, n).exit.Some? && IsAnswer(RunTo(s, script, n).exit.value) <==>
      exists k: nat :: k < n && AnsweredAt(s, script, k, s.settings.expectedId)
  {
    hide Step, SteerInv, RunTo;
    var t := RunTo(s, script, n);
    if t.exit.Some? && IsAnswer(t.exit.value) {
      LastIteration(s, script, n);
      var k := t.steps - 1;
      EnteredInv(s);
      RunKeepsSteerInv(s, script, k);
      LoopKeepsSettings(s, script, k);
      OnlyTheAwaitedResponseAnswers(RunTo(s, script, k), script(k));
      assert AnsweredAt(s, script, k, s.settings.expectedId);
    }
    if k: nat :| k < n && AnsweredAt(s, script, k, s.settings.expectedId) {
      RunEndsWithAnswer(s, script, k, n);
    }
  }

  /** What a call makes of the awaited response. */
  function Reported(m: Message): Report {
    match m.error
    case Some(RpcError(Some(code), text)) => Raised(AgentError(code, text))
    case Some(RpcError(None, text)) => Raised(AgentError(-32000, text))
    case None =>
      match m.stop
      case Known(reason) => Stopped(reason)
      case MissingStop => Raised(Protocol("missing stopReason"))
      case UnknownStop(_) => Raised(Protocol("unknown stopReason"))
  }

  // ---- How an iteration goes on or ends --------------------------------------------

  /** The requests that are answered, and the notifications, let the loop go on. */
  predicate Handled(m: Message, write: WriteResult) {
    match m.verb
    case Named(RequestPermission(options)) => m.id.Some? && ChooseOption(options).Ok? && write.Wrote?
    case Named(OtherMethod(_)) => m.id.None? || write.Wrote?
    case _ => true
  }

  predicate GoesOn(s: Loop, e: Env) {
    && InTime(s, e)
    && match e.line
       case None => e.steer && s.settings.receiver && s.pending.None? && !(WritesSteer(s, e) && e.write.WriteCut?)
       case Some(Blank) => true
       case Some(BadJson) => true
       case Some(Json(m)) => !IsResponseTo(m, s.settings.expectedId) && Handled(m, e.write)
       case Some(_) => false
  }

  /** The loop goes on exactly on frames and steers that leave it something to wait for. */
  lemma StepGoesOnWhen(s: Loop, e: Env)
    requires SteerInv(s) && s.exit.None?
    ensures Step(s, e).exit.None? <==> GoesOn(s, e)
  {
    hide ChooseOption, Verdict;
  }

  /** The agent's exit, an oversized line and a read error each end the loop as themselves. */
  lemma ReadFailuresEnd(s: Loop, e: Env)
    requires InTime(s, e)
    ensures e.line == Some(Eof) ==> Step(s, e).exit == Some(Failed(AgentExited))
    ensures e.line == Some(TooLong) ==> Step(s, e).exit == Some(Failed(Protocol("line too long")))
    ensures e.line == Some(ReadFailed) ==> Step(s, e).exit == Some(Failed(Io))
  {
  }

  /** A timeout says how long the configured wait, or the silence, was. */
  lemma TimeoutsSayHowLong(s: Loop, e: Env)
    requires s.exit.None? && TimesOut(s, e)
    ensures var at := if e.now >= NextDeadline(s) then e.now else e.at;
      Step(s, e).exit == Some(Failed(
        if s.idleDeadline < s.hardDeadline then IdleTimeout(s.settings.idleTimeout)
        else HardTimeout(if at >= s.lastActivity then at - s.lastActivity else 0)))
  {
  }

  // ---- Permission requests ---------------------------------------------------------

  /** The option the source promises: the first allow_once, else the first reject_once or its default. */
  ghost predicate Decides(options: seq<PermissionOption>, o: string) {
    || (exists i: nat :: FirstOfKind(options, "allow_once", i) && options[i].optionId == Some(o))
    || (!HasKind(options, "allow_once")
        && exists i: nat :: FirstOfKind(options, "reject_once", i)
                            && (options[i].optionId == Some(o) || (options[i].optionId.None? && o == "reject")))
  }

  predicate AsksPermission(e: Env, m: Message) {
    Reads(e, m) && m.verb.Named? && m.verb.call.RequestPermission?
  }

  /** A permission request in time, with a pipe that works, is answered with the promised option. */
  lemma PermissionIsAnswered(s: Loop, e: Env, m: Message, o: string)
    requires InTime(s, e) && AsksPermission(e, m) && m.id.Some? && e.write.Wrote?
    requires m.verb.call.options.Some? && Decides(m.verb.call.options.value, o)
    ensures var t := Step(s, e);
      && t.client.writes == s.client.writes + [PermissionReply(|s.client.asked|, m.id.value, Selected(o))]
      && t.client.asked == s.client.asked + [m.id.value] && t.client.pendingPermission.None? && t.client.responded
      && t.exit.None? && t.pending == s.pending && t.client.nextId == s.client.nextId
  {
    PermissionPrefersAllow(m.verb.call.options.value);
    hide FindKind, FirstOfKind, HasKind, OnSteer, OnSteerResponse, TimeOut;
    assert ChooseOption(m.verb.call.options) == Ok(o);
    hide ChooseOption;
  }

  /** A request whose answer cannot be written is left waiting, for a cancel to answer. */
  lemma PermissionIsLeftWaiting(s: Loop, e: Env, m: Message, o: string)
    requires InTime(s, e) && AsksPermission(e, m) && m.id.Some? && !e.write.Wrote?
    requires m.verb.call.options.Some? && Decides(m.verb.call.options.value, o)
    ensures var t := Step(s, e);
      && t.client.writes == s.client.writes && t.client.asked == s.client.asked + [m.id.value]
      && t.client.pendingPermission == Some(Permission(|s.client.asked|, m.id.value)) && !t.client.responded
      && t.exit == Some(if e.write.WriteFailed? then Failed(WriteError) else Abandoned)
  {
    PermissionPrefersAllow(m.verb.call.options.value);
    hide FindKind, FirstOfKind, HasKind, OnSteer, OnSteerResponse, TimeOut;
    assert ChooseOption(m.verb.call.options) == Ok(o);
    hide ChooseOption;
  }

  /** No id, no options, an allow_once to choose without an id, or neither kind of option. */
  ghost predicate Unanswerable(m: Message)
    requires m.verb.Named? && m.verb.call.RequestPermission?
  {
    m.id.None? || m.verb.call.options.None?
    || forall o: string :: !Decides(m.verb.call.options.value, o)
  }

  /** A request that names no option to choose is refused: nothing is written and the call fails. */
  lemma PermissionIsRefused(s: Loop, e: Env, m: Message)
    requires InTime(s, e) && AsksPermission(e, m) && Unanswerable(m)
    ensures var t := Step(s, e);
      && t.client.writes == s.client.writes
      && t.exit.Some? && t.exit.value.Failed? && t.exit.value.error.Protocol?
      && t.client.asked == s.client.asked + (if m.id.Some? then [m.id.value] else [])
      && (m.id.Some? ==> t.client.pendingPermission == Some(Permission(|s.client.asked|, m.id.value)))
  {
    var options := m.verb.call.options;
    if options.Some? { ChosenDecides(options.value); }
    hide FindKind, FirstOfKind, HasKind, Decides, OnSteer, OnSteerResponse, TimeOut;
    assert m.id.None? || ChooseOption(options).Err?;
    hide ChooseOption;
  }

  lemma ChosenDecides(options: seq<PermissionOption>)
    ensures ChooseOption(Some(options)).Ok? ==> Decides(options, ChooseOption(Some(options)).value)
  {
    hide FindKind;
    if FindKind(options, "allow_once").Some? {
      FoundIsFirst(options, "allow_once");
    } else {
      assert !HasKind(options, "allow_once");
      if FindKind(options, "reject_once").Some? { FoundIsFirst(options, "reject_once"); }
    }
  }

  lemma FoundIsFirst(options: seq<PermissionOption>, kind: string)
    requires FindKind(options, kind).Some?
    ensures exists i: nat :: FirstOfKind(options, kind, i) && options[i] == FindKind(options, kind).value
  {
    hide FindKind;
    var i :| 0 <= i < |options| && options[i] == FindKind(options, kind).value && options[i].kind == Some(kind)
             && forall j :: 0 <= j < i ==> options[j].kind != Some(kind);
    assert FirstOfKind(options, kind, i);
  }

  // ---- Other requests --------------------------------------------------------------

  /** An unknown request is told so and the loop goes on; an unknown notification changes nothing. */
  lemma UnknownMethodIsRefused(s: Loop, e: Env, m: Message)
    requires InTime(s, e) && Reads(e, m) && m.verb.Named? && m.verb.call.OtherMethod?
    ensures m.id.Some? && e.write.Wrote? ==>
      Step(s, e).client == s.client.(writes := s.client.writes + [MethodNotFound(m.id.value)])
    ensures m.id.None? || !e.write.Wrote? ==> Step(s, e).client == s.client
    ensures m.id.Some? && e.write.WriteFailed? ==> Step(s, e).exit == Some(Failed(WriteError))
    ensures m.id.Some? && e.write.WriteCut? ==> Step(s, e).exit == Some(Abandoned)
  {
    hide HandlePermission, OnSteer, OnSteerResponse, TimeOut;
  }

  // ---- Steers ----------------------------------------------------------------------

  /** A steer with a transport goes out under the next id and is then in flight, or its failure is acked. */
  lemma SteerGoesOut(s: Loop, e: Env)
    requires InTime(s, e) && WritesSteer(s, e)
    ensures var t := Step(s, e);
      var transport := if s.client.activeRun.Some? then Goose(s.client.activeRun.value) else AcpExtension;
      && t.accepted == s.accepted + 1 && t.client.nextId == s.client.nextId + 1
      && (e.write.Wrote? ==>
            && t.client.writes == s.client.writes + [SteerSent(s.client.nextId, transport)]
            && t.pending == Some(InFlight(s.accepted, s.client.nextId, transport))
            && t.resolutions == s.resolutions && t.exit.None?)
      && (e.write.WriteFailed? ==>
            && t.client.writes == s.client.writes && t.pending.None? && t.exit.None?
            && t.resolutions == s.resolutions + [Resolution(s.accepted, None, Acked(Failure(TransportFailed)), s.steps)])
      && (e.write.WriteCut? ==>
            && t.client.writes == s.client.writes && t.pending.None? && t.exit == Some(Abandoned)
            && t.resolutions == s.resolutions + [Resolution(s.accepted, None, Dropped, s.steps)])
  {
    hide OnLine, TimeOut;
  }

  /** Without a transport a steer is refused at once: nothing is written and no id is used. */
  lemma SteerIsRefused(s: Loop, e: Env)
    requires InTime(s, e) && s.pending.None? && e.line.None? && e.steer && s.settings.receiver
    requires s.client.activeRun.None? && !s.client.steeringSupported
    ensures var t := Step(s, e);
      && t.client == s.client && t.pending.None? && t.exit.None? && t.accepted == s.accepted + 1
      && t.resolutions == s.resolutions + [Resolution(s.accepted, None, Acked(Failure(ExpectedRunIdMissing)), s.steps)]
  {
    hide OnLine, TimeOut;
  }

  /** What the response to a steer says to whoever sent it. */
  function SteerReport(transport: Transport, m: Message): SteerAck {
    match m.error
    case Some(RpcError(Some(code), text)) => Failure(AgentRejected(code, text))
    case Some(RpcError(None, text)) => Failure(AgentRejected(-1, text))
    case None =>
      if transport.Goose? || m.outcome == OutcomeText("injected") || m.outcome == OutcomeText("startedNewTurn") then Success
      else match m.outcome
        case NoOutcome => Failure(OutcomeRejected("<absent>"))
        case OutcomeText(text) => Failure(OutcomeRejected(text))
        case OutcomeOther(json) => Failure(OutcomeRejected(json))
  }

  /** The response to the steer in flight, read in time, is passed on and the loop goes on. */
  lemma SteerIsAnswered(s: Loop, e: Env)
    requires InTime(s, e) && s.pending.Some? && ReadsResponseTo(e, s.pending.value.id)
    ensures var t := Step(s, e); var p := s.pending.value;
      && t.exit.None? && t.pending.None? && t.client.writes == s.client.writes
      && t.resolutions ==
         s.resolutions + [Resolution(p.steer, s.pending, Acked(SteerReport(p.transport, e.line.value.msg)), s.steps)]
  {
    hide Dispatch, OnSteer, TimeOut;
  }

  // ---- Prompts ---------------------------------------------------------------------

  /** A prompt starts its loop on the id it sent, with its two budgets and the installed receiver. */
  lemma PromptStarts(c: Client, p: PromptArgs)
    ensures var s := PromptEnter(c, p);
      && Entered(s) && s.settings.expectedId == c.nextId && s.settings.idleTimeout == p.idleTimeout
      && s.settings.maxDuration == p.maxDuration && s.settings.receiver == c.steerRx
      && s.idleDeadline == p.entered + p.idleTimeout && s.lastActivity == p.entered
      && s.hardDeadline == p.now + p.maxDuration && s.client.storedDeadline == Some(p.now + p.maxDuration)
      && s.client.writes == c.writes + [PromptSent(c.nextId)]
      && s.client.nextId == c.nextId + 1 && s.client.lastPromptId == Some(c.nextId) && !s.client.steerRx
  {
  }

  lemma {:induction false} WritesOnlyGrow(s: Loop, script: Script, n: nat)
    ensures s.client.writes <= RunTo(s, script, n).client.writes
  {
    hide Iterate;
    if n > 0 {
      WritesOnlyGrow(s, script, n - 1);
      StepHasWireShape(RunTo(s, script, n - 1), script(n - 1));
    }
  }

  lemma LoopReports(s: Loop, script: Script, cut: nat, k: nat)
    requires Entered(s) && k < cut && AnsweredAt(s, script, k, s.settings.expectedId)
    ensures ReportOf(ReadLoop(s, script, cut).exit.value) == Reported(script(k).line.value.msg)
  {
    hide Step, RunTo;
    RunEndsWithAnswer(s, script, k, cut);
  }

  /** The answer to its own id is what a prompt reports, stop reasons and errors alike. */
  lemma PromptReportsAnswer(c: Client, p: PromptArgs, k: nat)
    requires p.write.Wrote? && k < p.cut && AnsweredAt(PromptEnter(c, p), p.script, k, c.nextId)
    ensures Prompt(c, p).1 == Reported(p.script(k).line.value.msg)
    ensures Prompt(c, p).0.lastPromptId.None? && Prompt(c, p).0.storedDeadline.None?
  {
    hide RunTo;
    LoopReports(PromptEnter(c, p), p.script, p.cut, k);
    RunEndsWithAnswer(PromptEnter(c, p), p.script, k, p.cut);
  }

  /** A prompt reports a stop reason exactly when its loop reads, in time, the response that names it. */
  lemma PromptStopsWhen(c: Client, p: PromptArgs, reason: StopReason)
    ensures Prompt(c, p).1 == Stopped(reason) <==>
      p.write.Wrote? && exists k: nat :: k < p.cut && AnsweredAt(PromptEnter(c, p), p.script, k, c.nextId)
                                         && Reported(p.script(k).line.value.msg) == Stopped(reason)
  {
    if p.write.Wrote? {
      var s := PromptEnter(c, p);
      hide RunTo, AnsweredAt;
      RunAnswersWhen(s, p.script, p.cut);
      if Prompt(c, p).1 == Stopped(reason) {
        assert IsAnswer(RunTo(s, p.script, p.cut).exit.value);
        var k: nat :| k < p.cut && AnsweredAt(s, p.script, k, s.settings.expectedId);
        PromptReportsAnswer(c, p, k);
      }
      if k: nat :| k < p.cut && AnsweredAt(s, p.script, k, c.nextId) && Reported(p.script(k).line.value.msg) == Stopped(reason) {
        PromptReportsAnswer(c, p, k);
      }
    }
  }

  /** Every other end of its loop is reported as it is, and a failed or cut write before the loop likewise. */
  lemma PromptReportsFailure(c: Client, p: PromptArgs)
    ensures p.write.WriteFailed? ==>
      Prompt(c, p) == (c.(nextId := c.nextId + 1, lastPromptId := None, storedDeadline := None), Raised(WriteError))
    ensures p.write.WriteCut? ==>
      Prompt(c, p) == (c.(nextId := c.nextId + 1, lastPromptId := Some(c.nextId),
                          storedDeadline := Some(p.now + p.maxDuration)), Cut)
    ensures p.write.Wrote? ==>
      && c.writes + [PromptSent(c.nextId)] <= Prompt(c, p).0.writes
      && var exit := ReadLoop(PromptEnter(c, p), p.script, p.cut).exit.value;
         && (exit.Failed? ==> Prompt(c, p).1 == Raised(exit.error))
         && (exit.Abandoned? ==> Prompt(c, p).1 == Cut)
    ensures Prompt(c, p).0.nextId > c.nextId
  {
    if p.write.Wrote? {
      WritesOnlyGrow(PromptEnter(c, p), p.script, p.cut);
      IdsOnlyGrow(PromptEnter(c, p), p.script, p.cut);
    }
  }

  lemma {:induction false} IdsOnlyGrow(s: Loop, script: Script, n: nat)
    ensures s.client.nextId <= RunTo(s, script, n).client.nextId
  {
    hide Iterate;
    if n > 0 {
      IdsOnlyGrow(s, script, n - 1);
      StepHasWireShape(RunTo(s, script, n - 1), script(n - 1));
    }
  }

  // ---- Receivers -------------------------------------------------------------------

  /** A receiver is installed once, taken by the next call that reads, and cleared at any time. */
  lemma ReceiverComesAndGoes(c: Client, p: PromptArgs)
    ensures RunCall(c, InstallSteer) == (if c.steerRx then (c, Panicked) else (c.(steerRx := true), Done))
    ensures RunCall(c, ClearSteer) == (c.(steerRx := false), Done)
    ensures Prompt(c, p).0.steerRx == (c.steerRx && !p.write.Wrote?)
  {
    if p.write.Wrote? { LoopKeepsSettings(PromptEnter(c, p), p.script, p.cut); }
  }

  // ---- Cancels ---------------------------------------------------------------------

  /** What a cancel owes the agent before its drain: an answer to a permission request left waiting. */
  function OwedReply(c: Client): seq<Wire> {
    match c.pendingPermission
    case Some(p) => [PermissionReply(p.arrival, p.id, CancelledChoice)]
    case None => []
  }

  /** The client when the cancel notification goes out. */
  function Cancelling(c: Client): Client {
    c.(lastPromptId := None, pendingPermission := None,
       responded := if c.pendingPermission.Some? then false else c.responded,
       writes := c.writes + OwedReply(c))
  }

  /** With nothing to cancel, nothing happens. */
  lemma NothingToCancel(c: Client, hardDeadline: Time, a: CancelArgs)
    requires c.lastPromptId.None?
    ensures CancelUntil(c, hardDeadline, a) == (c, Raised(Protocol("no in-flight prompt")))
  {
  }

  /**
   A cancel answers a waiting permission request as cancelled, then notifies the agent; where a
   write fails it goes no further and says so.
   */
  lemma CancelWrites(c: Client, hardDeadline: Time, a: CancelArgs)
    requires WireInv(c) && c.lastPromptId.Some?
    ensures var (d, r) := CancelUntil(c, hardDeadline, a);
      if c.pendingPermission.Some? && !a.permissionWrite.Wrote? then
        d == c.(lastPromptId := None) && r == (if a.permissionWrite.WriteFailed? then Raised(WriteError) else Cut)
      else if !a.cancelWrite.Wrote? then
        d == Cancelling(c) && r == (if a.cancelWrite.WriteFailed? then Raised(WriteError) else Cut)
      else c.writes + OwedReply(c) + [CancelSent] <= d.writes
  {
    hide Increasing, Echoes;
    var (c1, stop) := CancelPermission(c.(lastPromptId := None), a.permissionWrite);
    assert c.writes + [] == c.writes;
    if stop.None? {
      assert c1 == Cancelling(c);
      if a.cancelWrite.Wrote? {
        WritesOnlyGrow(DrainEnter(c1, c.lastPromptId.value, hardDeadline, a), a.script, a.cut);
      }
    }
  }

  /** The drain waits for the cancelled prompt's own id, idle for 30 seconds at most, on the time it has left. */
  lemma DrainStarts(c: Client, hardDeadline: Time, a: CancelArgs)
    requires WireInv(c) && c.lastPromptId.Some?
    ensures var s := DrainEnter(Cancelling(c), c.lastPromptId.value, hardDeadline, a);
      && Entered(s) && s.settings.expectedId == c.lastPromptId.value && s.settings.idleTimeout == 30
      && s.settings.maxDuration == (if hardDeadline >= a.entered then hardDeadline - a.entered else 0)
      && s.settings.receiver == c.steerRx && s.idleDeadline == a.entered + 30 && s.hardDeadline == hardDeadline
      && s.client.writes == c.writes + OwedReply(c) + [CancelSent]
      && s.client.lastPromptId.None? && s.client.pendingPermission.None? && !s.client.steerRx
  {
    hide Increasing, Echoes;
  }

  /** The answer to the cancelled prompt's id, read in time during the drain, is what the cancel reports. */
  lemma CancelReportsAnswer(c: Client, hardDeadline: Time, a: CancelArgs, k: nat)
    requires WireInv(c) && c.lastPromptId.Some? && a.cancelWrite.Wrote?
    requires c.pendingPermission.None? || a.permissionWrite.Wrote?
    requires k < a.cut
    requires AnsweredAt(DrainEnter(Cancelling(c), c.lastPromptId.value, hardDeadline, a), a.script, k, c.lastPromptId.value)
    ensures CancelUntil(c, hardDeadline, a).1 == Reported(a.script(k).line.value.msg)
  {
    hide Increasing, Echoes, RunTo, ReadLoop, AnsweredAt;
    var (c1, stop) := CancelPermission(c.(lastPromptId := None), a.permissionWrite);
    assert c.writes + [] == c.writes;
    assert stop.None? && c1 == Cancelling(c);
    DrainStarts(c, hardDeadline, a);
    LoopReports(DrainEnter(c1, c.lastPromptId.value, hardDeadline, a), a.script, a.cut, k);
  }

  /** The three budgets a drain can have. */
  lemma DrainBudgets(c: Client, grace: Time, a: CancelArgs)
    ensures var d := c.(storedDeadline := None);
      && Cancel(c, a) == CancelUntil(d, if c.storedDeadline.Some? && c.storedDeadline.value > a.now + 30
                                        then c.storedDeadline.value else a.now + 30, a)
      && CancelGrace(c, grace, a).0 == CancelUntil(d, a.now + grace, a).0
      && var r := CancelUntil(d, a.now + grace, a).1;
         CancelGrace(c, grace, a).1 == (if r.Raised? && r.error.HardTimeout? then Raised(CancelDrainTimeout(grace)) else r)
  {
    hide CancelUntil;
  }
}
