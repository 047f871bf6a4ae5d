/**
 The client object: the fields `AcpClient` updates in place and the methods that update
 them, each proved to change the object exactly as the protocol's functions say.
 */
module AcpClientObject {
  import opened Wrappers
  import opened AcpProtocol
  import opened AcpGuarantees

  class AcpClient {
    var nextId: nat
    var lastPromptId: Option<nat>
    var currentHardDeadline: Option<Time>
    var pendingPermissionId: Option<JsonId>
    var permissionResponded: bool
    var activeRunId: Option<string>
    var steeringSupported: bool
    var steerRx: bool
    ghost var arrival: nat
    ghost var asked: seq<JsonId>
    ghost var writes: seq<Wire>

    ghost function View(): Client
      reads this
    {
      Client(nextId, lastPromptId, currentHardDeadline,
             if pendingPermissionId.Some? then Some(Permission(arrival, pendingPermissionId.value)) else None,
             permissionResponded, activeRunId, steeringSupported, steerRx, asked, writes)
    }

    constructor (steering: bool)
      ensures View() == Fresh(steering)
      ensures WireInv(View()) && Paired(View())
    {
      nextId, lastPromptId, currentHardDeadline := 0, None, None;
      pendingPermissionId, permissionResponded := None, false;
      activeRunId, steeringSupported, steerRx := None, steering, false;
      asked, writes := [], [];
    }

    method HandlePermissionRequest(id: Option<JsonId>, options: Option<seq<PermissionOption>>, write: WriteResult)
      returns (exit: Option<Exit>)
      modifies this
      ensures (View(), exit) == HandlePermission(old(View()), id, options, write)
    {
      if id.None? {
        return Some(Failed(Protocol("permission request missing id")));
      }
      pendingPermissionId, permissionResponded := id, false;
      arrival, asked := |asked|, asked + [id.value];
      var choice := ChooseOption(options);
      if choice.Err? {
        return Some(Failed(Protocol(choice.error)));
      }
      if !write.Wrote? {
        return Some(if write.WriteFailed? then Failed(WriteError) else Abandoned);
      }
      writes := writes + [PermissionReply(arrival, id.value, Selected(choice.value))];
      permissionResponded := true;
      pendingPermissionId := None;
      return None;
    }

    /** The steer arm of the select: pick a transport, write, and keep or release the ack sender. */
    method SteerArm(e: Env, steer: nat, ghost s: Loop)
      returns (pending: Option<InFlight>, ghost log: seq<Resolution>, exit: Option<Exit>)
      requires s.client == View() && s.pending.None? && s.exit.None? && s.accepted == steer
      modifies this
      ensures OnSteer(s, e) == s.(client := View(), pending := pending, accepted := s.accepted + 1,
                                  resolutions := log, exit := exit)
    {
      pending, log, exit := None, s.resolutions, None;
      if activeRunId.None? && !steeringSupported {
        log := log + [Resolution(steer, None, Acked(Failure(ExpectedRunIdMissing)), s.steps)];
        return;
      }
      var transport := if activeRunId.Some? then Goose(activeRunId.value) else AcpExtension;
      var id := nextId;
      nextId := nextId + 1;
      match e.write {
        case Wrote =>
          writes := writes + [SteerSent(id, transport)];
          pending := Some(InFlight(steer, id, transport));
        case WriteFailed =>
          log := log + [Resolution(steer, None, Acked(Failure(TransportFailed)), s.steps)];
        case WriteCut =>
          log := log + [Resolution(steer, None, Dropped, s.steps)];
          exit := Some(Abandoned);
      }
    }

    /** Notifications and agent-initiated requests; a failing write leaves the loop through `?`. */
    method DispatchVerb(e: Env, id: Option<JsonId>, verb: Method, ghost s: Loop)
      returns (toolCall: bool, exit: Option<Exit>)
      requires s.client == View() && s.exit.None?
      modifies this
      ensures exit.None? && toolCall ==>
        Dispatch(s, e, id, verb) ==
        s.(client := View(), idleDeadline := e.later + s.settings.idleTimeout, lastActivity := e.later)
      ensures exit.None? && !toolCall ==> Dispatch(s, e, id, verb) == s.(client := View())
      ensures exit.Some? ==> Dispatch(s, e, id, verb) == Propagate(s.(client := View()), exit.value)
    {
      toolCall, exit := false, None;
      match verb {
        case SessionUpdate(ToolCall) => toolCall := true;
        case SessionUpdate(SessionInfo(run)) => activeRunId := NewRun(activeRunId, run);
        case SessionUpdate(OtherUpdate) =>
        case GooseUsage =>
        case RequestPermission(options) =>
          hide HandlePermission;
          exit := HandlePermissionRequest(id, options, e.write);
        case OtherMethod(_) =>
          if id.Some? {
            if e.write.Wrote? {
              writes := writes + [MethodNotFound(id.value)];
            } else {
              exit := Some(if e.write.WriteFailed? then Failed(WriteError) else Abandoned);
            }
          }
      }
    }

    /** One parsed frame: a steer response, the awaited response, or something to dispatch. */
    method HandleMessage(e: Env, m: Message, expectedId: nat, idleTimeout: Time, maxDuration: Time,
                         deadline: Time, pendingSteer: Option<InFlight>, ghost s: Loop)
      returns (idleDeadline: Time, hardDeadline: Time, lastActivity: Time, pending: Option<InFlight>,
               ghost log: seq<Resolution>, exit: Option<Exit>)
      requires s.client == View() && s.exit.None? && s.pending == pendingSteer && s.hardDeadline == deadline
      requires s.settings.expectedId == expectedId && s.settings.idleTimeout == idleTimeout
      requires s.settings.maxDuration == maxDuration
      requires s.idleDeadline == e.at + idleTimeout && s.lastActivity == e.at
      modifies this
      ensures OnMessage(s, e, m) ==
        s.(client := View(), idleDeadline := idleDeadline, hardDeadline := hardDeadline,
           lastActivity := lastActivity, pending := pending, resolutions := log, exit := exit)
    {
      hide Dispatch, Verdict, Recognized;
      idleDeadline, hardDeadline, lastActivity := e.at + idleTimeout, deadline, e.at;
      pending, log, exit := pendingSteer, s.resolutions, None;
      if pending.Some? && IsResponseTo(m, pending.value.id) {
        var transport := pending.value.transport;
        log := Drain(pending, Acked(Verdict(transport, m)), s.steps, log);
        pending := None;
        if Renews(transport, m) && e.later + maxDuration > hardDeadline {
          hardDeadline := e.later + maxDuration;
          currentHardDeadline := Some(hardDeadline);
        }
      } else if IsResponseTo(m, expectedId) {
        log := Drain(pending, Acked(PromptCompletedNeutral), s.steps, log);
        pending := None;
        exit := Some(if m.error.Some? then Failed(PromptError(m.error.value)) else Responded(m.stop));
      } else if m.verb.Named? {
        var toolCall;
        toolCall, exit := DispatchVerb(e, m.id, m.verb.call, s);
        if exit.Some? {
          log := Drain(pending, Dropped, s.steps, log);
          pending := None;
        } else if toolCall {
          idleDeadline, lastActivity := e.later + idleTimeout, e.later;
        }
      }
    }

    /** The read loop, over `cut` iterations of the environment; `log` lists the steers it resolved. */
    method ReadUntilResponse(expectedId: nat, idleTimeout: Time, deadline: Time, maxDuration: Time, now: Time,
                             script: Script, cut: nat)
      returns (exit: Exit, ghost log: seq<Resolution>)
      modifies this
      ensures var s := ReadLoop(Enter(old(View()), expectedId, idleTimeout, deadline, maxDuration, now), script, cut);
        View() == s.client && Some(exit) == s.exit && log == s.resolutions
    {
      hide OnSteer, OnMessage, RunTo, ReadLoop;
      ghost var start := Enter(View(), expectedId, idleTimeout, deadline, maxDuration, now);
      NotStarted(start, script);
      ghost var s := start;
      var receiver := steerRx;
      steerRx := false;
      log := [];
      var pendingSteer: Option<InFlight> := None;
      var idleDeadline: Time, hardDeadline: Time, lastActivity: Time := now + idleTimeout, deadline, now;
      var accepted: nat, i: nat := 0, 0;
      while i < cut
        invariant i <= cut && s == RunTo(start, script, i)
        invariant s == Loop(View(), Settings(expectedId, idleTimeout, maxDuration, receiver),
                            idleDeadline, hardDeadline, lastActivity, pendingSteer, accepted, log, i, None)
      {
        var e := script(i);
        ghost var next := Step(s, e);
        Iterated(start, script, i, cut);
        var idleFiresFirst := idleDeadline < hardDeadline;
        var nextDeadline := if idleFiresFirst then idleDeadline else hardDeadline;
        if e.now >= nextDeadline || (e.line.None? && !(e.steer && receiver && pendingSteer.None?)) {
          log := Drain(pendingSteer, Acked(PromptCompletedNeutral), i, log);
          var silence := Since(if e.now >= nextDeadline then e.now else e.at, lastActivity);
          return Failed(if idleFiresFirst then IdleTimeout(idleTimeout) else HardTimeout(silence)), log;
        }
        if e.line.None? {
          var leave;
          pendingSteer, log, leave := SteerArm(e, accepted, s);
          accepted := accepted + 1;
          if leave.Some? { return leave.value, log; }
        } else if e.line.value.Json? {
          var leave;
          idleDeadline, hardDeadline, lastActivity, pendingSteer, log, leave :=
            HandleMessage(e, e.line.value.msg, expectedId, idleTimeout, maxDuration, hardDeadline, pendingSteer,
                          s.(idleDeadline := e.at + idleTimeout, lastActivity := e.at));
          if leave.Some? { return leave.value, log; }
        } else if !e.line.value.Blank? && !e.line.value.BadJson? {
          log := Drain(pendingSteer, Acked(PromptCompletedNeutral), i, log);
          return Failed(match e.line.value
                        case Eof => AgentExited
                        case TooLong => Protocol("line too long")
                        case _ => Io), log;
        }
        s := next;
        i := i + 1;
      }
      log := Drain(pendingSteer, Dropped, i, log);
      exit := Abandoned;
      CutShort(start, script, cut);
    }

    /** One more iteration either continues the run or is its last one, whatever the cut. */
    static lemma Iterated(start: Loop, script: Script, i: nat, cut: nat)
      requires i < cut
      ensures RunTo(start, script, i + 1) == Step(RunTo(start, script, i), script(i))
      ensures Step(RunTo(start, script, i), script(i)).exit.Some? ==>
        ReadLoop(start, script, cut) == Step(RunTo(start, script, i), script(i))
    {
      hide Iterate;
      if ExitsBy(start, script, i + 1) { ExitIsFinal(start, script, i + 1, cut); }
    }

    static lemma NotStarted(start: Loop, script: Script)
      ensures RunTo(start, script, 0) == start
    {
    }

    static lemma CutShort(start: Loop, script: Script, cut: nat)
      requires RunTo(start, script, cut).exit.None?
      ensures ReadLoop(start, script, cut) == Propagate(RunTo(start, script, cut), Abandoned)
    {
    }

    /** The resolution of the pending steer, if there is one, appended to the log. */
    static ghost function Drain(pending: Option<InFlight>, how: How, at: nat, log: seq<Resolution>): seq<Resolution> {
      if pending.None? then log else log + [Resolution(pending.value.steer, pending, how, at)]
    }

    method SessionPrompt(p: PromptArgs) returns (report: Report)
      modifies this
      ensures (View(), report) == Prompt(old(View()), p)
    {
      hide ReadLoop;
      currentHardDeadline := Some(p.now + p.maxDuration);
      lastPromptId := Some(nextId);
      var id := nextId;
      nextId := nextId + 1;
      match p.write {
        case WriteFailed =>
          lastPromptId, currentHardDeadline := None, None;
          return Raised(WriteError);
        case WriteCut => return Cut;
        case Wrote =>
      }
      writes := writes + [PromptSent(id)];
      var exit, _ := ReadUntilResponse(id, p.idleTimeout, p.now + p.maxDuration, p.maxDuration, p.entered, p.script, p.cut);
      if !KeepsPrompt(exit) {
        lastPromptId, currentHardDeadline := None, None;
      }
      report := ReportOf(exit);
    }

    method CancelWithCleanupUntil(hardDeadline: Time, a: CancelArgs) returns (report: Report)
      modifies this
      ensures (View(), report) == CancelUntil(old(View()), hardDeadline, a)
    {
      if lastPromptId.None? {
        return Raised(Protocol("no in-flight prompt"));
      }
      var promptId := lastPromptId.value;
      lastPromptId := None;
      if pendingPermissionId.Some? {
        if !permissionResponded {
          if !a.permissionWrite.Wrote? {
            return if a.permissionWrite.WriteFailed? then Raised(WriteError) else Cut;
          }
          writes := writes + [PermissionReply(arrival, pendingPermissionId.value, CancelledChoice)];
        }
        pendingPermissionId, permissionResponded := None, false;
      }
      if !a.cancelWrite.Wrote? {
        return if a.cancelWrite.WriteFailed? then Raised(WriteError) else Cut;
      }
      writes := writes + [CancelSent];
      var exit, _ := ReadUntilResponse(promptId, CLEANUP, hardDeadline, Since(hardDeadline, a.entered), a.entered, a.script, a.cut);
      report := ReportOf(exit);
    }

    method CancelWithCleanup(a: CancelArgs) returns (report: Report)
      modifies this
      ensures (View(), report) == Cancel(old(View()), a)
    {
      var stored := currentHardDeadline;
      currentHardDeadline := None;
      var minimum := a.now + CLEANUP;
      var hardDeadline := if stored.Some? && stored.value > minimum then stored.value else minimum;
      report := CancelWithCleanupUntil(hardDeadline, a);
    }

    method CancelWithCleanupGrace(grace: Time, a: CancelArgs) returns (report: Report)
      modifies this
      ensures (View(), report) == CancelGrace(old(View()), grace, a)
      ensures !(report.Raised? && report.error.HardTimeout?)
    {
      currentHardDeadline := None;
      report := CancelWithCleanupUntil(a.now + grace, a);
      if report.Raised? && report.error.HardTimeout? {
        report := Raised(CancelDrainTimeout(grace));
      }
    }

    /** Panics (reported, state unchanged) when a receiver is already installed. */
    method InstallSteerRx() returns (report: Report)
      modifies this
      ensures (View(), report) == RunCall(old(View()), InstallSteer)
    {
      if steerRx { return Panicked; }
      steerRx := true;
      report := Done;
    }

    method ClearSteerRx()
      modifies this
      ensures View() == RunCall(old(View()), ClearSteer).0
    {
      steerRx := false;
    }

    /** Any sequence of calls on one client: the object follows the protocol and keeps its invariants. */
    method Serve(calls: seq<Call>)
      requires exists steering :: View() == Fresh(steering)
      modifies this
      ensures View() == RunCalls(old(View()), calls)
      ensures WireInv(View())
      ensures DrainsWithoutSteers(old(View()), calls) ==> Paired(View())
    {
      ghost var steering :| View() == Fresh(steering);
      ghost var start := View();
      for i := 0 to |calls|
        invariant View() == RunCalls(start, calls[..i])
      {
        hide Prompt, Cancel, CancelGrace;
        assert calls[..i + 1][..i] == calls[..i];
        match calls[i] {
          case InstallSteer => var _ := InstallSteerRx();
          case ClearSteer => ClearSteerRx();
          case PromptCall(p) => var _ := SessionPrompt(p);
          case CancelCall(a) => var _ := CancelWithCleanup(a);
          case GraceCall(g, a) => var _ := CancelWithCleanupGrace(g, a);
        }
      }
      assert calls[..|calls|] == calls;
      CallsKeepWireInv(steering, calls);
      if DrainsWithoutSteers(start, calls) { CallsKeepPaired(steering, calls); }
    }
  }
}
