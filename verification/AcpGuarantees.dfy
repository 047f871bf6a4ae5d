/** What every run of the read loop and every sequence of client calls keeps. */
module AcpGuarantees {
  import opened Wrappers
  import opened AcpProtocol

  // ---- Steers: at most one in flight, each resolved exactly once -------------------

  /** A loop entered for an id that was already issued, as both callers do. */
  predicate Entered(s: Loop) {
    && s.settings.expectedId < s.client.nextId
    && s.pending.None? && s.accepted == 0 && s.resolutions == [] && s.steps == 0 && s.exit.None?
  }

  predicate Sent(s: Loop, p: InFlight) {
    && s.settings.expectedId < p.id < s.client.nextId
    && SteerSent(p.id, p.transport) in s.client.writes
  }

  predicate SteerInv(s: Loop) {
    && s.settings.expectedId < s.client.nextId
    && |s.resolutions| + (if s.pending.Some? then 1 else 0) == s.accepted
    && (forall i :: 0 <= i < |s.resolutions| ==> s.resolutions[i].steer == i)
    && (forall i :: 0 <= i < |s.resolutions| && s.resolutions[i].request.Some? ==>
                      s.resolutions[i].request.value.steer == i && Sent(s, s.resolutions[i].request.value))
    && (s.pending.Some? ==> s.pending.value.steer == |s.resolutions| && Sent(s, s.pending.value))
    && (s.exit.Some? ==> s.pending.None?)
  }

  /** Steer k's ack sender was used up by exactly one resolution. */
  ghost predicate ResolvedOnce(s: Loop, k: nat) {
    exists i :: 0 <= i < |s.resolutions| && s.resolutions[i].steer == k
                && forall j :: 0 <= j < |s.resolutions| && s.resolutions[j].steer == k ==> j == i
  }

  /** What one iteration can do to the steer accounts; `r` is the resolution it adds, if any. */
  predicate SteerShape(s: Loop, t: Loop) {
    && t.settings == s.settings && s.client.nextId <= t.client.nextId
    && (t.client.writes == s.client.writes
        || (|t.client.writes| == |s.client.writes| + 1 && t.client.writes[..|s.client.writes|] == s.client.writes))
    && (|| (t.pending == s.pending && t.accepted == s.accepted && t.resolutions == s.resolutions)
        || (s.pending.Some? && t.pending.None? && t.accepted == s.accepted && Resolves(s, t, s.pending.value.steer, s.pending))
        || (s.pending.None? && t.pending.None? && t.accepted == s.accepted + 1 && Resolves(s, t, s.accepted, None))
        || (&& s.pending.None? && t.pending.Some? && t.accepted == s.accepted + 1 && t.resolutions == s.resolutions
            && t.pending.value.steer == s.accepted && t.pending.value.id == s.client.nextId < t.client.nextId
            && t.client.writes == s.client.writes + [SteerSent(t.pending.value.id, t.pending.value.transport)]))
    && (t.exit.Some? ==> t.pending.None?)
  }

  predicate Resolves(s: Loop, t: Loop, steer: nat, request: Option<InFlight>) {
    && |t.resolutions| == |s.resolutions| + 1
    && t.resolutions == s.resolutions + [t.resolutions[|s.resolutions|]]
    && t.resolutions[|s.resolutions|].steer == steer
    && t.resolutions[|s.resolutions|].request == request
    && t.resolutions[|s.resolutions|].at == s.steps
  }

  lemma SteerArmShape(s: Loop, e: Env)
    requires s.exit.None? && s.pending.None?
    ensures SteerShape(s, OnSteer(s, e))
  {
  }

  lemma LeavingShape(s: Loop, c: Client, how: How, exit: Exit)
    requires s.exit.None? && s.client.nextId <= c.nextId && s.client.writes == c.writes
    ensures SteerShape(s, Settle(s.(client := c), how).(exit := Some(exit)))
  {
  }

  lemma DispatchShape(s: Loop, e: Env, id: Option<JsonId>, verb: Method)
    requires s.exit.None?
    ensures SteerShape(s, Dispatch(s, e, id, verb))
  {
    if verb.RequestPermission? {
      var (c, exit) := HandlePermission(s.client, id, verb.options, e.write);
      if exit.Some? { LeavingShape(s, c, Dropped, exit.value); }
    } else if verb.OtherMethod? && id.Some? && !e.write.Wrote? {
      LeavingShape(s, s.client, Dropped, if e.write.WriteFailed? then Failed(WriteError) else Abandoned);
    }
  }

  lemma MessageShape(s: Loop, e: Env, m: Message)
    requires s.exit.None?
    ensures SteerShape(s, OnMessage(s, e, m))
  {
    if m.verb.Named? {
      DispatchShape(s, e, m.id, m.verb.call);
    } else if !(s.pending.Some? && IsResponseTo(m, s.pending.value.id)) && IsResponseTo(m, s.settings.expectedId) {
      LeavingShape(s, s.client, Acked(PromptCompletedNeutral), OnMessage(s, e, m).exit.value);
    }
  }

  lemma StepHasSteerShape(s: Loop, e: Env)
    requires s.exit.None?
    ensures SteerShape(s, Step(s, e))
  {
    hide OnMessage, OnSteer;
    var t := Iterate(s, e);
    assert SteerShape(s, t) by {
      if e.now < NextDeadline(s) && e.line.Some? && e.line.value.Json? {
        MessageShape(s.(idleDeadline := e.at + s.settings.idleTimeout, lastActivity := e.at), e, e.line.value.msg);
      } else if e.now < NextDeadline(s) && e.line.None? && e.steer && s.settings.receiver && s.pending.None? {
        SteerArmShape(s, e);
      } else if t.exit.Some? {
        LeavingShape(s, s.client, Acked(PromptCompletedNeutral), t.exit.value);
      }
    }
  }

  lemma ShapeKeepsSteerInv(s: Loop, t: Loop)
    requires SteerInv(s) && SteerShape(s, t)
    ensures SteerInv(t)
  {
    assert forall w :: w in s.client.writes ==> w in t.client.writes by {
      assert s.client.writes == t.client.writes[..|s.client.writes|];
    }
  }

  lemma StepKeepsSteerInv(s: Loop, e: Env)
    requires SteerInv(s)
    ensures SteerInv(Step(s, e))
  {
    if s.exit.None? {
      StepHasSteerShape(s, e);
      ShapeKeepsSteerInv(s, Step(s, e));
    }
  }

  lemma {:induction false} RunKeepsSteerInv(s: Loop, script: Script, n: nat)
    requires SteerInv(s)
    ensures SteerInv(RunTo(s, script, n))
  {
    if n > 0 {
      RunKeepsSteerInv(s, script, n - 1);
      StepKeepsSteerInv(RunTo(s, script, n - 1), script(n - 1));
    }
  }

  /**
   In every run: the steer in flight (if any) is the last one accepted and unresolved, its
   id is fresh, every other accepted steer has been resolved exactly once, and an exit
   leaves none in flight.
   */
  lemma SteersResolvedExactlyOnce(s: Loop, script: Script, n: nat)
    requires Entered(s)
    ensures var t := RunTo(s, script, n);
      && (t.exit.Some? ==> t.pending.None?)
      && (t.pending.Some? ==>
            && t.pending.value.steer == t.accepted - 1
            && t.pending.value.id != s.settings.expectedId
            && (forall i :: 0 <= i < |t.resolutions| ==> t.resolutions[i].steer != t.pending.value.steer))
      && (forall k :: 0 <= k < t.accepted && t.pending.None? ==> ResolvedOnce(t, k))
      && (forall k :: 0 <= k < t.accepted - 1 ==> ResolvedOnce(t, k))
  {
    RunKeepsSteerInv(s, script, n);
    var t := RunTo(s, script, n);
    LoopKeepsSettings(s, script, n);
    forall k | 0 <= k < |t.resolutions| ensures ResolvedOnce(t, k) {
      assert t.resolutions[k].steer == k;
    }
  }

  lemma {:induction false} LoopKeepsSettings(s: Loop, script: Script, n: nat)
    ensures RunTo(s, script, n).settings == s.settings
    ensures RunTo(s, script, n).client.lastPromptId == s.client.lastPromptId
    ensures RunTo(s, script, n).client.steerRx == s.client.steerRx
    ensures RunTo(s, script, n).client.steeringSupported == s.client.steeringSupported
  {
    hide Iterate, HandlePermission;
    if n > 0 {
      LoopKeepsSettings(s, script, n - 1);
      var t, e := RunTo(s, script, n - 1), script(n - 1);
      StepHasWireShape(t, e);
      if t.exit.None? { StepHasSteerShape(t, e); }
    }
  }

  // ---- Why each steer was resolved -------------------------------------------------

  /** The frame that makes a `?` leave the loop: a permission request or an unknown request. */
  predicate Propagates(e: Env) {
    && e.line.Some? && e.line.value.Json?
    && e.line.value.msg.verb.Named?
    && (e.line.value.msg.verb.call.RequestPermission? || e.line.value.msg.verb.call.OtherMethod?)
  }

  /** A delivered steer: goose says nothing more, the extension must name a known outcome. */
  predicate Delivered(transport: Transport, m: Message) {
    && m.error.None?
    && (transport.Goose? || m.outcome == OutcomeText("injected") || m.outcome == OutcomeText("startedNewTurn"))
  }

  predicate ReadsResponseTo(e: Env, id: nat) {
    e.line.Some? && e.line.value.Json? && IsResponseTo(e.line.value.msg, id)
  }

  /** `last` says the resolution happened in the iteration that ended the loop. */
  predicate Cause(r: Resolution, e: Env, last: bool) {
    match r.how
    case Dropped => last && (Propagates(e) || (r.request.None? && e.write.WriteCut?))
    case Acked(PromptCompletedNeutral) => last && r.request.Some?
    case Acked(Failure(ExpectedRunIdMissing)) => r.request.None? && e.line.None? && e.steer
    case Acked(Failure(TransportFailed)) => r.request.None? && e.line.None? && e.steer && e.write.WriteFailed?
    case Acked(Failure(_)) =>
      r.request.Some? && ReadsResponseTo(e, r.request.value.id)
      && !Delivered(r.request.value.transport, e.line.value.msg)
    case Acked(Success) =>
      r.request.Some? && ReadsResponseTo(e, r.request.value.id)
      && Delivered(r.request.value.transport, e.line.value.msg)
  }

  predicate Justified(s: Loop, script: Script) {
    forall i :: 0 <= i < |s.resolutions| ==>
      && s.resolutions[i].at < s.steps
      && Cause(s.resolutions[i], script(s.resolutions[i].at),
               s.exit.Some? && s.resolutions[i].at == s.steps - 1)
  }

  predicate JustifiedStep(s: Loop, e: Env, t: Loop) {
    t.resolutions == s.resolutions
    || (|t.resolutions| == |s.resolutions| + 1 && Cause(t.resolutions[|s.resolutions|], e, t.exit.Some?))
  }

  lemma MessageIsJustified(s: Loop, e: Env, m: Message)
    requires s.exit.None? && e.line == Some(Json(m))
    ensures JustifiedStep(s, e, OnMessage(s, e, m))
  {
    hide HandlePermission;
  }

  lemma SteerArmIsJustified(s: Loop, e: Env)
    requires s.exit.None? && s.pending.None? && e.line.None? && e.steer
    ensures JustifiedStep(s, e, OnSteer(s, e))
  {
  }

  /** One iteration resolves at most one steer, for a reason visible in its own input. */
  lemma StepIsJustified(s: Loop, e: Env)
    requires s.exit.None?
    ensures JustifiedStep(s, e, Step(s, e))
  {
    hide OnMessage, OnSteer;
    if e.line.None? && e.steer && s.pending.None? { SteerArmIsJustified(s, e); }
    if e.line.Some? && e.line.value.Json? {
      MessageIsJustified(s.(idleDeadline := e.at + s.settings.idleTimeout, lastActivity := e.at), e, e.line.value.msg);
    }
  }

  lemma ExtendJustified(s: Loop, t: Loop, script: Script)
    requires Justified(s, script) && SteerShape(s, t) && s.exit.None? && t.steps == s.steps + 1
    requires JustifiedStep(s, script(s.steps), t)
    ensures Justified(t, script)
  {
    forall i | 0 <= i < |s.resolutions|
      ensures t.resolutions[i] == s.resolutions[i] && Cause(t.resolutions[i], script(t.resolutions[i].at), false)
    {
    }
  }

  /**
   Every resolution in every run has the right cause: a success or a rejection answers a
   response carrying that steer's own id, a neutral ack or a dropped sender happens only in
   the iteration that ends the loop, and a sender is dropped unsent only by a `?` on a
   permission or unknown-method frame (or by a write cut short together with the call).
   */
  lemma {:induction false} SteersResolvedForCause(s: Loop, script: Script, n: nat)
    requires Entered(s)
    ensures Justified(RunTo(s, script, n), script)
    ensures RunTo(s, script, n).exit.None? ==> RunTo(s, script, n).steps == n
  {
    hide Iterate;
    if n > 0 {
      SteersResolvedForCause(s, script, n - 1);
      RunKeepsSteerInv(s, script, n - 1);
      var t, e := RunTo(s, script, n - 1), script(n - 1);
      if t.exit.None? {
        StepIsJustified(t, e);
        StepHasSteerShape(t, e);
        ExtendJustified(t, Step(t, e), script);
      }
    }
  }

  /** A pending steer leaves the in-flight slot exactly when its own response is read or the loop ends. */
  lemma PendingEndsOnlyByResponseOrExit(s: Loop, e: Env)
    requires SteerInv(s) && s.exit.None? && s.pending.Some?
    ensures Step(s, e).pending != s.pending <==>
      Step(s, e).exit.Some? || ReadsResponseTo(e, s.pending.value.id)
    ensures Step(s, e).pending != s.pending ==> Step(s, e).pending.None?
  {
  }

  /** Every exit but a `?` (or an abandoned call) acks the steer that was in flight. */
  lemma ReturnsAckPending(s: Loop, e: Env)
    requires SteerInv(s) && s.exit.None? && s.pending.Some? && Step(s, e).exit.Some?
    ensures var t := Step(s, e);
      && |t.resolutions| == |s.resolutions| + 1
      && (t.resolutions[|s.resolutions|].how == Dropped <==>
            e.now < NextDeadline(s) && Propagates(e))
      && (t.resolutions[|s.resolutions|].how != Dropped ==>
            t.resolutions[|s.resolutions|].how == Acked(PromptCompletedNeutral))
  {
    hide HandlePermission;
  }

  /** A run that ended did so in its last counted iteration, from a state still running. */
  lemma {:induction false} LastIteration(s: Loop, script: Script, n: nat)
    requires Entered(s) && RunTo(s, script, n).exit.Some?
    ensures var t := RunTo(s, script, n);
      && 0 < t.steps <= n && RunTo(s, script, t.steps) == t
      && RunTo(s, script, t.steps - 1).exit.None?
      && t == Step(RunTo(s, script, t.steps - 1), script(t.steps - 1))
  {
    hide Iterate;
    var u := RunTo(s, script, n - 1);
    if u.exit.Some? {
      LastIteration(s, script, n - 1);
    } else {
      SteersResolvedForCause(s, script, n - 1);
    }
  }

  /** The steer arm is taken and has a transport to write to. */
  predicate WritesSteer(u: Loop, e: Env) {
    && u.pending.None? && e.line.None? && e.steer && u.settings.receiver
    && (u.client.activeRun.Some? || u.client.steeringSupported)
  }

  /**
   The iterations that end the loop with an ack sender unsent: in time, a permission or
   unknown-method frame with a steer in flight, or a steer's own write cut off.
   */
  predicate DropsSender(u: Loop, e: Env) {
    && e.now < NextDeadline(u)
    && ((u.pending.Some? && Propagates(e)) || (WritesSteer(u, e) && e.write.WriteCut?))
  }

  predicate SomeDropped(s: Loop) {
    exists i :: 0 <= i < |s.resolutions| && s.resolutions[i].how.Dropped?
  }

  /** An ending iteration with nothing in flight drops a sender only in the steer arm. */
  lemma EndingSteerArm(u: Loop, e: Env)
    requires u.exit.None? && u.pending.None? && Step(u, e).exit.Some?
    ensures Step(u, e).resolutions == u.resolutions +
      (if DropsSender(u, e) then [Resolution(u.accepted, None, Dropped, u.steps)] else [])
  {
    hide HandlePermission;
  }

  lemma NoneDroppedWhileRunning(u: Loop, script: Script)
    requires u.exit.None? && Justified(u, script)
    ensures !SomeDropped(u)
  {
    forall i | 0 <= i < |u.resolutions| ensures !u.resolutions[i].how.Dropped? {
      assert Cause(u.resolutions[i], script(u.resolutions[i].at), false);
    }
  }

  /**
   Over a whole run that ended: an accepted steer went without an explicit ack exactly when the
   iteration that ended the loop drops its sender. Every other return acks every steer.
   */
  lemma EveryReturnAcks(s: Loop, script: Script, n: nat)
    requires Entered(s) && RunTo(s, script, n).exit.Some?
    ensures var t := RunTo(s, script, n);
      && t.steps > 0
      && (SomeDropped(t) <==> DropsSender(RunTo(s, script, t.steps - 1), script(t.steps - 1)))
  {
    hide RunTo, Step, Justified, SteerInv, SomeDropped, DropsSender;
    LastIteration(s, script, n);
    var t := RunTo(s, script, n);
    var u, e := RunTo(s, script, t.steps - 1), script(t.steps - 1);
    SteersResolvedForCause(s, script, t.steps - 1);
    EnteredInv(s);
    RunKeepsSteerInv(s, script, t.steps - 1);
    NoneDroppedWhileRunning(u, script);
    EndingDrops(u, e);
  }

  lemma EnteredInv(s: Loop)
    requires Entered(s)
    ensures SteerInv(s)
  {
  }

  lemma EndingDrops(u: Loop, e: Env)
    requires SteerInv(u) && u.exit.None? && Step(u, e).exit.Some? && !SomeDropped(u)
    ensures SomeDropped(Step(u, e)) <==> DropsSender(u, e)
  {
    hide Step, NextDeadline, Propagates;
    var t := Step(u, e);
    if u.pending.Some? {
      ReturnsAckPending(u, e);
      StepHasSteerShape(u, e);
      hide SteerInv;
      var last := t.resolutions[|u.resolutions|];
      assert t.resolutions == u.resolutions + [last];
      assert last.how.Dropped? <==> DropsSender(u, e);
      DroppedAppend(u, t, last);
    } else {
      EndingSteerArm(u, e);
      if DropsSender(u, e) { DroppedAppend(u, t, Resolution(u.accepted, None, Dropped, u.steps)); }
    }
  }

  lemma DroppedAppend(u: Loop, t: Loop, last: Resolution)
    requires !SomeDropped(u) && t.resolutions == u.resolutions + [last]
    ensures SomeDropped(t) <==> last.how.Dropped?
  {
    if last.how.Dropped? { assert t.resolutions[|u.resolutions|] == last; }
  }

  /** A call that is abandoned drops exactly the sender in flight, if there is one. */
  lemma AbandonedCallDrops(s: Loop, script: Script, cut: nat)
    requires Entered(s) && RunTo(s, script, cut).exit.None?
    ensures SomeDropped(ReadLoop(s, script, cut)) <==> RunTo(s, script, cut).pending.Some?
  {
    var u, t := RunTo(s, script, cut), ReadLoop(s, script, cut);
    SteersResolvedForCause(s, script, cut);
    hide RunTo;
    NoneDroppedWhileRunning(u, script);
    if u.pending.Some? {
      DroppedAppend(u, t, Resolution(u.pending.value.steer, u.pending, Dropped, u.steps));
    }
  }

  const ANNOUNCE_RUN := Message(None, Named(SessionUpdate(SessionInfo(RunText("run")))), None, NoOutcome, MissingStop)

  /** At this moment a run is announced, then a steer arrives and is written. */
  ghost predicate StartsWithSteer(script: Script, now: Time) {
    && script(0) == Env(now, Some(Json(ANNOUNCE_RUN)), false, Wrote, now, now)
    && script(1) == Env(now, None, true, Wrote, now, now)
  }

  lemma SteerIsWritten(s: Loop, script: Script, now: Time)
    requires Entered(s) && s.settings.receiver && now < NextDeadline(s) && 0 < s.settings.idleTimeout
    requires StartsWithSteer(script, now)
    ensures var t := RunTo(s, script, 2);
      && t.exit.None? && t.settings == s.settings && t.accepted == 1 && t.resolutions == [] && t.steps == 2
      && t.pending == Some(InFlight(0, s.client.nextId, Goose("run")))
      && t.hardDeadline == s.hardDeadline && now < NextDeadline(t)
  {
    hide Step;
    assert RunTo(s, script, 0) == s;
    assert RunTo(s, script, 1) == Step(s, script(0));
    assert RunTo(s, script, 2) == Step(Step(s, script(0)), script(1));
    hide RunTo;
    AnnouncingStep(s, script(0));
    SteeringStep(Step(s, script(0)), script(1));
  }

  lemma AnnouncingStep(s: Loop, e: Env)
    requires s.exit.None? && e.now < NextDeadline(s) && e.line == Some(Json(ANNOUNCE_RUN))
    ensures Step(s, e) == s.(idleDeadline := e.at + s.settings.idleTimeout, lastActivity := e.at, steps := s.steps + 1,
                             client := s.client.(activeRun := Some("run")))
  {
    hide HandlePermission, OnSteer, OnSteerResponse, TimeOut, Propagate;
  }

  lemma SteeringStep(s: Loop, e: Env)
    requires s.exit.None? && e.now < NextDeadline(s) && s.client.activeRun.Some?
    requires WritesSteer(s, e) && e.write.Wrote?
    ensures var t := Step(s, e);
      && t == s.(client := t.client, steps := s.steps + 1, accepted := s.accepted + 1,
                 pending := Some(InFlight(s.accepted, s.client.nextId, Goose(s.client.activeRun.value))))
  {
    hide OnLine, TimeOut;
  }

  lemma PropagatingStep(s: Loop, e: Env, m: Message)
    requires s.exit.None? && e.now < NextDeadline(s) && s.pending.Some? && e.line == Some(Json(m))
    requires m.id.Some? && m.verb.Named? && e.write.WriteFailed?
    requires m.verb.call.OtherMethod? || (m.verb.call.RequestPermission? && ChooseOption(m.verb.call.options).Ok?)
    ensures var t := Step(s, e);
      && t.exit == Some(Failed(WriteError)) && t.accepted == s.accepted
      && t.resolutions == s.resolutions + [Resolution(s.pending.value.steer, s.pending, Dropped, s.steps)]
  {
    hide OnSteer, OnSteerResponse, TimeOut, ChooseOption;
  }

  /** Announce a run, accept a steer, then read `last`, whose answer cannot be written. */
  function BrokenPipe(last: Message, now: Time): Script {
    i => if i == 0 then Env(now, Some(Json(ANNOUNCE_RUN)), false, Wrote, now, now)
         else if i == 1 then Env(now, None, true, Wrote, now, now)
         else Env(now, Some(Json(last)), false, WriteFailed, now, now)
  }

  /**
   Both `?` exits do drop a sender, in every loop with a receiver, at every moment before its
   deadline: the steer was written, the pipe then breaks on answering the agent's request, and no
   ack is ever sent.
   */
  lemma PropagatingExitsDrop(s: Loop, last: Message, now: Time)
    requires Entered(s) && s.settings.receiver && now < NextDeadline(s) && 0 < s.settings.idleTimeout
    requires last.id.Some? && last.verb.Named?
    requires last.verb.call.OtherMethod?
             || (last.verb.call.RequestPermission? && ChooseOption(last.verb.call.options).Ok?)
    ensures var t := RunTo(s, BrokenPipe(last, now), 3);
      && t.exit == Some(Failed(WriteError)) && t.accepted == 1
      && t.resolutions == [Resolution(0, Some(InFlight(0, s.client.nextId, Goose("run"))), Dropped, 2)]
  {
    hide ChooseOption, Step;
    var script := BrokenPipe(last, now);
    SteerIsWritten(s, script, now);
    var t := RunTo(s, script, 2);
    assert RunTo(s, script, 3) == Step(t, script(2));
    PropagatingStep(t, script(2), last);
  }

  // ---- Deadlines -------------------------------------------------------------------

  /** The response that may extend a turn: a steer that landed in the turn being awaited. */
  predicate InjectedInto(transport: Transport, m: Message) {
    m.error.None? && (transport.Goose? || m.outcome == OutcomeText("injected"))
  }

  /**
   The hard deadline moves exactly when the pending steer's own response reports an
   injection before any deadline passed and renewal would extend it; it moves to a full
   budget from that moment, and only forward.
   */
  lemma HardDeadlineMovesOnlyOnInjection(s: Loop, e: Env)
    requires SteerInv(s) && s.exit.None?
    ensures Step(s, e).hardDeadline >= s.hardDeadline
    ensures Step(s, e).hardDeadline != s.hardDeadline <==>
      && e.now < NextDeadline(s) && s.pending.Some?
      && ReadsResponseTo(e, s.pending.value.id)
      && InjectedInto(s.pending.value.transport, e.line.value.msg)
      && e.later + s.settings.maxDuration > s.hardDeadline
    ensures Step(s, e).hardDeadline != s.hardDeadline ==>
      Step(s, e).hardDeadline == e.later + s.settings.maxDuration
  {
  }

  /** Iteration i reads the response of a steer that landed, in time and early enough to buy more. */
  predicate RenewsAt(s: Loop, script: Script, i: nat) {
    var t, e := RunTo(s, script, i), script(i);
    && t.exit.None? && e.now < NextDeadline(t) && t.pending.Some?
    && ReadsResponseTo(e, t.pending.value.id)
    && InjectedInto(t.pending.value.transport, e.line.value.msg)
    && e.later + s.settings.maxDuration > t.hardDeadline
  }

  /** The same at any iteration of any run, so neither a rejected nor a late steer buys time. */
  lemma DeadlineMovesOnlyOnInjectionInRuns(s: Loop, script: Script, n: nat)
    requires Entered(s)
    ensures RunTo(s, script, n + 1).hardDeadline != RunTo(s, script, n).hardDeadline <==> RenewsAt(s, script, n)
    ensures RenewsAt(s, script, n) ==>
      RunTo(s, script, n + 1).hardDeadline == script(n).later + s.settings.maxDuration
  {
    hide Iterate;
    RunKeepsSteerInv(s, script, n);
    LoopKeepsSettings(s, script, n);
    var t := RunTo(s, script, n);
    assert RunTo(s, script, n + 1) == Step(t, script(n));
    if t.exit.None? { HardDeadlineMovesOnlyOnInjection(t, script(n)); }
  }

  /** Over a whole run the deadline has moved exactly when some iteration renewed it. */
  lemma {:induction false} RunMovesDeadlineWhen(s: Loop, script: Script, n: nat)
    requires Entered(s)
    ensures RunTo(s, script, n).hardDeadline > s.hardDeadline <==> exists i: nat :: i < n && RenewsAt(s, script, i)
  {
    hide RenewsAt, Step;
    if n > 0 {
      RunMovesDeadlineWhen(s, script, n - 1);
      DeadlineMovesOnlyOnInjectionInRuns(s, script, n - 1);
      HardDeadlineNeverMovesBack(s, script, 0, n - 1);
      HardDeadlineNeverMovesBack(s, script, n - 1, n);
    } else {
      assert RunTo(s, script, 0) == s;
    }
  }

  lemma {:induction false} HardDeadlineNeverMovesBack(s: Loop, script: Script, m: nat, n: nat)
    requires m <= n
    ensures RunTo(s, script, m).hardDeadline <= RunTo(s, script, n).hardDeadline
    decreases n - m
  {
    hide Iterate;
    if m < n {
      HardDeadlineNeverMovesBack(s, script, m, n - 1);
      StepStoresDeadline(RunTo(s, script, n - 1), script(n - 1));
    }
  }

  predicate StoresDeadline(s: Loop, t: Loop) {
    && s.hardDeadline <= t.hardDeadline
    && t.client.storedDeadline ==
       (if t.hardDeadline == s.hardDeadline then s.client.storedDeadline else Some(t.hardDeadline))
  }

  lemma MessageStoresDeadline(s: Loop, e: Env, m: Message)
    ensures StoresDeadline(s, OnMessage(s, e, m))
  {
    hide Dispatch, Verdict;
    if m.verb.Named? { DispatchKeepsDeadline(s, e, m.id, m.verb.call); }
  }

  lemma DispatchKeepsDeadline(s: Loop, e: Env, id: Option<JsonId>, verb: Method)
    ensures var t := Dispatch(s, e, id, verb);
      t.hardDeadline == s.hardDeadline && t.client.storedDeadline == s.client.storedDeadline
  {
    hide ChooseOption;
  }

  lemma StepStoresDeadline(s: Loop, e: Env)
    ensures StoresDeadline(s, Step(s, e))
  {
    hide OnMessage;
    if e.line.Some? && e.line.value.Json? {
      MessageStoresDeadline(s.(idleDeadline := e.at + s.settings.idleTimeout, lastActivity := e.at), e, e.line.value.msg);
    }
  }

  /** The client's stored copy is the loop's deadline as soon as that has moved. */
  lemma {:induction false} StoredDeadlineFollows(s: Loop, script: Script, n: nat)
    ensures var t := RunTo(s, script, n);
      t.client.storedDeadline ==
      (if t.hardDeadline == s.hardDeadline then s.client.storedDeadline else Some(t.hardDeadline))
  {
    hide Iterate;
    if n > 0 {
      StoredDeadlineFollows(s, script, n - 1);
      HardDeadlineNeverMovesBack(s, script, 0, n - 1);
      StepStoresDeadline(RunTo(s, script, n - 1), script(n - 1));
    }
  }

  /** The moment a frame counts as activity: when it parsed, or later if it starts a tool call. */
  function ActivityOf(e: Env): Option<Time> {
    match e.line
    case Some(Json(m)) => Some(if m.verb == Named(SessionUpdate(ToolCall)) then e.later else e.at)
    case _ => None
  }

  /** A frame that parses as JSON, read in time, restarts the idle clock; nothing else touches it. */
  lemma IdleClockMovesOnJson(s: Loop, e: Env)
    ensures var heard := s.exit.None? && e.now < NextDeadline(s) && ActivityOf(e).Some?;
      && Step(s, e).lastActivity == (if heard then ActivityOf(e).value else s.lastActivity)
      && Step(s, e).idleDeadline == (if heard then ActivityOf(e).value + s.settings.idleTimeout else s.idleDeadline)
  {
  }

  /** When the agent was last heard in the first n frames. */
  function LastHeard(start: Time, script: Script, n: nat): Time {
    if n == 0 then start
    else if ActivityOf(script(n - 1)).Some? then ActivityOf(script(n - 1)).value
    else LastHeard(start, script, n - 1)
  }

  /**
   In every run the idle deadline is one idle timeout after the last frame that parsed as JSON,
   up to the iteration that ends the loop: blank and unparsable lines and steers do not keep a
   silent agent alive, and every JSON frame does.
   */
  lemma {:induction false} IdleDeadlineFollowsJson(s: Loop, script: Script, n: nat)
    requires s.idleDeadline == s.lastActivity + s.settings.idleTimeout
    requires RunTo(s, script, n).exit.None?
    ensures var t := RunTo(s, script, n);
      && t.lastActivity == LastHeard(s.lastActivity, script, n)
      && t.idleDeadline == LastHeard(s.lastActivity, script, n) + s.settings.idleTimeout
    ensures forall e: Env :: ExitsWith(Step(RunTo(s, script, n), e), true) ==>
      LastHeard(s.lastActivity, script, n) + s.settings.idleTimeout < RunTo(s, script, n).hardDeadline
  {
    hide Iterate, ActivityOf;
    LoopKeepsSettings(s, script, n);
    if n > 0 {
      var t, e := RunTo(s, script, n - 1), script(n - 1);
      assert RunTo(s, script, n) == Step(t, e);
      IdleDeadlineFollowsJson(s, script, n - 1);
      LoopKeepsSettings(s, script, n - 1);
      IdleClockMovesOnJson(t, e);
      RunningIsInTime(t, e);
    }
    forall e: Env | ExitsWith(Step(RunTo(s, script, n), e), true)
      ensures IdleFirst(RunTo(s, script, n))
    {
      StepTimesOut(RunTo(s, script, n), e);
    }
  }

  lemma RunningIsInTime(s: Loop, e: Env)
    requires Step(s, e).exit.None?
    ensures s.exit.None? && e.now < NextDeadline(s)
  {
  }

  predicate TimesOut(s: Loop, e: Env) {
    e.now >= NextDeadline(s) || (e.line.None? && !(e.steer && s.settings.receiver && s.pending.None?))
  }

  predicate ExitsWith(s: Loop, idle: bool) {
    s.exit.Some? && s.exit.value.Failed?
    && (if idle then s.exit.value.error.IdleTimeout? else s.exit.value.error.HardTimeout?)
  }

  /** Which timeout a run reports is fixed by which deadline was the earlier one. */
  lemma {:induction false} TimeoutKindIsEarlierDeadline(s: Loop, script: Script, n: nat)
    requires s.exit.None?
    ensures ExitsWith(RunTo(s, script, n), true) ==> IdleFirst(RunTo(s, script, n))
    ensures ExitsWith(RunTo(s, script, n), false) ==> !IdleFirst(RunTo(s, script, n))
  {
    if n > 0 {
      TimeoutKindIsEarlierDeadline(s, script, n - 1);
      var t := RunTo(s, script, n - 1);
      if t.exit.None? { StepTimesOut(t, script(n - 1)); }
    }
  }

  lemma StepTimesOut(s: Loop, e: Env)
    requires s.exit.None?
    ensures ExitsWith(Step(s, e), true) <==> TimesOut(s, e) && IdleFirst(s)
    ensures ExitsWith(Step(s, e), false) <==> TimesOut(s, e) && !IdleFirst(s)
    ensures TimesOut(s, e) ==> Step(s, e).idleDeadline == s.idleDeadline && Step(s, e).hardDeadline == s.hardDeadline
  {
  }

  // ---- Termination -----------------------------------------------------------------

  ghost predicate Late(script: Script, i: nat, t: Time) { script(i).now >= t }

  ghost predicate Passes(script: Script, t: Time) { exists i: nat :: Late(script, i, t) }

  /** The clock never goes back and passes every instant. */
  ghost predicate ClockRuns(script: Script) {
    && (forall i: nat, j: nat :: i <= j ==> script(i).now <= script(j).now)
    && (forall t: Time :: Passes(script, t))
  }

  ghost predicate NoSteersFrom(script: Script, k: nat) {
    forall i: nat :: i >= k ==> !script(i).steer
  }

  ghost predicate ExitsBy(s: Loop, script: Script, n: nat) { RunTo(s, script, n).exit.Some? }

  lemma {:induction false} QuietOnceIdle(s: Loop, script: Script, k: nat, n: nat)
    requires k <= n && NoSteersFrom(script, k) && RunTo(s, script, k).pending.None?
    ensures RunTo(s, script, n).pending.None?
    ensures RunTo(s, script, n).hardDeadline == RunTo(s, script, k).hardDeadline
  {
    if k < n { QuietOnceIdle(s, script, k, n - 1); }
  }

  lemma {:induction false} QuietWhilePending(s: Loop, script: Script, k: nat, n: nat)
    requires k <= n && (forall i: nat :: i >= k ==> RunTo(s, script, i).pending.Some?)
    ensures RunTo(s, script, n).hardDeadline == RunTo(s, script, k).hardDeadline
  {
    if k < n {
      QuietWhilePending(s, script, k, n - 1);
      assert RunTo(s, script, n).pending.Some?;
      PendingFixesDeadline(RunTo(s, script, n - 1), script(n - 1));
    }
  }

  lemma PendingFixesDeadline(s: Loop, e: Env)
    requires s.pending.Some? && Step(s, e).pending.Some?
    ensures Step(s, e).hardDeadline == s.hardDeadline
  {
  }

  lemma FixedDeadlineExits(s: Loop, script: Script, k: nat)
    requires ClockRuns(script)
    requires forall n: nat :: n >= k ==> RunTo(s, script, n).hardDeadline == RunTo(s, script, k).hardDeadline
    ensures exists n: nat :: ExitsBy(s, script, n)
  {
    var deadline := Max(RunTo(s, script, k).hardDeadline, script(k).now + 1);
    assert Passes(script, deadline);
    var i: nat :| Late(script, i, deadline);
    assert i > k;
    assert RunTo(s, script, i + 1) == Step(RunTo(s, script, i), script(i));
    assert ExitsBy(s, script, i + 1);
  }

  /**
   For every message stream, however dense, an advancing clock and finitely many steers
   make the loop end.
   */
  lemma LoopTerminates(s: Loop, script: Script, quiet: nat)
    requires ClockRuns(script) && NoSteersFrom(script, quiet)
    ensures exists n: nat :: ExitsBy(s, script, n)
  {
    if k: nat :| k >= quiet && RunTo(s, script, k).pending.None? {
      forall n: nat | n >= k ensures RunTo(s, script, n).hardDeadline == RunTo(s, script, k).hardDeadline {
        QuietOnceIdle(s, script, k, n);
      }
      FixedDeadlineExits(s, script, k);
    } else {
      forall n: nat | n >= quiet ensures RunTo(s, script, n).hardDeadline == RunTo(s, script, quiet).hardDeadline {
        QuietWhilePending(s, script, quiet, n);
      }
      FixedDeadlineExits(s, script, quiet);
    }
  }

  /** Past its exit a loop does nothing, so a longer run is the same run. */
  lemma {:induction false} ExitIsFinal(s: Loop, script: Script, m: nat, n: nat)
    requires m <= n && ExitsBy(s, script, m)
    ensures RunTo(s, script, n) == RunTo(s, script, m)
  {
    hide Iterate;
    if m < n { ExitIsFinal(s, script, m, n - 1); }
  }

  // ---- What every sequence of calls keeps ------------------------------------------

  function SentId(w: Wire): Option<nat> {
    if w.PromptSent? || w.SteerSent? then Some(w.id) else None
  }

  function RepliesTo(w: Wire): Option<nat> {
    if w.PermissionReply? then Some(w.arrival) else None
  }

  /** The numbers `key` picks out of the writes strictly increase and stay below `bound`. */
  predicate Increasing(ws: seq<Wire>, key: Wire -> Option<nat>, bound: nat) {
    && (forall i :: 0 <= i < |ws| && key(ws[i]).Some? ==> key(ws[i]).value < bound)
    && (forall i, j :: 0 <= i < j < |ws| && key(ws[i]).Some? && key(ws[j]).Some? ==>
                         key(ws[i]).value < key(ws[j]).value)
  }

  /** Request ids are never reused, and no permission request is answered twice. */
  predicate WireInv(c: Client) {
    && Increasing(c.writes, SentId, c.nextId)
    && (c.lastPromptId.Some? ==> c.lastPromptId.value < c.nextId)
    && (c.pendingPermission.Some? ==>
          && !c.responded && c.pendingPermission.value.arrival < |c.asked|
          && c.pendingPermission.value.id == c.asked[c.pendingPermission.value.arrival]
          && Increasing(c.writes, RepliesTo, c.pendingPermission.value.arrival))
    && Increasing(c.writes, RepliesTo, |c.asked|)
    && Echoes(c.writes, c.asked)
  }

  /** Each permission response carries the id of the request it answers. */
  predicate Echoes(ws: seq<Wire>, asked: seq<JsonId>) {
    forall i :: 0 <= i < |ws| && ws[i].PermissionReply? ==> ws[i].arrival < |asked| && ws[i].to == asked[ws[i].arrival]
  }

  /** A stored hard deadline exists exactly when a prompt id does. */
  predicate Paired(c: Client) { c.storedDeadline.Some? <==> c.lastPromptId.Some? }

  lemma AppendKeeps(ws: seq<Wire>, key: Wire -> Option<nat>, w: Wire, bound: nat, bound': nat)
    requires Increasing(ws, key, bound) && bound <= bound'
    requires key(w).Some? ==> bound <= key(w).value < bound'
    ensures Increasing(ws, key, bound') && Increasing(ws + [w], key, bound')
  {
  }

  /** What one iteration can do to the client's ids, permissions and writes. */
  predicate WireShape(c: Client, d: Client) {
    && d.lastPromptId == c.lastPromptId && d.steerRx == c.steerRx && d.steeringSupported == c.steeringSupported
    && c.nextId <= d.nextId
    && (d.writes == c.writes || Appends(c, d))
    && (if d.asked == c.asked then
          && d.pendingPermission == c.pendingPermission && d.responded == c.responded
          && (d.writes != c.writes ==> !d.writes[|c.writes|].PermissionReply?)
        else
          && |d.asked| == |c.asked| + 1 && d.asked[..|c.asked|] == c.asked
          && (d.writes != c.writes ==> d.writes[|c.writes|].PermissionReply?
                                       && d.writes[|c.writes|].arrival == |c.asked|
                                       && d.writes[|c.writes|].to == d.asked[|c.asked|])
          && (d.pendingPermission.Some? ==>
                && d.pendingPermission.value == Permission(|c.asked|, d.asked[|c.asked|])
                && !d.responded && d.writes == c.writes))
  }

  predicate Appends(c: Client, d: Client) {
    && |d.writes| == |c.writes| + 1
    && d.writes == c.writes + [d.writes[|c.writes|]]
    && (SentId(d.writes[|c.writes|]).Some? ==> SentId(d.writes[|c.writes|]).value == c.nextId < d.nextId)
  }

  lemma PermissionWireShape(c: Client, id: Option<JsonId>, options: Option<seq<PermissionOption>>, write: WriteResult)
    ensures WireShape(c, HandlePermission(c, id, options, write).0)
  {
  }

  lemma DispatchWireShape(s: Loop, e: Env, id: Option<JsonId>, verb: Method)
    ensures WireShape(s.client, Dispatch(s, e, id, verb).client)
  {
    if verb.RequestPermission? {
      PermissionWireShape(s.client, id, verb.options, e.write);
    }
  }

  lemma MessageWireShape(s: Loop, e: Env, m: Message)
    ensures WireShape(s.client, OnMessage(s, e, m).client)
  {
    if m.verb.Named? { DispatchWireShape(s, e, m.id, m.verb.call); }
  }

  lemma SteerArmWireShape(s: Loop, e: Env)
    ensures WireShape(s.client, OnSteer(s, e).client)
  {
  }

  lemma StepHasWireShape(s: Loop, e: Env)
    ensures WireShape(s.client, Step(s, e).client)
  {
    hide OnMessage, OnSteer;
    SteerArmWireShape(s, e);
    if e.line.Some? && e.line.value.Json? {
      MessageWireShape(s.(idleDeadline := e.at + s.settings.idleTimeout, lastActivity := e.at), e, e.line.value.msg);
    }
  }

  lemma ShapeKeepsWireInv(c: Client, d: Client)
    requires WireInv(c) && WireShape(c, d)
    ensures WireInv(d)
  {
    if d.writes != c.writes {
      var w := d.writes[|c.writes|];
      AppendKeeps(c.writes, SentId, w, c.nextId, d.nextId);
      AppendKeeps(c.writes, RepliesTo, w, |c.asked|, |d.asked|);
      if c.pendingPermission.Some? && d.asked == c.asked {
        AppendKeeps(c.writes, RepliesTo, w, c.pendingPermission.value.arrival, c.pendingPermission.value.arrival);
      }
    }
  }

  lemma StepKeepsWireInv(s: Loop, e: Env)
    requires WireInv(s.client)
    ensures WireInv(Step(s, e).client)
  {
    StepHasWireShape(s, e);
    ShapeKeepsWireInv(s.client, Step(s, e).client);
  }

  lemma {:induction false} RunKeepsWireInv(s: Loop, script: Script, n: nat)
    requires WireInv(s.client)
    ensures WireInv(RunTo(s, script, n).client)
  {
    if n > 0 {
      RunKeepsWireInv(s, script, n - 1);
      StepKeepsWireInv(RunTo(s, script, n - 1), script(n - 1));
    }
  }

  lemma PromptKeepsWireInv(c: Client, p: PromptArgs)
    requires WireInv(c)
    ensures WireInv(Prompt(c, p).0)
  {
    hide RunTo, Increasing;
    AppendKeeps(c.writes, SentId, PromptSent(c.nextId), c.nextId, c.nextId + 1);
    if p.write.Wrote? {
      AppendKeeps(c.writes, RepliesTo, PromptSent(c.nextId), |c.asked|, |c.asked|);
      if c.pendingPermission.Some? {
        AppendKeeps(c.writes, RepliesTo, PromptSent(c.nextId), c.pendingPermission.value.arrival,
                    c.pendingPermission.value.arrival);
      }
      RunKeepsWireInv(PromptEnter(c, p), p.script, p.cut);
    }
  }

  lemma CancelKeepsWireInv(c: Client, hardDeadline: Time, a: CancelArgs)
    requires WireInv(c)
    ensures WireInv(CancelUntil(c, hardDeadline, a).0)
  {
    hide RunTo, Increasing;
    if c.lastPromptId.Some? {
      var c0 := c.(lastPromptId := None);
      var (c1, stop) := CancelPermission(c0, a.permissionWrite);
      assert WireInv(c1) by {
        if c1.writes != c.writes {
          var p := c.pendingPermission.value;
          AppendKeeps(c.writes, RepliesTo, PermissionReply(p.arrival, p.id, CancelledChoice), p.arrival, |c.asked|);
          AppendKeeps(c.writes, SentId, PermissionReply(p.arrival, p.id, CancelledChoice), c.nextId, c.nextId);
        }
      }
      if stop.None? && a.cancelWrite.Wrote? {
        AppendKeeps(c1.writes, SentId, CancelSent, c1.nextId, c1.nextId);
        AppendKeeps(c1.writes, RepliesTo, CancelSent, |c1.asked|, |c1.asked|);
        RunKeepsWireInv(DrainEnter(c1, c.lastPromptId.value, hardDeadline, a), a.script, a.cut);
      }
    }
  }

  lemma CallKeepsWireInv(c: Client, call: Call)
    requires WireInv(c)
    ensures WireInv(RunCall(c, call).0)
  {
    hide Increasing, Prompt, CancelUntil;
    match call
    case InstallSteer =>
    case ClearSteer =>
    case PromptCall(p) => PromptKeepsWireInv(c, p);
    case CancelCall(a) => CancelKeepsWireInv(c.(storedDeadline := None), DrainDeadline(c.storedDeadline, a.now), a);
    case GraceCall(g, a) => CancelKeepsWireInv(c.(storedDeadline := None), a.now + g, a);
  }

  /**
   Over any sequence of calls, complete or abandoned: ids of prompts and steers strictly
   increase, and each permission request has at most one response on the wire.
   */
  lemma {:induction false} CallsKeepWireInv(steering: bool, calls: seq<Call>)
    ensures WireInv(RunCalls(Fresh(steering), calls))
  {
    if calls != [] {
      CallsKeepWireInv(steering, calls[..|calls| - 1]);
      CallKeepsWireInv(RunCalls(Fresh(steering), calls[..|calls| - 1]), calls[|calls| - 1]);
    }
  }

  lemma AnsweredAtMostOnce(steering: bool, calls: seq<Call>, i: nat, j: nat)
    requires i < j < |RunCalls(Fresh(steering), calls).writes|
    requires var ws := RunCalls(Fresh(steering), calls).writes; ws[i].PermissionReply? && ws[j].PermissionReply?
    ensures var ws := RunCalls(Fresh(steering), calls).writes; ws[i].arrival != ws[j].arrival
    ensures var c := RunCalls(Fresh(steering), calls);
      c.writes[i].arrival < |c.asked| && c.writes[i].to == c.asked[c.writes[i].arrival]
  {
    CallsKeepWireInv(steering, calls);
  }

  // ---- The stored deadline and the prompt id ---------------------------------------

  predicate IsCancel(call: Call) { call.CancelCall? || call.GraceCall? }

  /** No steer receiver is installed when a cancel starts to drain. */
  predicate DrainsWithoutSteers(c: Client, calls: seq<Call>) {
    forall i :: 0 <= i < |calls| && IsCancel(calls[i]) ==> !RunCalls(c, calls[..i]).steerRx
  }

  lemma {:induction false} NoReceiverNoPending(s: Loop, script: Script, n: nat)
    requires Entered(s) && !s.settings.receiver
    ensures RunTo(s, script, n).pending.None? && RunTo(s, script, n).hardDeadline == s.hardDeadline
  {
    if n > 0 {
      NoReceiverNoPending(s, script, n - 1);
      LoopKeepsSettings(s, script, n - 1);
    }
  }

  /** After a prompt call both are present (a timeout or an abandoned call) or both are gone. */
  lemma PromptPairs(c: Client, p: PromptArgs)
    ensures Paired(Prompt(c, p).0)
    ensures Prompt(c, p).0.lastPromptId.Some? ==> Prompt(c, p).0.lastPromptId == Some(c.nextId)
    ensures Prompt(c, p).0.lastPromptId.Some? <==>
      Prompt(c, p).1.Cut? ||
      (Prompt(c, p).1.Raised? && (Prompt(c, p).1.error.IdleTimeout? || Prompt(c, p).1.error.HardTimeout?))
    ensures p.write.Wrote? && Prompt(c, p).0.lastPromptId.Some? ==>
      Prompt(c, p).0.storedDeadline == Some(ReadLoop(PromptEnter(c, p), p.script, p.cut).hardDeadline)
  {
    if p.write.Wrote? {
      LoopKeepsSettings(PromptEnter(c, p), p.script, p.cut);
      StoredDeadlineFollows(PromptEnter(c, p), p.script, p.cut);
    }
  }

  /**
   A cancel always consumes the prompt id; it leaves a stored deadline behind exactly when a
   steer renewed the drain's own deadline.
   */
  lemma CancelConsumes(c: Client, hardDeadline: Time, a: CancelArgs)
    requires c.storedDeadline.None?
    ensures CancelUntil(c, hardDeadline, a).0.lastPromptId.None?
    ensures var c1 := CancelPermission(c.(lastPromptId := None), a.permissionWrite);
      CancelUntil(c, hardDeadline, a).0.storedDeadline.Some? <==>
      c.lastPromptId.Some? && c1.1.None? && a.cancelWrite.Wrote?
      && RunTo(DrainEnter(c1.0, c.lastPromptId.value, hardDeadline, a), a.script, a.cut).hardDeadline > hardDeadline
  {
    if c.lastPromptId.Some? {
      var (c1, stop) := CancelPermission(c.(lastPromptId := None), a.permissionWrite);
      if stop.None? && a.cancelWrite.Wrote? {
        var s := DrainEnter(c1, c.lastPromptId.value, hardDeadline, a);
        LoopKeepsSettings(s, a.script, a.cut);
        StoredDeadlineFollows(s, a.script, a.cut);
        HardDeadlineNeverMovesBack(s, a.script, 0, a.cut);
      }
    }
  }

  /** Call by call: a deadline stays behind exactly when the drain ran and one of its iterations renewed it. */
  lemma CancelLeavesDeadlineWhen(c: Client, hardDeadline: Time, a: CancelArgs)
    requires WireInv(c) && c.storedDeadline.None?
    ensures var (c1, stop) := CancelPermission(c.(lastPromptId := None), a.permissionWrite);
      CancelUntil(c, hardDeadline, a).0.storedDeadline.Some? <==>
      && c.lastPromptId.Some? && stop.None? && a.cancelWrite.Wrote?
      && exists i: nat :: i < a.cut && RenewsAt(DrainEnter(c1, c.lastPromptId.value, hardDeadline, a), a.script, i)
  {
    CancelConsumes(c, hardDeadline, a);
    if c.lastPromptId.Some? {
      var (c1, stop) := CancelPermission(c.(lastPromptId := None), a.permissionWrite);
      hide CancelUntil, RunTo, RenewsAt, Increasing, Echoes;
      RunMovesDeadlineWhen(DrainEnter(c1, c.lastPromptId.value, hardDeadline, a), a.script, a.cut);
    }
  }

  lemma CancelWithoutSteersPairs(c: Client, hardDeadline: Time, a: CancelArgs)
    requires WireInv(c) && !c.steerRx && c.storedDeadline.None?
    ensures CancelUntil(c, hardDeadline, a).0.lastPromptId.None?
    ensures CancelUntil(c, hardDeadline, a).0.storedDeadline.None?
  {
    CancelConsumes(c, hardDeadline, a);
    var (c1, stop) := CancelPermission(c.(lastPromptId := None), a.permissionWrite);
    if c.lastPromptId.Some? && stop.None? && a.cancelWrite.Wrote? {
      NoReceiverNoPending(DrainEnter(c1, c.lastPromptId.value, hardDeadline, a), a.script, a.cut);
    }
  }

  /**
   Across any sequence of prompts, timeouts, abandoned prompts and cancels whose drains run
   without a steer channel, a stored hard deadline exists exactly when a prompt id does.
   */
  lemma {:induction false} CallsKeepPaired(steering: bool, calls: seq<Call>)
    requires DrainsWithoutSteers(Fresh(steering), calls)
    ensures Paired(RunCalls(Fresh(steering), calls))
  {
    hide Prompt, CancelUntil, Increasing;
    if calls != [] {
      var before := calls[..|calls| - 1];
      assert forall i :: 0 <= i < |before| ==> before[..i] == calls[..i];
      CallsKeepPaired(steering, before);
      CallsKeepWireInv(steering, before);
      var c, last := RunCalls(Fresh(steering), before), calls[|calls| - 1];
      assert IsCancel(last) ==> !c.steerRx;
      match last
      case InstallSteer =>
      case ClearSteer =>
      case PromptCall(p) => PromptPairs(c, p);
      case CancelCall(a) =>
        CancelWithoutSteersPairs(c.(storedDeadline := None), DrainDeadline(c.storedDeadline, a.now), a);
      case GraceCall(g, a) => CancelWithoutSteersPairs(c.(storedDeadline := None), a.now + g, a);
    }
  }

  /** The clock of iteration i runs forward, into that of the next. */
  predicate Ticks(script: Script, i: nat) {
    script(i).now <= script(i).at <= script(i).later <= script(i + 1).now
  }

  /** A cancel under a clock that never goes back. */
  ghost predicate Timely(a: CancelArgs) {
    a.now <= a.entered <= a.script(0).now && forall i: nat :: Ticks(a.script, i)
  }

  /** A drain started now in which a run is announced, a steer arrives, and its response takes one tick. */
  function Renewal(id: nat, now: Time): CancelArgs {
    var response := Message(Some(Number(id)), NoMethod, None, NoOutcome, MissingStop);
    CancelArgs(now, Wrote, Wrote, now,
      i => if i == 0 then Env(now, Some(Json(ANNOUNCE_RUN)), false, Wrote, now, now)
           else if i == 1 then Env(now, None, true, Wrote, now, now)
           else if i == 2 then Env(now, Some(Json(response)), false, Wrote, now, now + 1)
           else Env(now + 1, None, false, Wrote, now + 1, now + 1), 3)
  }

  lemma RenewalIsTimely(id: nat, now: Time)
    ensures Timely(Renewal(id, now))
  {
    forall i: nat ensures Ticks(Renewal(id, now).script, i) {
    }
  }

  lemma RenewedDrain(s: Loop, now: Time)
    requires Entered(s) && s.settings.receiver && now < s.hardDeadline
    requires now < s.idleDeadline && 0 < s.settings.idleTimeout && s.settings.maxDuration == s.hardDeadline - now
    ensures RunTo(s, Renewal(s.client.nextId, now).script, 3).hardDeadline > s.hardDeadline
  {
    hide Step;
    var script := Renewal(s.client.nextId, now).script;
    SteerIsWritten(s, script, now);
    RunKeepsSteerInv(s, script, 2);
    var t := RunTo(s, script, 2);
    assert RunTo(s, script, 3) == Step(t, script(2));
    HardDeadlineMovesOnlyOnInjection(t, script(2));
  }

  /** With a prompt to cancel, a receiver installed and time left, that drain leaves a deadline and no prompt. */
  lemma SteerDuringDrainUnpairs(c: Client, hardDeadline: Time, now: Time)
    requires WireInv(c) && c.storedDeadline.None? && c.lastPromptId.Some? && c.steerRx && now < hardDeadline
    ensures !Paired(CancelUntil(c, hardDeadline, Renewal(c.nextId, now)).0)
  {
    var a := Renewal(c.nextId, now);
    CancelConsumes(c, hardDeadline, a);
    var (c1, stop) := CancelPermission(c.(lastPromptId := None), a.permissionWrite);
    hide CancelUntil, RunTo, Increasing, Echoes;
    RenewedDrain(DrainEnter(c1, c.lastPromptId.value, hardDeadline, a), now);
  }

  /**
   A cancel at `start` or later keeps deadline and prompt paired, however the agent and the
   steers behave, exactly when there is no prompt to cancel or no steer receiver installed at the
   call.
   */
  lemma CancelPairsWhen(c: Client, start: Time)
    requires WireInv(c)
    ensures (forall a: CancelArgs :: Timely(a) && start <= a.now ==> Paired(Cancel(c, a).0)) <==>
      c.lastPromptId.None? || !c.steerRx
    ensures c.lastPromptId.None? || !c.steerRx ==> forall a: CancelArgs :: Paired(Cancel(c, a).0)
  {
    hide CancelUntil, Increasing, Echoes;
    var d := c.(storedDeadline := None);
    if c.lastPromptId.None? || !c.steerRx {
      forall a: CancelArgs ensures Paired(Cancel(c, a).0) {
        QuietCancelPairs(d, DrainDeadline(c.storedDeadline, a.now), a);
      }
    } else {
      RenewalIsTimely(c.nextId, start);
      var a := Renewal(c.nextId, start);
      SteerDuringDrainUnpairs(d, DrainDeadline(c.storedDeadline, start), start);
      assert !Paired(Cancel(c, a).0);
    }
  }

  /** The same for a grace drain; one of no length at all also keeps them paired. */
  lemma GracePairsWhen(c: Client, grace: Time, start: Time)
    requires WireInv(c)
    ensures (forall a: CancelArgs :: Timely(a) && start <= a.now ==> Paired(CancelGrace(c, grace, a).0)) <==>
      c.lastPromptId.None? || !c.steerRx || grace == 0
    ensures c.lastPromptId.None? || !c.steerRx ==> forall a: CancelArgs :: Paired(CancelGrace(c, grace, a).0)
  {
    hide CancelUntil, Increasing, Echoes;
    var d := c.(storedDeadline := None);
    if c.lastPromptId.None? || !c.steerRx {
      forall a: CancelArgs ensures Paired(CancelGrace(c, grace, a).0) {
        QuietCancelPairs(d, a.now + grace, a);
      }
    } else if grace == 0 {
      forall a: CancelArgs | Timely(a) ensures Paired(CancelGrace(c, grace, a).0) {
        LateCancelPairs(d, a.now, a);
      }
    } else {
      RenewalIsTimely(c.nextId, start);
      var a := Renewal(c.nextId, start);
      SteerDuringDrainUnpairs(d, start + grace, start);
      assert !Paired(CancelGrace(c, grace, a).0);
    }
  }

  lemma QuietCancelPairs(c: Client, hardDeadline: Time, a: CancelArgs)
    requires WireInv(c) && c.storedDeadline.None? && (c.lastPromptId.None? || !c.steerRx)
    ensures Paired(CancelUntil(c, hardDeadline, a).0)
  {
    if c.lastPromptId.Some? { CancelWithoutSteersPairs(c, hardDeadline, a); }
  }

  /** A drain entered at or past its deadline ends before it can accept a steer. */
  lemma LateCancelPairs(c: Client, hardDeadline: Time, a: CancelArgs)
    requires WireInv(c) && c.storedDeadline.None? && hardDeadline <= a.script(0).now
    ensures Paired(CancelUntil(c, hardDeadline, a).0)
  {
    CancelConsumes(c, hardDeadline, a);
    if c.lastPromptId.Some? {
      var (c1, stop) := CancelPermission(c.(lastPromptId := None), a.permissionWrite);
      if stop.None? && a.cancelWrite.Wrote? {
        var s := DrainEnter(c1, c.lastPromptId.value, hardDeadline, a);
        hide CancelUntil, Increasing, Echoes;
        LateDrainEnds(s, a.script, a.cut);
      }
    }
  }

  lemma LateDrainEnds(s: Loop, script: Script, n: nat)
    requires s.exit.None? && s.hardDeadline <= script(0).now
    ensures RunTo(s, script, n).hardDeadline == s.hardDeadline
  {
    if n > 0 {
      assert RunTo(s, script, 1) == Step(s, script(0)) by { assert RunTo(s, script, 0) == s; }
      assert ExitsBy(s, script, 1);
      ExitIsFinal(s, script, 1, n);
    }
  }

  /** Such a client does come about: abandon a prompt in its write, install a receiver, and cancel. */
  lemma UnpairedIsReachable(steering: bool, now: Time)
    ensures var p := PromptArgs(now, 1, 1, WriteCut, now, Renewal(0, now).script, 0);
      !Paired(RunCalls(Fresh(steering), [PromptCall(p), InstallSteer, CancelCall(Renewal(1, now))]))
  {
    var p := PromptArgs(now, 1, 1, WriteCut, now, Renewal(0, now).script, 0);
    var calls := [PromptCall(p), InstallSteer, CancelCall(Renewal(1, now))];
    var c0 := Fresh(steering);
    assert calls[..2] == [PromptCall(p), InstallSteer] && calls[..2][..1] == [PromptCall(p)];
    assert [PromptCall(p)][..0] == [] && RunCalls(c0, []) == c0;
    CallsKeepWireInv(steering, calls[..2]);
    var c1 := RunCalls(c0, [PromptCall(p)]);
    assert c1 == Prompt(c0, p).0;
    var c2 := RunCalls(c0, calls[..2]);
    assert c2 == c1.(steerRx := true);
    hide CancelUntil, Increasing, Echoes;
    SteerDuringDrainUnpairs(c2.(storedDeadline := None), DrainDeadline(c2.storedDeadline, now), now);
  }

  /** A bounded grace drain never looks like a breach of the configured hard cap. */
  lemma GraceNeverReportsHardTimeout(c: Client, grace: Time, a: CancelArgs)
    ensures var r := CancelGrace(c, grace, a).1; !(r.Raised? && r.error.HardTimeout?)
    ensures var r := CancelUntil(c.(storedDeadline := None), a.now + grace, a).1;
      CancelGrace(c, grace, a).1 == Raised(CancelDrainTimeout(grace)) <==> r.Raised? && r.error.HardTimeout?
  {
    if c.lastPromptId.Some? {
      var (c1, stop) := CancelPermission(c.(storedDeadline := None, lastPromptId := None), a.permissionWrite);
      if stop.None? && a.cancelWrite.Wrote? {
        LoopNeverReportsDrainTimeout(DrainEnter(c1, c.lastPromptId.value, a.now + grace, a), a.script, a.cut);
      }
    }
  }

  lemma {:induction false} LoopNeverReportsDrainTimeout(s: Loop, script: Script, n: nat)
    requires s.exit.None?
    ensures var x := RunTo(s, script, n).exit; x.Some? && x.value.Failed? ==> !x.value.error.CancelDrainTimeout?
  {
    if n > 0 { LoopNeverReportsDrainTimeout(s, script, n - 1); }
  }

  // ---- Choosing a transport and an answer ------------------------------------------

  /** The run id an agent announced last in the first n frames, starting from what was known. */
  function LatestRun(known: Option<string>, script: Script, n: nat): Option<string> {
    if n == 0 then known
    else
      var before, e := LatestRun(known, script, n - 1), script(n - 1);
      match e.line
      case Some(Json(Message(_, Named(SessionUpdate(SessionInfo(RunText(run)))), _, _, _))) => Some(run)
      case Some(Json(Message(_, Named(SessionUpdate(SessionInfo(RunNull))), _, _, _))) => None
      case _ => before
  }

  lemma StepTracksRun(s: Loop, e: Env)
    requires Step(s, e).exit.None?
    ensures Step(s, e).client.activeRun == LatestRun(s.client.activeRun, _ => e, 1)
  {
    assert LatestRun(s.client.activeRun, _ => e, 0) == s.client.activeRun;
    hide OnMessage;
    if e.line.Some? && e.line.value.Json? {
      MessageTracksRun(s.(idleDeadline := e.at + s.settings.idleTimeout, lastActivity := e.at), e, e.line.value.msg);
    }
  }

  lemma MessageTracksRun(s: Loop, e: Env, m: Message)
    ensures OnMessage(s, e, m).client.activeRun ==
      match m.verb
      case Named(SessionUpdate(SessionInfo(run))) => NewRun(s.client.activeRun, run)
      case _ => s.client.activeRun
  {
    hide ChooseOption, Verdict, Renews;
  }

  /** While the loop runs, the run id it knows is the one announced last. */
  lemma {:induction false} RunIdIsFreshest(s: Loop, script: Script, n: nat)
    requires RunTo(s, script, n).exit.None?
    ensures RunTo(s, script, n).client.activeRun == LatestRun(s.client.activeRun, script, n)
  {
    hide Iterate;
    if n > 0 {
      var t, e := RunTo(s, script, n - 1), script(n - 1);
      assert RunTo(s, script, n) == Step(t, e);
      RunIdIsFreshest(s, script, n - 1);
      StepTracksRun(t, e);
      var one: Script := _ => e;
      assert LatestRun(t.client.activeRun, one, 0) == t.client.activeRun;
    }
  }

  /**
   A steer that goes out names the run announced last, or, when none is known, uses the
   extension, which the agent must have advertised.
   */
  lemma SteerTransportIsRight(s: Loop, script: Script, n: nat)
    requires RunTo(s, script, n).pending.None? && RunTo(s, script, n + 1).pending.Some?
    ensures var p := RunTo(s, script, n + 1).pending.value;
      match LatestRun(s.client.activeRun, script, n)
      case Some(run) => p.transport == Goose(run)
      case None => p.transport == AcpExtension && s.client.steeringSupported
  {
    var t, e := RunTo(s, script, n), script(n);
    assert RunTo(s, script, n + 1) == Step(t, e);
    RunIdIsFreshest(s, script, n);
    LoopKeepsSettings(s, script, n);
    hide RunTo, LatestRun;
  }

  predicate FirstOfKind(options: seq<PermissionOption>, kind: string, i: nat) {
    && i < |options| && options[i].kind == Some(kind)
    && forall j :: 0 <= j < i ==> options[j].kind != Some(kind)
  }

  predicate HasKind(options: seq<PermissionOption>, kind: string) {
    exists i :: 0 <= i < |options| && options[i].kind == Some(kind)
  }

  /**
   Answering a permission request: the first allow_once option decides whenever there is one,
   else the first reject_once; refused are exactly a deciding allow_once without an id and a
   list with neither kind.
   */
  lemma PermissionPrefersAllow(options: seq<PermissionOption>)
    ensures forall i: nat :: FirstOfKind(options, "allow_once", i) ==>
      (match options[i].optionId
       case Some(id) => ChooseOption(Some(options)) == Ok(id)
       case None => ChooseOption(Some(options)).Err?)
    ensures !HasKind(options, "allow_once") ==> forall i: nat :: FirstOfKind(options, "reject_once", i) ==>
      ChooseOption(Some(options)) == Ok(if options[i].optionId.Some? then options[i].optionId.value else "reject")
    ensures !HasKind(options, "allow_once") && !HasKind(options, "reject_once") ==> ChooseOption(Some(options)).Err?
  {
    hide FindKind;
    forall kind: string, i: nat | FirstOfKind(options, kind, i) ensures FindKind(options, kind) == Some(options[i]) {
      var found := FindKind(options, kind);
      assert found.Some?;
      var k :| 0 <= k < |options| && options[k] == found.value && options[k].kind == Some(kind)
               && forall j :: 0 <= j < k ==> options[j].kind != Some(kind);
      assert k == i;
    }
  }

  // ---- What the callers get --------------------------------------------------------

  lemma StepResult(s: Loop, e: Env)
    requires s.exit.None? && Step(s, e).exit.Some? && Step(s, e).exit.value.Responded?
    ensures ReadsResponseTo(e, s.settings.expectedId) && e.line.value.msg.error.None?
    ensures Step(s, e).exit.value.stop == e.line.value.msg.stop
  {
  }

  /**
   The result handed back is the one in the response to the awaited id: no steer response and
   no agent request that happens to reuse the id is ever taken for it.
   */
  lemma ResultIsAwaitedResponse(s: Loop, script: Script, n: nat)
    requires Entered(s)
    requires RunTo(s, script, n).exit.Some? && RunTo(s, script, n).exit.value.Responded?
    ensures var t := RunTo(s, script, n);
      && 0 < t.steps <= n
      && ReadsResponseTo(script(t.steps - 1), s.settings.expectedId)
      && script(t.steps - 1).line.value.msg.error.None?
      && t.exit.value.stop == script(t.steps - 1).line.value.msg.stop
  {
    LastIteration(s, script, n);
    var k := RunTo(s, script, n).steps - 1;
    LoopKeepsSettings(s, script, k);
    hide RunTo, Step;
    StepResult(RunTo(s, script, k), script(k));
  }

  /**
   A cancel after a timed-out prompt drains on what that turn had left, renewals included, and
   never on less than the 30 second floor.
   */
  lemma CancelInheritsBudget(c: Client, p: PromptArgs, a: CancelArgs)
    requires p.write.Wrote? && Prompt(c, p).0.lastPromptId.Some?
    ensures var d := Prompt(c, p).0;
      Cancel(d, a) == CancelUntil(d.(storedDeadline := None),
                                  Max(ReadLoop(PromptEnter(c, p), p.script, p.cut).hardDeadline, a.now + 30), a)
  {
    hide Prompt, CancelUntil, ReadLoop;
    PromptPairs(c, p);
  }
}
