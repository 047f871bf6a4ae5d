/**
 Per-turn usage deltas. The tracker keeps one baseline per session and a pending record; the
 history functions say what it should report by looking at the whole past instead.
 */
module UsageTracking {
  import opened Wrappers

  type Session = string

  datatype Payload = Payload(
    input: nat, output: nat, cost: Option<real>, total: Option<nat>, cached: Option<nat>, model: Option<string>)

  datatype SessionState = SessionState(
    publishedSeq: nat, lastInput: nat, lastOutput: nat, lastCost: Option<real>,
    lastTotal: Option<nat>, lastCached: Option<nat>)

  datatype TurnUsage = TurnUsage(
    session: Session, turnSeq: nat, reliable: bool,
    turnInput: Option<nat>, turnOutput: Option<nat>, turnTotal: Option<nat>,
    turnCost: Option<real>, turnCached: Option<nat>,
    cumulative: Payload)

  // ---- What should be reported, from the history alone -----------------------------

  datatype Op = Begin(session: Session) | Notify(session: Session, payload: Payload) | Take

  function Front(h: seq<Op>): seq<Op> requires h != [] { h[..|h| - 1] }

  function Last(h: seq<Op>): Op requires h != [] { h[|h| - 1] }

  /** The session whose turn is open: the last one begun and not yet taken. */
  function InFlight(h: seq<Op>): Option<Session> {
    if h == [] then None
    else match Last(h)
      case Begin(s) => Some(s)
      case Take => None
      case Notify(_, _) => InFlight(Front(h))
  }

  /** The last notification of the open turn for its own session. */
  function Snapshot(h: seq<Op>): (r: Option<Payload>)
    ensures r.Some? ==> InFlight(h).Some?
  {
    if h == [] then None
    else match Last(h)
      case Notify(s, p) => if InFlight(Front(h)) == Some(s) then Some(p) else Snapshot(Front(h))
      case _ => None
  }

  /** Does the last operation publish a record of session s? */
  predicate Publishes(h: seq<Op>, s: Session) {
    h != [] && Last(h).Take? && InFlight(Front(h)) == Some(s) && Snapshot(Front(h)).Some?
  }

  /** How many records of s have been published. */
  function Published(h: seq<Op>, s: Session): nat {
    if h == [] then 0 else Published(Front(h), s) + (if Publishes(h, s) then 1 else 0)
  }

  /** What s was last committed at: its last published snapshot or a later one outside any turn. */
  function Baseline(h: seq<Op>, s: Session): Option<Payload> {
    if h == [] then None
    else if Publishes(h, s) then Snapshot(Front(h))
    else if Last(h).Notify? && Last(h).session == s && InFlight(Front(h)).None? then Some(Last(h).payload)
    else Baseline(Front(h), s)
  }

  function Minus(current: Option<nat>, base: Option<nat>): Option<nat> {
    if current.Some? && base.Some? && current.value >= base.value then Some(current.value - base.value) else None
  }

  /** Tokens never fell since the baseline, and neither did a cost reported at both ends. */
  predicate Reliable(base: Option<Payload>, p: Payload) {
    && base.Some? && base.value.input <= p.input && base.value.output <= p.output
    && (base.value.cost.Some? && p.cost.Some? ==> base.value.cost.value <= p.cost.value)
  }

  function Measure(s: Session, seqNo: nat, base: Option<Payload>, p: Payload): TurnUsage {
    var ok := Reliable(base, p);
    TurnUsage(s, seqNo, ok,
              if ok then Some(p.input - base.value.input) else None,
              if ok then Some(p.output - base.value.output) else None,
              if base.Some? then Minus(p.total, base.value.total) else None,
              if ok && p.cost.Some? && base.value.cost.Some? then Some(p.cost.value - base.value.cost.value) else None,
              if base.Some? then Minus(p.cached, base.value.cached) else None,
              p)
  }

  /** What a `take` after history h must return. */
  function Report(h: seq<Op>): Option<TurnUsage> {
    if Snapshot(h).None? then None
    else
      var s := InFlight(h).value;
      Some(Measure(s, Published(h, s) + 1, Baseline(h, s), Snapshot(h).value))
  }

  // ---- The tracker -----------------------------------------------------------------

  function StateOf(h: seq<Op>, s: Session): Option<SessionState> {
    if Baseline(h, s).None? then None
    else
      var b := Baseline(h, s).value;
      Some(SessionState(Published(h, s), b.input, b.output, b.cost, b.total, b.cached))
  }

  function At(m: map<Session, SessionState>, s: Session): Option<SessionState> {
    if s in m then Some(m[s]) else None
  }

  class UsageTracker {
    var sessions: map<Session, SessionState>
    var inFlightSession: Option<Session>
    var pending: Option<TurnUsage>
    ghost var history: seq<Op>

    ghost predicate Valid()
      reads this
    {
      && inFlightSession == InFlight(history)
      && pending == Report(history)
      && (forall s :: At(sessions, s) == StateOf(history, s))
    }

    constructor ()
      ensures Valid() && history == []
    {
      sessions, inFlightSession, pending, history := map[], None, None, [];
    }

    method BeginTurn(session: Session)
      requires Valid()
      modifies this
      ensures Valid() && history == old(history) + [Begin(session)]
    {
      inFlightSession := Some(session);
      pending := None;
      history := history + [Begin(session)];
      Extends(old(history), Begin(session));
    }

    method Record(session: Session, payload: Payload)
      requires Valid()
      modifies this
      ensures Valid() && history == old(history) + [Notify(session, payload)]
    {
      ghost var op := Notify(session, payload);
      Extends(history, op);
      assert At(sessions, session) == StateOf(history, session);
      NoBaselineNoRecord(history, session);
      var isInFlight := inFlightSession == Some(session);
      var reliable, input, output, cost := false, None, None, None;
      var turnSeq := 1;
      var total, cached := None, None;
      if session in sessions {
        var prev := sessions[session];
        turnSeq := prev.publishedSeq + 1;
        if !(payload.input < prev.lastInput || payload.output < prev.lastOutput) {
          var costFell := payload.cost.Some? && prev.lastCost.Some? && !(payload.cost.value >= prev.lastCost.value);
          if !costFell {
            reliable := true;
            input, output := Some(payload.input - prev.lastInput), Some(payload.output - prev.lastOutput);
            if payload.cost.Some? && prev.lastCost.Some? {
              cost := Some(payload.cost.value - prev.lastCost.value);
            }
          }
        }
        total, cached := Minus(payload.total, prev.lastTotal), Minus(payload.cached, prev.lastCached);
      }
      if isInFlight {
        pending := Some(TurnUsage(session, turnSeq, reliable, input, output, total, cost, cached, payload));
      } else if inFlightSession.None? {
        sessions := sessions[session :=
          SessionState(if session in sessions then sessions[session].publishedSeq else 0,
                       payload.input, payload.output, payload.cost, payload.total, payload.cached)];
      }
      history := history + [op];
      forall s ensures At(sessions, s) == StateOf(history, s) {
        assert At(old(sessions), s) == StateOf(old(history), s);
      }
    }

    method TakeUsage() returns (record: Option<TurnUsage>)
      requires Valid()
      modifies this
      ensures Valid() && history == old(history) + [Take]
      ensures record == Report(old(history))
    {
      Extends(history, Take);
      inFlightSession := None;
      record := pending;
      pending := None;
      if record.Some? {
        var r := record.value;
        var c := r.cumulative;
        sessions := sessions[r.session := SessionState(r.turnSeq, c.input, c.output, c.cost, c.total, c.cached)];
      }
      history := history + [Take];
      forall s ensures At(sessions, s) == StateOf(history, s) {
        assert At(old(sessions), s) == StateOf(old(history), s);
      }
    }

    /** Replaying any history on a fresh tracker: each `take` reports what the history says. */
    method Replay(ops: seq<Op>) returns (published: seq<TurnUsage>)
      requires Valid() && history == []
      modifies this
      ensures Valid() && history == ops
      ensures published == Reports(ops)
    {
      published := [];
      for i := 0 to |ops|
        invariant Valid() && history == ops[..i]
        invariant published == Reports(ops[..i])
      {
        assert ops[..i + 1] == ops[..i] + [ops[i]];
        assert Front(ops[..i + 1]) == ops[..i];
        match ops[i] {
          case Begin(s) => BeginTurn(s);
          case Notify(s, p) => Record(s, p);
          case Take =>
            var r := TakeUsage();
            if r.Some? { published := published + [r.value]; }
        }
      }
      assert ops[..|ops|] == ops;
    }
  }

  /** One more operation, spelled out for each history function. */
  lemma Extends(h: seq<Op>, op: Op)
    ensures var g := h + [op];
      && g != [] && Front(g) == h && Last(g) == op
      && InFlight(g) == (match op case Begin(s) => Some(s) case Take => None case Notify(_, _) => InFlight(h))
      && (forall s :: Published(g, s) == Published(h, s) + (if Publishes(g, s) then 1 else 0))
  {
    var g := h + [op];
    assert Front(g) == h && Last(g) == op;
  }

  /** A session with no baseline has never been published. */
  lemma {:induction false} NoBaselineNoRecord(h: seq<Op>, s: Session)
    ensures Baseline(h, s).None? ==> Published(h, s) == 0
  {
    if h != [] { NoBaselineNoRecord(Front(h), s); }
  }

  // ---- Properties of the reports ---------------------------------------------------

  /** Every record published over a history, in order. */
  function Reports(h: seq<Op>): seq<TurnUsage> {
    if h == [] then []
    else Reports(Front(h)) + (if Last(h).Take? && Report(Front(h)).Some? then [Report(Front(h)).value] else [])
  }

  /** Those of one session. */
  function ReportsOf(h: seq<Op>, s: Session): seq<TurnUsage> {
    if h == [] then []
    else ReportsOf(Front(h), s) + (if Publishes(h, s) then [Report(Front(h)).value] else [])
  }

  function Only(rs: seq<TurnUsage>, s: Session): seq<TurnUsage> {
    if rs == [] then []
    else Only(rs[..|rs| - 1], s) + (if rs[|rs| - 1].session == s then [rs[|rs| - 1]] else [])
  }

  lemma {:induction false} ReportsOfIsFilter(h: seq<Op>, s: Session)
    ensures ReportsOf(h, s) == Only(Reports(h), s)
  {
    if h != [] {
      ReportsOfIsFilter(Front(h), s);
      var before, all := Reports(Front(h)), Reports(h);
      if all != before { assert all[..|all| - 1] == before; }
    }
  }

  /** A session's published records are numbered 1, 2, 3, ... whatever else happens around them. */
  lemma {:induction false} SequenceNumbersCount(h: seq<Op>, s: Session)
    ensures |ReportsOf(h, s)| == Published(h, s)
    ensures forall i :: 0 <= i < |ReportsOf(h, s)| ==> ReportsOf(h, s)[i].turnSeq == i + 1
    ensures forall i :: 0 <= i < |ReportsOf(h, s)| ==> ReportsOf(h, s)[i].session == s
  {
    if h != [] { SequenceNumbersCount(Front(h), s); }
  }

  lemma SnapshotAtFront(h: seq<Op>, i: nat)
    requires i < |h| - 1
    ensures IsSnapshotAt(h, i) <==>
      Last(h).Notify? && InFlight(Front(h)) != Some(Last(h).session) && IsSnapshotAt(Front(h), i)
  {
    hide InFlight;
    var f := Front(h);
    assert h[..i] == f[..i];
    assert forall j :: 0 <= j < |f| ==> h[j] == f[j];
    if IsSnapshotAt(f, i) {
      OpenTurn(f, i + 1);
      assert f[..i + 1][..i] == f[..i];
      OpenTurn(f[..i + 1], i);
    }
  }

  lemma {:induction false} SnapshotFound(h: seq<Op>) returns (i: nat)
    requires Snapshot(h).Some?
    ensures i < |h| && IsSnapshotAt(h, i)
  {
    assert h[..|h| - 1] == Front(h);
    if InFlight(Front(h)) == Some(Last(h).session) {
      i := |h| - 1;
    } else {
      i := SnapshotFound(Front(h));
      SnapshotAtFront(h, i);
    }
  }

  lemma {:induction false} SnapshotOnly(h: seq<Op>, i: nat)
    requires i < |h| && IsSnapshotAt(h, i)
    ensures Snapshot(h) == Some(h[i].payload)
  {
    assert h[..|h| - 1] == Front(h);
    if i < |h| - 1 {
      SnapshotAtFront(h, i);
      SnapshotOnly(Front(h), i);
    }
  }

  /** The snapshot is the last notification of the open turn: nothing later could replace it. */
  lemma SnapshotIsLast(h: seq<Op>)
    ensures Snapshot(h).Some? <==> exists i :: 0 <= i < |h| && IsSnapshotAt(h, i)
    ensures forall i :: 0 <= i < |h| && IsSnapshotAt(h, i) ==> Snapshot(h) == Some(h[i].payload)
  {
    hide Snapshot;
    if Snapshot(h).Some? { var i := SnapshotFound(h); }
    forall i | 0 <= i < |h| && IsSnapshotAt(h, i) ensures Snapshot(h) == Some(h[i].payload) { SnapshotOnly(h, i); }
  }

  /** h[i] reports for the open session; after it the turn stays open and that session is silent. */
  predicate IsSnapshotAt(h: seq<Op>, i: nat)
    requires i < |h|
  {
    && h[i].Notify? && InFlight(h[..i]) == Some(h[i].session)
    && (forall j :: i < j < |h| ==> h[j].Notify? && h[j].session != h[i].session)
  }

  lemma {:induction false} OpenTurn(h: seq<Op>, i: nat)
    requires i <= |h| && forall j :: i <= j < |h| ==> h[j].Notify?
    ensures InFlight(h[..i]) == InFlight(h)
  {
    if i == |h| {
      assert h[..i] == h;
    } else {
      OpenTurn(Front(h), i);
      assert h[..i] == Front(h)[..i];
    }
  }

  /** Notifications for a session that is not the open one change nothing that will be reported. */
  lemma OtherSessionsAreIgnored(h: seq<Op>, s: Session, p: Payload)
    requires InFlight(h).Some? && InFlight(h) != Some(s)
    ensures Report(h + [Notify(s, p)]) == Report(h)
    ensures forall r :: Baseline(h + [Notify(s, p)], r) == Baseline(h, r)
    ensures forall r :: Published(h + [Notify(s, p)], r) == Published(h, r)
  {
    hide Baseline, Published, Snapshot, InFlight, Measure;
    Unnoticed(h, s, p);
    forall r: Session ensures Baseline(h + [Notify(s, p)], r) == Baseline(h, r)
                              && Published(h + [Notify(s, p)], r) == Published(h, r)
    {
      Uncommitted(h, s, p, r);
    }
  }

  lemma {:induction false} Unnoticed(h: seq<Op>, s: Session, p: Payload)
    requires InFlight(h).Some? && InFlight(h) != Some(s)
    ensures InFlight(h + [Notify(s, p)]) == InFlight(h) && Snapshot(h + [Notify(s, p)]) == Snapshot(h)
  {
    assert Front(h + [Notify(s, p)]) == h && Last(h + [Notify(s, p)]) == Notify(s, p);
  }

  lemma {:induction false} Uncommitted(h: seq<Op>, s: Session, p: Payload, r: Session)
    requires InFlight(h).Some?
    ensures Baseline(h + [Notify(s, p)], r) == Baseline(h, r)
    ensures Published(h + [Notify(s, p)], r) == Published(h, r)
  {
    assert Front(h + [Notify(s, p)]) == h && Last(h + [Notify(s, p)]) == Notify(s, p);
    hide InFlight, Snapshot;
  }

  // ---- Conservation ----------------------------------------------------------------

  /** No notification of s arrives outside a turn. */
  predicate OnlyInTurns(h: seq<Op>, s: Session) {
    h == [] ||
    (OnlyInTurns(Front(h), s) && !(Last(h).Notify? && Last(h).session == s && InFlight(Front(h)).None?))
  }

  predicate ReliableAfterFirst(rs: seq<TurnUsage>) { forall i :: 1 <= i < |rs| ==> rs[i].reliable }

  function SumInput(rs: seq<TurnUsage>): nat {
    if rs == [] then 0
    else SumInput(rs[..|rs| - 1]) + (if rs[|rs| - 1].turnInput.Some? then rs[|rs| - 1].turnInput.value else 0)
  }

  function SumOutput(rs: seq<TurnUsage>): nat {
    if rs == [] then 0
    else SumOutput(rs[..|rs| - 1]) + (if rs[|rs| - 1].turnOutput.Some? then rs[|rs| - 1].turnOutput.value else 0)
  }

  lemma {:induction false} BaselineIsLastReport(h: seq<Op>, s: Session)
    requires OnlyInTurns(h, s)
    ensures Baseline(h, s) ==
      (if ReportsOf(h, s) == [] then None else Some(ReportsOf(h, s)[|ReportsOf(h, s)| - 1].cumulative))
  {
    if h != [] { BaselineIsLastReport(Front(h), s); }
  }

  /**
   Nothing is lost or counted twice: the published deltas of a session add up to its last
   cumulative count minus its first.
   */
  lemma {:induction false} DeltasAddUp(h: seq<Op>, s: Session)
    requires OnlyInTurns(h, s) && ReliableAfterFirst(ReportsOf(h, s))
    ensures var rs := ReportsOf(h, s); rs != [] ==>
      && rs[0].cumulative.input + SumInput(rs) == rs[|rs| - 1].cumulative.input
      && rs[0].cumulative.output + SumOutput(rs) == rs[|rs| - 1].cumulative.output
      && !rs[0].reliable
  {
    if h != [] {
      var before, rs := ReportsOf(Front(h), s), ReportsOf(h, s);
      BaselineIsLastReport(Front(h), s);
      if Publishes(h, s) {
        assert rs[..|rs| - 1] == before;
        assert forall i :: 0 <= i < |before| ==> rs[i] == before[i];
        if before != [] {
          DeltasAddUp(Front(h), s);
          assert rs[|rs| - 1].reliable;
        } else {
          assert SumInput(rs) == 0 && SumOutput(rs) == 0;
        }
      } else {
        assert rs == before;
        DeltasAddUp(Front(h), s);
      }
    }
  }

  // ---- What a record says ----------------------------------------------------------

  /** b is present, did not exceed p, and d is what lies between them; or d is absent. */
  predicate Between(b: Option<nat>, d: Option<nat>, p: Option<nat>) {
    if b.Some? && p.Some? && b.value <= p.value then d.Some? && b.value + d.value == p.value else d.None?
  }

  predicate Fell(b: Option<real>, p: Option<real>) { b.Some? && p.Some? && p.value < b.value }

  /**
   A record against the counts it is measured from. It is unreliable exactly without such counts
   or when input, output or a cost known at both ends fell. Then input, output and cost are
   absent; otherwise each, added to the earlier count, gives the later one, and the cost is
   absent only where it was not known at both ends. Totals and cached counts go by themselves.
   */
  predicate Accounts(base: Option<Payload>, r: TurnUsage) {
    var p := r.cumulative;
    && (!r.reliable <==> base.None? || p.input < base.value.input || p.output < base.value.output
                         || Fell(base.value.cost, p.cost))
    && (if !r.reliable then r.turnInput.None? && r.turnOutput.None? && r.turnCost.None?
        else
          && r.turnInput.Some? && base.value.input + r.turnInput.value == p.input
          && r.turnOutput.Some? && base.value.output + r.turnOutput.value == p.output
          && (r.turnCost.Some? <==> base.value.cost.Some? && p.cost.Some?)
          && (r.turnCost.Some? ==> base.value.cost.value + r.turnCost.value == p.cost.value))
    && Between(if base.Some? then base.value.total else None, r.turnTotal, p.total)
    && Between(if base.Some? then base.value.cached else None, r.turnCached, p.cached)
  }

  /** Every report, of every history, accounts from the session's committed counts to its last snapshot. */
  lemma ReportAccounts(h: seq<Op>)
    requires Report(h).Some?
    ensures var r := Report(h).value;
      && InFlight(h) == Some(r.session) && Snapshot(h) == Some(r.cumulative)
      && Accounts(Baseline(h, r.session), r)
  {
    hide Baseline, Published, Snapshot, InFlight;
  }

  /** Operation i commits p as the counts of s: it publishes a record of s, or notifies s outside any turn. */
  predicate CommitsAt(h: seq<Op>, s: Session, i: nat, p: Payload)
    requires i < |h|
  {
    || (h[i].Take? && InFlight(h[..i]) == Some(s) && Snapshot(h[..i]) == Some(p))
    || (h[i] == Notify(s, p) && InFlight(h[..i]).None?)
  }

  /** The committed counts of a session are those of the last operation that committed any. */
  lemma {:induction false} BaselineIsLastCommit(h: seq<Op>, s: Session, p: Payload)
    ensures Baseline(h, s) == Some(p) <==>
      exists i :: 0 <= i < |h| && CommitsAt(h, s, i, p) && forall j, q :: i < j < |h| ==> !CommitsAt(h, s, j, q)
  {
    hide InFlight, Snapshot;
    if h != [] {
      var f, n := Front(h), |h| - 1;
      BaselineIsLastCommit(f, s, p);
      assert h[..n] == f;
      forall i, q | 0 <= i < n ensures CommitsAt(h, s, i, q) <==> CommitsAt(f, s, i, q) {
        assert h[..i] == f[..i];
      }
      if Publishes(h, s) {
        assert CommitsAt(h, s, n, Snapshot(f).value);
      } else if h[n].Notify? && h[n].session == s && InFlight(f).None? {
        assert CommitsAt(h, s, n, h[n].payload);
      } else {
        assert forall q :: !CommitsAt(h, s, n, q);
      }
    }
  }

  /** A turn is open exactly from a begin up to the next take, whatever notifications come. */
  lemma {:induction false} InFlightExact(h: seq<Op>, s: Session)
    ensures InFlight(h) == Some(s) <==>
      exists i :: 0 <= i < |h| && h[i] == Begin(s) && forall j :: i < j < |h| ==> h[j].Notify?
  {
    if h != [] {
      InFlightExact(Front(h), s);
      assert forall i :: 0 <= i < |h| - 1 ==> Front(h)[i] == h[i];
    }
  }

  /** Record i against the one before it, or against nothing. */
  predicate AccountsAt(rs: seq<TurnUsage>, i: nat)
    requires i < |rs|
  {
    Accounts(if i == 0 then None else Some(rs[i - 1].cumulative), rs[i])
  }

  /** Each record of a session accounts from the one before it, and the first from nothing. */
  lemma {:induction false} NeighboursAccount(h: seq<Op>, s: Session, i: nat)
    requires OnlyInTurns(h, s) && i < |ReportsOf(h, s)|
    ensures AccountsAt(ReportsOf(h, s), i)
  {
    hide Accounts, Report, Baseline, InFlight, Snapshot;
    var before := ReportsOf(Front(h), s);
    if i < |before| {
      NeighboursAccount(Front(h), s, i);
    } else {
      BaselineIsLastReport(Front(h), s);
      PublishedIsReport(h, s);
      ReportAccounts(Front(h));
    }
  }

  lemma PublishedIsReport(h: seq<Op>, s: Session)
    requires Publishes(h, s)
    ensures Report(Front(h)).Some? && Report(Front(h)).value.session == s
  {
    hide Baseline, Published, Snapshot, InFlight;
  }

  function SumCost(rs: seq<TurnUsage>): real {
    if rs == [] then 0.0
    else SumCost(rs[..|rs| - 1]) + (if rs[|rs| - 1].turnCost.Some? then rs[|rs| - 1].turnCost.value else 0.0)
  }

  function SumTotal(rs: seq<TurnUsage>): nat {
    if rs == [] then 0
    else SumTotal(rs[..|rs| - 1]) + (if rs[|rs| - 1].turnTotal.Some? then rs[|rs| - 1].turnTotal.value else 0)
  }

  function SumCached(rs: seq<TurnUsage>): nat {
    if rs == [] then 0
    else SumCached(rs[..|rs| - 1]) + (if rs[|rs| - 1].turnCached.Some? then rs[|rs| - 1].turnCached.value else 0)
  }

  /** A chain of records, each accounting from the one before. */
  predicate Chained(rs: seq<TurnUsage>) {
    forall i :: 0 <= i < |rs| ==> AccountsAt(rs, i)
  }

  lemma Shorten(rs: seq<TurnUsage>)
    requires Chained(rs) && rs != []
    ensures Chained(rs[..|rs| - 1])
  {
    hide Accounts;
    var front := rs[..|rs| - 1];
    forall i | 0 <= i < |front| ensures AccountsAt(front, i) {
      assert AccountsAt(rs, i);
    }
  }

  lemma {:induction false} ChainedCosts(rs: seq<TurnUsage>)
    requires Chained(rs) && rs != [] && ReliableAfterFirst(rs)
    requires forall i :: 0 <= i < |rs| ==> rs[i].cumulative.cost.Some?
    ensures rs[0].cumulative.cost.value + SumCost(rs) == rs[|rs| - 1].cumulative.cost.value
  {
    var n := |rs| - 1;
    assert AccountsAt(rs, n);
    if n > 0 {
      Shorten(rs);
      ChainedCosts(rs[..n]);
    } else {
      assert rs[..0] == [];
    }
  }

  lemma {:induction false} ChainedTotals(rs: seq<TurnUsage>)
    requires Chained(rs) && rs != []
    requires forall i :: 0 <= i < |rs| ==> rs[i].cumulative.total.Some?
    requires forall i :: 0 < i < |rs| ==> rs[i - 1].cumulative.total.value <= rs[i].cumulative.total.value
    ensures rs[0].cumulative.total.value + SumTotal(rs) == rs[|rs| - 1].cumulative.total.value
  {
    var n := |rs| - 1;
    assert AccountsAt(rs, n);
    if n > 0 {
      Shorten(rs);
      assert rs[n - 1].cumulative.total.value <= rs[n].cumulative.total.value;
      ChainedTotals(rs[..n]);
    } else {
      assert rs[..0] == [];
    }
  }

  lemma {:induction false} ChainedCached(rs: seq<TurnUsage>)
    requires Chained(rs) && rs != []
    requires forall i :: 0 <= i < |rs| ==> rs[i].cumulative.cached.Some?
    requires forall i :: 0 < i < |rs| ==> rs[i - 1].cumulative.cached.value <= rs[i].cumulative.cached.value
    ensures rs[0].cumulative.cached.value + SumCached(rs) == rs[|rs| - 1].cumulative.cached.value
  {
    var n := |rs| - 1;
    assert AccountsAt(rs, n);
    if n > 0 {
      Shorten(rs);
      assert rs[n - 1].cumulative.cached.value <= rs[n].cumulative.cached.value;
      ChainedCached(rs[..n]);
    } else {
      assert rs[..0] == [];
    }
  }

  lemma RecordsAreChained(h: seq<Op>, s: Session)
    requires OnlyInTurns(h, s)
    ensures Chained(ReportsOf(h, s))
  {
    hide AccountsAt, ReportsOf, OnlyInTurns;
    forall i | 0 <= i < |ReportsOf(h, s)| ensures AccountsAt(ReportsOf(h, s), i) {
      NeighboursAccount(h, s, i);
    }
  }

  /** Costs, totals and cached counts are conserved too, each where it was always known (and, the counts, never fell). */
  lemma OtherDeltasAddUp(h: seq<Op>, s: Session)
    requires OnlyInTurns(h, s) && ReportsOf(h, s) != []
    ensures var rs := ReportsOf(h, s); var first, last := rs[0].cumulative, rs[|rs| - 1].cumulative;
      && (ReliableAfterFirst(rs) && (forall i :: 0 <= i < |rs| ==> rs[i].cumulative.cost.Some?) ==>
            first.cost.value + SumCost(rs) == last.cost.value)
      && ((forall i :: 0 <= i < |rs| ==> rs[i].cumulative.total.Some?)
          && (forall i :: 0 < i < |rs| ==> rs[i - 1].cumulative.total.value <= rs[i].cumulative.total.value) ==>
            first.total.value + SumTotal(rs) == last.total.value)
      && ((forall i :: 0 <= i < |rs| ==> rs[i].cumulative.cached.Some?)
          && (forall i :: 0 < i < |rs| ==> rs[i - 1].cumulative.cached.value <= rs[i].cumulative.cached.value) ==>
            first.cached.value + SumCached(rs) == last.cached.value)
  {
    hide ReportsOf, OnlyInTurns, Chained, SumCost, SumTotal, SumCached;
    var rs := ReportsOf(h, s);
    RecordsAreChained(h, s);
    if ReliableAfterFirst(rs) && (forall i :: 0 <= i < |rs| ==> rs[i].cumulative.cost.Some?) { ChainedCosts(rs); }
    if (forall i :: 0 <= i < |rs| ==> rs[i].cumulative.total.Some?)
       && (forall i :: 0 < i < |rs| ==> rs[i - 1].cumulative.total.value <= rs[i].cumulative.total.value) { ChainedTotals(rs); }
    if (forall i :: 0 <= i < |rs| ==> rs[i].cumulative.cached.Some?)
       && (forall i :: 0 < i < |rs| ==> rs[i - 1].cumulative.cached.value <= rs[i].cumulative.cached.value) { ChainedCached(rs); }
  }

  // ---- Non-interference ------------------------------------------------------------

  predicate SameCore(p: Payload, q: Payload) {
    p.input == q.input && p.output == q.output && p.cost == q.cost && p.model == q.model
  }

  predicate SameOp(a: Op, b: Op) {
    match a
    case Begin(s) => b == a
    case Take => b == a
    case Notify(s, p) => b.Notify? && b.session == s && SameCore(p, b.payload)
  }

  predicate SameCoreOption(p: Option<Payload>, q: Option<Payload>) {
    (p.Some? <==> q.Some?) && (p.Some? ==> SameCore(p.value, q.value))
  }

  /** Equal in everything but the total and cached token fields. */
  predicate SameRecord(r: TurnUsage, q: TurnUsage) {
    && r.session == q.session && r.turnSeq == q.turnSeq && r.reliable == q.reliable
    && r.turnInput == q.turnInput && r.turnOutput == q.turnOutput && r.turnCost == q.turnCost
    && SameCore(r.cumulative, q.cumulative)
  }

  predicate SameHistory(h: seq<Op>, g: seq<Op>) {
    |h| == |g| && forall i :: 0 <= i < |h| ==> SameOp(h[i], g[i])
  }

  lemma {:induction false} SameHistoryFunctions(h: seq<Op>, g: seq<Op>, s: Session)
    requires SameHistory(h, g)
    ensures InFlight(h) == InFlight(g)
    ensures SameCoreOption(Snapshot(h), Snapshot(g))
    ensures Published(h, s) == Published(g, s)
    ensures SameCoreOption(Baseline(h, s), Baseline(g, s))
  {
    if h != [] {
      assert SameOp(h[|h| - 1], g[|g| - 1]);
      assert SameHistory(Front(h), Front(g)) by {
        forall i | 0 <= i < |h| - 1 ensures SameOp(Front(h)[i], Front(g)[i]) { assert SameOp(h[i], g[i]); }
      }
      SameHistoryFunctions(Front(h), Front(g), s);
    }
  }

  /**
   Two runs that differ only in total and cached token fields publish, take by take, the same
   reliability flags, input, output and cost deltas and sequence numbers.
   */
  lemma {:induction false} TotalsDoNotInterfere(h: seq<Op>, g: seq<Op>)
    requires SameHistory(h, g)
    ensures Report(h).Some? <==> Report(g).Some?
    ensures Report(h).Some? ==> SameRecord(Report(h).value, Report(g).value)
    ensures |Reports(h)| == |Reports(g)|
    ensures forall i :: 0 <= i < |Reports(h)| ==> SameRecord(Reports(h)[i], Reports(g)[i])
  {
    SameHistoryFunctions(h, g, if InFlight(h).Some? then InFlight(h).value else "");
    if h != [] {
      assert SameHistory(Front(h), Front(g)) by {
        forall i | 0 <= i < |h| - 1 ensures SameOp(Front(h)[i], Front(g)[i]) { assert SameOp(h[i], g[i]); }
      }
      assert SameOp(h[|h| - 1], g[|g| - 1]);
      TotalsDoNotInterfere(Front(h), Front(g));
    }
  }
}
