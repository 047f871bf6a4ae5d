/** The lazily started agent pool: attempt tokens and capped exponential back-off. */
module PoolLifecycle {
  import opened Numbers
  import opened Wrappers

  type Time = nat

  const U32_MAX: nat := 0xFFFF_FFFF
  const U64_MAX: nat := 0xFFFF_FFFF_FFFF_FFFF
  const INITIAL_RETRY_DELAY: nat := 5
  const MAX_RETRY_DELAY: nat := 300

  // ---- The back-off arithmetic -----------------------------------------------------

  function Min(a: nat, b: nat): nat { if a < b then a else b }

  /** `retry_delay`, step by step in u32 and u64: saturating subtraction, checked shift, saturating product. */
  function RetryDelay(attempt: nat): nat {
    var exponent := Min(if attempt >= 1 then attempt - 1 else 0, 63);
    var multiplier := if exponent < 64 then Pow2(exponent) % (U64_MAX + 1) else U64_MAX;
    Min(Min(INITIAL_RETRY_DELAY * multiplier, U64_MAX), MAX_RETRY_DELAY)
  }

  lemma {:induction false} Pow2Grows(m: nat, n: nat)
    requires m <= n
    ensures Pow2(m) <= Pow2(n)
    decreases n - m
  {
    if m < n { Pow2Grows(m, n - 1); }
  }

  lemma Pow2Values()
    ensures Pow2(6) == 64 && Pow2(64) == U64_MAX + 1
  {
    hide Pow2;
    Pow2Two();
    Pow2Adds(2, 2);
    Pow2Adds(2, 4);
    Pow2Adds(4, 4);
    Pow2Adds(8, 8);
    Pow2Adds(16, 16);
    Pow2Adds(32, 32);
  }

  lemma Pow2Doubles(n: nat)
    ensures Pow2(n + 1) == 2 * Pow2(n)
  {
  }

  lemma DoubledProduct(a: nat, b: nat)
    ensures 2 * (a * b) == (2 * a) * b
  {
  }

  lemma Pow2Two()
    ensures Pow2(2) == 4
  {
  }

  lemma {:induction false} Pow2Adds(m: nat, n: nat)
    ensures Pow2(m + n) == Pow2(m) * Pow2(n)
  {
    if m > 0 {
      Pow2Adds(m - 1, n);
      Pow2Doubles(m - 1);
      Pow2Doubles(m - 1 + n);
      hide Pow2;
      DoubledProduct(Pow2(m - 1), Pow2(n));
    }
  }

  /** For every u32 attempt the machine arithmetic is min(5 * 2^(k-1), 300). */
  lemma RetryDelayIsCappedDoubling(attempt: nat)
    requires 1 <= attempt <= U32_MAX
    ensures RetryDelay(attempt) == Min(5 * Pow2(attempt - 1), 300)
  {
    hide Pow2;
    Pow2Values();
    var exponent := Min(attempt - 1, 63);
    Pow2Grows(exponent, 63);
    Pow2Doubles(63);
    assert Pow2(exponent) % (U64_MAX + 1) == Pow2(exponent);
    if attempt - 1 >= 6 {
      Pow2Grows(6, attempt - 1);
      Pow2Grows(6, exponent);
    } else {
      assert exponent == attempt - 1;
    }
  }

  // ---- The state machine -----------------------------------------------------------

  datatype State<+P> =
    | Listening
    | Waking(attempt: nat)
    | Ready(pool: P)
    | Failed(attempt: nat, retryAt: Time, error: string)

  datatype Op<+P> =
    | StartWake(hasPendingWork: bool, now: Time)
    | CompleteWake(token: nat, result: Result<P, string>, now: Time)
    | TakeReady

  /** What an operation reports: a wake token, a taken pool, a failed or refused completion. */
  datatype Note<+P> = Woke(token: nat, now: Time) | FailedAt(token: nat, now: Time) | Became(token: nat)
                    | Took(pool: P) | Refused | Nothing

  function Apply<P>(s: State<P>, op: Op<P>): (State<P>, Note<P>) {
    match op
    case StartWake(work, now) =>
      var next := match s
        case Listening => Some(1)
        case Failed(attempt, retryAt, _) => if now >= retryAt then Some(Min(attempt + 1, U32_MAX)) else None
        case _ => None;
      if work && next.Some? then (Waking(next.value), Woke(next.value, now)) else (s, Nothing)
    case CompleteWake(token, result, now) =>
      if !(s.Waking? && s.attempt == token) then (s, Refused)
      else if result.Ok? then (Ready(result.value), Became(token))
      else (Failed(token, now + RetryDelay(token), result.error), FailedAt(token, now))
    case TakeReady => if s.Ready? then (Listening, Took(s.pool)) else (s, Nothing)
  }

  class Lifecycle<P(==)> {
    var state: State<P>
    ghost var ops: seq<Op<P>>
    ghost var notes: seq<Note<P>>

    ghost predicate Valid() reads this { state == Run(ops) && notes == Notes(ops) }

    constructor ()
      ensures Valid() && ops == []
    {
      state, ops, notes := Listening, [], [];
    }

    ghost method Log(op: Op<P>, note: Note<P>)
      requires state == Apply(Run(ops), op).0 && note == Apply(Run(ops), op).1 && notes == Notes(ops)
      modifies this`ops, this`notes
      ensures Valid() && ops == old(ops) + [op]
    {
      assert (ops + [op])[..|ops|] == ops;
      ops := ops + [op];
      notes := notes + [note];
    }

    method StartWakeIfDue(hasPendingWork: bool, now: Time) returns (token: Option<nat>)
      requires Valid()
      modifies this
      ensures Valid() && ops == old(ops) + [StartWake(hasPendingWork, now)]
      ensures Apply(old(state), StartWake(hasPendingWork, now)) ==
        (state, if token.Some? then Woke(token.value, now) else Nothing)
    {
      token := None;
      if hasPendingWork {
        match state {
          case Listening => token := Some(1);
          case Failed(attempt, retryAt, _) =>
            if now >= retryAt { token := Some(if attempt < U32_MAX then attempt + 1 else U32_MAX); }
          case _ =>
        }
        if token.Some? { state := Waking(token.value); }
      }
      assert Tokened(Run(ops)) by { TokensAreU32(ops); }
      Log(StartWake(hasPendingWork, now), if token.Some? then Woke(token.value, now) else Nothing);
    }

    method CompleteWakeAttempt(token: nat, result: Result<P, string>, now: Time) returns (ok: bool)
      requires Valid()
      modifies this
      ensures Valid() && ops == old(ops) + [CompleteWake(token, result, now)]
      ensures ok <==> old(state) == Waking(token)
      ensures !ok ==> state == old(state)
      ensures ok && result.Ok? ==> state == Ready(result.value)
      ensures ok && result.Err? ==> state == Failed(token, now + RetryDelay(token), result.error)
    {
      ok := state.Waking? && state.attempt == token;
      if ok {
        match result {
          case Ok(pool) => state := Ready(pool);
          case Err(error) => state := Failed(token, now + RetryDelay(token), error);
        }
      }
      Log(CompleteWake(token, result, now),
          if !ok then Refused else if result.Ok? then Became(token) else FailedAt(token, now));
    }

    /** A cancelled wake is a failed one. */
    method CancelWake(token: nat, error: string, now: Time) returns (ok: bool)
      requires Valid()
      modifies this
      ensures Valid() && ops == old(ops) + [CompleteWake(token, Err(error), now)]
      ensures ok <==> old(state) == Waking(token)
      ensures state == if ok then Failed(token, now + RetryDelay(token), error) else old(state)
    {
      ok := CompleteWakeAttempt(token, Err(error), now);
    }

    method TakeReadyPool() returns (pool: Option<P>)
      requires Valid()
      modifies this
      ensures Valid() && ops == old(ops) + [TakeReady]
      ensures old(state).Ready? ==> pool == Some(old(state).pool) && state == Listening
      ensures !old(state).Ready? ==> pool == None && state == old(state)
    {
      pool := None;
      if state.Ready? {
        pool := Some(state.pool);
        state := Listening;
      }
      Log(TakeReady, if pool.Some? then Took(pool.value) else Nothing);
    }
  }

  // ---- Runs ------------------------------------------------------------------------

  function Run<P>(ops: seq<Op<P>>): State<P> {
    if ops == [] then Listening else Apply(Run(ops[..|ops| - 1]), ops[|ops| - 1]).0
  }

  function Notes<P>(ops: seq<Op<P>>): seq<Note<P>> {
    if ops == [] then []
    else Notes(ops[..|ops| - 1]) + [Apply(Run(ops[..|ops| - 1]), ops[|ops| - 1]).1]
  }

  /** The wake tokens handed out since the last pool was taken, in order. */
  function Tokens<P>(ops: seq<Op<P>>): seq<nat> {
    if ops == [] then []
    else
      var before, note := Tokens(ops[..|ops| - 1]), Apply(Run(ops[..|ops| - 1]), ops[|ops| - 1]).1;
      match note
      case Woke(token, _) => before + [token]
      case Took(_) => []
      case _ => before
  }

  predicate Tokened<P>(s: State<P>) { s.Waking? || s.Failed? ==> 1 <= s.attempt <= U32_MAX }

  lemma {:induction false} TokensAreU32<P>(ops: seq<Op<P>>)
    ensures Tokened(Run(ops))
  {
    if ops != [] { TokensAreU32(ops[..|ops| - 1]); }
  }

  /**
   Within an epoch the tokens handed out are 1, 2, 3, ..., the n-th being n until the u32
   counter saturates; a waking or failed state carries the last of them.
   */
  lemma {:induction false} TokensCountUp<P>(ops: seq<Op<P>>)
    ensures forall i :: 0 <= i < |Tokens(ops)| ==> Tokens(ops)[i] == Min(i + 1, 0xFFFF_FFFF)
    ensures Run(ops).Listening? <==> Tokens(ops) == []
    ensures Run(ops).Waking? || Run(ops).Failed? ==>
      Tokens(ops) != [] && Run(ops).attempt == Tokens(ops)[|Tokens(ops)| - 1]
  {
    if ops != [] { TokensCountUp(ops[..|ops| - 1]); }
  }

  /** A completion with any token but the current one, or outside a wake, changes nothing. */
  lemma StaleResultIsRefused<P>(ops: seq<Op<P>>, token: nat, result: Result<P, string>, now: Time)
    requires Run(ops) != Waking(token)
    ensures Run(ops + [CompleteWake(token, result, now)]) == Run(ops)
    ensures Tokens(ops + [CompleteWake(token, result, now)]) == Tokens(ops)
  {
    var all := ops + [CompleteWake(token, result, now)];
    assert all[..|all| - 1] == ops;
  }

  /** Within one epoch, below saturation, no two wakes share a token: an old result is always stale. */
  lemma TokensAreFresh<P>(ops: seq<Op<P>>, i: nat, j: nat)
    requires i < j < |Tokens(ops)| <= U32_MAX
    ensures Tokens(ops)[i] != Tokens(ops)[j]
  {
    TokensCountUp(ops);
  }

  lemma {:induction false} NotesPerOp<P>(ops: seq<Op<P>>, i: nat)
    requires i < |ops|
    ensures |Notes(ops)| == |ops| && Notes(ops)[i] == Apply(Run(ops[..i]), ops[i]).1
    decreases |ops|
  {
    if i < |ops| - 1 {
      NotesPerOp(ops[..|ops| - 1], i);
      assert ops[..|ops| - 1][..i] == ops[..i];
    } else if |ops| > 1 {
      NotesPerOp(ops[..|ops| - 1], 0);
    }
  }

  /** No wake, no completion and no take happens strictly between the two positions. */
  predicate Quiet<P>(notes: seq<Note<P>>, i: nat, j: nat) {
    forall k :: i < k < j && k < |notes| ==> notes[k].Refused? || notes[k].Nothing?
  }

  lemma {:induction false} FailureLasts<P>(ops: seq<Op<P>>, i: nat, j: nat)
    requires i < j <= |ops| && |Notes(ops)| == |ops|
    requires Notes(ops)[i].FailedAt? && Quiet(Notes(ops), i, j)
    ensures var f := Notes(ops)[i];
      Run(ops[..j]).Failed? && Run(ops[..j]).attempt == f.token && Run(ops[..j]).retryAt == f.now + RetryDelay(f.token)
    decreases j
  {
    NotesPerOp(ops, i);
    if j == i + 1 {
      assert ops[..j][..|ops[..j]| - 1] == ops[..i];
    } else {
      FailureLasts(ops, i, j - 1);
      NotesPerOp(ops, j - 1);
      assert ops[..j][..|ops[..j]| - 1] == ops[..j - 1];
      assert Notes(ops)[j - 1].Refused? || Notes(ops)[j - 1].Nothing?;
    }
  }

  /**
   Back-off is honoured in every run: the wake that follows the failure of attempt k carries
   token k + 1 and starts no earlier than min(5 * 2^(k-1), 300) seconds after that failure.
   */
  lemma RetryWaitsItsTurn<P>(ops: seq<Op<P>>, i: nat, j: nat)
    requires i < j < |ops| && |Notes(ops)| == |ops|
    requires Notes(ops)[i].FailedAt? && Notes(ops)[j].Woke? && Quiet(Notes(ops), i, j)
    ensures var f, w := Notes(ops)[i], Notes(ops)[j];
      && 1 <= f.token <= U32_MAX && w.token == Min(f.token + 1, U32_MAX)
      && w.now >= f.now + Min(5 * Pow2(f.token - 1), 300)
  {
    FailureLasts(ops, i, j);
    NotesPerOp(ops, j);
    TokensAreU32(ops[..j]);
    RetryDelayIsCappedDoubling(Notes(ops)[i].token);
  }

  /** The first wake: a pool that listens wakes as soon as there is work, with token 1. */
  lemma WorkWakes<P>(ops: seq<Op<P>>, now: Time)
    requires Tokens(ops) == []
    ensures Tokens(ops + [StartWake(true, now)]) == [1] && Run(ops + [StartWake(true, now)]) == Waking(1)
  {
    TokensCountUp(ops);
    var all := ops + [StartWake(true, now)];
    assert all[..|all| - 1] == ops;
  }

  /**
   A retry is never forgotten: from the failure of attempt k, with no wake since, work pending
   min(5 * 2^(k-1), 300) seconds later or more wakes the pool with the next token, and work
   pending sooner does not.
   */
  lemma DueRetryWakes<P>(ops: seq<Op<P>>, i: nat, now: Time)
    requires i < |ops| && |Notes(ops)| == |ops|
    requires Notes(ops)[i].FailedAt? && Quiet(Notes(ops), i, |ops|)
    ensures var f, all := Notes(ops)[i], ops + [StartWake(true, now)];
      && 1 <= f.token <= U32_MAX
      && (now >= f.now + Min(5 * Pow2(f.token - 1), 300) ==>
            Run(all) == Waking(Min(f.token + 1, U32_MAX)) && Tokens(all) == Tokens(ops) + [Min(f.token + 1, U32_MAX)])
      && (now < f.now + Min(5 * Pow2(f.token - 1), 300) ==> Run(all) == Run(ops) && Tokens(all) == Tokens(ops))
  {
    var all := ops + [StartWake(true, now)];
    assert all[..|all| - 1] == ops && ops[..|ops|] == ops;
    FailureLasts(ops, i, |ops|);
    TokensAreU32(ops);
    RetryDelayIsCappedDoubling(Notes(ops)[i].token);
  }

  /** Without work, while waking and once ready, nothing wakes. */
  lemma NothingElseWakes<P>(ops: seq<Op<P>>, work: bool, now: Time)
    requires !work || Run(ops).Waking? || Run(ops).Ready?
    ensures Run(ops + [StartWake(work, now)]) == Run(ops) && Tokens(ops + [StartWake(work, now)]) == Tokens(ops)
  {
    var all := ops + [StartWake(work, now)];
    assert all[..|all| - 1] == ops;
  }

  /** The result of the current attempt settles it: the pool is ready, or the failure is kept until its retry. */
  lemma CurrentResultSettles<P>(ops: seq<Op<P>>, token: nat, result: Result<P, string>, now: Time)
    requires Run(ops) == Waking(token)
    ensures var s := Run(ops + [CompleteWake(token, result, now)]);
      match result
      case Ok(pool) => s == Ready(pool)
      case Err(error) => 1 <= token <= U32_MAX && s == Failed(token, now + Min(5 * Pow2(token - 1), 300), error)
  {
    var all := ops + [CompleteWake(token, result, now)];
    assert all[..|all| - 1] == ops;
    TokensAreU32(ops);
    RetryDelayIsCappedDoubling(token);
  }

  /** A ready pool is handed over once, and the next epoch starts from nothing. */
  lemma ReadyIsTaken<P>(ops: seq<Op<P>>)
    ensures var all := ops + [TakeReady];
      if Run(ops).Ready? then Run(all) == Listening && Tokens(all) == []
      else Run(all) == Run(ops) && Tokens(all) == Tokens(ops)
  {
    var all := ops + [TakeReady];
    assert all[..|all| - 1] == ops;
  }
}
