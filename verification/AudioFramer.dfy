/** The audio worklet's tap: re-chunks a stream of sample blocks into 20 ms frames, gated by push-to-talk. */
module AudioFramer {
  import opened Wrappers

  const FRAME: nat := 960

  function Flatten<T>(frames: seq<seq<T>>): seq<T> {
    if frames == [] then [] else Flatten(frames[..|frames| - 1]) + frames[|frames| - 1]
  }

  class SttTap<T(0)> {
    var buffer: array<T>
    var offset: nat
    var transmitting: bool
    /** Frames posted to the main thread, and the input and frames since the last gated call. */
    ghost var posted: seq<seq<T>>
    ghost var heard: seq<T>
    ghost var since: nat

    ghost predicate Valid()
      reads this, buffer
    {
      && buffer.Length == FRAME && offset <= FRAME && since <= |posted|
      && (forall i :: 0 <= i < |posted| ==> |posted[i]| == FRAME)
      && Flatten(posted[since..]) + buffer[..offset] == heard
    }

    constructor ()
      ensures Valid() && offset == 0 && transmitting && posted == [] && heard == [] && fresh(buffer)
    {
      buffer := new T[FRAME];
      offset, transmitting := 0, true;
      posted, heard, since := [], [], 0;
    }

    /** The `ptt` message handler. */
    method SetTransmitting(active: bool)
      requires Valid()
      modifies this`transmitting
      ensures Valid() && transmitting == active
    {
      transmitting := active;
    }

    /** Copy samples behind the buffered prefix (`buffer.set`). */
    method Append(input: seq<T>)
      requires Valid() && offset + |input| <= FRAME
      modifies this`offset, this`heard, buffer
      ensures Valid() && offset == old(offset) + |input| && heard == old(heard) + input
    {
      var at := offset;
      ghost var kept := buffer[..at];
      for i := 0 to |input|
        modifies buffer
        invariant buffer[..at + i] == kept + input[..i]
      {
        buffer[at + i] := input[i];
        assert buffer[..at + i + 1] == buffer[..at + i] + [input[i]];
      }
      assert input[..|input|] == input;
      offset := at + |input|;
      heard := heard + input;
      assert buffer[..offset] == kept + input;
      ghost var done := Flatten(posted[since..]);
      assert done + (kept + input) == (done + kept) + input;
    }

    /** Hand the full buffer over and start a new one. */
    method Post()
      requires Valid() && offset == FRAME
      modifies this`buffer, this`offset, this`posted
      ensures Valid() && fresh(buffer) && offset == 0
      ensures posted == old(posted) + [old(buffer[..])]
    {
      ghost var frame := buffer[..];
      assert frame == buffer[..offset];
      Appended(posted, since, frame);
      posted := posted + [frame];
      buffer := new T[FRAME];
      offset := 0;
    }

    /** A gated block: the partial frame is forgotten. */
    method Discard()
      requires Valid()
      modifies this`offset, this`heard, this`since
      ensures Valid() && offset == 0 && heard == [] && since == |posted|
    {
      offset := 0;
      heard, since := [], |posted|;
      assert posted[since..] == [];
    }

    /**
     `process`. A call without input changes nothing, a gated one forgets the partial frame, and
     an open one appends its input to the stream. It throws exactly when what is left after a
     flush overflows a whole new frame, which no input of at most 960 samples does.
     */
    method Process(block: Option<seq<T>>) returns (threw: bool)
      requires Valid()
      modifies this, buffer
      ensures buffer == old(buffer) || fresh(buffer)
      ensures Valid() && transmitting == old(transmitting)
      ensures threw <==> block.Some? && transmitting && old(offset) + |block.value| > 2 * FRAME
      ensures block.None? ==>
        offset == old(offset) && heard == old(heard) && posted == old(posted) && since == old(since)
        && buffer[..] == old(buffer[..])
      ensures block.Some? && !transmitting ==> offset == 0 && heard == [] && posted == old(posted) && since == |posted|
      ensures block.Some? && transmitting && !threw ==>
        heard == old(heard) + block.value && since == old(since) && old(posted) <= posted
      ensures old(offset) < FRAME && (block.Some? ==> |block.value| <= FRAME) ==> !threw && offset < FRAME
    {
      hide Flatten;
      threw := false;
      if block.None? { return; }
      var input := block.value;
      if !transmitting {
        Discard();
        return;
      }
      var remaining := FRAME - offset;
      var toCopy := if |input| < remaining then |input| else remaining;
      assert input == input[..toCopy] + input[toCopy..];
      Append(input[..toCopy]);
      if offset >= FRAME {
        Post();
        if toCopy < |input| {
          var leftover := input[toCopy..];
          if |leftover| > FRAME { return true; }
          Append(leftover);
        }
      }
    }
  }

  lemma Appended<T>(posted: seq<seq<T>>, since: nat, frame: seq<T>)
    requires since <= |posted|
    ensures Flatten((posted + [frame])[since..]) == Flatten(posted[since..]) + frame
  {
    var all := (posted + [frame])[since..];
    assert all[..|all| - 1] == posted[since..];
  }

  // ---- Whole runs ------------------------------------------------------------------

  /** `Silence` is a call of `process` without input. */
  datatype Op<T> = Toggle(active: bool) | Block(samples: seq<T>) | Silence

  /** Is the microphone open after these operations? */
  predicate Open<T>(ops: seq<Op<T>>) {
    if ops == [] then true
    else if ops[|ops| - 1].Toggle? then ops[|ops| - 1].active
    else Open(ops[..|ops| - 1])
  }

  /** The streams of samples heard, one for each stretch between gated blocks; the last is still going on. */
  function Streams<T>(ops: seq<Op<T>>): (streams: seq<seq<T>>)
    ensures streams != []
  {
    if ops == [] then [[]]
    else
      var before, last := Streams(ops[..|ops| - 1]), ops[|ops| - 1];
      if !last.Block? then before
      else if Open(ops[..|ops| - 1]) then before[|before| - 1 := before[|before| - 1] + last.samples]
      else before + [[]]
  }

  /** The whole frames of a stream, in order. */
  function Chunks<T>(s: seq<T>): seq<seq<T>> {
    if |s| < FRAME then [] else [s[..FRAME]] + Chunks(s[FRAME..])
  }

  /** The samples after its last whole frame. */
  function Remainder<T>(s: seq<T>): seq<T> {
    if |s| < FRAME then s else Remainder(s[FRAME..])
  }

  /** The whole frames of every stream; the remainder of each but the last is never heard of again. */
  function Frames<T>(streams: seq<seq<T>>): seq<seq<T>> {
    if streams == [] then [] else Frames(streams[..|streams| - 1]) + Chunks(streams[|streams| - 1])
  }

  lemma {:induction false} FlattenFront<T>(frames: seq<seq<T>>)
    requires frames != []
    ensures Flatten(frames) == frames[0] + Flatten(frames[1..])
  {
    if |frames| > 1 {
      var front := frames[..|frames| - 1];
      FlattenFront(front);
      assert front[1..] == frames[1..][..|frames| - 2];
      assert frames[1..][|frames| - 2] == frames[|frames| - 1];
      assert frames[0] + (Flatten(front[1..]) + frames[|frames| - 1]) == frames[0] + Flatten(front[1..]) + frames[|frames| - 1];
    } else {
      assert frames[..0] == [] && frames[1..] == [];
      assert Flatten(frames) == [] + frames[0];
    }
  }

  /** Only one way to cut a stream into frames of 960 and a shorter rest. */
  lemma {:induction false} CutIsUnique<T>(frames: seq<seq<T>>, rest: seq<T>, s: seq<T>)
    requires (forall i :: 0 <= i < |frames| ==> |frames[i]| == FRAME) && |rest| < FRAME
    requires Flatten(frames) + rest == s
    ensures frames == Chunks(s) && rest == Remainder(s)
    decreases |frames|
  {
    if frames == [] {
      assert [] + rest == rest;
    } else {
      FlattenFront(frames);
      var tail := frames[1..];
      assert s == frames[0] + (Flatten(tail) + rest);
      assert s[..FRAME] == frames[0] && s[FRAME..] == Flatten(tail) + rest;
      CutIsUnique(tail, rest, s[FRAME..]);
      assert frames == [frames[0]] + tail;
    }
  }

  /** The frames posted so far are those of the earlier streams, then those of the current one. */
  lemma PostedFrames<T>(streams: seq<seq<T>>, posted: seq<seq<T>>, since: nat, rest: seq<T>)
    requires streams != [] && since <= |posted| && |rest| < FRAME
    requires forall i :: 0 <= i < |posted| ==> |posted[i]| == FRAME
    requires posted[..since] == Frames(streams[..|streams| - 1])
    requires Flatten(posted[since..]) + rest == streams[|streams| - 1]
    ensures posted == Frames(streams) && rest == Remainder(streams[|streams| - 1])
  {
    hide Flatten, Chunks, Remainder;
    CutIsUnique(posted[since..], rest, streams[|streams| - 1]);
    assert posted == posted[..since] + posted[since..];
  }

  /**
   For every sequence of toggles, blocks of at most 960 samples and calls without input nothing
   throws, and the frames posted are exactly the whole 960-sample frames of each stream between
   gated blocks, in order, with the buffer holding what the current stream has beyond them.
   */
  method RunTap<T(0)>(ops: seq<Op<T>>) returns (tap: SttTap<T>)
    requires forall i :: 0 <= i < |ops| && ops[i].Block? ==> |ops[i].samples| <= FRAME
    ensures fresh(tap) && tap.Valid() && tap.offset < FRAME
    ensures tap.posted == Frames(Streams(ops))
    ensures tap.buffer[..tap.offset] == Remainder(Streams(ops)[|Streams(ops)| - 1])
    ensures tap.offset < 960 && forall i :: 0 <= i < |tap.posted| ==> |tap.posted[i]| == 960
    ensures Flatten(tap.posted[tap.since..]) + tap.buffer[..tap.offset] == Streams(ops)[|Streams(ops)| - 1]
  {
    hide Flatten, Chunks, Remainder, Frames;
    tap := new SttTap();
    NoFrames<T>();
    assert ops[..0] == [];
    for i := 0 to |ops|
      invariant fresh(tap) && fresh(tap.buffer) && tap.Valid() && tap.offset < FRAME
      invariant var streams := Streams(ops[..i]);
        && tap.transmitting == Open(ops[..i]) && tap.heard == streams[|streams| - 1]
        && tap.posted[..tap.since] == Frames(streams[..|streams| - 1])
    {
      assert ops[..i + 1][..i] == ops[..i];
      ghost var streams := Streams(ops[..i]);
      match ops[i] {
        case Toggle(active) => tap.SetTransmitting(active);
        case Silence => var threw := tap.Process(None);
        case Block(samples) =>
          PostedFrames(streams, tap.posted, tap.since, tap.buffer[..tap.offset]);
          ghost var before := tap.posted;
          var threw := tap.Process(Some(samples));
          if tap.transmitting {
            assert tap.posted[..tap.since] == before[..tap.since];
            assert Streams(ops[..i + 1])[..|streams| - 1] == streams[..|streams| - 1];
          } else {
            assert tap.posted[..tap.since] == before;
            assert (streams + [[]])[..|streams|] == streams;
          }
      }
    }
    assert ops[..|ops|] == ops;
    PostedFrames(Streams(ops), tap.posted, tap.since, tap.buffer[..tap.offset]);
  }

  lemma NoFrames<T>()
    ensures Frames<T>([]) == []
  {
  }
}
