/** The smoke agent's WebSocket framing, sections 5.2 and 5.3 of RFC 6455, over a chunked byte stream. */
module WebSocket {
  import opened Numbers
  import opened Wrappers

  // ---- Masking ---------------------------------------------------------------------

  /** Bitwise exclusive or of the low w bits. */
  function Xor(a: nat, b: nat, w: nat): (x: nat)
    ensures x < Pow2(w)
  {
    if w == 0 then 0 else 2 * Xor(a / 2, b / 2, w - 1) + (a % 2 + b % 2) % 2
  }

  lemma XorUnfolds(a: nat, b: nat, w: nat, ah: nat, al: nat, bh: nat, bl: nat)
    requires w > 0 && a == 2 * ah + al && b == 2 * bh + bl && al < 2 && bl < 2
    ensures Xor(a, b, w) == 2 * Xor(ah, bh, w - 1) + (if al == bl then 0 else 1)
    ensures Pow2(w) == 2 * Pow2(w - 1)
  {
    assert a / 2 == ah && a % 2 == al && b / 2 == bh && b % 2 == bl;
  }

  lemma LowBit(a: nat) returns (high: nat, low: nat)
    ensures a == 2 * high + low && low < 2
  {
    high, low := a / 2, a % 2;
  }

  lemma {:induction false} XorUndoes(a: nat, b: nat, w: nat)
    requires a < Pow2(w)
    ensures Xor(Xor(a, b, w), b, w) == a
  {
    if w > 0 {
      hide Xor, Pow2;
      var ah, al := LowBit(a);
      var bh, bl := LowBit(b);
      XorUnfolds(a, b, w, ah, al, bh, bl);
      XorUndoes(ah, bh, w - 1);
      XorUnfolds(Xor(a, b, w), b, w, Xor(ah, bh, w - 1), if al == bl then 0 else 1, bh, bl);
    }
  }

  lemma {:induction false} XorZero(b: nat, w: nat)
    requires b < Pow2(w)
    ensures Xor(0, b, w) == b
  {
    if w > 0 {
      hide Xor, Pow2;
      var bh, bl := LowBit(b);
      XorUnfolds(0, b, w, 0, 0, bh, bl);
      XorZero(bh, w - 1);
    }
  }

  function XorByte(a: Byte, b: Byte): Byte {
    assert Pow2(8) == 256 by { assert Pow2(4) == 16; }
    Xor(a, b, 8)
  }

  function Mask(data: seq<Byte>, key: seq<Byte>): seq<Byte>
    requires |key| == 4
  {
    seq(|data|, i requires 0 <= i < |data| => XorByte(data[i], key[i % 4]))
  }

  lemma MaskUndoes(data: seq<Byte>, key: seq<Byte>)
    requires |key| == 4
    ensures Mask(Mask(data, key), key) == data
  {
    assert Pow2(8) == 256 by { assert Pow2(4) == 16; }
    forall i | 0 <= i < |data| ensures Mask(Mask(data, key), key)[i] == data[i] {
      XorUndoes(data[i], key[i % 4], 8);
    }
  }

  /** The four mask bytes are used in turn: on zeros they show themselves. */
  lemma MaskTakesTurns(data: seq<Byte>, key: seq<Byte>, i: nat)
    requires |key| == 4 && i < |data| && data[i] == 0
    ensures Mask(data, key)[i] == key[i % 4]
  {
    assert Pow2(8) == 256 by { assert Pow2(4) == 16; }
    hide Pow2;
    XorZero(key[i % 4], 8);
  }

  lemma MaskLength(data: seq<Byte>, key: seq<Byte>)
    requires |key| == 4
    ensures |Mask(data, key)| == |data|
  {
  }

  /** Reading `data` off the stream at a position. */
  lemma TakeFront(s: seq<Byte>, at: nat, data: seq<Byte>, rest: seq<Byte>)
    requires at <= |s| && s[at..] == data + rest
    ensures at + |data| <= |s| && s[at..at + |data|] == data && s[at + |data|..] == rest
  {
    assert s[at..][..|data|] == data && s[at..][|data|..] == rest;
  }

  // ---- Lengths ---------------------------------------------------------------------

  function Pow256(k: nat): nat { if k == 0 then 1 else 256 * Pow256(k - 1) }

  /** n as k bytes, most significant first. */
  function BigEndian(n: nat, k: nat): (s: seq<Byte>)
    ensures |s| == k
  {
    if k == 0 then [] else BigEndian(n / 256, k - 1) + [n % 256]
  }

  function FromBigEndian(s: seq<Byte>): nat {
    if s == [] then 0 else 256 * FromBigEndian(s[..|s| - 1]) + s[|s| - 1]
  }

  lemma {:induction false} BigEndianRoundTrip(n: nat, k: nat)
    requires n < Pow256(k)
    ensures FromBigEndian(BigEndian(n, k)) == n
  {
    if k > 0 {
      BigEndianRoundTrip(n / 256, k - 1);
      assert BigEndian(n, k)[..k - 1] == BigEndian(n / 256, k - 1);
    }
  }

  /** Most significant byte first, in both directions. */
  lemma BigEndianPairs(a: Byte, b: Byte)
    ensures BigEndian(256 * a + b, 2) == [a, b] && FromBigEndian([a, b]) == 256 * a + b
  {
    assert BigEndian(a, 1) == BigEndian(0, 0) + [a];
    assert BigEndian(256 * a + b, 2) == BigEndian(a, 1) + [b];
    assert [a, b][..1] == [a] && [a][..0] == [];
    assert FromBigEndian([a]) == a;
  }

  const MAX_LENGTH: nat := 0x1_0000_0000_0000_0000

  lemma LengthBounds()
    ensures Pow256(2) == 65536 && Pow256(8) == MAX_LENGTH
  {
    assert Pow256(4) == 0x1_0000_0000;
  }

  // ---- Sending ---------------------------------------------------------------------

  function Header(first: Byte, n: nat): seq<Byte>
    requires n < MAX_LENGTH
  {
    if n < 126 then [first, 128 + n]
    else if n < 65536 then [first, 128 + 126] + BigEndian(n, 2)
    else [first, 128 + 127] + BigEndian(n, 8)
  }

  /** `_ws_send`: a final text frame, masked. */
  function TextFrame(data: seq<Byte>, key: seq<Byte>): seq<Byte>
    requires |data| < MAX_LENGTH && |key| == 4
  {
    Header(0x81, |data|) + key + Mask(data, key)
  }

  // ---- What a byte stream says -----------------------------------------------------

  datatype Frame = Frame(opcode: nat, data: seq<Byte>)

  function Extra(s: seq<Byte>): nat requires |s| >= 2 {
    if s[1] % 128 == 126 then 2 else if s[1] % 128 == 127 then 8 else 0
  }

  function KeySize(s: seq<Byte>): nat requires |s| >= 2 { if s[1] >= 128 then 4 else 0 }

  function Length(s: seq<Byte>): nat
    requires |s| >= 2 && |s| >= 2 + Extra(s)
  {
    if Extra(s) == 0 then s[1] % 128 else FromBigEndian(s[2..2 + Extra(s)])
  }

  /** A whole frame at the front of the stream, and its size in bytes. */
  function ParseFrame(s: seq<Byte>): (r: Option<(Frame, nat)>)
    ensures r.Some? ==> 2 <= r.value.1 <= |s|
  {
    if |s| < 2 || |s| < 2 + Extra(s) then None
    else
      var start := 2 + Extra(s) + KeySize(s);
      if |s| < start + Length(s) then None
      else
        var raw := s[start..start + Length(s)];
        Some((Frame(s[0] % 16, if KeySize(s) == 4 then Mask(raw, s[start - 4..start]) else raw), start + Length(s)))
  }

  /** How many bytes of a frame are consumed when the socket stops after `arrived` bytes of it. */
  function Consumed(s: seq<Byte>, arrived: nat): nat
    requires arrived <= |s|
  {
    if arrived < 2 then 0
    else if arrived < 2 + Extra(s) then 2
    else if arrived < 2 + Extra(s) + KeySize(s) then 2 + Extra(s)
    else 2 + Extra(s) + KeySize(s)
  }

  /**
   The socket stopped after `arrived` bytes of the frame at the front, too few for all of it,
   and `lost` of them are gone: none exactly when not even the two header bytes had arrived.
   */
  predicate StopsInside(s: seq<Byte>, arrived: nat, lost: nat) {
    && arrived <= |s| && ParseFrame(s[..arrived]).None?
    && lost == Consumed(s, arrived) && (lost == 0 <==> arrived < 2)
  }

  lemma StopsAtEnd(s: seq<Byte>, lost: nat)
    requires StopsInside(s, |s|, lost)
    ensures ParseFrame(s).None?
  {
    assert s[..|s|] == s;
  }

  lemma HeaderParses(n: nat, rest: seq<Byte>)
    requires n < MAX_LENGTH
    ensures var s := Header(0x81, n) + rest;
      && |s| >= 2 + Extra(s) && |Header(0x81, n)| == 2 + Extra(s)
      && KeySize(s) == 4 && Length(s) == n && s[0] % 16 == 1
  {
    var s := Header(0x81, n) + rest;
    LengthBounds();
    if 126 <= n < 65536 {
      assert s[2..4] == BigEndian(n, 2);
      BigEndianRoundTrip(n, 2);
    } else if 65536 <= n {
      assert s[2..10] == BigEndian(n, 8);
      BigEndianRoundTrip(n, 8);
    }
  }

  /** In all three length forms, the frame written is the frame read, and nothing of the rest is touched. */
  lemma FrameRoundTrip(data: seq<Byte>, key: seq<Byte>, rest: seq<Byte>)
    requires |data| < MAX_LENGTH && |key| == 4
    ensures ParseFrame(TextFrame(data, key) + rest) == Some((Frame(1, data), |TextFrame(data, key)|))
  {
    hide Header, Extra, KeySize, Length, Mask;
    var s := TextFrame(data, key) + rest;
    var head := Header(0x81, |data|);
    var body := Mask(data, key);
    MaskUndoes(data, key);
    MaskLength(data, key);
    assert s == head + (key + body + rest);
    HeaderParses(|data|, key + body + rest);
    assert s[|head|..] == key + (body + rest);
    TakeFront(s, |head|, key, body + rest);
    TakeFront(s, |head| + 4, body, rest);
  }

  /** The bytes of a text frame before its mask: final text, the mask bit, and the shortest length form. */
  lemma FrameLayout(data: seq<Byte>, key: seq<Byte>)
    requires |data| < 65536 && |key| == 4
    ensures TextFrame(data, key) ==
      (if |data| < 126 then [0x81, 0x80 + |data|] else [0x81, 0xFE, |data| / 256, |data| % 256]) + key + Mask(data, key)
  {
    if |data| >= 126 { BigEndianPairs(|data| / 256, |data| % 256); }
  }

  /** A header without a mask, for every opcode, as a server sends it. */
  function PlainHeader(opcode: nat, n: nat): seq<Byte>
    requires opcode < 16 && n < MAX_LENGTH
  {
    if n < 126 then [0x80 + opcode, n]
    else if n < 65536 then [0x80 + opcode, 126] + BigEndian(n, 2)
    else [0x80 + opcode, 127] + BigEndian(n, 8)
  }

  lemma PlainHeaderParses(opcode: nat, n: nat, rest: seq<Byte>)
    requires opcode < 16 && n < MAX_LENGTH
    ensures var s := PlainHeader(opcode, n) + rest;
      && |s| >= 2 + Extra(s) && |PlainHeader(opcode, n)| == 2 + Extra(s)
      && KeySize(s) == 0 && Length(s) == n && s[0] % 16 == opcode
  {
    var s := PlainHeader(opcode, n) + rest;
    LengthBounds();
    if 126 <= n < 65536 {
      assert s[2..4] == BigEndian(n, 2);
      BigEndianRoundTrip(n, 2);
    } else if 65536 <= n {
      assert s[2..10] == BigEndian(n, 8);
      BigEndianRoundTrip(n, 8);
    }
  }

  /** Unmasked frames, in all three length forms, are read as they are. */
  lemma PlainFrameParses(opcode: nat, data: seq<Byte>, rest: seq<Byte>)
    requires opcode < 16 && |data| < MAX_LENGTH
    ensures var frame := PlainHeader(opcode, |data|) + data;
      ParseFrame(frame + rest) == Some((Frame(opcode, data), |frame|))
  {
    hide PlainHeader, Extra, KeySize, Length;
    var head := PlainHeader(opcode, |data|);
    var s := head + data + rest;
    assert s == head + (data + rest);
    PlainHeaderParses(opcode, |data|, data + rest);
    assert s[|head|..] == data + rest;
    TakeFront(s, |head|, data, rest);
  }

  datatype Received =
    | TextData(data: seq<Byte>)
    | CloseFrame
    | TimedOut
    | Disconnected
    | PingTooLong

  /** The first thing a stream of whole frames reports to the caller, and how much it spans. */
  function NextReport(s: seq<Byte>): Option<(Received, nat)>
    decreases |s|
  {
    var f := ParseFrame(s);
    if f.None? then None
    else
      var (frame, size) := f.value;
      if frame.opcode == 8 then Some((CloseFrame, size))
      else if frame.opcode == 9 && |frame.data| >= 65536 then Some((PingTooLong, size))
      else if frame.opcode == 9 || frame.opcode == 10 then
        var later := NextReport(s[size..]);
        if later.None? then None else Some((later.value.0, size + later.value.1))
      else Some((TextData(frame.data), size))
  }

  /** The payloads of the pings before that report, each owed a pong. */
  function Pings(s: seq<Byte>): seq<seq<Byte>>
    decreases |s|
  {
    var f := ParseFrame(s);
    if f.None? then []
    else
      var (frame, size) := f.value;
      if frame.opcode == 9 && |frame.data| < 65536 then [frame.data] + Pings(s[size..])
      else if frame.opcode == 10 then Pings(s[size..])
      else []
  }

  /** Frames `_ws_recv` handles by itself: pongs, and pings short enough to answer. */
  predicate Control(f: Frame) { (f.opcode == 9 && |f.data| < 65536) || f.opcode == 10 }

  /** The first k bytes are whole control frames. */
  predicate OnlyControl(s: seq<Byte>, k: nat)
    decreases k
  {
    k == 0 ||
    (&& ParseFrame(s).Some? && Control(ParseFrame(s).value.0) && ParseFrame(s).value.1 <= k
     && OnlyControl(s[ParseFrame(s).value.1..], k - ParseFrame(s).value.1))
  }

  /** The payloads of the pings among the control frames in the first k bytes. */
  function PingsIn(s: seq<Byte>, k: nat): seq<seq<Byte>>
    requires OnlyControl(s, k)
    decreases k
  {
    if k == 0 then []
    else
      var (f, size) := ParseFrame(s).value;
      (if f.opcode == 9 then [f.data] else []) + PingsIn(s[size..], k - size)
  }

  lemma {:induction false} OneMoreControl(s: seq<Byte>, k: nat)
    requires k <= |s| && OnlyControl(s, k)
    requires ParseFrame(s[k..]).Some? && Control(ParseFrame(s[k..]).value.0)
    ensures var (f, size) := ParseFrame(s[k..]).value;
      && OnlyControl(s, k + size)
      && PingsIn(s, k + size) == PingsIn(s, k) + (if f.opcode == 9 then [f.data] else [])
    decreases k
  {
    hide ParseFrame, Control;
    if k == 0 {
      assert s[0..] == s;
      assert OnlyControl(s[ParseFrame(s).value.1..], 0);
    } else {
      var n := ParseFrame(s).value.1;
      assert s[n..][k - n..] == s[k..];
      OneMoreControl(s[n..], k - n);
    }
  }

  /** What a stream reports once k bytes are skipped. */
  function Shifted(r: Option<(Received, nat)>, k: nat): Option<(Received, nat)> {
    if r.None? then None else Some((r.value.0, k + r.value.1))
  }

  lemma {:induction false} OneControlIsSkipped(s: seq<Byte>)
    requires ParseFrame(s).Some? && Control(ParseFrame(s).value.0)
    ensures var (f, size) := ParseFrame(s).value;
      && NextReport(s) == Shifted(NextReport(s[size..]), size)
      && Pings(s) == (if f.opcode == 9 then [f.data] else []) + Pings(s[size..])
  {
    hide ParseFrame;
  }

  /** Control frames do not change what comes after them, and each ping among them is owed its pong. */
  lemma {:induction false} ControlIsSkipped(s: seq<Byte>, k: nat)
    requires k <= |s| && OnlyControl(s, k)
    ensures NextReport(s) == Shifted(NextReport(s[k..]), k)
    ensures Pings(s) == PingsIn(s, k) + Pings(s[k..])
    decreases k
  {
    hide ParseFrame, NextReport, Pings, Control;
    if k == 0 {
      assert s[0..] == s;
    } else {
      var (f, n) := ParseFrame(s).value;
      DropDrop(s, n, k - n);
      ControlIsSkipped(s[n..], k - n);
      OneControlIsSkipped(s);
      var first := if f.opcode == 9 then [f.data] else [];
      assert first + (PingsIn(s[n..], k - n) + Pings(s[k..])) == (first + PingsIn(s[n..], k - n)) + Pings(s[k..]);
    }
  }

  lemma {:induction false} EmptyControl(s: seq<Byte>)
    ensures OnlyControl(s, 0) && PingsIn(s, 0) == []
  {
  }

  /** The frame after the control frames: it is reported, and no ping is owed a pong any more. */
  lemma {:induction false} FrontFrame(s: seq<Byte>, k: nat)
    requires k <= |s| && OnlyControl(s, k)
    ensures ParseFrame(s[k..]).None? ==> NextReport(s).None?
    ensures ParseFrame(s[k..]).Some? && !Control(ParseFrame(s[k..]).value.0) ==>
      var (f, size) := ParseFrame(s[k..]).value;
      && Pings(s) == PingsIn(s, k)
      && NextReport(s) == Some((if f.opcode == 8 then CloseFrame else if f.opcode == 9 then PingTooLong
                                else TextData(f.data), k + size))
  {
    hide ParseFrame, OnlyControl, PingsIn, NextReport, Pings;
    ControlIsSkipped(s, k);
    Reported(s[k..]);
  }

  lemma {:induction false} Reported(s: seq<Byte>)
    ensures ParseFrame(s).None? ==> NextReport(s).None?
    ensures ParseFrame(s).Some? && !Control(ParseFrame(s).value.0) ==>
      var (f, size) := ParseFrame(s).value;
      && Pings(s) == []
      && NextReport(s) == Some((if f.opcode == 8 then CloseFrame else if f.opcode == 9 then PingTooLong
                                else TextData(f.data), size))
  {
    hide ParseFrame;
  }

  /** What each opcode in front of the stream makes of it. */
  lemma {:induction false} OpcodesMean(s: seq<Byte>)
    requires ParseFrame(s).Some?
    ensures var (f, size) := ParseFrame(s).value;
      && (f.opcode == 8 ==> NextReport(s) == Some((CloseFrame, size)) && Pings(s) == [])
      && (f.opcode == 9 && |f.data| >= 65536 ==> NextReport(s) == Some((PingTooLong, size)) && Pings(s) == [])
      && (f.opcode == 9 && |f.data| < 65536 ==>
            NextReport(s) == Shifted(NextReport(s[size..]), size) && Pings(s) == [f.data] + Pings(s[size..]))
      && (f.opcode == 10 ==> NextReport(s) == Shifted(NextReport(s[size..]), size) && Pings(s) == Pings(s[size..]))
      && (f.opcode !in {8, 9, 10} ==> NextReport(s) == Some((TextData(f.data), size)) && Pings(s) == [])
  {
    hide ParseFrame;
  }

  // ---- Receiving -------------------------------------------------------------------

  datatype Chunk = Bytes(data: seq<Byte>) | Eof | Timeout

  /** The line for the time being: dead, delivering without delay, or anything at all. */
  datatype Line = Free | Stalled | Flowing

  class Receiver {
    /** Bytes received but not yet consumed. */
    var pending: seq<Byte>
    /** Bytes the peer has sent that the socket has yet to deliver. */
    var wire: seq<Byte>
    /** Payloads of the pong frames sent in reply. */
    var pongs: seq<seq<Byte>>
    var line: Line
    /** For each read of the socket that timed out, how many bytes were then still to come. */
    ghost var stops: seq<nat>

    ghost function Stream(): seq<Byte>
      reads this`pending, this`wire
    {
      pending + wire
    }

    constructor (leftover: seq<Byte>, incoming: seq<Byte>)
      ensures pending == leftover && wire == incoming && pongs == [] && line == Free && stops == []
    {
      pending, wire, pongs, line, stops := leftover, incoming, [], Free, [];
    }

    /** `sock.recv`: any non-empty chunk of at most n bytes, or the end, or a timeout. */
    method SockRecv(n: nat) returns (r: Chunk)
      requires n > 0
      modifies this`wire, this`stops
      ensures stops == old(stops) + (if r.Timeout? then [|wire|] else [])
      ensures (line.Stalled? ==> r.Timeout?) && (line.Flowing? ==> !r.Timeout?)
      ensures r.Bytes? ==> 0 < |r.data| <= n && old(wire) == r.data + wire
      ensures !r.Bytes? ==> wire == old(wire)
      ensures r.Eof? ==> wire == []
    {
      var quiet := *;
      if line.Stalled? || (line.Free? && quiet) {
        stops := stops + [|wire|];
        return Timeout;
      }
      if wire == [] { return Eof; }
      var k: nat :| 0 < k <= n && k <= |wire|;
      r := Bytes(wire[..k]);
      wire := wire[k..];
    }

    /** `_read`: n bytes off the front of the stream, however the socket chunks them. */
    method Read(n: nat) returns (r: Chunk)
      modifies this`pending, this`wire, this`stops
      ensures stops == old(stops) + (if r.Timeout? then [|wire|] else [])
      ensures (line.Stalled? ==> wire == old(wire)) && (line.Flowing? ==> stops == old(stops))
      ensures r.Bytes? ==> |r.data| == n && old(Stream()) == r.data + Stream()
      ensures !r.Bytes? ==> Stream() == old(Stream()) && |pending| < n
      ensures r.Eof? ==> wire == []
    {
      while |pending| < n
        invariant Stream() == old(Stream()) && stops == old(stops) && (line.Stalled? ==> wire == old(wire))
        decreases n - |pending|
      {
        var c := SockRecv(n - |pending|);
        if !c.Bytes? { return c; }
        pending := pending + c.data;
      }
      r := Bytes(pending[..n]);
      pending := pending[n..];
    }

    static function Failed(c: Chunk): Received { if c.Eof? then Disconnected else TimedOut }

    /** Of a stream that was `s`, how many bytes the socket has delivered by now. */
    ghost function Arrived(s: seq<Byte>): nat
      requires |wire| <= |s|
      reads this`wire
    {
      |s| - |wire|
    }

    /** The two header bytes and the extended length, if there is one. */
    method ReadHeader() returns (ok: bool, opcode: nat, length: nat, masked: bool, why: Received, ghost lost: nat)
      modifies this`pending, this`wire, this`stops
      ensures stops == old(stops) + (if !ok && why.TimedOut? then [|wire|] else [])
      ensures (line.Stalled? ==> wire == old(wire)) && (line.Flowing? ==> stops == old(stops))
      ensures lost <= |old(Stream())| && Stream() == old(Stream())[lost..]
      ensures ok ==> var s := old(Stream());
        && |s| >= 2 && lost == 2 + Extra(s) <= |s|
        && opcode == s[0] % 16 && length == Length(s) && (masked <==> KeySize(s) == 4)
      ensures !ok ==> var s := old(Stream());
        && (why.TimedOut? || (why.Disconnected? && wire == []))
        && |wire| <= |s| && lost == (if Arrived(s) < 2 then 0 else 2)
        && (Arrived(s) < 2 || Arrived(s) < 2 + Extra(s))
    {
      hide FromBigEndian;
      ghost var s := Stream();
      assert s[0..] == s;
      ok, opcode, length, masked, why, lost := false, 0, 0, false, TimedOut, 0;
      var hdr := Read(2);
      if !hdr.Bytes? {
        why := Failed(hdr);
        return;
      }
      TakeFront(s, 0, hdr.data, Stream());
      lost := 2;
      assert s[0] == hdr.data[0] && s[1] == hdr.data[1];
      opcode, length, masked := hdr.data[0] % 16, hdr.data[1] % 128, hdr.data[1] >= 128;
      if length == 126 || length == 127 {
        var size := if length == 126 then 2 else 8;
        var ext := Read(size);
        if !ext.Bytes? {
          why := Failed(ext);
          return;
        }
        TakeFront(s, 2, ext.data, Stream());
        length := FromBigEndian(ext.data);
        lost := 2 + size;
      }
      ok := true;
    }

    /** The mask, if there is one, and the payload, unmasked. */
    method ReadPayload(masked: bool, length: nat) returns (ok: bool, data: seq<Byte>, why: Received, ghost lost: nat)
      modifies this`pending, this`wire, this`stops
      ensures stops == old(stops) + (if !ok && why.TimedOut? then [|wire|] else [])
      ensures (line.Stalled? ==> wire == old(wire)) && (line.Flowing? ==> stops == old(stops))
      ensures lost <= |old(Stream())| && Stream() == old(Stream())[lost..]
      ensures ok ==> var s, start := old(Stream()), if masked then 4 else 0;
        && lost == start + length
        && data == if masked then Mask(s[4..4 + length], s[..4]) else s[..length]
      ensures !ok ==> var s, start := old(Stream()), if masked then 4 else 0;
        && (why.TimedOut? || (why.Disconnected? && wire == []))
        && |wire| <= |s| && Arrived(s) < start + length
        && lost == if Arrived(s) < start then 0 else start
    {
      hide Mask;
      ghost var s := Stream();
      assert s[0..] == s;
      ok, data, why, lost := false, [], TimedOut, 0;
      var key: seq<Byte> := [];
      if masked {
        var k := Read(4);
        if !k.Bytes? {
          why := Failed(k);
          return;
        }
        key := k.data;
        TakeFront(s, 0, key, Stream());
        lost := 4;
      }
      var body := Read(length);
      if !body.Bytes? {
        why := Failed(body);
        return;
      }
      TakeFront(s, lost, body.data, Stream());
      lost := lost + length;
      ok, data := true, if masked then Mask(body.data, key) else body.data;
    }

    /**
     One frame, or nothing because the socket stopped inside it. What is then lost is fixed by
     how many of its bytes had arrived: none exactly when not even the two header bytes had.
     */
    method ReadFrame() returns (r: Option<Frame>, why: Received, ghost lost: nat)
      modifies this`pending, this`wire, this`stops
      ensures stops == old(stops) + (if r.None? && why.TimedOut? then [|wire|] else [])
      ensures (line.Stalled? ==> wire == old(wire)) && (line.Flowing? ==> stops == old(stops))
      ensures lost <= |old(Stream())| && Stream() == old(Stream())[lost..]
      ensures r.Some? ==> ParseFrame(old(Stream())) == Some((r.value, lost))
      ensures r.None? ==> var s := old(Stream());
        && (why.TimedOut? || (why.Disconnected? && wire == []))
        && |wire| <= |s| && StopsInside(s, Arrived(s), lost)
    {
      hide Mask, Length, Extra, StopsInside, ParseFrame, Stream;
      ghost var s := Stream();
      r := None;
      var ok, opcode, length, masked, data;
      ok, opcode, length, masked, why, lost := ReadHeader();
      if !ok {
        StoppedInHeader(s, Arrived(s));
        return;
      }
      ghost var t, more := Stream(), 0;
      ok, data, why, more := ReadPayload(masked, length);
      if !ok {
        StoppedInBody(s, Arrived(s));
      } else {
        WholeFrame(s, t);
        r := Some(Frame(opcode, data));
      }
      assert t[more..] == s[lost + more..];
      lost := lost + more;
    }

    /** The loop of `_ws_recv`: answer pings and skip pongs up to the first other frame. */
    method SkipControl() returns (f: Option<Frame>, why: Received, ghost skipped: nat, ghost size: nat)
      modifies this`pending, this`wire, this`stops, this`pongs
      ensures stops == old(stops) + (if f.None? && why.TimedOut? then [|wire|] else [])
      ensures (line.Stalled? ==> wire == old(wire)) && (line.Flowing? ==> stops == old(stops))
      ensures var s := old(Stream());
        && skipped <= |s| && OnlyControl(s, skipped) && pongs == old(pongs) + PingsIn(s, skipped)
        && size <= |s[skipped..]| && Stream() == s[skipped..][size..]
      ensures f.Some? ==> ParseFrame(old(Stream())[skipped..]) == Some((f.value, size)) && !Control(f.value)
      ensures f.None? ==> var t := old(Stream())[skipped..];
        && (why.TimedOut? || (why.Disconnected? && wire == []))
        && |wire| <= |t| && StopsInside(t, Arrived(t), size)
    {
      hide ParseFrame, StopsInside, OnlyControl, PingsIn, Stream;
      ghost var s := Stream();
      EmptyControl(s);
      skipped := 0;
      assert s[0..] == s;
      f, why, size := ReadFrame();
      while f.Some? && Control(f.value)
        invariant skipped <= |s| && OnlyControl(s, skipped) && pongs == old(pongs) + PingsIn(s, skipped)
        invariant stops == old(stops) + (if f.None? && why.TimedOut? then [|wire|] else [])
        invariant (line.Stalled? ==> wire == old(wire)) && (line.Flowing? ==> stops == old(stops))
        invariant size <= |s[skipped..]| && Stream() == s[skipped..][size..]
        invariant f.Some? ==> ParseFrame(s[skipped..]) == Some((f.value, size))
        invariant f.None? ==> var t := s[skipped..];
                              && (why.TimedOut? || (why.Disconnected? && wire == []))
                              && |wire| <= |t| && StopsInside(t, Arrived(t), size)
        decreases f.Some?, |Stream()|
      {
        OneMoreControl(s, skipped);
        DropDrop(s, skipped, size);
        if f.value.opcode == 9 {
          Grown(old(pongs), PingsIn(s, skipped), [f.value.data]);
          pongs := pongs + [f.value.data];
        }
        skipped := skipped + size;
        f, why, size := ReadFrame();
      }
    }

    /**
     `_ws_recv`: the next text or the close, after any pings (each answered) and pongs. When the
     socket stops, whole control frames may have been skipped, and `lost` says how much of the
     frame after them is gone.
     */
    method Recv() returns (r: Received, ghost skipped: nat, ghost lost: nat)
      modifies this`pending, this`wire, this`stops, this`pongs
      ensures stops == old(stops) + (if r.TimedOut? then [|wire|] else [])
      ensures (line.Stalled? ==> wire == old(wire)) && (line.Flowing? ==> stops == old(stops))
      ensures !r.TimedOut? && !r.Disconnected? ==>
        && NextReport(old(Stream())).Some? && NextReport(old(Stream())).value.0 == r
        && NextReport(old(Stream())).value.1 <= |old(Stream())|
        && Stream() == old(Stream())[NextReport(old(Stream())).value.1..]
        && pongs == old(pongs) + Pings(old(Stream()))
      ensures r.TimedOut? || r.Disconnected? ==> var s := old(Stream());
        && skipped + lost <= |s| && Stream() == s[skipped + lost..]
        && OnlyControl(s, skipped) && pongs == old(pongs) + PingsIn(s, skipped)
        && |wire| <= |s[skipped..]| && StopsInside(s[skipped..], Arrived(s[skipped..]), lost)
      ensures r.Disconnected? ==> NextReport(old(Stream())).None?
    {
      hide ParseFrame, StopsInside, OnlyControl, PingsIn, Pings, NextReport, Stream;
      ghost var s := Stream();
      var f, why;
      f, why, skipped, lost := SkipControl();
      FrontFrame(s, skipped);
      DropDrop(s, skipped, lost);
      if f.None? {
        r := why;
        if why.Disconnected? { StopsAtEnd(s[skipped..], lost); }
      } else if f.value.opcode == 8 {
        r := CloseFrame;
      } else if f.value.opcode == 9 {
        r := PingTooLong;
      } else {
        r := TextData(f.value.data);
      }
    }
  }

  lemma SliceOfDrop(s: seq<Byte>, h: nat, a: nat, b: nat)
    requires a <= b && h + b <= |s|
    ensures s[h..][a..b] == s[h + a..h + b]
  {
  }

  lemma DropDrop(s: seq<Byte>, j: nat, k: nat)
    requires j + k <= |s|
    ensures s[j..][k..] == s[j + k..]
  {
  }

  lemma Grown(a: seq<seq<Byte>>, b: seq<seq<Byte>>, c: seq<seq<Byte>>)
    ensures a + b + c == a + (b + c)
  {
  }

  /** A header and, after it, all the bytes it announces. */
  lemma WholeFrame(s: seq<Byte>, t: seq<Byte>)
    requires |s| >= 2 && 2 + Extra(s) <= |s| && t == s[2 + Extra(s)..] && KeySize(s) + Length(s) <= |t|
    ensures var data := if KeySize(s) == 4 then Mask(t[4..4 + Length(s)], t[..4]) else t[..Length(s)];
      ParseFrame(s) == Some((Frame(s[0] % 16, data), 2 + Extra(s) + KeySize(s) + Length(s)))
  {
    hide Mask, Length, Extra;
    var h, k, n := 2 + Extra(s), KeySize(s), Length(s);
    SliceOfDrop(s, h, k, k + n);
    SliceOfDrop(s, h, 0, k);
  }

  lemma SameHeader(s: seq<Byte>, k: nat)
    requires 2 <= k <= |s|
    ensures Extra(s[..k]) == Extra(s) && KeySize(s[..k]) == KeySize(s)
    ensures 2 + Extra(s) <= k ==> Length(s[..k]) == Length(s)
  {
    if 2 + Extra(s) <= k { assert s[..k][2..2 + Extra(s)] == s[2..2 + Extra(s)]; }
  }

  lemma StoppedInHeader(s: seq<Byte>, arrived: nat)
    requires arrived <= |s| && (arrived < 2 || arrived < 2 + Extra(s))
    ensures StopsInside(s, arrived, if arrived < 2 then 0 else 2)
  {
    if arrived >= 2 { SameHeader(s, arrived); }
  }

  lemma StoppedInBody(s: seq<Byte>, arrived: nat)
    requires |s| >= 2 && 2 + Extra(s) <= arrived <= |s|
    requires arrived < 2 + Extra(s) + KeySize(s) + Length(s)
    ensures StopsInside(s, arrived, 2 + Extra(s) + if arrived < 2 + Extra(s) + KeySize(s) then 0 else KeySize(s))
  {
    SameHeader(s, arrived);
  }

  // ---- Round trip ------------------------------------------------------------------

  /** What the peer sends: a text message with its mask, or any other whole frame that does not end the talk. */
  datatype Piece = TextPiece(data: seq<Byte>, key: seq<Byte>) | FramePiece(frame: seq<Byte>)

  predicate Sendable(p: Piece) {
    match p
    case TextPiece(data, key) => |data| < MAX_LENGTH && |key| == 4
    case FramePiece(frame) =>
      && ParseFrame(frame).Some? && ParseFrame(frame).value.1 == |frame|
      && (Control(ParseFrame(frame).value.0) || ParseFrame(frame).value.0.opcode !in {8, 9, 10})
  }

  predicate AllSendable(ps: seq<Piece>) { forall i :: 0 <= i < |ps| ==> Sendable(ps[i]) }

  function Encoded(p: Piece): seq<Byte>
    requires Sendable(p)
  {
    if p.TextPiece? then TextFrame(p.data, p.key) else p.frame
  }

  function FrameOf(p: Piece): Frame
    requires Sendable(p)
  {
    if p.TextPiece? then Frame(1, p.data) else ParseFrame(p.frame).value.0
  }

  /** The bytes on the wire for these pieces, in order. */
  function OnWire(ps: seq<Piece>): seq<Byte>
    requires AllSendable(ps)
  {
    if ps == [] then [] else Encoded(ps[0]) + OnWire(ps[1..])
  }

  /** The payloads to be returned for them: of everything but pings and pongs. */
  function Texts(ps: seq<Piece>): seq<seq<Byte>>
    requires AllSendable(ps)
  {
    if ps == [] then []
    else (if FrameOf(ps[0]).opcode !in {9, 10} then [FrameOf(ps[0]).data] else []) + Texts(ps[1..])
  }

  /** The payloads of the pongs they are owed. */
  function Owed(ps: seq<Piece>): seq<seq<Byte>>
    requires AllSendable(ps)
  {
    if ps == [] then []
    else (if FrameOf(ps[0]).opcode == 9 then [FrameOf(ps[0]).data] else []) + Owed(ps[1..])
  }

  /** Bytes that come later do not change the frame in front. */
  lemma ParseExtends(s: seq<Byte>, rest: seq<Byte>)
    requires ParseFrame(s).Some?
    ensures ParseFrame(s + rest) == ParseFrame(s)
  {
    hide Mask, FromBigEndian;
    var t := s + rest;
    assert t[..|s|] == s;
    SameHeader(t, |s|);
    var start := 2 + Extra(s) + KeySize(s);
    assert t[start..start + Length(s)] == s[start..start + Length(s)];
    if KeySize(s) == 4 { assert t[start - 4..start] == s[start - 4..start]; }
  }

  lemma PieceParses(p: Piece, rest: seq<Byte>)
    requires Sendable(p)
    ensures ParseFrame(Encoded(p) + rest) == Some((FrameOf(p), |Encoded(p)|))
    ensures Control(FrameOf(p)) <==> FrameOf(p).opcode in {9, 10}
    ensures FrameOf(p).opcode != 8
  {
    hide ParseFrame, TextFrame;
    if p.TextPiece? { FrameRoundTrip(p.data, p.key, rest); } else { ParseExtends(p.frame, rest); }
  }

  /** The first piece: parsed once all of it is there. */
  lemma FirstPiece(ps: seq<Piece>, arrived: nat)
    requires ps != [] && AllSendable(ps) && arrived <= |OnWire(ps)|
    ensures Sendable(ps[0]) && ParseFrame(OnWire(ps)) == Some((FrameOf(ps[0]), |Encoded(ps[0])|))
    ensures Control(FrameOf(ps[0])) <==> FrameOf(ps[0]).opcode in {9, 10}
    ensures FrameOf(ps[0]).opcode != 8
    ensures OnWire(ps)[|Encoded(ps[0])|..] == OnWire(ps[1..])
    ensures ParseFrame(OnWire(ps)[..arrived]).None? ==> arrived < |Encoded(ps[0])|
  {
    hide ParseFrame, Encoded, FrameOf, Sendable;
    var frame := Encoded(ps[0]);
    PieceParses(ps[0], OnWire(ps[1..]));
    if arrived >= |frame| {
      assert OnWire(ps)[..arrived] == frame + OnWire(ps)[|frame|..arrived];
      PieceParses(ps[0], OnWire(ps)[|frame|..arrived]);
    }
  }

  /** Whole control frames in front of the stream are whole pieces. */
  lemma {:induction false} SkippedPieces(ps: seq<Piece>, skipped: nat) returns (k: nat)
    requires AllSendable(ps) && skipped <= |OnWire(ps)| && OnlyControl(OnWire(ps), skipped)
    ensures k <= |ps| && Texts(ps[..k]) == []
    ensures OnWire(ps)[skipped..] == OnWire(ps[k..])
    ensures PingsIn(OnWire(ps), skipped) == Owed(ps[..k])
  {
    hide ParseFrame, Encoded, FrameOf, Sendable, Control, OnWire;
    var s := OnWire(ps);
    if skipped == 0 {
      k := 0;
      assert s[0..] == s && ps[0..] == ps;
    } else {
      EmptyWire();
      FirstPiece(ps, 0);
      var n := |Encoded(ps[0])|;
      var j := SkippedPieces(ps[1..], skipped - n);
      k := j + 1;
      DropDrop(s, n, skipped - n);
      assert ps[1..][j..] == ps[k..];
      assert ps[..k][1..] == ps[1..][..j] && ps[..k][0] == ps[0];
    }
  }

  lemma EmptyWire()
    ensures OnWire([]) == []
  {
  }

  /** Up to and with the first text: it is what `_ws_recv` reports, and the pings before it are answered. */
  lemma {:induction false} NextText(ps: seq<Piece>) returns (k: nat)
    requires AllSendable(ps) && Texts(ps) != []
    ensures k < |ps| && FrameOf(ps[k]).opcode !in {9, 10} && Texts(ps[..k + 1]) == [FrameOf(ps[k]).data]
    ensures |OnWire(ps[k + 1..])| <= |OnWire(ps)|
    ensures NextReport(OnWire(ps)) == Some((TextData(FrameOf(ps[k]).data), |OnWire(ps)| - |OnWire(ps[k + 1..])|))
    ensures OnWire(ps)[|OnWire(ps)| - |OnWire(ps[k + 1..])|..] == OnWire(ps[k + 1..])
    ensures Pings(OnWire(ps)) == Owed(ps[..k + 1])
  {
    hide ParseFrame, Encoded, Sendable, OnWire, NextReport, Pings, Control;
    FirstPiece(ps, 0);
    var s := OnWire(ps);
    if FrameOf(ps[0]).opcode !in {9, 10} {
      k := 0;
      Reported(s);
      assert ps[..1] == [ps[0]] && [ps[0]][1..] == [];
      assert Texts([]) == [] && Owed([]) == [];
    } else {
      var n := |Encoded(ps[0])|;
      var j := NextText(ps[1..]);
      k := j + 1;
      OneControlIsSkipped(s);
      DropDrop(s, n, |s[n..]| - |OnWire(ps[1..][j + 1..])|);
      assert ps[1..][j + 1..] == ps[k + 1..];
      assert ps[..k + 1][1..] == ps[1..][..j + 1] && ps[..k + 1][0] == ps[0];
    }
  }

  lemma {:induction false} Concatenate(ps: seq<Piece>, qs: seq<Piece>)
    requires AllSendable(ps) && AllSendable(qs)
    ensures Texts(ps + qs) == Texts(ps) + Texts(qs) && Owed(ps + qs) == Owed(ps) + Owed(qs)
  {
    hide FrameOf, Sendable;
    if ps == [] {
      assert ps + qs == qs;
    } else {
      assert (ps + qs)[1..] == ps[1..] + qs && (ps + qs)[0] == ps[0];
      Concatenate(ps[1..], qs);
      Grown(if FrameOf(ps[0]).opcode !in {9, 10} then [FrameOf(ps[0]).data] else [], Texts(ps[1..]), Texts(qs));
      Grown(if FrameOf(ps[0]).opcode == 9 then [FrameOf(ps[0]).data] else [], Owed(ps[1..]), Owed(qs));
    }
  }

  /** With w bytes still to come, piece j has two of its bytes at least, but not all. */
  predicate InsideAt(ps: seq<Piece>, j: nat, w: nat)
    requires AllSendable(ps)
  {
    j < |ps| && |OnWire(ps[j + 1..])| < w && w + 2 <= |OnWire(ps[j..])|
  }

  predicate Inside(ps: seq<Piece>, w: nat)
    requires AllSendable(ps)
  {
    exists j :: 0 <= j < |ps| && InsideAt(ps, j, w)
  }

  /** None of these timeouts struck inside a frame. */
  predicate Clean(ps: seq<Piece>, stops: seq<nat>, from: nat)
    requires AllSendable(ps)
  {
    forall i :: from <= i < |stops| ==> !Inside(ps, stops[i])
  }

  /** The first of these timeouts to strike inside a frame struck inside piece j. */
  predicate FirstTear(ps: seq<Piece>, stops: seq<nat>, from: nat, j: nat)
    requires AllSendable(ps)
  {
    exists i :: from <= i < |stops| && InsideAt(ps, j, stops[i]) && Clean(ps, stops[..i], from)
  }

  /** A timeout loses nothing but whole control frames, unless it strikes inside a piece. */
  lemma TimedOutOn(ps: seq<Piece>, at: nat, skipped: nat, lost: nat, wire: nat) returns (k: nat)
    requires AllSendable(ps) && at <= |ps| && Texts(ps[at..]) != []
    requires var s := OnWire(ps[at..]);
      && skipped + lost <= |s| && OnlyControl(s, skipped) && wire <= |s| - skipped
      && StopsInside(s[skipped..], |s| - skipped - wire, lost)
    ensures at <= k < |ps| && Texts(ps[at..k]) == [] && PingsIn(OnWire(ps[at..]), skipped) == Owed(ps[at..k])
    ensures OnWire(ps[at..])[skipped..] == OnWire(ps[k..])
    ensures if lost == 0 then !Inside(ps, wire) else InsideAt(ps, k, wire)
  {
    hide ParseFrame, OnlyControl, OnWire, Owed, PingsIn, Sendable, Consumed, Encoded;
    var left := ps[at..];
    var j := SkippedPieces(left, skipped);
    k := at + j;
    assert left[..j] == ps[at..k] && left[j..] == ps[k..];
    assert left[..|left|] == left;
    FirstPiece(ps[k..], |OnWire(ps[k..])| - wire);
    assert ps[k..][1..] == ps[k + 1..];
    if lost == 0 { NotInside(ps, k, wire); }
  }

  /** Every piece takes up two bytes at least. */
  lemma {:induction false} SuffixLengths(ps: seq<Piece>, i: nat, j: nat)
    requires AllSendable(ps) && i <= j <= |ps|
    ensures |OnWire(ps[j..])| + 2 * (j - i) <= |OnWire(ps[i..])|
    decreases j - i
  {
    hide ParseFrame, Sendable, Encoded;
    if i < j {
      assert ps[i..][1..] == ps[i + 1..];
      FirstPiece(ps[i..], 0);
      SuffixLengths(ps, i + 1, j);
    }
  }

  /** Where fewer than two bytes of piece k have arrived, no piece is partly there. */
  lemma NotInside(ps: seq<Piece>, k: nat, w: nat)
    requires AllSendable(ps) && k <= |ps| && |OnWire(ps[k..])| - 2 < w <= |OnWire(ps[k..])|
    ensures !Inside(ps, w)
  {
    hide OnWire, Sendable;
    forall j | 0 <= j < |ps| ensures !InsideAt(ps, j, w) {
      if j < k { SuffixLengths(ps, j + 1, k); } else { SuffixLengths(ps, k, j); }
    }
  }

  lemma TextsLeft(ps: seq<Piece>, at: nat)
    requires AllSendable(ps) && at <= |ps| && |Texts(ps[..at])| < |Texts(ps)|
    ensures Texts(ps[at..]) != []
  {
    hide Sendable, Texts;
    assert ps[..at] + ps[at..] == ps;
    Concatenate(ps[..at], ps[at..]);
  }

  lemma Advance(ps: seq<Piece>, at: nat, k: nat)
    requires AllSendable(ps) && at <= k <= |ps|
    ensures Texts(ps[..k]) == Texts(ps[..at]) + Texts(ps[at..k]) && Owed(ps[..k]) == Owed(ps[..at]) + Owed(ps[at..k])
  {
    hide Sendable, Texts, Owed;
    assert ps[..at] + ps[at..k] == ps[..k];
    Concatenate(ps[..at], ps[at..k]);
  }

  lemma NothingYet(ps: seq<Piece>, stops: seq<nat>)
    requires AllSendable(ps)
    ensures Clean(ps, stops, |stops|) && Texts([]) == [] && Owed([]) == []
  {
  }

  lemma OneMoreStop(ps: seq<Piece>, stops: seq<nat>, from: nat, w: nat, k: nat)
    requires AllSendable(ps) && from <= |stops| && Clean(ps, stops, from)
    ensures !Inside(ps, w) ==> Clean(ps, stops + [w], from)
    ensures InsideAt(ps, k, w) ==> !Clean(ps, stops + [w], from) && FirstTear(ps, stops + [w], from, k)
  {
    hide InsideAt, Sendable;
    var all := stops + [w];
    if InsideAt(ps, k, w) {
      assert k < |ps| by { InsideIsPiece(ps, k, w); }
      assert all[|stops|] == w && all[..|stops|] == stops;
    }
  }

  lemma InsideIsPiece(ps: seq<Piece>, k: nat, w: nat)
    requires AllSendable(ps) && InsideAt(ps, k, w)
    ensures k < |ps|
  {
  }

  lemma StaysTorn(ps: seq<Piece>, stops: seq<nat>, from: nat, at: nat, w: nat)
    requires AllSendable(ps) && FirstTear(ps, stops, from, at)
    ensures !Clean(ps, stops + [w], from) && FirstTear(ps, stops + [w], from, at)
  {
    hide Sendable, OnWire;
    var all := stops + [w];
    var i :| from <= i < |stops| && InsideAt(ps, at, stops[i]) && Clean(ps, stops[..i], from);
    assert all[i] == stops[i] && all[..i] == stops[..i];
    assert Inside(ps, all[i]);
  }

  /**
   For every list of messages with any control frames between them, every mask and length form,
   every split of the bytes between what the handshake left over and what the socket delivers,
   every chunking by the socket and every timeout between frames, after which the caller asks
   again: the payloads come in order, each ping is answered in order, and what is left is exactly
   the pieces not yet read; nothing but `tries` calls, each of which timed out or returned a
   payload, ends it early. A timeout is between frames unless the frame then arriving had two of
   its bytes and not all. After one that is not, the payloads from before it are still right.
   */
  method ReceiveAll(rx: Receiver, ghost ps: seq<Piece>, count: nat, tries: nat)
    returns (texts: seq<seq<Byte>>, ghost at: nat)
    requires AllSendable(ps) && |Texts(ps)| == count
    requires rx.Stream() == OnWire(ps)
    modifies rx`pending, rx`wire, rx`stops, rx`pongs
    ensures at <= |ps| && Texts(ps[..at]) <= texts && |texts| <= count && old(rx.stops) <= rx.stops
    ensures Clean(ps, rx.stops, |old(rx.stops)|) ==>
      && texts == Texts(ps[..at]) && rx.pongs == old(rx.pongs) + Owed(ps[..at])
      && rx.Stream() == OnWire(ps[at..])
      && (|texts| == count || |texts| + (|rx.stops| - |old(rx.stops)|) == tries)
    ensures !Clean(ps, rx.stops, |old(rx.stops)|) ==> FirstTear(ps, rx.stops, |old(rx.stops)|, at)
    ensures rx.line.Flowing? ==> rx.stops == old(rx.stops) && (count <= tries ==> |texts| == count)
  {
    hide NextReport, ParseFrame, OnlyControl, OnWire, StopsInside, Pings, PingsIn, Owed, Texts, Sendable, Clean, FirstTear,
         InsideAt, Inside;
    texts, at := [], 0;
    ghost var from := |rx.stops|;
    NothingYet(ps, rx.stops);
    assert ps[0..] == ps && ps[..0] == [];
    var n := 0;
    while n < tries && |texts| < count
      invariant n <= tries && at <= |ps| && Texts(ps[..at]) <= texts && |texts| <= count && old(rx.stops) <= rx.stops
      invariant if Clean(ps, rx.stops, from) then
          && texts == Texts(ps[..at]) && rx.pongs == old(rx.pongs) + Owed(ps[..at])
          && rx.Stream() == OnWire(ps[at..])
          && n == |texts| + (|rx.stops| - from)
        else FirstTear(ps, rx.stops, from, at)
      invariant rx.line.Flowing? ==> rx.stops == old(rx.stops)
      decreases tries - n
    {
      ghost var s, stops := rx.Stream(), rx.stops;
      var r;
      ghost var skipped, lost;
      r, skipped, lost := rx.Recv();
      assert stops + [] == stops;
      if Clean(ps, stops, from) {
        TextsLeft(ps, at);
        if r.TimedOut? {
          var k := TimedOutOn(ps, at, skipped, lost, |rx.wire|);
          Advance(ps, at, k);
          Grown(old(rx.pongs), Owed(ps[..at]), Owed(ps[at..k]));
          OneMoreStop(ps, stops, from, |rx.wire|, k);
          at := k;
        } else {
          var j := NextText(ps[at..]);
          assert ps[at..][..j + 1] == ps[at..at + j + 1] && ps[at..][j + 1..] == ps[at + j + 1..];
          Advance(ps, at, at + j + 1);
          Grown(old(rx.pongs), Owed(ps[..at]), Owed(ps[at..at + j + 1]));
          at := at + j + 1;
        }
      } else if r.TimedOut? {
        StaysTorn(ps, stops, from, at, |rx.wire|);
      }
      if r.TextData? {
        texts := texts + [r.data];
      } else if !r.TimedOut? {
        return;
      }
      n := n + 1;
    }
    NothingYet(ps, old(rx.stops));
  }

  // ---- A run that loses framing ----------------------------------------------------

  /** A mask whose bytes, read on their own, are a close frame. */
  const CLOSING_KEY: seq<Byte> := [0x88, 0, 0, 0]

  lemma TailReadsAsClose()
    ensures NextReport(TextFrame([], CLOSING_KEY)) == Some((TextData([]), 6))
    ensures TextFrame([], CLOSING_KEY) == [0x81, 128] + CLOSING_KEY
    ensures NextReport(CLOSING_KEY) == Some((CloseFrame, 2))
  {
    var key := CLOSING_KEY;
    FrameRoundTrip([], key, []);
    assert Mask([], key) == [];
    var s := TextFrame([], key);
    assert s == [0x81, 128, 0x88, 0, 0, 0];
    assert s + [] == s;
    assert ParseFrame(key) == Some((Frame(8, []), 2)) by { assert key[2..2] == []; }
  }

  lemma OneText(ps: seq<Piece>)
    requires ps == [TextPiece([], CLOSING_KEY)]
    ensures AllSendable(ps) && ps[0..] == ps && Texts(ps) != []
    ensures OnWire(ps) == TextFrame([], CLOSING_KEY) && OnWire(ps[1..]) == []
  {
    hide TextFrame;
    assert ps[1..] == [];
    assert TextFrame([], CLOSING_KEY) + [] == TextFrame([], CLOSING_KEY);
  }

  /** Two of its six bytes in: the header is read and gone. */
  lemma HeaderIsGone(s: seq<Byte>, skipped: nat, lost: nat)
    requires s == [0x81, 128] + CLOSING_KEY && skipped <= |s| && OnlyControl(s, skipped)
    requires 4 <= |s| - skipped && StopsInside(s[skipped..], |s| - skipped - 4, lost)
    ensures skipped == 0 && lost == 2 && s[2..] == CLOSING_KEY
  {
    TailReadsAsClose();
    hide NextReport;
    var ps := [TextPiece([], CLOSING_KEY)];
    OneText(ps);
    FirstPiece(ps, 0);
    assert s[0..] == s;
  }

  /**
   A timeout inside a frame does lose framing: the peer sends one empty text, the line stalls
   when the header is in and then flows again, and the second call reports a close that the peer
   never sent.
   */
  method TimeoutInsideFrameLosesFraming() returns (first: Received, second: Received, rx: Receiver)
    ensures first == TimedOut && second == CloseFrame
    ensures fresh(rx) && rx.stops == [4] && Inside([TextPiece([], CLOSING_KEY)], 4)
  {
    hide NextReport, ParseFrame, OnlyControl, StopsInside, TextFrame, Pings, PingsIn;
    TailReadsAsClose();
    rx := new Receiver([0x81, 128], CLOSING_KEY);
    rx.line := Stalled;
    ghost var s := rx.Stream();
    ghost var skipped, lost;
    first, skipped, lost := rx.Recv();
    HeaderIsGone(s, skipped, lost);
    rx.line := Flowing;
    second, skipped, lost := rx.Recv();
    ghost var sent := [TextPiece([], CLOSING_KEY)];
    OneText(sent);
    assert InsideAt(sent, 0, 4);
  }
}
