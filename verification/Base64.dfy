/** Base64 with padding, section 4 of RFC 4648: canonical encoder and strict decoder. */
module Base64 {
  import opened Numbers
  import opened Wrappers

  type Sextet = n: nat | n < 64

  function Symbol(i: Sextet): char {
    if i < 26 then ('A' as int + i) as char
    else if i < 52 then ('a' as int + i - 26) as char
    else if i < 62 then ('0' as int + i - 52) as char
    else if i == 62 then '+' else '/'
  }

  function Index(c: char): Option<Sextet> {
    if 'A' <= c <= 'Z' then Some(c as int - 'A' as int)
    else if 'a' <= c <= 'z' then Some(c as int - 'a' as int + 26)
    else if '0' <= c <= '9' then Some(c as int - '0' as int + 52)
    else if c == '+' then Some(62)
    else if c == '/' then Some(63) else None
  }

  lemma IndexExact(c: char, i: Sextet)
    ensures Index(c) == Some(i) <==> c == Symbol(i)
  {
  }

  function Quantum(a: Byte, b: Byte, c: Byte): (s: string)
    ensures |s| == 4
  {
    [Symbol(a / 4), Symbol(a % 4 * 16 + b / 16), Symbol(b % 16 * 4 + c / 64), Symbol(c % 64)]
  }

  function Encode(b: seq<Byte>): (s: string)
    ensures |s| == (|b| + 2) / 3 * 4
  {
    if b == [] then ""
    else if |b| == 1 then [Symbol(b[0] / 4), Symbol(b[0] % 4 * 16), '=', '=']
    else if |b| == 2 then
      [Symbol(b[0] / 4), Symbol(b[0] % 4 * 16 + b[1] / 16), Symbol(b[1] % 16 * 4), '=']
    else Quantum(b[0], b[1], b[2]) + Encode(b[3..])
  }

  /** The alphabet of Table 1 in section 4 of RFC 4648: A to Z, a to z, 0 to 9, '+' and '/', in order. */
  lemma Alphabet(i: Sextet)
    ensures Symbol(0) == 'A' && Symbol(25) == 'Z' && Symbol(26) == 'a' && Symbol(51) == 'z'
    ensures Symbol(52) == '0' && Symbol(61) == '9' && Symbol(62) == '+' && Symbol(63) == '/'
    ensures i !in {25, 51, 61, 62, 63} ==> Symbol(i + 1) as int == Symbol(i) as int + 1
  {
  }

  /** "foobar" of section 10 of RFC 4648. */
  lemma Foobar()
    ensures Encode([102, 111, 111, 98, 97, 114]) == "Zm9vYmFy"
  {
    assert Quantum(102, 111, 111) == "Zm9v";
    assert Quantum(98, 97, 114) == "YmFy";
    hide Quantum;
    var s: seq<Byte> := [102, 111, 111, 98, 97, 114];
    assert s[3..] == [98, 97, 114] && [98, 97, 114][3..] == [];
    assert Encode([98, 97, 114]) == "YmFy" + "";
    assert Encode(s) == "Zm9v" + "YmFy";
  }

  /** Four sextets in order are the three bytes in order, most significant first. */
  lemma QuantumValue(a: Byte, b: Byte, c: Byte, w: Sextet, x: Sextet, y: Sextet, z: Sextet)
    requires Quantum(a, b, c) == [Symbol(w), Symbol(x), Symbol(y), Symbol(z)]
    ensures ((w * 64 + x) * 64 + y) * 64 + z == (a * 256 + b) * 256 + c
  {
    hide Symbol;
    IndexExact(Symbol(w), w);
    IndexExact(Symbol(x), x);
    IndexExact(Symbol(y), y);
    IndexExact(Symbol(z), z);
    IndexExact(Symbol(w), a / 4);
    IndexExact(Symbol(x), a % 4 * 16 + b / 16);
    IndexExact(Symbol(y), b % 16 * 4 + c / 64);
    IndexExact(Symbol(z), c % 64);
  }

  /** One and two bytes left over: padded, with zero bits below them. */
  lemma PaddedQuantum(a: Byte, b: Byte)
    ensures Encode([a]) == Quantum(a, 0, 0)[..2] + "==" && Encode([a, b]) == Quantum(a, b, 0)[..3] + "="
  {
    hide Symbol;
  }

  /** A last quantum: the unused low bits must be zero. */
  function DecodeLast(s: string): (r: Option<seq<Byte>>)
    requires |s| == 4
    ensures r.Some? ==> 1 <= |r.value| <= 3
  {
    var w, x, y := Index(s[0]), Index(s[1]), Index(s[2]);
    if w.None? || x.None? then None
    else if s[2] == '=' && s[3] == '=' then
      if x.value % 16 == 0 then Some([w.value * 4 + x.value / 16]) else None
    else if y.None? then None
    else if s[3] == '=' then
      if y.value % 4 == 0 then Some([w.value * 4 + x.value / 16, x.value % 16 * 16 + y.value / 4]) else None
    else DecodeFull(s)
  }

  function DecodeFull(s: string): (r: Option<seq<Byte>>)
    requires |s| == 4
    ensures r.Some? ==> |r.value| == 3
  {
    var w, x, y, z := Index(s[0]), Index(s[1]), Index(s[2]), Index(s[3]);
    if w.None? || x.None? || y.None? || z.None? then None
    else Some([w.value * 4 + x.value / 16, x.value % 16 * 16 + y.value / 4, y.value % 4 * 64 + z.value])
  }

  function Decode(s: string): Option<seq<Byte>> {
    if s == "" then Some([])
    else if |s| < 4 then None
    else if |s| == 4 then DecodeLast(s)
    else
      var head, tail := DecodeFull(s[..4]), Decode(s[4..]);
      if head.None? || tail.None? then None else Some(head.value + tail.value)
  }

  /** Regrouping three bytes as four sextets is a bijection. */
  lemma Regroup(a: Byte, b: Byte, c: Byte, w: Sextet, x: Sextet, y: Sextet, z: Sextet)
    ensures w * 4 + x / 16 == a && x % 16 * 16 + y / 4 == b && y % 4 * 64 + z == c <==>
            w == a / 4 && x == a % 4 * 16 + b / 16 && y == b % 16 * 4 + c / 64 && z == c % 64
  {
    High4(w, x / 16, a);
    High16(x % 16, y / 4, b);
    High64(y % 4, z, c);
    High16(a % 4, b / 16, x);
    High4(b % 16, c / 64, y);
    assert x == x / 16 * 16 + x % 16 && y == y / 4 * 4 + y % 4;
  }

  lemma High4(q: nat, r: nat, n: nat)
    requires r < 4
    ensures q * 4 + r == n <==> q == n / 4 && r == n % 4
  {
  }

  lemma High16(q: nat, r: nat, n: nat)
    requires r < 16
    ensures q * 16 + r == n <==> q == n / 16 && r == n % 16
  {
  }

  lemma High64(q: nat, r: nat, n: nat)
    requires r < 64
    ensures q * 64 + r == n <==> q == n / 64 && r == n % 64
  {
  }

  lemma QuantumExact(s: string, a: Byte, b: Byte, c: Byte)
    requires |s| == 4
    ensures DecodeFull(s) == Some([a, b, c]) <==> s == Quantum(a, b, c)
  {
    hide Symbol, Index;
    IndexExact(s[0], a / 4);
    IndexExact(s[1], a % 4 * 16 + b / 16);
    IndexExact(s[2], b % 16 * 4 + c / 64);
    IndexExact(s[3], c % 64);
    assert s == [s[0], s[1], s[2], s[3]];
    if Index(s[0]).Some? && Index(s[1]).Some? && Index(s[2]).Some? && Index(s[3]).Some? {
      Regroup(a, b, c, Index(s[0]).value, Index(s[1]).value, Index(s[2]).value, Index(s[3]).value);
    }
  }

  lemma FullExact(s: string, a: Byte, b: Byte, c: Byte)
    requires |s| == 4
    ensures DecodeFull(s) == Some([a, b, c]) <==> s == Encode([a, b, c])
  {
    hide Quantum, DecodeFull;
    QuantumExact(s, a, b, c);
    assert [a, b, c][3..] == [];
  }

  lemma OneExact(s: string, a: Byte)
    requires |s| == 4
    ensures DecodeLast(s) == Some([a]) <==> s == Encode([a])
  {
    hide Symbol, Index, DecodeFull;
    IndexExact(s[0], a / 4);
    IndexExact(s[1], a % 4 * 16);
    assert s == [s[0], s[1], s[2], s[3]];
  }

  lemma TwoExact(s: string, a: Byte, b: Byte)
    requires |s| == 4
    ensures DecodeLast(s) == Some([a, b]) <==> s == Encode([a, b])
  {
    hide Symbol, Index, DecodeFull;
    NotPadding(b % 16 * 4);
    IndexExact(s[0], a / 4);
    IndexExact(s[1], a % 4 * 16 + b / 16);
    IndexExact(s[2], b % 16 * 4);
    assert s == [s[0], s[1], s[2], s[3]];
    if Index(s[0]).Some? && Index(s[1]).Some? && Index(s[2]).Some? && Index(s[2]).value % 4 == 0 {
      Regroup(a, b, 0, Index(s[0]).value, Index(s[1]).value, Index(s[2]).value, 0);
    }
  }

  lemma ThreeExact(s: string, a: Byte, b: Byte, c: Byte)
    requires |s| == 4
    ensures DecodeLast(s) == Some([a, b, c]) <==> s == Encode([a, b, c])
  {
    hide Symbol;
    FullExact(s, a, b, c);
    NotPadding(b % 16 * 4 + c / 64);
    NotPadding(c % 64);
    assert [a, b, c][3..] == [];
  }

  lemma LastExact(s: string, b: seq<Byte>)
    requires |s| == 4
    ensures DecodeLast(s) == Some(b) <==> b != [] && s == Encode(b)
  {
    hide DecodeLast, Symbol;
    if |b| == 1 {
      assert b == [b[0]];
      OneExact(s, b[0]);
    } else if |b| == 2 {
      assert b == [b[0], b[1]];
      TwoExact(s, b[0], b[1]);
    } else if |b| == 3 {
      assert b == [b[0], b[1], b[2]];
      ThreeExact(s, b[0], b[1], b[2]);
    }
  }

  lemma NotPadding(i: Sextet)
    ensures Symbol(i) != '=' && Index('=') == None
  {
  }

  /** A leading full quantum is encoded and decoded on its own. */
  lemma {:induction false} EncodeSplits(b: seq<Byte>)
    requires |b| >= 3
    ensures Encode(b) == Encode(b[..3]) + Encode(b[3..]) && |Encode(b[..3])| == 4
  {
    hide Quantum, Symbol;
    var q := Quantum(b[0], b[1], b[2]);
    assert Encode(b[..3]) == q by {
      assert b[..3][3..] == [] && b[..3][0] == b[0] && b[..3][1] == b[1] && b[..3][2] == b[2];
      assert Encode([]) == "" && q + "" == q;
    }
    assert Encode(b) == q + Encode(b[3..]);
  }

  /** Decoding inverts encoding, and nothing else decodes: one text per byte string. */
  lemma {:induction false} DecodeExact(s: string, b: seq<Byte>)
    ensures Decode(s) == Some(b) <==> s == Encode(b)
    decreases |s|
  {
    hide DecodeLast, DecodeFull, Encode;
    EmptyEncodes(b);
    if |s| == 4 {
      LastExact(s, b);
    } else if |s| > 4 {
      if Decode(s) == Some(b) {
        var head, tail := DecodeFull(s[..4]).value, Decode(s[4..]).value;
        assert head == [head[0], head[1], head[2]];
        FullExact(s[..4], head[0], head[1], head[2]);
        DecodeExact(s[4..], tail);
        assert b[..3] == head && b[3..] == tail && s == s[..4] + s[4..];
        EncodeSplits(b);
      }
      if s == Encode(b) {
        EncodeSplits(b);
        assert b[..3] == [b[0], b[1], b[2]];
        assert s[..4] == Encode(b[..3]) && s[4..] == Encode(b[3..]);
        FullExact(s[..4], b[0], b[1], b[2]);
        DecodeExact(s[4..], b[3..]);
        assert b == b[..3] + b[3..];
      }
    }
  }

  lemma EmptyEncodes(b: seq<Byte>)
    ensures Encode(b) == "" <==> b == []
  {
  }

  predicate Base64Text(s: string) { forall i :: 0 <= i < |s| ==> Index(s[i]).Some? || s[i] == '=' }

  lemma {:induction false} EncodeAlphabet(b: seq<Byte>)
    ensures Base64Text(Encode(b))
  {
    hide Symbol, Index;
    forall i: Sextet ensures Index(Symbol(i)) == Some(i) { IndexExact(Symbol(i), i); }
    if |b| > 2 {
      EncodeAlphabet(b[3..]);
      assert Base64Text(Quantum(b[0], b[1], b[2]));
    }
  }
}
