/**
 JSON as the envelope uses it: unsigned integers, strings, arrays and objects; a value of any
 other kind is carried as its text. An object keeps its members in text order. `Print` is the
 compact form, `ReadsCompact` is what is asked of a JSON reader, and `Read` is one such reader,
 the strictest: no white space, no escapes, nothing that `Print` would not write.
 */
module EnvelopeJson {
  import opened Wrappers
  import opened Text

  datatype Json = Num(n: nat) | Str(s: string) | Arr(items: Items) | Obj(members: Members) | Other(text: string)
  datatype Items = NoItems | Item(head: Json, tail: Items)
  datatype Members = NoMembers | Member(key: string, value: Json, tail: Members)

  function Quote(s: string): string { "\"" + s + "\"" }

  function Print(j: Json): string
    decreases j, 0
  {
    match j
    case Num(n) => Decimal(n)
    case Str(s) => Quote(s)
    case Arr(items) => "[" + PrintItems(items) + "]"
    case Obj(members) => "{" + PrintMembers(members) + "}"
    case Other(text) => text
  }

  function PrintItems(items: Items): string
    decreases items, 0
  {
    match items
    case NoItems => ""
    case Item(head, tail) => if tail.NoItems? then Print(head) else Print(head) + "," + PrintItems(tail)
  }

  function PrintMember(key: string, value: Json): string
    decreases value, 1
  {
    Quote(key) + ":" + Print(value)
  }

  function PrintMembers(members: Members): string
    decreases members, 0
  {
    match members
    case NoMembers => ""
    case Member(key, value, tail) =>
      if tail.NoMembers? then PrintMember(key, value) else PrintMember(key, value) + "," + PrintMembers(tail)
  }

  predicate PlainChar(c: char) { ' ' <= c && c != '"' && c != '\\' }

  /** Text that stands for itself between quotes. */
  predicate Plain(s: string) { forall i :: 0 <= i < |s| ==> PlainChar(s[i]) }

  const U64: nat := 0x1_0000_0000_0000_0000

  /** Integers that fit in 64 bits and text without escapes, to any depth. */
  predicate PlainJson(j: Json) {
    match j
    case Num(n) => n < U64
    case Str(s) => Plain(s)
    case Arr(items) => PlainItems(items)
    case Obj(members) => PlainMembers(members)
    case Other(_) => false
  }

  predicate PlainItems(items: Items) {
    match items case NoItems => true case Item(head, tail) => PlainJson(head) && PlainItems(tail)
  }

  predicate PlainMembers(members: Members) {
    match members case NoMembers => true
                  case Member(key, value, tail) => Plain(key) && PlainJson(value) && PlainMembers(tail)
  }

  function Depth(j: Json): nat {
    match j
    case Num(_) => 0
    case Str(_) => 0
    case Arr(items) => 1 + ItemsDepth(items)
    case Obj(members) => 1 + MembersDepth(members)
    case Other(_) => 0
  }

  function ItemsDepth(items: Items): nat {
    match items case NoItems => 0 case Item(head, tail) => MaxDepth(Depth(head), ItemsDepth(tail))
  }

  function MembersDepth(members: Members): nat {
    match members case NoMembers => 0 case Member(_, value, tail) => MaxDepth(Depth(value), MembersDepth(tail))
  }

  function MaxDepth(a: nat, b: nat): nat { if a > b then a else b }

  /** How deeply nested a text the JSON library still reads. */
  const DEPTH_LIMIT := 128

  /** A JSON reader that undoes the compact print; on all other text it may do as it likes. */
  ghost predicate ReadsCompact(read: string -> Option<Json>) {
    forall j :: PlainJson(j) && Depth(j) < DEPTH_LIMIT ==> read(Print(j)) == Some(j)
  }

  lemma StrictReaderReadsCompact()
    ensures ReadsCompact(Read)
  {
    forall j | PlainJson(j) ensures Read(Print(j)) == Some(j) { ReadExact(Print(j), j); }
  }

  // ---- The reader: a value and the text after it -----------------------------------

  /** After the opening quote: the string up to the closing quote, and the rest. */
  function ReadString(s: string): (r: Option<(string, string)>)
    ensures r.Some? ==> |r.value.1| < |s|
  {
    if s == "" then None
    else if s[0] == '"' then Some(("", s[1..]))
    else if !PlainChar(s[0]) then None
    else
      var rest := ReadString(s[1..]);
      if rest.None? then None else Some(([s[0]] + rest.value.0, rest.value.1))
  }

  function DigitCount(s: string): (k: nat)
    ensures k <= |s|
    ensures forall i :: 0 <= i < k ==> IsDigit(s[i])
    ensures k < |s| ==> !IsDigit(s[k])
  {
    if s == "" || !IsDigit(s[0]) then 0 else 1 + DigitCount(s[1..])
  }

  /** What may not follow an integer: another digit, a fraction or an exponent. */
  predicate EndsNumber(rest: string) {
    rest == "" || (!IsDigit(rest[0]) && rest[0] != '.' && rest[0] != 'e' && rest[0] != 'E')
  }

  function ReadNumber(s: string): (r: Option<(nat, string)>)
    ensures r.Some? ==> |r.value.1| < |s|
  {
    var k := DigitCount(s);
    if Canonical(s[..k]) && Value(s[..k]) < U64 && EndsNumber(s[k..]) then Some((Value(s[..k]), s[k..])) else None
  }

  function ReadValue(s: string): (r: Option<(Json, string)>)
    ensures r.Some? ==> |r.value.1| < |s|
    decreases |s|, 0
  {
    if s == "" then None
    else if s[0] == '"' then
      var r := ReadString(s[1..]);
      if r.None? then None else Some((Str(r.value.0), r.value.1))
    else if s[0] == '[' then
      if "]" <= s[1..] then Some((Arr(NoItems), s[2..]))
      else var r := ReadItems(s[1..]); if r.None? then None else Some((Arr(r.value.0), r.value.1))
    else if s[0] == '{' then
      if "}" <= s[1..] then Some((Obj(NoMembers), s[2..]))
      else var r := ReadMembers(s[1..]); if r.None? then None else Some((Obj(r.value.0), r.value.1))
    else
      var r := ReadNumber(s);
      if r.None? then None else Some((Num(r.value.0), r.value.1))
  }

  function ReadItems(s: string): (r: Option<(Items, string)>)
    ensures r.Some? ==> |r.value.1| < |s| && r.value.0.Item?
    decreases |s|, 1
  {
    var head := ReadValue(s);
    if head.None? then None
    else
      var rest := head.value.1;
      if "]" <= rest then Some((Item(head.value.0, NoItems), rest[1..]))
      else if "," <= rest then
        var tail := ReadItems(rest[1..]);
        if tail.None? then None else Some((Item(head.value.0, tail.value.0), tail.value.1))
      else None
  }

  function ReadMembers(s: string): (r: Option<(Members, string)>)
    ensures r.Some? ==> |r.value.1| < |s| && r.value.0.Member?
    decreases |s|, 1
  {
    if !("\"" <= s) then None
    else
      var key := ReadString(s[1..]);
      if key.None? || !(":" <= key.value.1) then None
      else
        var value := ReadValue(key.value.1[1..]);
        if value.None? then None
        else
          var rest := value.value.1;
          if "}" <= rest then Some((Member(key.value.0, value.value.0, NoMembers), rest[1..]))
          else if "," <= rest then
            var tail := ReadMembers(rest[1..]);
            if tail.None? then None else Some((Member(key.value.0, value.value.0, tail.value.0), tail.value.1))
          else None
  }

  function Read(s: string): Option<Json> {
    var r := ReadValue(s);
    if r.Some? && r.value.1 == "" then Some(r.value.0) else None
  }

  // ---- Reading what was printed ----------------------------------------------------

  lemma {:induction false} ReadStringOfPlain(s: string, rest: string)
    requires Plain(s)
    ensures ReadString(s + "\"" + rest) == Some((s, rest))
  {
    if s != "" {
      ReadStringOfPlain(s[1..], rest);
      assert (s + "\"" + rest)[1..] == s[1..] + "\"" + rest;
      assert [s[0]] + s[1..] == s;
    } else {
      assert (s + "\"" + rest)[1..] == rest;
    }
  }

  lemma ReadNumberOfDecimal(n: nat, rest: string)
    requires EndsNumber(rest) && n < U64
    ensures ReadNumber(Decimal(n) + rest) == Some((n, rest))
  {
    var s, d := Decimal(n) + rest, Decimal(n);
    var k := DigitCount(s);
    ValueOfDecimal(n);
    assert forall i :: 0 <= i < |d| ==> s[i] == d[i] && IsDigit(s[i]);
    if rest != "" { assert s[|d|] == rest[0]; }
    assert k == |d|;
    assert s[..k] == d && s[k..] == rest;
  }

  lemma {:induction false} ReadOfPrint(j: Json, rest: string)
    requires PlainJson(j) && (j.Num? ==> EndsNumber(rest))
    ensures ReadValue(Print(j) + rest) == Some((j, rest))
    decreases j, 0
  {
    EmptyPrints();
    hide ReadItems, ReadMembers, ReadString, ReadNumber, Plain;
    var s := Print(j) + rest;
    match j
    case Num(n) =>
      ReadNumberOfDecimal(n, rest);
      assert IsDigit(Decimal(n)[0]);
    case Str(t) =>
      ReadStringOfPlain(t, rest);
      assert s[1..] == t + "\"" + rest;
    case Arr(items) =>
      assert s[1..] == PrintItems(items) + "]" + rest;
      if items.NoItems? {
        assert s[2..] == rest;
      } else {
        ItemsNonClosing(items);
        assert s[1..][0] == PrintItems(items)[0];
        ReadItemsOfPrint(items, rest);
      }
    case Obj(members) =>
      assert s[1..] == PrintMembers(members) + "}" + rest;
      if members.NoMembers? {
        assert s[2..] == rest;
      } else {
        MembersNonClosing(members);
        assert s[1..][0] == PrintMembers(members)[0];
        ReadMembersOfPrint(members, rest);
      }
  }

  lemma ItemsNonClosing(items: Items)
    requires items.Item? && PlainItems(items)
    ensures PrintItems(items) != "" && PrintItems(items)[0] != ']'
  {
    if items.head.Num? { assert IsDigit(Decimal(items.head.n)[0]); }
  }

  lemma MembersNonClosing(members: Members)
    requires members.Member?
    ensures PrintMembers(members) != "" && PrintMembers(members)[0] != '}'
  {
  }

  lemma {:induction false} ReadItemsOfPrint(items: Items, rest: string)
    requires items.Item? && PlainItems(items)
    ensures ReadItems(PrintItems(items) + "]" + rest) == Some((items, rest))
    decreases items, 1
  {
    hide ReadValue, ReadMembers, Print, PlainJson;
    var s := PrintItems(items) + "]" + rest;
    var after := if items.tail.NoItems? then "]" + rest else "," + (PrintItems(items.tail) + "]" + rest);
    assert s == Print(items.head) + after;
    assert after[0] == if items.tail.NoItems? then ']' else ',';
    ReadOfPrint(items.head, after);
    assert ReadValue(s) == Some((items.head, after));
    if items.tail.Item? {
      ReadItemsOfPrint(items.tail, rest);
      assert after[1..] == PrintItems(items.tail) + "]" + rest;
    } else {
      assert after[1..] == rest;
    }
  }

  lemma {:induction false} ReadMembersOfPrint(members: Members, rest: string)
    requires members.Member? && PlainMembers(members)
    ensures ReadMembers(PrintMembers(members) + "}" + rest) == Some((members, rest))
    decreases members, 1
  {
    hide ReadValue, ReadItems, ReadString, Print, PlainJson, Plain;
    var s := PrintMembers(members) + "}" + rest;
    var after := if members.tail.NoMembers? then "}" + rest else "," + (PrintMembers(members.tail) + "}" + rest);
    assert s == PrintMember(members.key, members.value) + after;
    assert after[0] == if members.tail.NoMembers? then '}' else ',';
    ReadMemberOfPrint(members.key, members.value, after);
    if members.tail.Member? {
      ReadMembersOfPrint(members.tail, rest);
      assert after[1..] == PrintMembers(members.tail) + "}" + rest;
    } else {
      assert after[1..] == rest;
    }
  }

  lemma {:induction false} ReadMemberOfPrint(key: string, value: Json, after: string)
    requires Plain(key) && PlainJson(value) && EndsNumber(after)
    ensures var s := PrintMember(key, value) + after;
      && "\"" <= s && ReadString(s[1..]) == Some((key, ":" + Print(value) + after))
      && (":" + Print(value) + after)[1..] == Print(value) + after
      && ReadValue(Print(value) + after) == Some((value, after))
    decreases value, 1
  {
    hide ReadValue, ReadString, Print, PlainJson;
    var s := PrintMember(key, value) + after;
    var rest := ":" + Print(value) + after;
    assert s == "\"" + (key + "\"" + rest);
    assert s[1..] == key + "\"" + rest;
    ReadStringOfPlain(key, rest);
    ReadOfPrint(value, after);
  }

  // ---- What was read was printed ---------------------------------------------------

  lemma {:induction false} ReadStringSound(s: string)
    requires ReadString(s).Some?
    ensures var (t, rest) := ReadString(s).value; Plain(t) && s == t + "\"" + rest
  {
    if s[0] == '"' {
      assert s == "" + "\"" + s[1..];
    } else {
      ReadStringSound(s[1..]);
    }
  }

  lemma ReadNumberSound(s: string)
    requires ReadNumber(s).Some?
    ensures var (n, rest) := ReadNumber(s).value; n < U64 && s == Decimal(n) + rest
  {
    DecimalOfValue(s[..DigitCount(s)]);
  }

  lemma {:induction false} ReadSound(s: string)
    requires ReadValue(s).Some?
    ensures var (j, rest) := ReadValue(s).value; PlainJson(j) && s == Print(j) + rest
    decreases |s|, 0
  {
    hide ReadItems, ReadMembers, ReadString, ReadNumber, PrintItems, PrintMembers, PlainItems, PlainMembers, Plain;
    EmptyPrints();
    assert s == s[..1] + s[1..];
    if s[0] == '"' {
      ReadStringSound(s[1..]);
      var (t, rest) := ReadString(s[1..]).value;
      assert s == "\"" + (t + "\"" + rest);
    } else if s[0] == '[' {
      if "]" <= s[1..] {
        assert s == "[" + "" + "]" + s[2..];
      } else {
        ReadItemsSound(s[1..]);
        var (items, rest) := ReadItems(s[1..]).value;
        assert s == "[" + (PrintItems(items) + "]" + rest);
      }
    } else if s[0] == '{' {
      if "}" <= s[1..] {
        assert s == "{" + "" + "}" + s[2..];
      } else {
        ReadMembersSound(s[1..]);
        var (members, rest) := ReadMembers(s[1..]).value;
        assert s == "{" + (PrintMembers(members) + "}" + rest);
      }
    } else {
      ReadNumberSound(s);
    }
  }

  lemma EmptyPrints()
    ensures PrintItems(NoItems) == "" && PrintMembers(NoMembers) == ""
    ensures PlainItems(NoItems) && PlainMembers(NoMembers)
  {
  }

  lemma {:induction false} ReadItemsSound(s: string)
    requires ReadItems(s).Some?
    ensures var (items, rest) := ReadItems(s).value; PlainItems(items) && s == PrintItems(items) + "]" + rest
    decreases |s|, 1
  {
    hide ReadValue, ReadMembers, Print;
    ReadSound(s);
    var (head, rest) := ReadValue(s).value;
    assert rest == rest[..1] + rest[1..];
    if "]" <= rest {
      assert s == Print(head) + "]" + rest[1..];
    } else {
      ReadItemsSound(rest[1..]);
      var (tail, end) := ReadItems(rest[1..]).value;
      assert s == Print(head) + "," + (PrintItems(tail) + "]" + end);
      assert s == PrintItems(Item(head, tail)) + "]" + end;
    }
  }

  lemma MemberWasPrinted(s: string, key: string, value: Json, afterKey: string, rest: string)
    requires "\"" <= s && s[1..] == key + "\"" + afterKey && ":" <= afterKey && afterKey[1..] == Print(value) + rest
    ensures s == PrintMember(key, value) + rest
  {
    hide Print;
    assert s == "\"" + s[1..] && afterKey == ":" + afterKey[1..];
    assert s == "\"" + (key + "\"" + (":" + (Print(value) + rest)));
  }

  lemma {:induction false} ReadMembersSound(s: string)
    requires ReadMembers(s).Some?
    ensures var (members, rest) := ReadMembers(s).value;
      PlainMembers(members) && s == PrintMembers(members) + "}" + rest
    decreases |s|, 1
  {
    hide ReadValue, ReadItems, Print, ReadString, Plain, PlainJson;
    ReadStringSound(s[1..]);
    var (key, afterKey) := ReadString(s[1..]).value;
    ReadSound(afterKey[1..]);
    var (value, rest) := ReadValue(afterKey[1..]).value;
    MemberWasPrinted(s, key, value, afterKey, rest);
    assert rest == rest[..1] + rest[1..];
    if "}" <= rest {
      assert s == PrintMember(key, value) + "}" + rest[1..];
    } else {
      ReadMembersSound(rest[1..]);
      var (tail, end) := ReadMembers(rest[1..]).value;
      assert s == PrintMember(key, value) + "," + (PrintMembers(tail) + "}" + end);
      assert s == PrintMembers(Member(key, value, tail)) + "}" + end;
    }
  }

  /** The reader accepts exactly the printed forms of plain values. */
  lemma ReadExact(s: string, j: Json)
    ensures Read(s) == Some(j) <==> PlainJson(j) && s == Print(j)
  {
    if Read(s) == Some(j) { ReadSound(s); }
    if PlainJson(j) && s == Print(j) {
      ReadOfPrint(j, "");
      assert Print(j) + "" == Print(j);
    }
  }
}
