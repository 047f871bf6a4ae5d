/**
 Nostr-signed git objects: the canonical envelope, its armor, the verifier's acceptance
 pipeline and the signing preimage. Bytes of text are characters; hashing and the curve
 are functions supplied from outside.
 */
module NipGs {
  import opened Numbers
  import opened Wrappers
  import opened Text
  import opened Base64
  import opened EnvelopeJson
  import opened NipGsConditions

  datatype Attestation = Attestation(owner: string, conditions: string, sig: string)

  datatype Envelope = Envelope(pk: string, sig: string, t: nat, oa: Option<Attestation>)

  predicate HexChar(c: char) { IsDigit(c) || 'a' <= c <= 'f' }

  predicate Hex(s: string, n: nat) { |s| == n && forall i :: 0 <= i < n ==> HexChar(s[i]) }

  // ---- The canonical envelope ------------------------------------------------------

  function BuildEnvelope(e: Envelope): string {
    "{\"v\":1,\"pk\":\"" + e.pk + "\",\"sig\":\"" + e.sig + "\",\"t\":" + Decimal(e.t) +
    (match e.oa
     case None => "}"
     case Some(oa) => ",\"oa\":[\"" + oa.owner + "\",\"" + oa.conditions + "\",\"" + oa.sig + "\"]}")
  }

  function AttestationItems(oa: Attestation): Items {
    Item(Str(oa.owner), Item(Str(oa.conditions), Item(Str(oa.sig), NoItems)))
  }

  function EnvelopeMembers(e: Envelope): Members {
    Member("v", Num(1), Member("pk", Str(e.pk), Member("sig", Str(e.sig), Member("t", Num(e.t),
      if e.oa.None? then NoMembers else Member("oa", Arr(AttestationItems(e.oa.value)), NoMembers)))))
  }

  lemma TailIsPrinted(e: Envelope)
    requires e.oa.Some?
    ensures PrintMembers(Member("oa", Arr(AttestationItems(e.oa.value)), NoMembers)) ==
      "\"oa\":[\"" + e.oa.value.owner + "\",\"" + e.oa.value.conditions + "\",\"" + e.oa.value.sig + "\"]"
  {
    var oa := e.oa.value;
    assert PrintItems(Item(Str(oa.sig), NoItems)) == Quote(oa.sig);
    assert PrintItems(Item(Str(oa.conditions), Item(Str(oa.sig), NoItems))) == Quote(oa.conditions) + "," + Quote(oa.sig);
    assert PrintItems(AttestationItems(oa)) == Quote(oa.owner) + "," + (Quote(oa.conditions) + "," + Quote(oa.sig));
    hide PrintItems;
    assert PrintMember("oa", Arr(AttestationItems(oa))) == Quote("oa") + ":" + ("[" + PrintItems(AttestationItems(oa)) + "]");
    assert Quote("oa") == "\"oa\"";
    AttestationText(oa.owner, oa.conditions, oa.sig);
  }

  lemma AttestationText(a: string, b: string, c: string)
    ensures "\"oa\"" + ":" + ("[" + (Quote(a) + "," + (Quote(b) + "," + Quote(c))) + "]") ==
      "\"oa\":[\"" + a + "\",\"" + b + "\",\"" + c + "\"]"
  {
  }

  /** What follows a member: nothing, or a comma and the members after it. */
  function After(tail: Members): string { if tail.NoMembers? then "" else "," + PrintMembers(tail) }

  lemma {:induction false} MemberThenTail(key: string, value: Json, tail: Members)
    ensures PrintMembers(Member(key, value, tail)) == PrintMember(key, value) + After(tail)
  {
    if tail.NoMembers? {
      assert PrintMember(key, value) + "" == PrintMember(key, value);
    } else {
      assert PrintMember(key, value) + "," + PrintMembers(tail) == PrintMember(key, value) + ("," + PrintMembers(tail));
    }
  }

  lemma TextMember(key: string, text: string, tail: Members, rest: string)
    ensures PrintMembers(Member(key, Str(text), tail)) + rest ==
      "\"" + key + "\":\"" + (text + ("\"" + (After(tail) + rest)))
  {
    hide After;
    MemberThenTail(key, Str(text), tail);
    assert PrintMember(key, Str(text)) == "\"" + key + "\":\"" + (text + "\"");
  }

  lemma NumberMember(key: string, n: nat, tail: Members, rest: string)
    ensures PrintMembers(Member(key, Num(n), tail)) + rest == "\"" + key + "\":" + (Decimal(n) + (After(tail) + rest))
  {
    hide After;
    MemberThenTail(key, Num(n), tail);
    assert PrintMember(key, Num(n)) == "\"" + key + "\":" + Decimal(n);
  }

  lemma Associate(a: string, b: string, c: string, d: string, e: string, f: string, g: string)
    ensures a + b + c + d + e + f + g == a + (b + (c + (d + (e + (f + g)))))
  {
  }

  /** The format string, grouped from the right. */
  lemma BuildNested(e: Envelope)
    ensures BuildEnvelope(e) ==
      "{\"v\":1,\"pk\":\"" + (e.pk + ("\",\"sig\":\"" + (e.sig + ("\",\"t\":" + (Decimal(e.t) +
      (After(EnvelopeMembers(e).tail.tail.tail.tail) + "}"))))))
  {
    hide PrintMembers, Decimal, After;
    var end := After(EnvelopeMembers(e).tail.tail.tail.tail) + "}";
    EndIsPrinted(e);
    Associate("{\"v\":1,\"pk\":\"", e.pk, "\",\"sig\":\"", e.sig, "\",\"t\":", Decimal(e.t), end);
  }

  /** The hand-written format string is the compact print of the envelope object. */
  lemma EnvelopeIsPrinted(e: Envelope)
    ensures BuildEnvelope(e) == Print(Obj(EnvelopeMembers(e)))
  {
    hide PrintMembers, Decimal, After, BuildEnvelope;
    var m := EnvelopeMembers(e);
    var end := After(m.tail.tail.tail.tail) + "}";
    Regroup("{", PrintMembers(m), "}");
    PkIsPrinted(e);
    BuildNested(e);
    assert "{" + "\"v\":1,\"pk\":\"" == "{\"v\":1,\"pk\":\"";
    Regroup("{", "\"v\":1,\"pk\":\"", e.pk + ("\",\"sig\":\"" + (e.sig + ("\",\"t\":" + (Decimal(e.t) + end)))));
  }

  lemma TimeIsPrinted(e: Envelope)
    ensures var t := EnvelopeMembers(e).tail.tail.tail;
      PrintMembers(t) + "}" == "\"t\":" + (Decimal(e.t) + (After(t.tail) + "}"))
  {
    hide PrintMembers, Decimal, After;
    NumberMember("t", e.t, EnvelopeMembers(e).tail.tail.tail.tail, "}");
    assert "\"" + "t" + "\":" == "\"t\":";
  }

  lemma SigIsPrinted(e: Envelope)
    ensures var sig := EnvelopeMembers(e).tail.tail; var end := After(sig.tail.tail) + "}";
      PrintMembers(sig) + "}" == "\"sig\":\"" + (e.sig + ("\",\"t\":" + (Decimal(e.t) + end)))
  {
    hide PrintMembers, Decimal;
    var t := EnvelopeMembers(e).tail.tail.tail;
    TextMember("sig", e.sig, t, "}");
    TimeIsPrinted(e);
    assert "\"" + "sig" + "\":\"" == "\"sig\":\"";
    QuoteBefore(t, "\"t\":", Decimal(e.t) + (After(t.tail) + "}"));
    assert "\"," + "\"t\":" == "\",\"t\":";
  }

  lemma Regroup(a: string, b: string, c: string)
    ensures a + (b + c) == (a + b) + c
  {
  }

  lemma VersionIsPrinted(e: Envelope)
    ensures var m := EnvelopeMembers(e); PrintMembers(m) + "}" == "\"v\":1," + (PrintMembers(m.tail) + "}")
  {
    OneIsPrinted();
    hide PrintMembers, Decimal;
    var m := EnvelopeMembers(e);
    var rest := PrintMembers(m.tail) + "}";
    NumberMember("v", 1, m.tail, "}");
    assert "\"" + "v" + "\":" == "\"v\":";
    assert After(m.tail) + "}" == "," + rest by { Regroup(",", PrintMembers(m.tail), "}"); }
    Regroup("1", ",", rest);
    Regroup("\"v\":", "1" + ",", rest);
    assert "\"v\":" + ("1" + ",") == "\"v\":1,";
  }

  lemma PkIsPrinted(e: Envelope)
    ensures var m := EnvelopeMembers(e); var end := After(m.tail.tail.tail.tail) + "}";
      PrintMembers(m) + "}" ==
      "\"v\":1,\"pk\":\"" + (e.pk + ("\",\"sig\":\"" + (e.sig + ("\",\"t\":" + (Decimal(e.t) + end)))))
  {
    hide PrintMembers, Decimal;
    var m := EnvelopeMembers(e);
    var end := After(m.tail.tail.tail.tail) + "}";
    var rest := e.sig + ("\",\"t\":" + (Decimal(e.t) + end));
    SigIsPrinted(e);
    assert PrintMembers(m.tail.tail) + "}" == "\"sig\":\"" + rest;
    QuoteBefore(m.tail.tail, "\"sig\":\"", rest);
    assert "\"," + "\"sig\":\"" == "\",\"sig\":\"";
    var body := e.pk + ("\",\"sig\":\"" + rest);
    TextMember("pk", e.pk, m.tail.tail, "}");
    assert "\"" + "pk" + "\":\"" == "\"pk\":\"";
    assert PrintMembers(m.tail) + "}" == "\"pk\":\"" + body;
    VersionIsPrinted(e);
    Regroup("\"v\":1,", "\"pk\":\"", body);
    assert "\"v\":1," + "\"pk\":\"" == "\"v\":1,\"pk\":\"";
  }

  /** The closing quote of a text member runs into the members after it. */
  lemma QuoteBefore(tail: Members, head: string, rest: string)
    requires tail.Member? && PrintMembers(tail) + "}" == head + rest
    ensures "\"" + (After(tail) + "}") == ("\"," + head) + rest
  {
    hide PrintMembers;
    Regroup(",", PrintMembers(tail), "}");
    Regroup("\"", ",", head + rest);
    assert "\"" + "," == "\",";
    Regroup("\",", head, rest);
  }

  lemma OneIsPrinted()
    ensures Decimal(1) == "1"
  {
  }

  lemma {:induction false} EndIsPrinted(e: Envelope)
    ensures After(EnvelopeMembers(e).tail.tail.tail.tail) + "}" ==
      match e.oa
      case None => "}"
      case Some(oa) => ",\"oa\":[\"" + oa.owner + "\",\"" + oa.conditions + "\",\"" + oa.sig + "\"]}"
  {
    hide PrintMembers;
    if e.oa.Some? {
      TailIsPrinted(e);
      var oa := e.oa.value;
      Enclose(",", "\"oa\":[\"", oa.owner, "\",\"", oa.conditions, "\",\"", oa.sig, "\"]", "}");
      assert "," + "\"oa\":[\"" == ",\"oa\":[\"" && "\"]" + "}" == "\"]}";
    }
  }

  lemma Enclose(open: string, a: string, b: string, c: string, d: string, e: string, f: string, g: string, close: string)
    ensures open + (a + b + c + d + e + f + g) + close == (open + a) + b + c + d + e + f + (g + close)
  {
  }

  function Lookup(members: Members, key: string): Option<Json> {
    if members.NoMembers? then None
    else
      var later := Lookup(members.tail, key);
      if later.Some? then later else if members.key == key then Some(members.value) else None
  }

  predicate KnownKeys(members: Members) {
    members.Member? ==>
      members.key in {"v", "pk", "sig", "t", "oa"} && KnownKeys(members.tail)
  }

  predicate ValidAttestation(pk: string, oa: Attestation, isKey: string -> bool) {
    && Hex(oa.owner, 64) && Hex(oa.sig, 128) && ReadConditions(oa.conditions).Some?
    && isKey(oa.owner) && oa.owner != pk
  }

  predicate ValidEnvelope(e: Envelope, isKey: string -> bool) {
    && Hex(e.pk, 64) && Hex(e.sig, 128) && e.t < U32
    && (e.oa.Some? ==> ValidAttestation(e.pk, e.oa.value, isKey))
  }

  predicate LowerHex(s: string) { forall i :: 0 <= i < |s| ==> s[i] in "0123456789abcdef" }

  /** The field checks, written out. */
  lemma ValidFields(e: Envelope, isKey: string -> bool)
    ensures ValidEnvelope(e, isKey) <==>
      && |e.pk| == 64 && LowerHex(e.pk) && |e.sig| == 128 && LowerHex(e.sig) && e.t <= 4294967295
      && match e.oa
         case None => true
         case Some(oa) =>
           && |oa.owner| == 64 && LowerHex(oa.owner) && |oa.sig| == 128 && LowerHex(oa.sig)
           && isKey(oa.owner) && oa.owner != e.pk && ReadConditions(oa.conditions).Some?
  {
    hide ReadConditions;
    forall c: char ensures HexChar(c) <==> c in "0123456789abcdef" { HexDigits(c); }
    hide HexChar;
  }

  lemma HexDigits(c: char)
    ensures HexChar(c) <==> c in "0123456789abcdef"
  {
    var digits := "0123456789abcdef";
    if IsDigit(c) {
      assert digits[c as int - '0' as int] == c;
    } else if 'a' <= c <= 'f' {
      assert digits[c as int - 'a' as int + 10] == c;
    }
  }

  function ParseAttestation(j: Json): Option<Attestation> {
    match j
    case Arr(Item(Str(owner), Item(Str(conditions), Item(Str(sig), NoItems)))) =>
      Some(Attestation(owner, conditions, sig))
    case _ => None
  }

  function ParseEnvelope(s: string, isKey: string -> bool, read: string -> Option<Json>): Option<Envelope> {
    match read(s)
    case Some(Obj(members)) =>
      if !KnownKeys(members) then None
      else if Lookup(members, "v") != Some(Num(1)) then None
      else
        var pk, sig, t, oa := Lookup(members, "pk"), Lookup(members, "sig"), Lookup(members, "t"), Lookup(members, "oa");
        if pk.None? || !pk.value.Str? || !Hex(pk.value.s, 64) then None
        else if sig.None? || !sig.value.Str? || !Hex(sig.value.s, 128) then None
        else if t.None? || !t.value.Num? || t.value.n > 4294967295 then None
        else if oa.None? then Some(Envelope(pk.value.s, sig.value.s, t.value.n, None))
        else
          var a := ParseAttestation(oa.value);
          if a.None? || !ValidAttestation(pk.value.s, a.value, isKey) then None
          else Some(Envelope(pk.value.s, sig.value.s, t.value.n, a))
    case _ => None
  }

  lemma HexIsPlain(s: string, n: nat)
    requires Hex(s, n)
    ensures Plain(s) && Without(s, ':')
  {
  }

  lemma ConditionsArePlain(s: string)
    requires ReadConditions(s).Some?
    ensures Plain(s) && Without(s, ':')
    ensures forall i :: 0 <= i < |s| ==> ClauseChar(s[i]) || s[i] == '&'
  {
    ReadConditionsExact(s, ReadConditions(s).value);
    ConditionsChars(ReadConditions(s).value);
  }

  lemma EnvelopeIsPlain(e: Envelope, isKey: string -> bool)
    requires ValidEnvelope(e, isKey)
    ensures PlainMembers(EnvelopeMembers(e))
  {
    HexIsPlain(e.pk, 64);
    HexIsPlain(e.sig, 128);
    assert Plain("v") && Plain("pk") && Plain("sig") && Plain("t") && Plain("oa");
    if e.oa.Some? {
      var oa := e.oa.value;
      HexIsPlain(oa.owner, 64);
      HexIsPlain(oa.sig, 128);
      ConditionsArePlain(oa.conditions);
      hide ReadConditions;
      assert PlainItems(Item(Str(oa.sig), NoItems));
      assert PlainItems(Item(Str(oa.conditions), Item(Str(oa.sig), NoItems)));
      assert PlainItems(AttestationItems(oa));
      assert PlainJson(Arr(AttestationItems(oa)));
    }
    var m := EnvelopeMembers(e);
    assert PlainMembers(NoMembers);
    assert PlainMembers(m.tail.tail.tail.tail);
    assert PlainMembers(m.tail.tail.tail);
    assert PlainMembers(m.tail.tail);
    assert PlainMembers(m.tail);
  }

  lemma EnvelopeLookups(e: Envelope)
    ensures var m := EnvelopeMembers(e);
      && KnownKeys(m)
      && Lookup(m, "v") == Some(Num(1)) && Lookup(m, "pk") == Some(Str(e.pk))
      && Lookup(m, "sig") == Some(Str(e.sig)) && Lookup(m, "t") == Some(Num(e.t))
      && Lookup(m, "oa") == (if e.oa.None? then None else Some(Arr(AttestationItems(e.oa.value))))
  {
    KeysDiffer();
    var m := EnvelopeMembers(e);
    var pk, sig, t, oa := m.tail, m.tail.tail, m.tail.tail.tail, m.tail.tail.tail.tail;
    var last := if e.oa.None? then None else Some(Arr(AttestationItems(e.oa.value)));
    assert KnownKeys(NoMembers);
    assert KnownKeys(oa);
    assert KnownKeys(t);
    assert KnownKeys(sig);
    assert KnownKeys(pk);
    forall key: string ensures Lookup(oa, key) == if key == "oa" then last else None { LookupNone(key); }
    LookupAll(t, "t", Num(e.t), oa);
    LookupAll(sig, "sig", Str(e.sig), t);
    LookupAll(pk, "pk", Str(e.pk), sig);
    LookupAll(m, "v", Num(1), pk);
  }

  lemma LookupNone(key: string)
    ensures Lookup(NoMembers, key) == None
  {
  }

  lemma LookupAll(m: Members, k: string, v: Json, tail: Members)
    requires m == Member(k, v, tail)
    ensures forall key: string ::
      Lookup(m, key) == (if Lookup(tail, key).Some? then Lookup(tail, key) else if k == key then Some(v) else None)
  {
  }

  lemma KeysDiffer()
    ensures "v" != "t" && "pk" != "oa" && |"v"| == |"t"| == 1 && |"pk"| == |"oa"| == 2 && |"sig"| == 3
  {
    assert "v"[0] != "t"[0] && "pk"[0] != "oa"[0];
  }

  lemma EnvelopeIsShallow(e: Envelope)
    ensures Depth(Obj(EnvelopeMembers(e))) < DEPTH_LIMIT
  {
    var m := EnvelopeMembers(e);
    if e.oa.Some? {
      var items := AttestationItems(e.oa.value);
      assert ItemsDepth(items.tail.tail) == 0 && ItemsDepth(items.tail) == 0 && ItemsDepth(items) == 0;
      assert Depth(Arr(items)) == 1;
    }
    assert MembersDepth(m.tail.tail.tail.tail) <= 1;
    assert MembersDepth(m.tail.tail.tail) <= 1;
    assert MembersDepth(m.tail.tail) <= 1;
    assert MembersDepth(m.tail) <= 1;
    assert MembersDepth(m) <= 1;
    assert Depth(Obj(m)) <= 2;
  }

  /** With any reader that undoes the compact print, the parser returns the fields that were printed. */
  lemma ParseOfBuild(e: Envelope, isKey: string -> bool, read: string -> Option<Json>)
    requires ValidEnvelope(e, isKey) && ReadsCompact(read)
    ensures ParseEnvelope(BuildEnvelope(e), isKey, read) == Some(e)
  {
    hide Lookup, KnownKeys, ReadConditions, PlainMembers, Depth;
    EnvelopeIsPrinted(e);
    EnvelopeIsPlain(e, isKey);
    EnvelopeIsShallow(e);
    assert read(Print(Obj(EnvelopeMembers(e)))) == Some(Obj(EnvelopeMembers(e)));
    EnvelopeLookups(e);
  }

  // ---- Armor -----------------------------------------------------------------------

  const BEGIN := "-----BEGIN SIGNED MESSAGE-----"
  const END := "-----END SIGNED MESSAGE-----"

  function Wrap(b64: string): string { BEGIN + "\n" + b64 + "\n" + END + "\n" }

  function Armor(json: seq<Byte>): string { Wrap(Encode(json)) }

  /** The three lines, as they are written. */
  lemma ArmorLayout(json: seq<Byte>)
    ensures Armor(json) ==
      "-----BEGIN SIGNED MESSAGE-----" + "\n" + Encode(json) + "\n" + "-----END SIGNED MESSAGE-----" + "\n"
  {
    hide Encode;
  }

  predicate EndsBlank(line: string) { line != "" && line[|line| - 1] in {' ', '\t', '\r'} }

  function ParseArmor(content: string): Option<string> {
    if content == "" || content[|content| - 1] != '\n' then None
    else
      var lines := Split(content[..|content| - 1], '\n');
      if |lines| != 3 || lines[0] != BEGIN || lines[2] != END then None
      else if EndsBlank(lines[0]) || EndsBlank(lines[1]) || EndsBlank(lines[2]) then None
      else Some(lines[1])
  }

  lemma JoinedLines(b64: string)
    ensures Wrap(b64) == Join([BEGIN, b64, END], '\n') + "\n"
  {
    assert [BEGIN, b64, END][1..] == [b64, END] && [b64, END][1..] == [END];
    assert Join([b64, END], '\n') == b64 + "\n" + END;
    assert Join([BEGIN, b64, END], '\n') == BEGIN + "\n" + (b64 + "\n" + END);
  }

  lemma MarkersAreOneLine()
    ensures Without(BEGIN, '\n') && Without(END, '\n') && !EndsBlank(BEGIN) && !EndsBlank(END)
  {
  }

  lemma ParseArmorExact(content: string, b64: string)
    ensures ParseArmor(content) == Some(b64) <==>
      content == Wrap(b64) && Without(b64, '\n') && (b64 == "" || b64[|b64| - 1] !in {' ', '\t', '\r'})
  {
    hide BEGIN, END, Split, Join, Wrap;
    MarkersAreOneLine();
    JoinedLines(b64);
    if ParseArmor(content) == Some(b64) {
      var body := content[..|content| - 1];
      JoinOfSplit(body, '\n');
      assert Split(body, '\n') == [BEGIN, b64, END];
      assert Split(body, '\n')[1] == b64;
      assert content == body + "\n";
    }
    if content == Wrap(b64) && Without(b64, '\n') && !EndsBlank(b64) {
      SplitOfJoin([BEGIN, b64, END], '\n');
      assert content[..|content| - 1] == Join([BEGIN, b64, END], '\n');
    }
  }

  lemma EncodedIsOneLine(b: seq<Byte>)
    ensures Without(Encode(b), '\n') && !EndsBlank(Encode(b))
  {
    EncodeAlphabet(b);
    assert forall c :: c in {'\n', ' ', '\t', '\r'} ==> Index(c).None? && c != '=';
  }

  // ---- White space outside strings -------------------------------------------------

  datatype Quoting = Outside | Inside | Escaped

  function Next(q: Quoting, c: char): Quoting {
    match q
    case Escaped => Inside
    case Inside => if c == '\\' then Escaped else if c == '"' then Outside else Inside
    case Outside => if c == '"' then Inside else Outside
  }

  /** The quoting state just before the character at i. */
  function QuotingAt(s: string, i: nat): Quoting
    requires i <= |s|
  {
    if i == 0 then Outside else Next(QuotingAt(s, i - 1), s[i - 1])
  }

  predicate Whitespace(c: char) { c == ' ' || c == '\t' || c == '\n' || c == '\r' || c as int == 12 }

  ghost predicate LooseWhitespace(s: string) {
    exists i :: 0 <= i < |s| && QuotingAt(s, i) == Outside && Whitespace(s[i])
  }

  /** `has_non_string_whitespace`: one pass with two flags finds exactly the loose white space. */
  method HasNonStringWhitespace(s: string) returns (found: bool)
    ensures found <==> LooseWhitespace(s)
    ensures found <==> exists i :: 0 <= i < |s| && QuotingAt(s, i) == Outside
                                   && (s[i] in {' ', '\t', '\n', '\r'} || s[i] as int == 12)
  {
    var inString, escape := false, false;
    for i := 0 to |s|
      invariant QuotingAt(s, i) == if escape then Escaped else if inString then Inside else Outside
      invariant escape ==> inString
      invariant forall j :: 0 <= j < i ==> !(QuotingAt(s, j) == Outside && Whitespace(s[j]))
    {
      var c := s[i];
      if escape {
        escape := false;
      } else if inString {
        if c == '\\' { escape := true; } else if c == '"' { inString := false; }
      } else if c == '"' {
        inString := true;
      } else if Whitespace(c) {
        return true;
      }
    }
    return false;
  }

  predicate Blankless(s: string) { forall i :: 0 <= i < |s| ==> ' ' < s[i] < 127 as char }

  lemma BlanklessJoin(a: string, b: string)
    requires Blankless(a) && Blankless(b)
    ensures Blankless(a + b)
  {
  }

  lemma AttestationIsBlankless(oa: Attestation)
    requires Bindable(oa)
    ensures Blankless(",\"oa\":[\"" + oa.owner + "\",\"" + oa.conditions + "\",\"" + oa.sig + "\"]}")
  {
    ConditionsArePlain(oa.conditions);
    hide ReadConditions;
    assert Blankless(oa.conditions) && Blankless(oa.owner) && Blankless(oa.sig);
    assert Blankless(",\"oa\":[\"") && Blankless("\",\"") && Blankless("\"]}");
    hide Blankless;
    BlanklessJoin(",\"oa\":[\"", oa.owner);
    BlanklessJoin(",\"oa\":[\"" + oa.owner, "\",\"");
    BlanklessJoin(",\"oa\":[\"" + oa.owner + "\",\"", oa.conditions);
    BlanklessJoin(",\"oa\":[\"" + oa.owner + "\",\"" + oa.conditions, "\",\"");
    BlanklessJoin(",\"oa\":[\"" + oa.owner + "\",\"" + oa.conditions + "\",\"", oa.sig);
    BlanklessJoin(",\"oa\":[\"" + oa.owner + "\",\"" + oa.conditions + "\",\"" + oa.sig, "\"]}");
  }

  lemma EnvelopeIsBlankless(e: Envelope, isKey: string -> bool)
    requires ValidEnvelope(e, isKey)
    ensures Blankless(BuildEnvelope(e))
  {
    if e.oa.Some? { AttestationIsBlankless(e.oa.value); }
    hide ReadConditions;
    var a, b, c, d := "{\"v\":1,\"pk\":\"", "\",\"sig\":\"", "\",\"t\":", Decimal(e.t);
    assert Blankless(a) && Blankless(b) && Blankless(c) && Blankless("}") && Blankless(d);
    assert Blankless(e.pk) && Blankless(e.sig);
    BlanklessJoin(a, e.pk);
    BlanklessJoin(a + e.pk, b);
    BlanklessJoin(a + e.pk + b, e.sig);
    BlanklessJoin(a + e.pk + b + e.sig, c);
    BlanklessJoin(a + e.pk + b + e.sig + c, d);
  }

  // ---- Bytes and text --------------------------------------------------------------

  predicate Ascii(s: string) { forall i :: 0 <= i < |s| ==> s[i] < 128 as char }

  /** One byte per character, which is the UTF-8 form of ASCII text. */
  function ToBytes(s: string): seq<Byte> {
    seq(|s|, i requires 0 <= i < |s| => s[i] as int % 256)
  }

  /** The text decoder and the JSON reader the verifier uses. */
  datatype Readers = Readers(text: seq<Byte> -> Option<string>, json: string -> Option<Json>)

  /** ASCII text is decoded from its own bytes and from no others; nothing is asked of other text. */
  ghost predicate DecodesAscii(text: seq<Byte> -> Option<string>) {
    forall b, s :: Ascii(s) ==> (text(b) == Some(s) <==> b == ToBytes(s))
  }

  ghost predicate Faithful(io: Readers) { DecodesAscii(io.text) && ReadsCompact(io.json) }

  /** A decoder that takes ASCII only. */
  function FromBytes(b: seq<Byte>): Option<string> {
    if forall i :: 0 <= i < |b| ==> b[i] < 128
    then Some(seq(|b|, i requires 0 <= i < |b| => b[i] as char)) else None
  }

  lemma FaithfulReadersExist()
    ensures Faithful(Readers(FromBytes, Read))
  {
    StrictReaderReadsCompact();
    forall b: seq<Byte>, s: string | Ascii(s) ensures FromBytes(b) == Some(s) <==> b == ToBytes(s) {
      if FromBytes(b) == Some(s) { assert forall i :: 0 <= i < |b| ==> s[i] == b[i] as char; }
      if b == ToBytes(s) { assert FromBytes(b).value == s; }
    }
  }

  // ---- The acceptance pipeline -----------------------------------------------------

  const MAX_SIG_FILE := 8192
  const MAX_BASE64_LINE := 4096
  const MAX_JSON_DECODED := 2048

  ghost function Accept(content: string, isKey: string -> bool, io: Readers): Option<Envelope> {
    if |content| > MAX_SIG_FILE then None
    else
      var b64 := ParseArmor(content);
      if b64.None? || |b64.value| > MAX_BASE64_LINE then None
      else
        var bytes := Decode(b64.value);
        if bytes.None? || |bytes.value| > MAX_JSON_DECODED then None
        else
          var json := io.text(bytes.value);
          if json.None? || LooseWhitespace(json.value) then None
          else
            var e := ParseEnvelope(json.value, isKey, io.json);
            if e.None? || BuildEnvelope(e.value) != json.value || !isKey(e.value.pk) then None else e
  }

  lemma ParsedIsValid(s: string, isKey: string -> bool, read: string -> Option<Json>)
    requires ParseEnvelope(s, isKey, read).Some?
    ensures ValidEnvelope(ParseEnvelope(s, isKey, read).value, isKey)
  {
    hide Lookup, KnownKeys, ReadConditions;
  }

  lemma BlanklessIsAscii(s: string)
    requires Blankless(s)
    ensures Ascii(s)
  {
  }

  /**
   With any faithful decoder and reader, however lenient they are on other input, the verifier
   accepts exactly the canonical armored envelopes of valid fields that fit the decoded-size
   limit, and returns those fields: no second text is accepted for any envelope.
   */
  lemma AcceptExact(content: string, e: Envelope, isKey: string -> bool, io: Readers)
    requires Faithful(io)
    ensures Accept(content, isKey, io) == Some(e) <==>
      && ValidEnvelope(e, isKey) && isKey(e.pk)
      && |BuildEnvelope(e)| <= 2048
      && content == Armor(ToBytes(BuildEnvelope(e)))
  {
    hide ParseArmor, ParseEnvelope, BuildEnvelope, Decode, Encode, ToBytes, ValidEnvelope, QuotingAt, Wrap, Ascii,
         Blankless, ReadsCompact;
    if Accept(content, isKey, io) == Some(e) {
      var b64 := ParseArmor(content).value;
      var bytes := Decode(b64).value;
      var json := io.text(bytes).value;
      ParseArmorExact(content, b64);
      DecodeExact(b64, bytes);
      ParsedIsValid(json, isKey, io.json);
      EnvelopeIsBlankless(e, isKey);
      BlanklessIsAscii(json);
      BytesLength(json);
    }
    if ValidEnvelope(e, isKey) && isKey(e.pk) && |BuildEnvelope(e)| <= MAX_JSON_DECODED
       && content == Armor(ToBytes(BuildEnvelope(e)))
    {
      AcceptsBuilt(e, isKey, io);
    }
  }

  lemma BytesLength(s: string)
    ensures |ToBytes(s)| == |s|
  {
  }

  lemma WrapLength(b64: string)
    ensures |Wrap(b64)| == |b64| + 61
  {
  }

  lemma NothingLoose(s: string)
    requires Blankless(s)
    ensures !LooseWhitespace(s)
  {
    hide QuotingAt;
  }

  lemma AcceptsBuilt(e: Envelope, isKey: string -> bool, io: Readers)
    requires Faithful(io)
    requires ValidEnvelope(e, isKey) && isKey(e.pk) && |BuildEnvelope(e)| <= MAX_JSON_DECODED
    ensures Accept(Armor(ToBytes(BuildEnvelope(e))), isKey, io) == Some(e)
  {
    hide ParseArmor, ParseEnvelope, BuildEnvelope, Decode, Encode, ToBytes, ValidEnvelope, LooseWhitespace, Wrap,
         Ascii, Blankless, ReadsCompact, Index, Without;
    var json := BuildEnvelope(e);
    var bytes := ToBytes(json);
    BytesLength(json);
    EncodedIsOneLine(bytes);
    WrapLength(Encode(bytes));
    ParseArmorExact(Armor(bytes), Encode(bytes));
    DecodeExact(Encode(bytes), bytes);
    EnvelopeIsBlankless(e, isKey);
    BlanklessIsAscii(json);
    NothingLoose(json);
    assert io.text(bytes) == Some(json);
    ParseOfBuild(e, isKey, io.json);
  }

  // ---- The early public-key scan ---------------------------------------------------

  function Find(s: string, marker: string, start: nat): Option<nat>
    requires start <= |s|
    decreases |s| - start
  {
    if marker <= s[start..] then Some(start)
    else if start == |s| then None
    else Find(s, marker, start + 1)
  }

  const PK_MARKER := "\"pk\":\""

  function ExtractPk(s: string): Option<string> {
    var at := Find(s, PK_MARKER, 0);
    if at.None? || at.value + 6 + 64 > |s| then None
    else
      var candidate := s[at.value + 6..at.value + 70];
      if Hex(candidate, 64) then Some(candidate) else None
  }

  lemma NotHere(s: string, marker: string, start: nat)
    requires start < |s| && marker != "" && !(marker <= s[start..])
    ensures Find(s, marker, start) == Find(s, marker, start + 1)
  {
  }

  lemma {:induction false} FindExact(s: string, marker: string, start: nat, at: nat)
    requires start <= |s|
    ensures Find(s, marker, start) == Some(at) <==>
      start <= at <= |s| && marker <= s[at..] && forall i :: start <= i < at ==> !(marker <= s[i..])
    decreases |s| - start
  {
    if !(marker <= s[start..]) && start < |s| { FindExact(s, marker, start + 1, at); }
  }

  /** The scan reports exactly 64 hex characters right after the first marker of any text. */
  lemma ExtractPkExact(s: string, pk: string)
    ensures ExtractPk(s) == Some(pk) <==>
      exists at :: 0 <= at <= |s| && "\"pk\":\"" <= s[at..] && (forall i :: 0 <= i < at ==> !("\"pk\":\"" <= s[i..]))
                   && at + 70 <= |s| && pk == s[at + 6..at + 70] && Hex(pk, 64)
  {
    hide Find;
    forall at: nat ensures Find(s, PK_MARKER, 0) == Some(at) <==>
      at <= |s| && PK_MARKER <= s[at..] && forall i :: 0 <= i < at ==> !(PK_MARKER <= s[i..])
    {
      FindExact(s, PK_MARKER, 0, at);
    }
  }

  /** On every canonical envelope the best-effort scan reports the key the parser returns. */
  lemma ExtractPkAgrees(e: Envelope)
    requires Hex(e.pk, 64)
    ensures ExtractPk(BuildEnvelope(e)) == Some(e.pk)
  {
    var s := BuildEnvelope(e);
    var head := "{\"v\":1,\"pk\":\"";
    assert |head| == 13;
    assert forall i :: 0 <= i < 13 ==> s[i] == head[i];
    assert s[13..77] == e.pk;
    hide BuildEnvelope;
    assert s[7..13] == PK_MARKER;
    forall i | 0 <= i < 7 ensures !(PK_MARKER <= s[i..]) {
      assert s[i..][0] == s[i] && s[i..][1] == s[i + 1];
      assert s[i] == '"' ==> s[i + 1] != 'p';
    }
    NotHere(s, PK_MARKER, 0); NotHere(s, PK_MARKER, 1); NotHere(s, PK_MARKER, 2); NotHere(s, PK_MARKER, 3);
    NotHere(s, PK_MARKER, 4); NotHere(s, PK_MARKER, 5); NotHere(s, PK_MARKER, 6);
    assert PK_MARKER <= s[7..];
    assert Find(s, PK_MARKER, 7) == Some(7);
  }

  // ---- The signing preimage --------------------------------------------------------

  const DOMAIN := "nostr:git:v1:"

  function Binding(oa: Attestation): string { oa.owner + ":" + oa.conditions + ":" + oa.sig + ":" }

  function Preimage(t: nat, oa: Option<Attestation>, payload: string): string {
    DOMAIN + Decimal(t) + ":" + (if oa.Some? then Binding(oa.value) else "") + payload
  }

  predicate Bindable(oa: Attestation) { Hex(oa.owner, 64) && Hex(oa.sig, 128) && ReadConditions(oa.conditions).Some? }

  lemma PreimageTime(t: nat, t': nat, rest: string, rest': string)
    ensures DOMAIN + Decimal(t) + ":" + rest == DOMAIN + Decimal(t') + ":" + rest' <==> t == t' && rest == rest'
  {
    if DOMAIN + Decimal(t) + ":" + rest == DOMAIN + Decimal(t') + ":" + rest' {
      assert DOMAIN + Decimal(t) + ":" + rest == DOMAIN + (Decimal(t) + ":" + rest);
      assert DOMAIN + Decimal(t') + ":" + rest' == DOMAIN + (Decimal(t') + ":" + rest');
      SamePrefix(DOMAIN, DOMAIN, Decimal(t) + ":" + rest, Decimal(t') + ":" + rest');
      FirstSeparator(Decimal(t), Decimal(t'), ':', rest, rest');
      ValueOfDecimal(t);
      ValueOfDecimal(t');
    }
  }

  /** The layout of both forms, character by character where it is fixed. */
  lemma PreimageLayout(t: nat, owner: string, conditions: string, sig: string, p: string)
    ensures Preimage(t, None, p) == "nostr:git:v1:" + Decimal(t) + ":" + p
    ensures Preimage(t, Some(Attestation(owner, conditions, sig)), p) ==
      "nostr:git:v1:" + Decimal(t) + ":" + owner + ":" + conditions + ":" + sig + ":" + p
  {
    hide Decimal;
    var head, oa := "nostr:git:v1:" + Decimal(t) + ":", Attestation(owner, conditions, sig);
    assert head + "" == head;
    assert head + Binding(oa) == head + owner + ":" + conditions + ":" + sig + ":";
  }

  lemma BindingNested(a: Attestation, p: string)
    ensures Binding(a) + p == a.owner + (":" + (a.conditions + ":" + (a.sig + (":" + p))))
  {
    assert Binding(a) == a.owner + (":" + (a.conditions + ":" + (a.sig + ":")));
  }

  lemma BindingInjective(a: Attestation, p: string, b: Attestation, q: string)
    requires Bindable(a) && Bindable(b) && Binding(a) + p == Binding(b) + q
    ensures a == b && p == q
  {
    hide ReadConditions, Plain, Binding, ClauseChar;
    ConditionsArePlain(a.conditions);
    ConditionsArePlain(b.conditions);
    BindingNested(a, p);
    BindingNested(b, q);
    var x, y := a.conditions + ":" + (a.sig + (":" + p)), b.conditions + ":" + (b.sig + (":" + q));
    SamePrefix(a.owner, b.owner, ":" + x, ":" + y);
    SamePrefix(":", ":", x, y);
    FirstSeparator(a.conditions, b.conditions, ':', a.sig + (":" + p), b.sig + (":" + q));
    SamePrefix(a.sig, b.sig, ":" + p, ":" + q);
    SamePrefix(":", ":", p, q);
  }

  /** With an attestation on both sides, or on neither, the preimage determines every field. */
  lemma PreimageInjective(t: nat, oa: Option<Attestation>, p: string, t': nat, oa': Option<Attestation>, p': string)
    requires oa.Some? ==> Bindable(oa.value)
    requires oa'.Some? ==> Bindable(oa'.value)
    requires oa.Some? <==> oa'.Some?
    requires Preimage(t, oa, p) == Preimage(t', oa', p')
    ensures t == t' && oa == oa' && p == p'
  {
    hide Bindable, Binding, DOMAIN, Decimal;
    var x := if oa.Some? then Binding(oa.value) else "";
    var y := if oa'.Some? then Binding(oa'.value) else "";
    assert Preimage(t, oa, p) == DOMAIN + Decimal(t) + ":" + (x + p);
    assert Preimage(t', oa', p') == DOMAIN + Decimal(t') + ":" + (y + p');
    PreimageTime(t, t', x + p, y + p');
    if oa.Some? {
      BindingInjective(oa.value, p, oa'.value, p');
    } else {
      assert x + p == p && y + p' == p';
    }
  }

  /** Exactly when an unattested and an attested preimage collide: the payload spells the binding. */
  lemma PreimageCollision(t: nat, p: string, t': nat, oa: Attestation, p': string)
    ensures Preimage(t, None, p) == Preimage(t', Some(oa), p') <==> t == t' && p == Binding(oa) + p'
  {
    assert Preimage(t, None, p) == DOMAIN + Decimal(t) + ":" + p;
    assert Preimage(t', Some(oa), p') == DOMAIN + Decimal(t') + ":" + (Binding(oa) + p');
    PreimageTime(t, t', p, Binding(oa) + p');
  }

  /** 64 lowercase hex characters and a colon, as no git commit or tag object begins. */
  predicate LooksAttested(p: string) { |p| > 64 && Hex(p[..64], 64) && p[64] == ':' }

  lemma PreimageSeparated(t: nat, p: string, t': nat, oa: Attestation, p': string)
    requires Bindable(oa) && !LooksAttested(p)
    ensures Preimage(t, None, p) != Preimage(t', Some(oa), p')
  {
    hide ReadConditions, Preimage;
    PreimageCollision(t, p, t', oa, p');
    var q := Binding(oa) + p';
    assert q[..64] == oa.owner && q[64] == ':';
    assert LooksAttested(q);
  }

  /** Git commits begin with "tree " and tags with "object ": neither is a hex owner key. */
  lemma GitObjectsAreSeparated(p: string)
    requires "tree " <= p || "object " <= p
    ensures !LooksAttested(p)
  {
    if |p| > 64 { assert p[..64][0] == p[0]; }
  }
}
