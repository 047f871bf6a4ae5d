/** The owner-attestation conditions: their grammar, their validator and their evaluator. */
module NipGsConditions {
  import opened Wrappers
  import opened Text

  const U32 := 0x1_0000_0000

  datatype Clause = Kind(n: nat) | Before(n: nat) | After(n: nat)

  predicate ValidClause(c: Clause) { if c.Kind? then c.n <= 65535 else c.n < U32 }

  const KIND := "kind="
  const BEFORE := "created_at<"
  const AFTER := "created_at>"

  function PrintClause(c: Clause): string {
    (match c case Kind(_) => KIND case Before(_) => BEFORE case After(_) => AFTER) + Decimal(c.n)
  }

  /** The three clause forms, as they are written. */
  lemma ClauseForms(n: nat)
    ensures PrintClause(Kind(n)) == "kind=" + Decimal(n)
    ensures PrintClause(Before(n)) == "created_at<" + Decimal(n)
    ensures PrintClause(After(n)) == "created_at>" + Decimal(n)
    ensures (ValidClause(Kind(n)) <==> n <= 65535)
    ensures (ValidClause(Before(n)) <==> n <= 4294967295) && (ValidClause(After(n)) <==> n <= 4294967295)
  {
  }

  function PrintClauses(cs: seq<Clause>): seq<string> { seq(|cs|, i requires 0 <= i < |cs| => PrintClause(cs[i])) }

  /** The documented grammar: nothing, or clauses joined by '&'. */
  function PrintConditions(cs: seq<Clause>): string {
    if cs == [] then "" else Join(PrintClauses(cs), '&')
  }

  /** Decimal digits only, no sign, no leading zero, and within u32. */
  function ParseDecimalU32(s: string): Option<nat> {
    if s == [] then None
    else if s[0] == '+' || s[0] == '-' then None
    else if |s| > 1 && s[0] == '0' then None
    else if !AllDigits(s) then None
    else if Value(s) < U32 then Some(Value(s)) else None
  }

  lemma ParseDecimalExact(s: string, n: nat)
    ensures ParseDecimalU32(s) == Some(n) <==> s == Decimal(n) && n < U32
  {
    ValueOfDecimal(n);
    if Canonical(s) { DecimalOfValue(s); }
  }

  function StripPrefix(s: string, prefix: string): Option<string> {
    if prefix <= s then Some(s[|prefix|..]) else None
  }

  function ReadClause(text: string): Option<Clause> {
    if StripPrefix(text, KIND).Some? then
      var n := ParseDecimalU32(StripPrefix(text, KIND).value);
      if n.Some? && n.value <= 65535 then Some(Kind(n.value)) else None
    else if StripPrefix(text, BEFORE).Some? then
      var n := ParseDecimalU32(StripPrefix(text, BEFORE).value);
      if n.Some? then Some(Before(n.value)) else None
    else if StripPrefix(text, AFTER).Some? then
      var n := ParseDecimalU32(StripPrefix(text, AFTER).value);
      if n.Some? then Some(After(n.value)) else None
    else None
  }

  lemma ReadClauseExact(text: string, c: Clause)
    ensures ReadClause(text) == Some(c) <==> text == PrintClause(c) && ValidClause(c)
  {
    if ReadClause(text) == Some(c) {
      var prefix := PrintClause(c)[..|PrintClause(c)| - |Decimal(c.n)|];
      assert text == prefix + text[|prefix|..];
      ParseDecimalExact(text[|prefix|..], c.n);
    }
    if text == PrintClause(c) && ValidClause(c) {
      ParseDecimalExact(Decimal(c.n), c.n);
      assert text[|text| - |Decimal(c.n)|..] == Decimal(c.n);
      assert c.Kind? ==> text[0] == 'k';
      assert !c.Kind? ==> text[0] == 'c' && text[10] == (if c.Before? then '<' else '>');
    }
  }

  function ReadClauses(parts: seq<string>): Option<seq<Clause>> {
    if parts == [] then Some([])
    else
      var head, tail := ReadClause(parts[0]), ReadClauses(parts[1..]);
      if head.Some? && tail.Some? then Some([head.value] + tail.value) else None
  }

  /** What a conditions string means: its clauses, or None when it is malformed. */
  function ReadConditions(s: string): Option<seq<Clause>> {
    if s == "" then Some([]) else ReadClauses(Split(s, '&'))
  }

  predicate AllValid(cs: seq<Clause>) { forall i :: 0 <= i < |cs| ==> ValidClause(cs[i]) }

  lemma {:induction false} ReadClausesExact(parts: seq<string>, cs: seq<Clause>)
    ensures ReadClauses(parts) == Some(cs) <==> parts == PrintClauses(cs) && AllValid(cs)
  {
    if parts == [] {
      assert cs == [] <==> PrintClauses(cs) == [];
    } else if cs == [] {
      assert PrintClauses(cs) == [];
    } else {
      ReadClauseExact(parts[0], cs[0]);
      ReadClausesExact(parts[1..], cs[1..]);
      assert PrintClauses(cs)[0] == PrintClause(cs[0]);
      assert PrintClauses(cs)[1..] == PrintClauses(cs[1..]);
      assert cs == [cs[0]] + cs[1..] && parts == [parts[0]] + parts[1..];
      assert PrintClauses(cs) == [PrintClause(cs[0])] + PrintClauses(cs[1..]);
    }
  }

  predicate ClauseChar(c: char) { 'a' <= c <= 'z' || IsDigit(c) || c == '_' || c == '=' || c == '<' || c == '>' }

  predicate Clausal(s: string) { forall i :: 0 <= i < |s| ==> ClauseChar(s[i]) }

  lemma ClauseChars(c: Clause)
    ensures Clausal(PrintClause(c)) && PrintClause(c) != []
  {
    assert Clausal(KIND) && Clausal(BEFORE) && Clausal(AFTER) && Clausal(Decimal(c.n));
  }

  /** The reader accepts exactly the printed forms of valid clause lists. */
  lemma ReadConditionsExact(s: string, cs: seq<Clause>)
    ensures ReadConditions(s) == Some(cs) <==> s == PrintConditions(cs) && AllValid(cs)
  {
    var texts := PrintClauses(cs);
    forall i | 0 <= i < |cs| ensures Without(texts[i], '&') && texts[i] != [] { ClauseChars(cs[i]); }
    if cs != [] {
      assert texts[0] != [];
      SplitOfJoin(texts, '&');
      assert PrintConditions(cs) != "" by { if |texts| > 1 { assert |Join(texts, '&')| > 0; } }
    }
    if s != "" {
      ReadClausesExact(Split(s, '&'), cs);
      JoinOfSplit(s, '&');
    }
  }

  /** Conditions text never needs escaping and never contains a ':' or a '"'. */
  lemma {:induction false} ConditionsChars(cs: seq<Clause>)
    ensures forall i :: 0 <= i < |PrintConditions(cs)| ==>
                          ClauseChar(PrintConditions(cs)[i]) || PrintConditions(cs)[i] == '&'
  {
    if cs != [] {
      ClauseChars(cs[0]);
      var texts := PrintClauses(cs);
      if |cs| > 1 {
        ConditionsChars(cs[1..]);
        assert texts[1..] == PrintClauses(cs[1..]);
        assert PrintConditions(cs) == PrintClause(cs[0]) + "&" + PrintConditions(cs[1..]);
      } else {
        assert PrintConditions(cs) == PrintClause(cs[0]);
      }
    }
  }

  lemma {:induction false} SomeBadClause(parts: seq<string>, i: nat)
    requires i < |parts| && ReadClause(parts[i]).None?
    ensures ReadClauses(parts).None?
  {
    if i > 0 { SomeBadClause(parts[1..], i - 1); }
  }

  lemma {:induction false} NoBadClause(parts: seq<string>)
    requires forall i :: 0 <= i < |parts| ==> ReadClause(parts[i]).Some?
    ensures ReadClauses(parts).Some?
  {
    if parts != [] { NoBadClause(parts[1..]); }
  }

  /** `validate_conditions`: accepts exactly the documented grammar and ranges. */
  method ValidateConditions(s: string) returns (ok: bool)
    ensures ok <==> exists cs: seq<Clause> :: AllValid(cs) && s == PrintConditions(cs)
    ensures ok <==> ReadConditions(s).Some?
  {
    ok := s == "";
    if !ok {
      var parts := Split(s, '&');
      var i := 0;
      while i < |parts| && ReadClause(parts[i]).Some?
        invariant 0 <= i <= |parts|
        invariant forall j :: 0 <= j < i ==> ReadClause(parts[j]).Some?
      {
        i := i + 1;
      }
      ok := i == |parts|;
      if ok { NoBadClause(parts); } else { SomeBadClause(parts, i); }
    }
    if ok { ReadConditionsExact(s, ReadConditions(s).value); }
    forall cs: seq<Clause> | AllValid(cs) && s == PrintConditions(cs) ensures ok {
      ReadConditionsExact(s, cs);
    }
  }

  predicate Admits(c: Clause, t: nat) {
    match c case Kind(_) => true case Before(n) => t < n case After(n) => t > n
  }

  /** One clause as the evaluator tests it; text it cannot read constrains nothing. */
  predicate ClauseAdmits(text: string, t: nat) {
    if StripPrefix(text, BEFORE).Some? then
      var n := ParseDecimalU32(StripPrefix(text, BEFORE).value);
      n.Some? ==> t < n.value
    else if StripPrefix(text, AFTER).Some? then
      var n := ParseDecimalU32(StripPrefix(text, AFTER).value);
      n.Some? ==> t > n.value
    else true
  }

  lemma ClauseAdmitsExact(c: Clause, t: nat)
    requires ValidClause(c)
    ensures ClauseAdmits(PrintClause(c), t) <==> Admits(c, t)
  {
    var text := PrintClause(c);
    ParseDecimalExact(Decimal(c.n), c.n);
    assert text[|text| - |Decimal(c.n)|..] == Decimal(c.n);
    assert c.Kind? ==> text[0] == 'k';
    assert !c.Kind? ==> text[10] == (if c.Before? then '<' else '>');
  }

  /** The largest n of an `After` clause; -1 when there is none. */
  function LowerBound(cs: seq<Clause>): int {
    if cs == [] then -1
    else
      var rest := LowerBound(cs[1..]);
      if cs[0].After? && cs[0].n > rest then cs[0].n else rest
  }

  /** The smallest n of a `Before` clause, if any. */
  function UpperBound(cs: seq<Clause>): Option<nat> {
    if cs == [] then None
    else
      var rest := UpperBound(cs[1..]);
      if cs[0].Before? && (rest.None? || cs[0].n < rest.value) then Some(cs[0].n) else rest
  }

  predicate Between(cs: seq<Clause>, t: nat) {
    LowerBound(cs) < t && (UpperBound(cs).None? || t < UpperBound(cs).value)
  }

  lemma {:induction false} BetweenIsAllAdmit(cs: seq<Clause>, t: nat)
    ensures Between(cs, t) <==> forall i :: 0 <= i < |cs| ==> Admits(cs[i], t)
  {
    if cs != [] {
      BetweenIsAllAdmit(cs[1..], t);
      assert (forall i :: 0 <= i < |cs| ==> Admits(cs[i], t)) <==>
             Admits(cs[0], t) && forall i :: 0 <= i < |cs[1..]| ==> Admits(cs[1..][i], t) by {
        assert forall i :: 0 < i < |cs| ==> cs[i] == cs[1..][i - 1];
      }
    }
  }

  predicate Enforced(s: string, t: nat) {
    s == "" || forall i :: 0 <= i < |Split(s, '&')| ==> ClauseAdmits(Split(s, '&')[i], t)
  }

  /** On accepted text: t lies strictly between the largest lower and the smallest upper bound. */
  lemma EnforcedMeansBetween(s: string, t: nat)
    requires ReadConditions(s).Some?
    ensures Enforced(s, t) <==> Between(ReadConditions(s).value, t)
  {
    if s != "" {
      var parts, cs := Split(s, '&'), ReadConditions(s).value;
      ReadClausesExact(parts, cs);
      BetweenIsAllAdmit(cs, t);
      hide ClauseAdmits, Split, ReadClauses, LowerBound, UpperBound;
      forall j | 0 <= j < |parts| ensures ClauseAdmits(parts[j], t) <==> Admits(cs[j], t) {
        ClauseAdmitsExact(cs[j], t);
      }
    }
  }

  /**
   `enforce_conditions`: the index of the first violated clause, if any. On accepted text it
   succeeds exactly when t lies strictly between the largest lower and the smallest upper bound.
   */
  method EnforceConditions(s: string, t: nat) returns (violated: Option<nat>)
    ensures violated.None? <==> Enforced(s, t)
    ensures ReadConditions(s).Some? ==> (violated.None? <==> Between(ReadConditions(s).value, t))
    ensures violated.Some? ==>
      && violated.value < |Split(s, '&')| && !ClauseAdmits(Split(s, '&')[violated.value], t)
      && forall j :: 0 <= j < violated.value ==> ClauseAdmits(Split(s, '&')[j], t)
  {
    hide ClauseAdmits, Split, ReadClauses, LowerBound, UpperBound;
    if ReadConditions(s).Some? { EnforcedMeansBetween(s, t); }
    violated := None;
    if s == "" { return; }
    var parts := Split(s, '&');
    var i := 0;
    while i < |parts|
      invariant 0 <= i <= |parts|
      invariant forall j :: 0 <= j < i ==> ClauseAdmits(parts[j], t)
    {
      if !ClauseAdmits(parts[i], t) { return Some(i); }
      i := i + 1;
    }
  }
}
