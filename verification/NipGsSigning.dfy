/** Signing and verifying end to end: what the signer emits, the verifier accepts as it was meant. */
module NipGsSigning {
  import opened Wrappers
  import opened Text
  import opened Base64
  import opened EnvelopeJson
  import opened NipGsConditions
  import opened NipGs

  /** The curve and the hash, from outside; `sign` and `verify` work on the preimage. */
  datatype Crypto = Crypto(
    isKey: string -> bool,
    sign: (string, string) -> string,
    verify: (string, string, string) -> bool,
    verifyOwner: (string, Attestation) -> bool)

  /** What a key signs is 64 bytes in lowercase hex and verifies under that key. */
  ghost predicate Lawful(c: Crypto) {
    forall pk, m :: c.isKey(pk) ==> Hex(c.sign(pk, m), 128) && c.verify(pk, c.sign(pk, m), m)
  }

  const MAX_AUTH_TAG := 1024

  /** No JSON text is shorter than the compact print of what it says. */
  ghost predicate NeverShorter(read: string -> Option<Json>) {
    forall s :: read(s).Some? ==> |Print(read(s).value)| <= |s|
  }

  /** `load_auth_tag`: the configured ["auth", owner, conditions, sig], capped and validated. */
  function LoadAuthTag(raw: string, read: string -> Option<Json>): Option<Attestation> {
    if |raw| > MAX_AUTH_TAG then None
    else match read(raw)
      case Some(Arr(Item(Str(auth), Item(Str(owner), Item(Str(conditions), Item(Str(sig), NoItems)))))) =>
        if auth == "auth" && ReadConditions(conditions).Some? && Hex(owner, 64) && Hex(sig, 128)
        then Some(Attestation(owner, conditions, sig)) else None
      case _ => None
  }

  lemma {:induction false} TagLength(oa: Attestation)
    ensures |Print(Arr(Item(Str("auth"), AttestationItems(oa))))| == |oa.owner| + |oa.conditions| + |oa.sig| + 17
  {
    assert |PrintItems(Item(Str(oa.sig), NoItems))| == |oa.sig| + 2;
    assert |PrintItems(Item(Str(oa.conditions), Item(Str(oa.sig), NoItems)))| == |oa.conditions| + |oa.sig| + 5;
    assert |PrintItems(AttestationItems(oa))| == |oa.owner| + |oa.conditions| + |oa.sig| + 8;
    assert |PrintItems(Item(Str("auth"), AttestationItems(oa)))| == |oa.owner| + |oa.conditions| + |oa.sig| + 15;
  }

  lemma LoadedIsShort(raw: string, read: string -> Option<Json>)
    requires NeverShorter(read) && LoadAuthTag(raw, read).Some?
    ensures var oa := LoadAuthTag(raw, read).value; Bindable(oa) && |oa.conditions| <= 815
  {
    hide ReadConditions, Print;
    var oa := LoadAuthTag(raw, read).value;
    match read(raw)
    case Some(Arr(Item(Str(auth), Item(Str(owner), Item(Str(conditions), Item(Str(sig), NoItems)))))) =>
      assert oa == Attestation(owner, conditions, sig);
      assert read(raw).value == Arr(Item(Str("auth"), AttestationItems(oa)));
      TagLength(oa);
    case _ =>
  }

  lemma EnvelopeLength(e: Envelope)
    requires |e.pk| == 64 && |e.sig| == 128 && e.t < U32
    requires e.oa.Some? ==> |e.oa.value.owner| == 64 && |e.oa.value.sig| == 128
    ensures |BuildEnvelope(e)| <= 231 + (if e.oa.Some? then 208 + |e.oa.value.conditions| else 0)
  {
    assert Pow10(10) == 10000000000 by {
      assert Pow10(5) == 100000;
    }
    DecimalLength(e.t, 10);
  }

  datatype Failure = BadClock | BadTag | OwnerNotKey | SelfAttested | OwnerUnverified | ConditionsUnmet

  /** `do_sign` after key loading: the armored envelope, or why there is none. */
  function Sign(c: Crypto, pk: string, payload: string, t: nat, tag: Option<string>, read: string -> Option<Json>)
    : Result<(Envelope, string), Failure>
  {
    if t >= U32 then Err(BadClock)
    else if tag.Some? && LoadAuthTag(tag.value, read).None? then Err(BadTag)
    else
      var oa := if tag.None? then None else LoadAuthTag(tag.value, read);
      if oa.Some? && !c.isKey(oa.value.owner) then Err(OwnerNotKey)
      else if oa.Some? && oa.value.owner == pk then Err(SelfAttested)
      else if oa.Some? && !c.verifyOwner(pk, oa.value) then Err(OwnerUnverified)
      else if oa.Some? && !Enforced(oa.value.conditions, t) then Err(ConditionsUnmet)
      else
        var e := Envelope(pk, c.sign(pk, Preimage(t, oa, payload)), t, oa);
        Ok((e, Armor(ToBytes(BuildEnvelope(e)))))
  }

  datatype OwnerStatus = NoOwner | OwnerValid | OwnerInvalidSignature | OwnerConditionsViolated

  datatype Rejection = Malformed | BadSignature

  /** `do_verify`: structural acceptance, then the signature over the preimage, then the owner. */
  ghost function Verify(c: Crypto, content: string, payload: string, io: Readers)
    : Result<(Envelope, OwnerStatus), Rejection>
  {
    var e := Accept(content, c.isKey, io);
    if e.None? then Err(Malformed)
    else if !c.verify(e.value.pk, e.value.sig, Preimage(e.value.t, e.value.oa, payload)) then Err(BadSignature)
    else match e.value.oa
      case None => Ok((e.value, NoOwner))
      case Some(oa) =>
        if !c.isKey(oa.owner) then Err(Malformed)
        else if !c.verifyOwner(e.value.pk, oa) then Ok((e.value, OwnerInvalidSignature))
        else if !Enforced(oa.conditions, e.value.t) then Ok((e.value, OwnerConditionsViolated))
        else Ok((e.value, OwnerValid))
  }

  lemma SignedIsValid(c: Crypto, pk: string, payload: string, t: nat, tag: Option<string>, read: string -> Option<Json>)
    requires Lawful(c) && NeverShorter(read) && Hex(pk, 64) && c.isKey(pk) && Sign(c, pk, payload, t, tag, read).Ok?
    ensures var (e, out) := Sign(c, pk, payload, t, tag, read).value;
      && ValidEnvelope(e, c.isKey) && e.pk == pk && e.t == t
      && e.sig == c.sign(pk, Preimage(t, e.oa, payload))
      && e.oa == (if tag.None? then None else LoadAuthTag(tag.value, read))
      && out == Armor(ToBytes(BuildEnvelope(e)))
      && |BuildEnvelope(e)| <= 1254
  {
    hide ReadConditions, BuildEnvelope, Preimage, Print, LoadAuthTag, Enforced;
    var e := Sign(c, pk, payload, t, tag, read).value.0;
    if tag.Some? { LoadedIsShort(tag.value, read); }
    EnvelopeLength(e);
  }

  /**
   Whatever the signer emits fits every size limit, is accepted, and comes back with the same
   fields, a valid signature, the key the early scan saw, and (with a tag) a satisfied owner.
   */
  lemma SignedVerifies(c: Crypto, pk: string, payload: string, t: nat, tag: Option<string>, io: Readers)
    requires Lawful(c) && NeverShorter(io.json) && Faithful(io) && Hex(pk, 64) && c.isKey(pk)
    requires Sign(c, pk, payload, t, tag, io.json).Ok?
    ensures var (e, out) := Sign(c, pk, payload, t, tag, io.json).value;
      && Verify(c, out, payload, io) == Ok((e, if tag.None? then NoOwner else OwnerValid))
      && e.pk == pk && e.t == t && ExtractPk(BuildEnvelope(e)) == Some(pk)
      && |BuildEnvelope(e)| <= MAX_JSON_DECODED
      && |Encode(ToBytes(BuildEnvelope(e)))| <= MAX_BASE64_LINE && |out| <= MAX_SIG_FILE
  {
    hide ReadConditions, BuildEnvelope, Preimage, Print, LoadAuthTag, Enforced, Accept, ExtractPk, ValidEnvelope,
         Faithful, NeverShorter;
    SignedIsValid(c, pk, payload, t, tag, io.json);
    var (e, out) := Sign(c, pk, payload, t, tag, io.json).value;
    AcceptExact(out, e, c.isKey, io);
    ExtractPkAgrees(e);
    BytesLength(BuildEnvelope(e));
    WrapLength(Encode(ToBytes(BuildEnvelope(e))));
  }

  // ---- Exactly what is loaded, signed and verified ---------------------------------

  /** The text holds exactly ["auth", owner, conditions, sig] with valid fields, within the cap. */
  lemma LoadExact(raw: string, read: string -> Option<Json>, oa: Attestation)
    ensures LoadAuthTag(raw, read) == Some(oa) <==>
      && |raw| <= 1024 && Hex(oa.owner, 64) && Hex(oa.sig, 128)
      && (exists cs: seq<Clause> :: AllValid(cs) && oa.conditions == PrintConditions(cs))
      && read(raw) == Some(Arr(Item(Str("auth"), Item(Str(oa.owner), Item(Str(oa.conditions), Item(Str(oa.sig), NoItems))))))
  {
    ConditionsAreGrammar(oa.conditions);
    hide ReadConditions, PrintConditions, AllValid, ReadsCompact;
    var whole := Arr(Item(Str("auth"), Item(Str(oa.owner), Item(Str(oa.conditions), Item(Str(oa.sig), NoItems)))));
    if LoadAuthTag(raw, read) == Some(oa) {
      match read(raw)
      case Some(Arr(Item(Str(auth), Item(Str(owner), Item(Str(conditions), Item(Str(sig), NoItems)))))) =>
        assert oa == Attestation(owner, conditions, sig);
      case _ =>
    }
    if read(raw) == Some(whole) && |raw| <= 1024 && ReadConditions(oa.conditions).Some? && Hex(oa.owner, 64) && Hex(oa.sig, 128) {
      assert LoadAuthTag(raw, read) == Some(Attestation(oa.owner, oa.conditions, oa.sig));
    }
  }

  lemma ConditionsAreGrammar(s: string)
    ensures ReadConditions(s).Some? <==> exists cs: seq<Clause> :: AllValid(cs) && s == PrintConditions(cs)
  {
    hide ReadConditions, PrintConditions, AllValid;
    if ReadConditions(s).Some? { ReadConditionsExact(s, ReadConditions(s).value); }
    if cs: seq<Clause> :| AllValid(cs) && s == PrintConditions(cs) { ReadConditionsExact(s, cs); }
  }

  /** The owner is a key other than the signer's, vouched for the signer, and admits the time. */
  ghost predicate Vouched(c: Crypto, pk: string, oa: Attestation, t: nat) {
    && c.isKey(oa.owner) && oa.owner != pk && c.verifyOwner(pk, oa)
    && ReadConditions(oa.conditions).Some? && Between(ReadConditions(oa.conditions).value, t)
  }

  /** The signer succeeds exactly in u32 time with no tag or a vouched one, and signs the preimage of its own fields. */
  lemma SignExact(c: Crypto, pk: string, payload: string, t: nat, tag: Option<string>, read: string -> Option<Json>,
                  e: Envelope, out: string)
    ensures Sign(c, pk, payload, t, tag, read) == Ok((e, out)) <==>
      && t < U32 && e.pk == pk && e.t == t
      && (tag.Some? <==> e.oa.Some?)
      && (tag.Some? ==> LoadAuthTag(tag.value, read) == e.oa && Vouched(c, pk, e.oa.value, t))
      && e.sig == c.sign(pk, Preimage(t, e.oa, payload))
      && out == Armor(ToBytes(BuildEnvelope(e)))
  {
    var oa := if tag.None? then None else LoadAuthTag(tag.value, read);
    if oa.Some? {
      LoadExact(tag.value, read, oa.value);
      ConditionsAreGrammar(oa.value.conditions);
      EnforcedMeansBetween(oa.value.conditions, t);
    }
    hide ReadConditions, BuildEnvelope, Preimage, LoadAuthTag, Enforced, Between, Armor, ToBytes, PrintConditions, AllValid;
  }

  /** Why the signer refuses: the first of these that is not met. */
  lemma SignRefusesWhen(c: Crypto, pk: string, payload: string, t: nat, tag: Option<string>, read: string -> Option<Json>)
    requires tag.Some?
    ensures var r := Sign(c, pk, payload, t, tag, read); var oa := LoadAuthTag(tag.value, read);
      && (r == Err(BadClock) <==> t >= U32)
      && (r == Err(BadTag) <==> t < U32 && oa.None?)
      && (r == Err(OwnerNotKey) <==> t < U32 && oa.Some? && !c.isKey(oa.value.owner))
      && (r == Err(SelfAttested) <==> t < U32 && oa.Some? && c.isKey(oa.value.owner) && oa.value.owner == pk)
      && (r == Err(OwnerUnverified) <==>
          t < U32 && oa.Some? && c.isKey(oa.value.owner) && oa.value.owner != pk && !c.verifyOwner(pk, oa.value))
      && (r.Ok? || r == Err(ConditionsUnmet) || r == Err(BadClock) || r == Err(BadTag) || r == Err(OwnerNotKey)
          || r == Err(SelfAttested) || r == Err(OwnerUnverified))
  {
    hide ReadConditions, BuildEnvelope, Preimage, LoadAuthTag, Enforced, Armor, ToBytes;
  }

  /** The content is the canonical armored text of this envelope. */
  ghost predicate Carries(c: Crypto, content: string, e: Envelope) {
    && ValidEnvelope(e, c.isKey) && c.isKey(e.pk) && |BuildEnvelope(e)| <= MAX_JSON_DECODED
    && content == Armor(ToBytes(BuildEnvelope(e)))
  }

  ghost predicate Signed(c: Crypto, e: Envelope, payload: string) {
    c.verify(e.pk, e.sig, Preimage(e.t, e.oa, payload))
  }

  /** What is said of the owner: absent, vouching in time, not vouching, or vouching for another time. */
  ghost predicate OwnerIs(c: Crypto, e: Envelope, status: OwnerStatus) {
    match e.oa
    case None => status == NoOwner
    case Some(oa) =>
      && ReadConditions(oa.conditions).Some?
      && status == (if !c.verifyOwner(e.pk, oa) then OwnerInvalidSignature
                    else if Between(ReadConditions(oa.conditions).value, e.t) then OwnerValid
                    else OwnerConditionsViolated)
  }

  /**
   For every content and payload: the verifier succeeds, with this envelope and owner status,
   exactly when the content carries that envelope, its signature covers this payload and the
   owner stands so.
   */
  lemma VerifyExact(c: Crypto, content: string, payload: string, io: Readers, e: Envelope, status: OwnerStatus)
    requires Faithful(io)
    ensures Verify(c, content, payload, io) == Ok((e, status)) <==>
      Carries(c, content, e) && Signed(c, e, payload) && OwnerIs(c, e, status)
  {
    AcceptExact(content, e, c.isKey, io);
    if ValidEnvelope(e, c.isKey) && e.oa.Some? { EnforcedMeansBetween(e.oa.value.conditions, e.t); }
    hide ReadConditions, BuildEnvelope, Preimage, Enforced, Between, Armor, ToBytes, Accept, Hex, Faithful;
  }

  /** It reports a bad signature exactly for an envelope it accepts whose signature does not cover the payload. */
  lemma VerifyRejectsWhen(c: Crypto, content: string, payload: string, io: Readers)
    requires Faithful(io)
    ensures Verify(c, content, payload, io) == Err(BadSignature) <==>
      exists e :: Carries(c, content, e) && !Signed(c, e, payload)
    ensures Verify(c, content, payload, io) == Err(Malformed) <==> forall e :: !Carries(c, content, e)
  {
    hide ReadConditions, BuildEnvelope, Preimage, Enforced, Armor, ToBytes, Accept, Hex, Faithful;
    var accepted := Accept(content, c.isKey, io);
    forall e ensures Carries(c, content, e) <==> accepted == Some(e) { AcceptExact(content, e, c.isKey, io); }
  }

  /** An edited payload is caught: a signature that does not cover it never verifies. */
  lemma EditedPayloadIsRejected(c: Crypto, e: Envelope, payload: string, io: Readers)
    requires Faithful(io) && Carries(c, Armor(ToBytes(BuildEnvelope(e))), e) && !Signed(c, e, payload)
    ensures Verify(c, Armor(ToBytes(BuildEnvelope(e))), payload, io) == Err(BadSignature)
  {
    hide Carries, Signed, BuildEnvelope, Armor, ToBytes, Verify;
    VerifyRejectsWhen(c, Armor(ToBytes(BuildEnvelope(e))), payload, io);
  }

  /** No second text is accepted for the same envelope: signatures cannot be re-encoded. */
  lemma AcceptedTextIsUnique(content: string, other: string, e: Envelope, isKey: string -> bool, io: Readers)
    requires Faithful(io) && Accept(content, isKey, io) == Some(e) && Accept(other, isKey, io) == Some(e)
    ensures content == other
  {
    hide Accept, BuildEnvelope, ValidEnvelope, Faithful;
    AcceptExact(content, e, isKey, io);
    AcceptExact(other, e, isKey, io);
  }

  function Repeated(c: char, n: nat): (s: string)
    requires HexChar(c)
    ensures Hex(s, n)
  {
    seq(n, i => c)
  }

  const AGENT := Repeated('0', 64)
  const OWNER := Repeated('1', 64)
  const SIGNATURE := Repeated('0', 128)

  /** Two keys with one signature, and an owner check that the owner's attestations of the agent pass. */
  function ToyCrypto(): Crypto {
    Crypto(pk => pk == AGENT || pk == OWNER, (pk, m) => SIGNATURE,
           (pk, sig, m) => (pk == AGENT || pk == OWNER) && sig == SIGNATURE,
           (pk, oa: Attestation) => pk == AGENT && oa.owner == OWNER && oa.sig == SIGNATURE)
  }

  const OWNER_TAG := Attestation(OWNER, "", SIGNATURE)

  lemma OwnerTagLoads()
    ensures LoadAuthTag(Print(Arr(Item(Str("auth"), AttestationItems(OWNER_TAG)))), Read) == Some(OWNER_TAG)
  {
    hide Print, Read;
    var tag := Arr(Item(Str("auth"), AttestationItems(OWNER_TAG)));
    TagLength(OWNER_TAG);
    HexIsPlain(OWNER, 64);
    HexIsPlain(SIGNATURE, 128);
    assert Plain("auth") && Plain("");
    assert PlainItems(AttestationItems(OWNER_TAG).tail.tail);
    assert PlainItems(AttestationItems(OWNER_TAG).tail);
    assert PlainItems(AttestationItems(OWNER_TAG));
    assert PlainJson(tag);
    ReadExact(Print(tag), tag);
  }

  lemma AgentSigns(payload: string)
    ensures Sign(ToyCrypto(), AGENT, payload, 0, None, Read).Ok?
    ensures exists tag :: Sign(ToyCrypto(), AGENT, payload, 0, Some(tag), Read).Ok?
  {
    hide Print, Read, LoadAuthTag, BuildEnvelope, Armor, ToBytes, Preimage;
    OwnerTagLoads();
    assert AGENT[0] != OWNER[0];
    var tag := Print(Arr(Item(Str("auth"), AttestationItems(OWNER_TAG))));
    assert Sign(ToyCrypto(), AGENT, payload, 0, Some(tag), Read).Ok?;
  }

  lemma StrictReaderNeverShorter()
    ensures NeverShorter(Read)
  {
    hide Print, Read;
    forall s | Read(s).Some? ensures |Print(Read(s).value)| <= |s| { ReadExact(s, Read(s).value); }
  }

  /**
   The laws asked of the curve and of the readers hold together, with a verifier that rejects
   every string that is not a key, and under them the agent can sign with and without a tag.
   */
  lemma LawsAreConsistent(payload: string)
    ensures Lawful(ToyCrypto()) && Faithful(Readers(FromBytes, Read)) && NeverShorter(Read)
    ensures Hex(AGENT, 64) && ToyCrypto().isKey(AGENT)
    ensures forall pk, sig, m :: !ToyCrypto().isKey(pk) ==> !ToyCrypto().verify(pk, sig, m)
    ensures Sign(ToyCrypto(), AGENT, payload, 0, None, Read).Ok?
    ensures exists tag :: Sign(ToyCrypto(), AGENT, payload, 0, Some(tag), Read).Ok?
  {
    hide Faithful, NeverShorter, Sign, Read;
    FaithfulReadersExist();
    StrictReaderNeverShorter();
    AgentSigns(payload);
  }

  /** The preimage as the source feeds it to its hash engine, piece by piece. */
  method FeedPreimage(t: nat, oa: Option<Attestation>, payload: string) returns (fed: string)
    ensures fed == Preimage(t, oa, payload)
  {
    hide DOMAIN, Decimal;
    fed := DOMAIN;
    fed := fed + Decimal(t);
    fed := fed + ":";
    if oa.Some? {
      var before := fed;
      fed := fed + oa.value.owner;
      fed := fed + ":";
      fed := fed + oa.value.conditions;
      fed := fed + ":";
      fed := fed + oa.value.sig;
      fed := fed + ":";
      assert fed == before + Binding(oa.value);
    }
    fed := fed + payload;
  }
}
