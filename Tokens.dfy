/**
 * `PCCapToken`: a capability as a value, its dictionary form, its expiry test
 * and the canonical bytes a signature covers.
 */
module Tokens {
  import opened Wrappers
  import opened Text
  import opened JsonText
  import opened Scopes

  datatype Algorithm = HS256 | Ed25519

  function AlgorithmName(a: Algorithm): string {
    match a
    case HS256 => "HS256"
    case Ed25519 => "Ed25519"
  }

  /** `SignatureAlgorithm(name)`, which raises `ValueError` for a name no member carries. */
  function ParseAlgorithm(name: string): Result<Algorithm, DecodeError> {
    if name == "HS256" then Ok(HS256)
    else if name == "Ed25519" then Ok(Ed25519)
    else Err(UnknownAlgorithm(name))
  }

  /** Timestamps are whole seconds here; see the README. */
  datatype Token = Token(
    tokenId: string,
    principalSub: string,
    scope: Scope,
    issuedAt: int,
    expiresAt: int,
    issuedBy: string,
    policyId: Option<string>,
    singleUse: bool,
    nonce: Option<string>,
    signature: Option<string>,
    algorithm: Algorithm)

  /** `is_expired(now)`: a token is expired from its `expires_at` instant on. */
  predicate IsExpired(t: Token, now: int) {
    now >= t.expiresAt
  }

  /** Python truthiness of `token.signature`: neither `None` nor the empty string. */
  predicate HasSignature(t: Token) {
    t.signature.Some? && t.signature.value != ""
  }

  // ---------------------------------------------------- to_dict / from_dict

  /** The ten members `to_dict` always writes, in its order, with `scope` given as a JSON value. */
  function FieldMembers(t: Token, scope: Json): seq<(string, Json)> {
    [("token_id", JStr(t.tokenId)),
     ("principal_sub", JStr(t.principalSub)),
     ("scope", scope),
     ("issued_at", JInt(t.issuedAt)),
     ("expires_at", JInt(t.expiresAt)),
     ("issued_by", JStr(t.issuedBy)),
     ("policy_id", OptStrJson(t.policyId)),
     ("single_use", JBool(t.singleUse)),
     ("nonce", OptStrJson(t.nonce)),
     ("algorithm", JStr(AlgorithmName(t.algorithm)))]
  }

  function SignatureMember(sig: Option<string>): seq<(string, Json)> {
    if sig.Some? then [("signature", JStr(sig.value))] else []
  }

  /** `to_dict(include_signature)`: the signature is written only when asked for and truthy. */
  function ToDict(t: Token, includeSignature: bool): seq<(string, Json)> {
    FieldMembers(t, ScopeToDict(t.scope))
      + SignatureMember(if includeSignature && HasSignature(t) then t.signature else None)
  }

  /**
   * `PCCapToken.from_dict`: six keys are required; `single_use` defaults to
   * true, `algorithm` to HS256, the other optional keys to `None`. Errors are
   * reported in the order the source evaluates the keys.
   */
  function FromDict(d: seq<(string, Json)>): Result<Token, DecodeError> {
    var tokenId :- RequiredStr(d, "token_id");
    var principalSub :- RequiredStr(d, "principal_sub");
    var scope :- match Lookup(d, "scope")
      case None => Err(MissingKey("scope"))
      case Some(JObject(ms)) => ScopeFromDict(ms)
      case Some(_) => Err(WrongType("scope"));
    var issuedAt :- RequiredInt(d, "issued_at");
    var expiresAt :- RequiredInt(d, "expires_at");
    var issuedBy :- RequiredStr(d, "issued_by");
    var policyId :- OptionalStr(d, "policy_id");
    var singleUse :- match Lookup(d, "single_use")
      case None => Ok(true)
      case Some(JBool(b)) => Ok(b)
      case Some(_) => Err(WrongType("single_use"));
    var nonce :- OptionalStr(d, "nonce");
    var signature :- OptionalStr(d, "signature");
    var algorithm :- match Lookup(d, "algorithm")
      case None => Ok(HS256)
      case Some(JStr(name)) => ParseAlgorithm(name)
      case Some(_) => Err(WrongType("algorithm"));
    Ok(Token(tokenId, principalSub, scope, issuedAt, expiresAt, issuedBy, policyId, singleUse, nonce, signature, algorithm))
  }

  /** Two dicts that agree on every key `from_dict` reads. */
  predicate SameTokenKeys(d: seq<(string, Json)>, d': seq<(string, Json)>) {
    && Lookup(d, "token_id") == Lookup(d', "token_id")
    && Lookup(d, "principal_sub") == Lookup(d', "principal_sub")
    && Lookup(d, "scope") == Lookup(d', "scope")
    && Lookup(d, "issued_at") == Lookup(d', "issued_at")
    && Lookup(d, "expires_at") == Lookup(d', "expires_at")
    && Lookup(d, "issued_by") == Lookup(d', "issued_by")
    && Lookup(d, "policy_id") == Lookup(d', "policy_id")
    && Lookup(d, "single_use") == Lookup(d', "single_use")
    && Lookup(d, "nonce") == Lookup(d', "nonce")
    && Lookup(d, "signature") == Lookup(d', "signature")
    && Lookup(d, "algorithm") == Lookup(d', "algorithm")
  }

  /** `from_dict` reads the dict only through its eleven keys. */
  lemma FromDictByLookup(d: seq<(string, Json)>, d': seq<(string, Json)>)
    requires SameTokenKeys(d, d')
    ensures FromDict(d) == FromDict(d')
  {
  }

  lemma AlgorithmRoundTrip(a: Algorithm)
    ensures ParseAlgorithm(AlgorithmName(a)) == Ok(a)
  {
  }

  lemma FieldMembersDistinct(t: Token, scope: Json, sig: Option<string>)
    ensures DistinctKeys(FieldMembers(t, scope) + SignatureMember(sig))
  {
  }

  /** Each key of `to_dict`'s output finds its own member. */
  lemma LookupFields(t: Token, scope: Json, sig: Option<string>)
    ensures var d := FieldMembers(t, scope) + SignatureMember(sig);
      && Lookup(d, "token_id") == Some(JStr(t.tokenId))
      && Lookup(d, "principal_sub") == Some(JStr(t.principalSub))
      && Lookup(d, "scope") == Some(scope)
      && Lookup(d, "issued_at") == Some(JInt(t.issuedAt))
      && Lookup(d, "expires_at") == Some(JInt(t.expiresAt))
      && Lookup(d, "issued_by") == Some(JStr(t.issuedBy))
      && Lookup(d, "policy_id") == Some(OptStrJson(t.policyId))
      && Lookup(d, "single_use") == Some(JBool(t.singleUse))
      && Lookup(d, "nonce") == Some(OptStrJson(t.nonce))
      && Lookup(d, "signature") == (if sig.Some? then Some(JStr(sig.value)) else None)
      && Lookup(d, "algorithm") == Some(JStr(AlgorithmName(t.algorithm)))
  {
    var d := FieldMembers(t, scope) + SignatureMember(sig);
    FieldMembersDistinct(t, scope, sig);
    LookupMember(d, 0);
    LookupMember(d, 1);
    LookupMember(d, 2);
    LookupMember(d, 3);
    LookupMember(d, 4);
    LookupMember(d, 5);
    LookupMember(d, 6);
    LookupMember(d, 7);
    LookupMember(d, 8);
    LookupMember(d, 9);
    if sig.Some? {
      LookupMember(d, 10);
    } else {
      LookupAbsent(d, "signature");
    }
  }

  /** Decoding the members `to_dict` writes, whatever the scope's JSON value, as long as that value decodes. */
  lemma DecodeFieldMembers(t: Token, scope: Json, s: Scope, sig: Option<string>)
    requires scope.JObject? && ScopeFromDict(scope.members) == Ok(s)
    ensures FromDict(FieldMembers(t, scope) + SignatureMember(sig)) == Ok(t.(scope := s, signature := sig))
  {
    LookupFields(t, scope, sig);
    AlgorithmRoundTrip(t.algorithm);
  }

  /** `from_dict(to_dict())` gives the token back, except that an empty signature comes back as `None`. */
  lemma TokenRoundTrip(t: Token)
    ensures FromDict(ToDict(t, true)) == Ok(t.(signature := if HasSignature(t) then t.signature else None))
  {
    ScopeRoundTrip(t.scope);
    DecodeFieldMembers(t, ScopeToDict(t.scope), t.scope, if HasSignature(t) then t.signature else None);
  }

  /** Without the signature, the round trip gives the token with no signature. */
  lemma UnsignedRoundTrip(t: Token)
    ensures FromDict(ToDict(t, false)) == Ok(t.(signature := None))
  {
    ScopeRoundTrip(t.scope);
    DecodeFieldMembers(t, ScopeToDict(t.scope), t.scope, None);
  }

  /** A dict with only the six required keys decodes as single-use, HS256, and no policy, nonce or signature. */
  lemma FromDictDefaults(t: Token)
    ensures FromDict(FieldMembers(t, ScopeToDict(t.scope))[..6])
         == Ok(t.(policyId := None, singleUse := true, nonce := None, signature := None, algorithm := HS256))
  {
    var d := FieldMembers(t, ScopeToDict(t.scope))[..6];
    FieldMembersDistinct(t, ScopeToDict(t.scope), None);
    assert DistinctKeys(d);
    LookupMember(d, 0);
    LookupMember(d, 1);
    LookupMember(d, 2);
    LookupMember(d, 3);
    LookupMember(d, 4);
    LookupMember(d, 5);
    LookupAbsent(d, "policy_id");
    LookupAbsent(d, "single_use");
    LookupAbsent(d, "nonce");
    LookupAbsent(d, "signature");
    LookupAbsent(d, "algorithm");
    ScopeRoundTrip(t.scope);
  }

  // ---------------------------------------------------- canonical bytes

  /** The JSON text of `to_dict(include_signature=False)` with sorted keys and compact separators. */
  function CanonicalText(t: Token): string {
    Dumps(JObject(ToDict(t, false)))
  }

  /** `canonical_bytes()`. */
  function CanonicalBytes(t: Token): seq<byte> {
    Utf8Encode(CanonicalText(t))
  }

  /** What a signature covers: everything but the signature, with pinned arguments in key order. */
  function SignedFields(t: Token): Token {
    t.(signature := None, scope := SortedPins(t.scope))
  }

  /** The canonical text is ASCII, so its bytes are its characters' codes. */
  lemma CanonicalBytesAreText(t: Token)
    ensures |CanonicalBytes(t)| == |CanonicalText(t)|
    ensures forall i :: 0 <= i < |CanonicalText(t)| ==> CanonicalBytes(t)[i] == CanonicalText(t)[i] as int
  {
    DumpsAscii(JObject(ToDict(t, false)));
    Utf8OfAscii(CanonicalText(t));
  }

  lemma SortedSameTokenKeys(d: seq<(string, Json)>)
    requires DistinctKeys(d)
    ensures SameTokenKeys(SortByKey(d), d)
  {
    LookupSorted(d, "token_id");
    LookupSorted(d, "principal_sub");
    LookupSorted(d, "scope");
    LookupSorted(d, "issued_at");
    LookupSorted(d, "expires_at");
    LookupSorted(d, "issued_by");
    LookupSorted(d, "policy_id");
    LookupSorted(d, "single_use");
    LookupSorted(d, "nonce");
    LookupSorted(d, "signature");
    LookupSorted(d, "algorithm");
  }

  lemma CanonFieldMembers(t: Token, scope: Json)
    ensures MapValues(Canon, FieldMembers(t, scope)) == FieldMembers(t, Canon(scope))
  {
  }

  /** Reading the canonical text back and decoding it gives exactly the signed fields. */
  lemma SignedTextDecodes(t: Token)
    ensures var parsed := ParseValue(CanonicalText(t));
      && parsed.Some? && parsed.value.1 == [] && parsed.value.0.JObject?
      && FromDict(parsed.value.0.members) == Ok(SignedFields(t))
  {
    var m := ToDict(t, false);
    var scope := ScopeToDict(t.scope);
    assert m == FieldMembers(t, scope);
    ParseDumps(JObject(m), []);
    assert CanonicalText(t) + [] == CanonicalText(t);
    CanonicalObjectText(JObject(m));
    SortCommutes(Canon, m);
    CanonFieldMembers(t, scope);
    var m' := FieldMembers(t, Canon(scope));
    assert Canon(JObject(m)) == JObject(SortByKey(m'));
    FieldMembersDistinct(t, Canon(scope), None);
    assert m' + SignatureMember(None) == m';
    SortedSameTokenKeys(m');
    FromDictByLookup(SortByKey(m'), m');
    DecodeCanonScope(t.scope);
    DecodeFieldMembers(t, Canon(scope), SortedPins(t.scope), None);
  }

  /** The pinned arguments' order does not reach the scope's text. */
  lemma ScopeTextOfSortedPins(s: Scope)
    ensures Dumps(ScopeToDict(SortedPins(s))) == Dumps(ScopeToDict(s))
  {
    var args := MapValues(ScalarJson, s.allowedArgs);
    SortCommutes(ScalarJson, s.allowedArgs);
    DumpsIgnoresMemberOrder(args);
    var s1, s2 := ScopeMembers(s), ScopeMembers(SortedPins(s));
    assert MapValues(Dumps, s1) == MapValues(Dumps, s2);
    DumpsByMembers(s2, s1);
  }

  lemma DumpsFieldMembers(t: Token, scope1: Json, scope2: Json)
    requires Dumps(scope1) == Dumps(scope2)
    ensures MapValues(Dumps, FieldMembers(t, scope1)) == MapValues(Dumps, FieldMembers(t, scope2))
  {
    var p1, p2 := FieldMembers(t, scope1), FieldMembers(t, scope2);
    forall i | 0 <= i < |p1| ensures p1[i].0 == p2[i].0 && Dumps(p1[i].1) == Dumps(p2[i].1) {
    }
    MapValuesPointwise(Dumps, p1, p2);
  }

  /** The pinned arguments' order and the signature do not reach the canonical text. */
  lemma CanonicalTextOfSignedFields(t: Token)
    ensures CanonicalText(SignedFields(t)) == CanonicalText(t)
  {
    var sj1, sj2 := ScopeToDict(t.scope), ScopeToDict(SortedPins(t.scope));
    ScopeTextOfSortedPins(t.scope);
    var m1, m2 := FieldMembers(t, sj1), FieldMembers(t, sj2);
    assert ToDict(t, false) == m1;
    assert ToDict(SignedFields(t), false) == m2;
    DumpsFieldMembers(t, sj1, sj2);
    DumpsByMembers(m1, m2);
  }

  /**
   * Two tokens have the same canonical bytes exactly when they agree on every
   * signed field: the bytes leave out the signature and nothing else.
   */
  lemma CanonicalBytesInjective(t1: Token, t2: Token)
    ensures CanonicalBytes(t1) == CanonicalBytes(t2) <==> SignedFields(t1) == SignedFields(t2)
  {
    if CanonicalBytes(t1) == CanonicalBytes(t2) {
      DumpsAscii(JObject(ToDict(t1, false)));
      DumpsAscii(JObject(ToDict(t2, false)));
      Utf8AsciiInjective(CanonicalText(t1), CanonicalText(t2));
      SignedTextDecodes(t1);
      SignedTextDecodes(t2);
    }
    if SignedFields(t1) == SignedFields(t2) {
      CanonicalTextOfSignedFields(t1);
      CanonicalTextOfSignedFields(t2);
    }
  }
}
