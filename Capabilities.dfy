/**
 * Issuing capabilities (`mint_pccap`, `mint_pccap_fs_delete`) and checking a
 * presented one against a request (`enforce_pccap`,
 * `enforce_pccap_for_fs_delete`). The clock, the working directory and the
 * random bytes behind ids and nonces are parameters.
 */
module Capabilities {
  import opened Wrappers
  import opened Text
  import opened PosixPaths
  import opened Scopes
  import opened Tokens
  import opened Base64
  import opened Keyrings

  /** The requesting identity; only its subject takes part here. */
  datatype Principal = Principal(sub: string)

  /** `ReasonCodePCCap`, and the two plain codes the engine returns beside them. */
  datatype Code =
    | DenyPCCapExpired
    | DenyPCCapScopeMismatch
    | DenyPCCapSignatureInvalid
    | DenyPCCapPrincipalMismatch
    | DenyPCCapReplay
    | AllowPCCapValid
    | DenyNoPCCap
    | DenyPCCapNotFound

  function CodeName(c: Code): string {
    match c
    case DenyPCCapExpired => "DENY_PCCAP_EXPIRED"
    case DenyPCCapScopeMismatch => "DENY_PCCAP_SCOPE_MISMATCH"
    case DenyPCCapSignatureInvalid => "DENY_PCCAP_SIGNATURE_INVALID"
    case DenyPCCapPrincipalMismatch => "DENY_PCCAP_PRINCIPAL_MISMATCH"
    case DenyPCCapReplay => "DENY_PCCAP_REPLAY"
    case AllowPCCapValid => "ALLOW_PCCAP_VALID"
    case DenyNoPCCap => "DENY_NO_PCCAP"
    case DenyPCCapNotFound => "DENY_PCCAP_NOT_FOUND"
  }

  /** The human-readable reason, kept as the data its message is formatted from. */
  datatype Reason =
    | ExpiredAt(tokenId: string, expiresAt: int)
    | InvalidSignature(tokenId: string)
    | IssuedToOther(tokenSub: string, requester: string)
    | OutOfScope(why: ScopeFailure)
    | ValidFor(tokenId: string, toolName: string)
    | AlreadyUsed(tokenId: string)
    | NoValidToken(toolName: string)
    | NotFound(tokenId: string)

  /** The `(allowed, reason, code)` triple. */
  datatype Decision = Decision(allowed: bool, reason: Reason, code: Code)

  // ---------------------------------------------------- identifiers

  /** `generate_token_id()`, given the 12 random bytes it draws. */
  function GenerateTokenId(random: seq<byte>): string {
    "pccap_" + StripPadding(Encode(random))
  }

  /** The nonce `mint_pccap` draws: 12 random bytes in base64 without padding. */
  function Nonce(random: seq<byte>): string {
    StripPadding(Encode(random))
  }

  /** Whole 3-byte groups encode without padding, so `rstrip("=")` keeps everything. */
  lemma UnpaddedText(random: seq<byte>)
    requires |random| % 3 == 0
    ensures Nonce(random) == Encode(random)
    ensures |Nonce(random)| == |random| / 3 * 4
  {
    WholeGroupsUnpadded(random);
    StripPaddingNoop(Encode(random));
  }

  /** Ids start with `pccap_`, have 22 characters, and differ whenever the random bytes do. */
  lemma TokenIdShape(r1: seq<byte>, r2: seq<byte>)
    requires |r1| == 12 && |r2| == 12
    ensures "pccap_" <= GenerateTokenId(r1) && |GenerateTokenId(r1)| == 22
    ensures GenerateTokenId(r1) == GenerateTokenId(r2) ==> r1 == r2
  {
    UnpaddedText(r1);
    UnpaddedText(r2);
    var e1, e2 := Encode(r1), Encode(r2);
    assert GenerateTokenId(r1) == "pccap_" + e1;
    assert GenerateTokenId(r2) == "pccap_" + e2;
    if GenerateTokenId(r1) == GenerateTokenId(r2) {
      assert e1 == GenerateTokenId(r1)[6..];
      EncodeInjective(r1, r2);
    }
  }

  // ---------------------------------------------------- minting

  /** The token `mint_pccap` builds before signing it: issued now, expiring `ttlSeconds` later. */
  function Unsigned(principal: Principal, scope: Scope, issuedBy: string, ttlSeconds: int,
                    policyId: Option<string>, singleUse: bool, tokenId: string, nonce: string, now: int): Token
  {
    Token(tokenId, principal.sub, scope, now, now + ttlSeconds, issuedBy, policyId, singleUse, Some(nonce), None, HS256)
  }

  /** `mint_pccap`: build the token, then set its signature over everything else. */
  function MintPCCap(principal: Principal, scope: Scope, issuedBy: string, k: Keyring, ttlSeconds: int,
                     policyId: Option<string>, singleUse: bool, tokenId: string, nonce: string, now: int): Token
  {
    Signed(k, Unsigned(principal, scope, issuedBy, ttlSeconds, policyId, singleUse, tokenId, nonce, now))
  }

  /** `mint_pccap_fs_delete`: an `fs.delete` scope limited to the normalized prefix. */
  function MintPCCapFsDelete(principal: Principal, pathPrefix: string, issuedBy: string, k: Keyring, ttlSeconds: int,
                             singleUse: bool, tokenId: string, nonce: string, now: int): Token
  {
    MintPCCap(principal, Scope("fs.delete", [], Some(Normpath(pathPrefix)), None), issuedBy, k, ttlSeconds,
              None, singleUse, tokenId, nonce, now)
  }

  /**
   * A minted token carries the request's fields, verifies under the keyring
   * that minted it, survives `to_dict`/`from_dict` unchanged, and is expired
   * from exactly `ttlSeconds` after issue.
   */
  lemma MintedToken(principal: Principal, scope: Scope, issuedBy: string, k: Keyring, ttlSeconds: int,
                    policyId: Option<string>, singleUse: bool, tokenId: string, nonce: string, now: int)
    ensures var t := MintPCCap(principal, scope, issuedBy, k, ttlSeconds, policyId, singleUse, tokenId, nonce, now);
      && t.tokenId == tokenId && t.principalSub == principal.sub && t.scope == scope
      && t.issuedBy == issuedBy && t.policyId == policyId && t.singleUse == singleUse && t.nonce == Some(nonce)
      && Verify(k, t)
      && FromDict(ToDict(t, true)) == Ok(t)
      && (forall later :: IsExpired(t, later) <==> later >= now + ttlSeconds)
  {
    var u := Unsigned(principal, scope, issuedBy, ttlSeconds, policyId, singleUse, tokenId, nonce, now);
    SignedVerifies(k, u);
    TokenRoundTrip(Signed(k, u));
  }

  // ---------------------------------------------------- enforcement

  /**
   * `enforce_pccap` with the clock read as `now`: expiry, then the signature,
   * then the principal, then the scope; the first failing check decides.
   */
  function Enforce(principal: Principal, toolName: string, args: Arguments, token: Token, k: Keyring,
                   now: int, cwd: string): Decision
  {
    if IsExpired(token, now) then Decision(false, ExpiredAt(token.tokenId, token.expiresAt), DenyPCCapExpired)
    else if !Verify(k, token) then Decision(false, InvalidSignature(token.tokenId), DenyPCCapSignatureInvalid)
    else if token.principalSub != principal.sub then
      Decision(false, IssuedToOther(token.principalSub, principal.sub), DenyPCCapPrincipalMismatch)
    else
      match MatchesRequest(token.scope, toolName, args, cwd)
      case Mismatched(why) => Decision(false, OutOfScope(why), DenyPCCapScopeMismatch)
      case Matched => Decision(true, ValidFor(token.tokenId, toolName), AllowPCCapValid)
  }

  /** `enforce_pccap_for_fs_delete`: the request is `fs.delete` with the single argument `path`. */
  function EnforceForFsDelete(principal: Principal, path: string, token: Token, k: Keyring, now: int, cwd: string): Decision {
    Enforce(principal, "fs.delete", map["path" := Str(path)], token, k, now, cwd)
  }

  /** A token is honoured exactly when all four checks pass, and then with the allow code. */
  lemma EnforceAllowsIff(principal: Principal, toolName: string, args: Arguments, token: Token, k: Keyring,
                         now: int, cwd: string)
    ensures var d := Enforce(principal, toolName, args, token, k, now, cwd);
      && (d.allowed <==> !IsExpired(token, now) && token.signature == Some(Sign(k, token))
                         && token.principalSub == principal.sub && MatchesRequest(token.scope, toolName, args, cwd) == Matched)
      && (d.allowed <==> d.code == AllowPCCapValid)
  {
    VerifyCharacterized(k, token);
  }

  /** Each denial code names the first check that fails, in the order expiry, signature, principal, scope. */
  lemma EnforceDenialOrder(principal: Principal, toolName: string, args: Arguments, token: Token, k: Keyring,
                           now: int, cwd: string)
    ensures var code := Enforce(principal, toolName, args, token, k, now, cwd).code;
      && (code == DenyPCCapExpired <==> IsExpired(token, now))
      && (code == DenyPCCapSignatureInvalid <==> !IsExpired(token, now) && !Verify(k, token))
      && (code == DenyPCCapPrincipalMismatch <==>
            !IsExpired(token, now) && Verify(k, token) && token.principalSub != principal.sub)
      && (code == DenyPCCapScopeMismatch <==>
            !IsExpired(token, now) && Verify(k, token) && token.principalSub == principal.sub
            && MatchesRequest(token.scope, toolName, args, cwd).Mismatched?)
  {
  }

  /** Once a token is expired it stays expired, and every later check denies it for that reason first. */
  lemma ExpiryIsFinal(principal: Principal, toolName: string, args: Arguments, token: Token, k: Keyring,
                      now: int, later: int, cwd: string)
    requires IsExpired(token, now) && now <= later
    ensures Enforce(principal, toolName, args, token, k, later, cwd)
         == Decision(false, ExpiredAt(token.tokenId, token.expiresAt), DenyPCCapExpired)
  {
  }

  // ---------------------------------------------------- fs.delete capabilities

  /** The prefix of an `fs.delete` capability minted for a clean absolute prefix. */
  lemma FsDeleteScope(principal: Principal, prefix: seq<string>, issuedBy: string, k: Keyring, ttlSeconds: int,
                      singleUse: bool, tokenId: string, nonce: string, now: int, cwd: string)
    requires CleanComponents(prefix)
    ensures var t := MintPCCapFsDelete(principal, "/" + Join(prefix), issuedBy, k, ttlSeconds, singleUse, tokenId, nonce, now);
      && t.scope == Scope("fs.delete", [], Some("/" + Join(prefix)), None)
      && Verify(k, t)
      && t.principalSub == principal.sub
      && (forall later :: IsExpired(t, later) <==> later >= now + ttlSeconds)
  {
    CanonicalAbsolutePath(prefix, cwd);
    MintedToken(principal, Scope("fs.delete", [], Some("/" + Join(prefix)), None), issuedBy, k, ttlSeconds,
                None, singleUse, tokenId, nonce, now);
  }

  /**
   * Within its lifetime, an `fs.delete` capability lets its principal delete
   * any clean absolute path that extends its prefix by whole components.
   */
  lemma FsDeleteUnderPrefix(principal: Principal, prefix: seq<string>, rest: seq<string>, issuedBy: string,
                            k: Keyring, ttlSeconds: int, singleUse: bool, tokenId: string, nonce: string,
                            now: int, later: int, cwd: string)
    requires CleanComponents(prefix) && CleanComponents(rest)
    requires later < now + ttlSeconds
    ensures var t := MintPCCapFsDelete(principal, "/" + Join(prefix), issuedBy, k, ttlSeconds, singleUse, tokenId, nonce, now);
      EnforceForFsDelete(principal, "/" + Join(prefix + rest), t, k, later, cwd)
        == Decision(true, ValidFor(tokenId, "fs.delete"), AllowPCCapValid)
  {
    FsDeleteScope(principal, prefix, issuedBy, k, ttlSeconds, singleUse, tokenId, nonce, now, cwd);
    ClosedUnderPrefix(prefix, rest, cwd);
    PathOnlyScope("fs.delete", "/" + Join(prefix), "/" + Join(prefix + rest), cwd);
  }

  /** A clean absolute path whose components do not extend the prefix is out of scope. */
  lemma FsDeleteOutsidePrefix(principal: Principal, prefix: seq<string>, requested: seq<string>, issuedBy: string,
                              k: Keyring, ttlSeconds: int, singleUse: bool, tokenId: string, nonce: string,
                              now: int, later: int, cwd: string)
    requires CleanComponents(prefix) && CleanComponents(requested) && !(prefix <= requested)
    requires later < now + ttlSeconds
    ensures var t := MintPCCapFsDelete(principal, "/" + Join(prefix), issuedBy, k, ttlSeconds, singleUse, tokenId, nonce, now);
      EnforceForFsDelete(principal, "/" + Join(requested), t, k, later, cwd)
        == Decision(false, OutOfScope(OutsidePrefix("/" + Join(requested), "/" + Join(prefix))), DenyPCCapScopeMismatch)
  {
    FsDeleteScope(principal, prefix, issuedBy, k, ttlSeconds, singleUse, tokenId, nonce, now, cwd);
    DivergentPathOutside(prefix, requested, cwd);
    PathOnlyScope("fs.delete", "/" + Join(prefix), "/" + Join(requested), cwd);
  }

  /**
   * Whatever the path, the capability is refused once expired (a zero
   * lifetime expires at once), to anyone but its principal, and after its
   * signature is replaced by text of the wrong length such as `"corrupted"`.
   */
  lemma FsDeleteRefusals(principal: Principal, other: Principal, prefix: seq<string>, path: string, issuedBy: string,
                         k: Keyring, ttlSeconds: int, singleUse: bool, tokenId: string, nonce: string,
                         now: int, later: int, cwd: string, corrupted: string)
    requires CleanComponents(prefix)
    requires other.sub != principal.sub
    requires |corrupted| != 44
    ensures var t := MintPCCapFsDelete(principal, "/" + Join(prefix), issuedBy, k, ttlSeconds, singleUse, tokenId, nonce, now);
      && (later >= now + ttlSeconds ==> EnforceForFsDelete(principal, path, t, k, later, cwd).code == DenyPCCapExpired)
      && (later < now + ttlSeconds ==>
            && EnforceForFsDelete(other, path, t, k, later, cwd).code == DenyPCCapPrincipalMismatch
            && EnforceForFsDelete(principal, path, t.(signature := Some(corrupted)), k, later, cwd).code
                 == DenyPCCapSignatureInvalid)
  {
    FsDeleteScope(principal, prefix, issuedBy, k, ttlSeconds, singleUse, tokenId, nonce, now, cwd);
    var t := MintPCCapFsDelete(principal, "/" + Join(prefix), issuedBy, k, ttlSeconds, singleUse, tokenId, nonce, now);
    MisshapenSignatureFails(k, t.(signature := Some(corrupted)));
  }
}
