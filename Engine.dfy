/**
 * `PCCapPolicyEngine`: mints into its store, and answers a request either
 * with a named token or, without one, with the first of the principal's
 * active tokens that the request fits. Single-use tokens are consumed by
 * the first request they allow.
 */
module Engine {
  import opened Wrappers
  import opened Scopes
  import opened Tokens
  import opened Keyrings
  import opened Stores
  import opened Capabilities

  function Replay(t: Token): Decision {
    Decision(false, AlreadyUsed(t.tokenId), DenyPCCapReplay)
  }

  function NoToken(toolName: string): Decision {
    Decision(false, NoValidToken(toolName), DenyNoPCCap)
  }

  /**
   * The loop over the listed tokens when no token is named. The store does
   * not change until the loop returns.
   */
  function AutoScan(ts: seq<Token>, s: StoreState, k: Keyring, principal: Principal, toolName: string,
                    args: Arguments, now: int, cwd: string): (Decision, StoreState)
  {
    if ts == [] then (NoToken(toolName), s)
    else
      var t := ts[0];
      if t.singleUse && Consumed(s, t.tokenId) then AutoScan(ts[1..], s, k, principal, toolName, args, now, cwd)
      else if MatchesRequest(t.scope, toolName, args, cwd).Mismatched? then
        AutoScan(ts[1..], s, k, principal, toolName, args, now, cwd)
      else if t.singleUse && Consumed(s, t.tokenId) then (Replay(t), s)
      else
        var d := Enforce(principal, toolName, args, t, k, now, cwd);
        if !d.allowed then AutoScan(ts[1..], s, k, principal, toolName, args, now, cwd)
        else if !t.singleUse then (d, s)
        else
          var (s', marked) := Consume(s, t.tokenId);
          if !marked then (Replay(t), s') else (d, s')
  }

  /** `evaluate_with_pccap` with the clock read as `now`: the decision and the store afterwards. */
  function Evaluate(s: StoreState, k: Keyring, principal: Principal, toolName: string, args: Arguments,
                    tokenId: Option<string>, now: int, cwd: string): (Decision, StoreState)
    requires WellFormed(s)
  {
    if tokenId.None? || tokenId.value == "" then
      AutoScan(Active(s, principal.sub, now), s, k, principal, toolName, args, now, cwd)
    else
      match Stored(s, tokenId.value)
      case None => (Decision(false, NotFound(tokenId.value), DenyPCCapNotFound), s)
      case Some(t) =>
        if t.singleUse && Consumed(s, t.tokenId) then (Replay(t), s)
        else
          var d := Enforce(principal, toolName, args, t, k, now, cwd);
          if d.allowed && t.singleUse then
            var (s', marked) := Consume(s, t.tokenId);
            if !marked then (Replay(t), s') else (d, s')
          else (d, s)
  }

  // ---------------------------------------------------- properties

  /** All four of `enforce_pccap`'s checks pass for `t`. */
  predicate Honoured(t: Token, k: Keyring, principal: Principal, toolName: string, args: Arguments, now: int, cwd: string) {
    && !IsExpired(t, now)
    && Verify(k, t)
    && t.principalSub == principal.sub
    && MatchesRequest(t.scope, toolName, args, cwd) == Matched
  }

  /** The position of the first element of `xs` that satisfies `p`, if any. */
  function FirstIndex<T>(xs: seq<T>, p: T -> bool): (r: Option<nat>)
    ensures r.Some? ==> r.value < |xs| && p(xs[r.value])
    ensures r.Some? ==> forall j :: 0 <= j < r.value ==> !p(xs[j])
    ensures r.None? ==> forall j :: 0 <= j < |xs| ==> !p(xs[j])
  {
    if xs == [] then None
    else if p(xs[0]) then Some(0)
    else
      match FirstIndex(xs[1..], p)
      case None => None
      case Some(i) => Some(i + 1)
  }

  /** The position of the first token in `ts` that is honoured, if any. */
  function FirstHonoured(ts: seq<Token>, k: Keyring, principal: Principal, toolName: string, args: Arguments,
                         now: int, cwd: string): (r: Option<nat>)
    ensures r.Some? ==> r.value < |ts| && Honoured(ts[r.value], k, principal, toolName, args, now, cwd)
    ensures r.Some? ==> forall j :: 0 <= j < r.value ==> !Honoured(ts[j], k, principal, toolName, args, now, cwd)
    ensures r.None? ==> forall j :: 0 <= j < |ts| ==> !Honoured(ts[j], k, principal, toolName, args, now, cwd)
  {
    FirstIndex(ts, t => Honoured(t, k, principal, toolName, args, now, cwd))
  }

  /** The decision and store after a request that token `t` allows. */
  function Granted(s: StoreState, t: Token, toolName: string): (Decision, StoreState) {
    (Decision(true, ValidFor(t.tokenId, toolName), AllowPCCapValid),
     if t.singleUse then s.(used := s.used + {t.tokenId}) else s)
  }

  lemma EnforceHonoured(t: Token, k: Keyring, principal: Principal, toolName: string, args: Arguments, now: int, cwd: string)
    ensures var d := Enforce(principal, toolName, args, t, k, now, cwd);
      && (d.allowed <==> Honoured(t, k, principal, toolName, args, now, cwd))
      && (d.allowed ==> d == Decision(true, ValidFor(t.tokenId, toolName), AllowPCCapValid))
  {
  }

  /** Over unconsumed tokens, the scan grants the first honoured one, or answers that none fits. */
  lemma {:induction false} AutoScanFindsFirst(ts: seq<Token>, s: StoreState, k: Keyring, principal: Principal,
                                              toolName: string, args: Arguments, now: int, cwd: string)
    requires forall t :: t in ts ==> !Consumed(s, t.tokenId)
    ensures AutoScan(ts, s, k, principal, toolName, args, now, cwd)
         == match FirstHonoured(ts, k, principal, toolName, args, now, cwd)
            case None => (NoToken(toolName), s)
            case Some(i) => Granted(s, ts[i], toolName)
  {
    if ts != [] {
      EnforceHonoured(ts[0], k, principal, toolName, args, now, cwd);
      assert forall t :: t in ts[1..] ==> t in ts;
      AutoScanFindsFirst(ts[1..], s, k, principal, toolName, args, now, cwd);
    }
  }

  /**
   * Without a token id the engine grants the first of the principal's active
   * tokens, in the order they were stored, that all four checks accept, and
   * otherwise answers `DENY_NO_PCCAP`; the replay answers inside the loop
   * cannot occur, since consumed tokens are never listed.
   */
  lemma AutoMode(s: StoreState, k: Keyring, principal: Principal, toolName: string, args: Arguments,
                 tokenId: Option<string>, now: int, cwd: string)
    requires WellFormed(s)
    requires tokenId.None? || tokenId.value == ""
    ensures var listed := Active(s, principal.sub, now);
      Evaluate(s, k, principal, toolName, args, tokenId, now, cwd)
        == match FirstHonoured(listed, k, principal, toolName, args, now, cwd)
           case None => (NoToken(toolName), s)
           case Some(i) => Granted(s, listed[i], toolName)
  {
    ActiveCharacterized(s, principal.sub, now);
    AutoScanFindsFirst(Active(s, principal.sub, now), s, k, principal, toolName, args, now, cwd);
  }

  /**
   * With a token id: an unknown id is not found; a consumed single-use token
   * is a replay; otherwise the token is granted exactly when all four checks
   * pass, and a granted single-use token is consumed.
   */
  lemma NamedMode(s: StoreState, k: Keyring, principal: Principal, toolName: string, args: Arguments,
                  id: string, now: int, cwd: string)
    requires WellFormed(s) && id != ""
    ensures var (d, s') := Evaluate(s, k, principal, toolName, args, Some(id), now, cwd);
      && (id !in s.tokens ==> d == Decision(false, NotFound(id), DenyPCCapNotFound) && s' == s)
      && (id in s.tokens && s.tokens[id].singleUse && Consumed(s, id) ==> d == Replay(s.tokens[id]) && s' == s)
      && (id in s.tokens && !(s.tokens[id].singleUse && Consumed(s, id)) ==>
            if Honoured(s.tokens[id], k, principal, toolName, args, now, cwd) then (d, s') == Granted(s, s.tokens[id], toolName)
            else !d.allowed && s' == s)
  {
    if id in s.tokens {
      EnforceHonoured(s.tokens[id], k, principal, toolName, args, now, cwd);
    }
  }

  /**
   * A request never changes which tokens are stored; a denied one changes
   * nothing, and an allowed one at most consumes the granted single-use token.
   */
  lemma EvaluateConsumesAtMostOne(s: StoreState, k: Keyring, principal: Principal, toolName: string, args: Arguments,
                                  tokenId: Option<string>, now: int, cwd: string)
    requires WellFormed(s)
    ensures var (d, s') := Evaluate(s, k, principal, toolName, args, tokenId, now, cwd);
      && WellFormed(s')
      && s'.order == s.order && s'.tokens == s.tokens
      && (!d.allowed ==> s' == s)
      && (d.allowed ==>
            && d.reason.ValidFor? && d.reason.tokenId in s.tokens
            && s' == if s.tokens[d.reason.tokenId].singleUse then s.(used := s.used + {d.reason.tokenId}) else s)
  {
    if tokenId.None? || tokenId.value == "" {
      AutoMode(s, k, principal, toolName, args, tokenId, now, cwd);
      var listed := Active(s, principal.sub, now);
      ActiveCharacterized(s, principal.sub, now);
      match FirstHonoured(listed, k, principal, toolName, args, now, cwd)
      case None =>
      case Some(i) =>
        assert listed[i] in listed;
        assert Stored(s, listed[i].tokenId) == Some(listed[i]);
    } else {
      NamedMode(s, k, principal, toolName, args, tokenId.value, now, cwd);
    }
  }

  /** After a single-use token allows one request, every later request naming it is a replay. */
  lemma SingleUseReplayDenied(s: StoreState, k: Keyring, principal: Principal, toolName: string, args: Arguments,
                              id: string, now: int, cwd: string,
                              principal2: Principal, toolName2: string, args2: Arguments, now2: int, cwd2: string)
    requires WellFormed(s) && id != "" && id in s.tokens && s.tokens[id].singleUse
    requires Evaluate(s, k, principal, toolName, args, Some(id), now, cwd).0.allowed
    ensures WellFormed(Evaluate(s, k, principal, toolName, args, Some(id), now, cwd).1)
    ensures var s' := Evaluate(s, k, principal, toolName, args, Some(id), now, cwd).1;
      Evaluate(s', k, principal2, toolName2, args2, Some(id), now2, cwd2) == (Replay(s.tokens[id]), s')
  {
    NamedMode(s, k, principal, toolName, args, id, now, cwd);
    var s' := Evaluate(s, k, principal, toolName, args, Some(id), now, cwd).1;
    NamedMode(s', k, principal2, toolName2, args2, id, now2, cwd2);
  }

  /** A multi-use token leaves the store as it was, so repeating a request repeats its answer. */
  lemma MultiUseRepeatable(s: StoreState, k: Keyring, principal: Principal, toolName: string, args: Arguments,
                           id: string, now: int, cwd: string)
    requires WellFormed(s) && id != "" && id in s.tokens && !s.tokens[id].singleUse
    ensures Evaluate(s, k, principal, toolName, args, Some(id), now, cwd).1 == s
  {
    NamedMode(s, k, principal, toolName, args, id, now, cwd);
  }

  /** A stored, freshly minted token allows, when named and within its lifetime, a request its scope fits. */
  lemma MintThenNamed(s: StoreState, k: Keyring, principal: Principal, scope: Scope, issuedBy: string,
                      ttlSeconds: int, policyId: Option<string>, singleUse: bool, tokenId: string, nonce: string,
                      now: int, toolName: string, args: Arguments, later: int, cwd: string)
    requires WellFormed(s) && tokenId != "" && tokenId !in s.used
    requires later < now + ttlSeconds
    requires MatchesRequest(scope, toolName, args, cwd) == Matched
    ensures var t := MintPCCap(principal, scope, issuedBy, k, ttlSeconds, policyId, singleUse, tokenId, nonce, now);
      && WellFormed(Put(s, t))
      && Evaluate(Put(s, t), k, principal, toolName, args, Some(tokenId), later, cwd).0
           == Decision(true, ValidFor(tokenId, toolName), AllowPCCapValid)
  {
    var t := MintPCCap(principal, scope, issuedBy, k, ttlSeconds, policyId, singleUse, tokenId, nonce, now);
    MintedToken(principal, scope, issuedBy, k, ttlSeconds, policyId, singleUse, tokenId, nonce, now);
    PutThenGet(s, t);
    assert Honoured(t, k, principal, toolName, args, later, cwd);
    NamedMode(Put(s, t), k, principal, toolName, args, tokenId, later, cwd);
  }

  /** A token minted for a request its scope fits is honoured for that request within its lifetime. */
  lemma MintedHonoured(k: Keyring, principal: Principal, scope: Scope, issuedBy: string,
                       ttlSeconds: int, policyId: Option<string>, singleUse: bool, tokenId: string, nonce: string,
                       now: int, toolName: string, args: Arguments, later: int, cwd: string)
    requires later < now + ttlSeconds
    requires MatchesRequest(scope, toolName, args, cwd) == Matched
    ensures Honoured(MintPCCap(principal, scope, issuedBy, k, ttlSeconds, policyId, singleUse, tokenId, nonce, now),
                     k, principal, toolName, args, later, cwd)
  {
    MintedToken(principal, scope, issuedBy, k, ttlSeconds, policyId, singleUse, tokenId, nonce, now);
  }

  /** When the principal's only active token is honoured, a request without a token id is granted by it. */
  lemma SoleHonouredGranted(s: StoreState, t: Token, k: Keyring, principal: Principal, toolName: string,
                            args: Arguments, now: int, cwd: string)
    requires WellFormed(s)
    requires Active(s, principal.sub, now) == [t]
    requires Honoured(t, k, principal, toolName, args, now, cwd)
    ensures Evaluate(s, k, principal, toolName, args, None, now, cwd).0
         == Decision(true, ValidFor(t.tokenId, toolName), AllowPCCapValid)
  {
    AutoMode(s, k, principal, toolName, args, None, now, cwd);
  }

  /** With no id given, the engine finds a freshly minted token that is alone in the store. */
  lemma MintThenAuto(k: Keyring, principal: Principal, scope: Scope, issuedBy: string,
                     ttlSeconds: int, policyId: Option<string>, singleUse: bool, tokenId: string, nonce: string,
                     now: int, toolName: string, args: Arguments, later: int, cwd: string)
    requires later < now + ttlSeconds
    requires MatchesRequest(scope, toolName, args, cwd) == Matched
    ensures var t := MintPCCap(principal, scope, issuedBy, k, ttlSeconds, policyId, singleUse, tokenId, nonce, now);
      && WellFormed(Put(Empty(), t))
      && Evaluate(Put(Empty(), t), k, principal, toolName, args, None, later, cwd).0
           == Decision(true, ValidFor(tokenId, toolName), AllowPCCapValid)
  {
    var t := MintPCCap(principal, scope, issuedBy, k, ttlSeconds, policyId, singleUse, tokenId, nonce, now);
    MintedToken(principal, scope, issuedBy, k, ttlSeconds, policyId, singleUse, tokenId, nonce, now);
    MintedHonoured(k, principal, scope, issuedBy, ttlSeconds, policyId, singleUse, tokenId, nonce, now,
                   toolName, args, later, cwd);
    ListSoleToken(t, principal.sub, later);
    SoleHonouredGranted(Put(Empty(), t), t, k, principal, toolName, args, later, cwd);
  }

  /** An empty store answers every request without a token id with `DENY_NO_PCCAP`. */
  lemma EmptyStoreHasNoToken(k: Keyring, principal: Principal, toolName: string, args: Arguments, now: int, cwd: string)
    ensures WellFormed(Empty())
    ensures Evaluate(Empty(), k, principal, toolName, args, None, now, cwd) == (NoToken(toolName), Empty())
  {
  }

  // ---------------------------------------------------- the engine object

  class PCCapPolicyEngine {
    const keyring: Keyring
    const store: PCCapStore

    ghost predicate Valid()
      reads this, store
    {
      store.Valid()
    }

    /** `PCCapPolicyEngine(keyring, store)`: without a store it makes an empty one of its own. */
    constructor(keyring: Keyring, store: Option<PCCapStore>)
      requires store.Some? ==> store.value.Valid()
      ensures Valid() && this.keyring == keyring
      ensures store.Some? ==> this.store == store.value
      ensures store.None? ==> fresh(this.store) && this.store.State() == Empty()
    {
      this.keyring := keyring;
      if store.Some? {
        this.store := store.value;
      } else {
        this.store := new PCCapStore();
      }
    }

    /** `mint`: mint with the engine's keyring and store the token. */
    method Mint(principal: Principal, scope: Scope, issuedBy: string, ttlSeconds: int, policyId: Option<string>,
                singleUse: bool, tokenId: string, nonce: string, now: int) returns (t: Token)
      requires Valid()
      modifies store
      ensures Valid()
      ensures t == MintPCCap(principal, scope, issuedBy, keyring, ttlSeconds, policyId, singleUse, tokenId, nonce, now)
      ensures store.State() == Put(old(store.State()), t)
    {
      t := MintPCCap(principal, scope, issuedBy, keyring, ttlSeconds, policyId, singleUse, tokenId, nonce, now);
      store.Store(t);
    }

    /** `evaluate_with_pccap`. */
    method EvaluateWithPCCap(principal: Principal, toolName: string, args: Arguments, tokenId: Option<string>,
                             now: int, cwd: string) returns (d: Decision)
      requires Valid()
      modifies store
      ensures Valid()
      ensures (d, store.State()) == Evaluate(old(store.State()), keyring, principal, toolName, args, tokenId, now, cwd)
    {
      if tokenId.None? || tokenId.value == "" {
        d := AutoEvaluate(principal, toolName, args, now, cwd);
        return;
      }
      var found := store.Get(tokenId.value);
      if found.None? {
        return Decision(false, NotFound(tokenId.value), DenyPCCapNotFound);
      }
      var token := found.value;
      if token.singleUse && store.IsUsed(token.tokenId) {
        return Replay(token);
      }
      d := Enforce(principal, toolName, args, token, keyring, now, cwd);
      if d.allowed && token.singleUse {
        var marked := store.MarkUsed(token.tokenId);
        if !marked {
          return Replay(token);
        }
      }
    }

    /** The branch of `evaluate_with_pccap` taken when no token id is given. */
    method AutoEvaluate(principal: Principal, toolName: string, args: Arguments, now: int, cwd: string)
      returns (d: Decision)
      requires Valid()
      modifies store
      ensures Valid()
      ensures (d, store.State())
           == AutoScan(Active(old(store.State()), principal.sub, now), old(store.State()), keyring, principal, toolName, args, now, cwd)
    {
      ghost var s0 := store.State();
      var tokens := store.ListForPrincipal(principal.sub, now);
      var i := 0;
      while i < |tokens|
        invariant 0 <= i <= |tokens|
        invariant Valid() && store.State() == s0
        invariant AutoScan(tokens, s0, keyring, principal, toolName, args, now, cwd)
               == AutoScan(tokens[i..], s0, keyring, principal, toolName, args, now, cwd)
      {
        var t := tokens[i];
        assert tokens[i..][0] == t && tokens[i..][1..] == tokens[i + 1..];
        if !(t.singleUse && store.IsUsed(t.tokenId)) {
          var matches := MatchesRequest(t.scope, toolName, args, cwd);
          if matches == Matched {
            if t.singleUse && store.IsUsed(t.tokenId) {
              return Replay(t);
            }
            d := Enforce(principal, toolName, args, t, keyring, now, cwd);
            if d.allowed {
              if t.singleUse {
                var marked := store.MarkUsed(t.tokenId);
                if !marked {
                  return Replay(t);
                }
              }
              return;
            }
          }
        }
        i := i + 1;
      }
      d := NoToken(toolName);
    }

    /** `revoke`. */
    method Revoke(id: string) returns (removed: bool)
      requires Valid()
      modifies store
      ensures Valid() && (store.State(), removed) == Remove(old(store.State()), id)
    {
      removed := store.Revoke(id);
    }

    /** `cleanup`, with the clock read as `now`. */
    method Cleanup(now: int) returns (count: nat)
      requires Valid()
      modifies store
      ensures Valid() && (store.State(), count) == Stores.Cleanup(old(store.State()), now)
    {
      count := store.CleanupExpired(now);
    }
  }
}
