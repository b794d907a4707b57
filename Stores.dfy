/**
 * `PCCapStore`: issued tokens keyed by id in insertion order, and the set of
 * ids already consumed. The pure functions on `StoreState` say what each
 * operation does; the class holds the state and updates it in place.
 */
module Stores {
  import opened Wrappers
  import opened Tokens

  /** The store's contents: `order` lists the dict's keys in insertion order. */
  datatype StoreState = StoreState(order: seq<string>, tokens: map<string, Token>, used: set<string>)

  predicate Distinct(xs: seq<string>) {
    forall i, j :: 0 <= i < j < |xs| ==> xs[i] != xs[j]
  }

  /**
   * The ids in `order` are the dict's keys, each once, and every token sits
   * under its own id. Consumed ids need not be stored.
   */
  ghost predicate WellFormed(s: StoreState) {
    && Distinct(s.order)
    && (forall id :: id in s.tokens <==> id in s.order)
    && (forall id :: id in s.tokens ==> s.tokens[id].tokenId == id)
  }

  function Empty(): StoreState {
    StoreState([], map[], {})
  }

  /** `store`: a new id goes last; an existing id keeps its place and gets the new token. */
  function Put(s: StoreState, t: Token): StoreState {
    if t.tokenId in s.tokens then s.(tokens := s.tokens[t.tokenId := t])
    else s.(order := s.order + [t.tokenId], tokens := s.tokens[t.tokenId := t])
  }

  /** `get`. */
  function Stored(s: StoreState, id: string): Option<Token> {
    if id in s.tokens then Some(s.tokens[id]) else None
  }

  /** The sequence without the ids in `gone`, in the same order. */
  function Drop(xs: seq<string>, gone: set<string>): (r: seq<string>)
    ensures forall x :: x in r <==> x in xs && x !in gone
  {
    if xs == [] then [] else (if xs[0] in gone then [] else [xs[0]]) + Drop(xs[1..], gone)
  }

  /** `revoke`: removes the token and its used mark; true when there was one. */
  function Remove(s: StoreState, id: string): (StoreState, bool) {
    if id in s.tokens then (StoreState(Drop(s.order, {id}), s.tokens - {id}, s.used - {id}), true)
    else (s, false)
  }

  /** `mark_used`: false, and no change, when the id was already consumed. */
  function Consume(s: StoreState, id: string): (StoreState, bool) {
    if id in s.used then (s, false) else (s.(used := s.used + {id}), true)
  }

  /** `is_used`. */
  predicate Consumed(s: StoreState, id: string) {
    id in s.used
  }

  /** The ids among `ids` whose tokens are expired at `now`, in order. */
  function ExpiredIds(ids: seq<string>, tokens: map<string, Token>, now: int): (r: seq<string>)
    requires forall id :: id in ids ==> id in tokens
    ensures forall id :: id in r <==> id in ids && IsExpired(tokens[id], now)
  {
    if ids == [] then []
    else
      var last := ids[|ids| - 1];
      ExpiredIds(ids[..|ids| - 1], tokens, now) + (if IsExpired(tokens[last], now) then [last] else [])
  }

  function SetOf(xs: seq<string>): set<string> {
    set x | x in xs
  }

  /** `cleanup_expired(now)`: the new state and the number of tokens removed. */
  function Cleanup(s: StoreState, now: int): (StoreState, nat)
    requires WellFormed(s)
  {
    var expired := ExpiredIds(s.order, s.tokens, now);
    var gone := SetOf(expired);
    (StoreState(Drop(s.order, gone), s.tokens - gone, s.used - gone), |expired|)
  }

  /** Whether `t` is listed for principal `sub` at `now`: its principal, unexpired and unconsumed. */
  predicate ActiveFor(s: StoreState, t: Token, sub: string, now: int) {
    t.principalSub == sub && !IsExpired(t, now) && !Consumed(s, t.tokenId)
  }

  /** The tokens stored under `ids`, in that order, that are active for `sub`. */
  function ActiveAmong(s: StoreState, ids: seq<string>, sub: string, now: int): seq<Token>
    requires forall id :: id in ids ==> id in s.tokens
  {
    if ids == [] then []
    else
      var t := s.tokens[ids[|ids| - 1]];
      ActiveAmong(s, ids[..|ids| - 1], sub, now) + (if ActiveFor(s, t, sub, now) then [t] else [])
  }

  /** `list_for_principal(sub)` with the clock read as `now`. */
  function Active(s: StoreState, sub: string, now: int): seq<Token>
    requires WellFormed(s)
  {
    ActiveAmong(s, s.order, sub, now)
  }

  // ---------------------------------------------------- properties

  lemma {:induction false} DropDistinct(xs: seq<string>, gone: set<string>)
    requires Distinct(xs)
    ensures Distinct(Drop(xs, gone))
  {
    if xs != [] {
      DropDistinct(xs[1..], gone);
      var rest := Drop(xs[1..], gone);
      assert xs[0] !in rest;
    }
  }

  lemma {:induction false} DropTwice(xs: seq<string>, a: set<string>, b: set<string>)
    ensures Drop(Drop(xs, a), b) == Drop(xs, a + b)
  {
    if xs != [] {
      DropTwice(xs[1..], a, b);
      var once := Drop(xs, a);
      if xs[0] in a {
        assert once == Drop(xs[1..], a);
      } else {
        assert once == [xs[0]] + Drop(xs[1..], a);
        assert once[0] == xs[0] && once[1..] == Drop(xs[1..], a);
        assert Drop(once, b) == (if xs[0] in b then [] else [xs[0]]) + Drop(once[1..], b);
      }
    }
  }

  lemma {:induction false} DropNothing(xs: seq<string>)
    ensures Drop(xs, {}) == xs
  {
    if xs != [] {
      DropNothing(xs[1..]);
    }
  }

  /** Dropping ids the sequence does not hold leaves it as it is. */
  lemma {:induction false} DropAbsent(xs: seq<string>, gone: set<string>)
    requires forall i :: 0 <= i < |xs| ==> xs[i] !in gone
    ensures Drop(xs, gone) == xs
  {
    if xs != [] {
      DropAbsent(xs[1..], gone);
    }
  }

  lemma SetOfStep(xs: seq<string>, j: nat)
    requires j < |xs|
    ensures SetOf(xs[..j + 1]) == SetOf(xs[..j]) + {xs[j]}
  {
    assert xs[..j + 1] == xs[..j] + [xs[j]];
  }

  lemma {:induction false} DistinctCount(xs: seq<string>)
    requires Distinct(xs)
    ensures |SetOf(xs)| == |xs|
  {
    if xs != [] {
      var init := xs[..|xs| - 1];
      assert Distinct(init);
      DistinctCount(init);
      assert SetOf(xs) == SetOf(init) + {xs[|xs| - 1]};
      assert xs[|xs| - 1] !in SetOf(init);
    }
  }

  lemma {:induction false} ExpiredIdsDistinct(ids: seq<string>, tokens: map<string, Token>, now: int)
    requires forall id :: id in ids ==> id in tokens
    requires Distinct(ids)
    ensures Distinct(ExpiredIds(ids, tokens, now))
  {
    if ids != [] {
      var init := ids[..|ids| - 1];
      assert Distinct(init);
      ExpiredIdsDistinct(init, tokens, now);
      assert ids[|ids| - 1] !in init;
    }
  }

  /** After `store(t)` the token is found under its id; nothing else changes. */
  lemma PutThenGet(s: StoreState, t: Token)
    requires WellFormed(s)
    ensures WellFormed(Put(s, t))
    ensures Stored(Put(s, t), t.tokenId) == Some(t)
    ensures forall id :: id != t.tokenId ==> Stored(Put(s, t), id) == Stored(s, id)
    ensures Put(s, t).used == s.used
    ensures t.tokenId in s.tokens ==> Put(s, t).order == s.order
  {
    var s' := Put(s, t);
    if t.tokenId !in s.tokens {
      assert t.tokenId !in s.order;
      forall i, j | 0 <= i < j < |s'.order| ensures s'.order[i] != s'.order[j] {
        if j == |s.order| {
          assert s.order[i] in s.order;
        }
      }
    }
  }

  /**
   * `revoke(id)` answers true exactly when a token was stored under `id`; after
   * it nothing is stored under `id`, the id is no longer consumed, and every
   * other id keeps its token and its mark.
   */
  lemma RemoveCharacterized(s: StoreState, id: string)
    requires WellFormed(s)
    ensures var (s', removed) := Remove(s, id);
      && WellFormed(s')
      && (removed <==> id in s.tokens)
      && Stored(s', id) == None
      && (removed ==> !Consumed(s', id))
      && (forall other :: other != id ==> Stored(s', other) == Stored(s, other))
      && (forall other :: other != id ==> (Consumed(s', other) <==> Consumed(s, other)))
      && s'.order == Drop(s.order, {id})
      && (!removed ==> s' == s)
  {
    if id in s.tokens {
      DropDistinct(s.order, {id});
    } else {
      DropAbsent(s.order, {id});
    }
  }

  /** The first `mark_used(id)` succeeds and every later one fails. */
  lemma ConsumeOnce(s: StoreState, id: string)
    ensures Consume(s, id).1 <==> !Consumed(s, id)
    ensures Consumed(Consume(s, id).0, id)
    ensures !Consume(Consume(s, id).0, id).1
    ensures Consume(s, id).0.order == s.order && Consume(s, id).0.tokens == s.tokens
  {
  }

  /**
   * `cleanup_expired(now)` keeps exactly the tokens not expired at `now`,
   * unchanged and in their order, drops the consumed marks of the removed ids,
   * and returns how many tokens it removed.
   */
  lemma CleanupCharacterized(s: StoreState, now: int)
    requires WellFormed(s)
    ensures var (s', removed) := Cleanup(s, now);
      && WellFormed(s')
      && (forall id :: id in s'.tokens <==> id in s.tokens && !IsExpired(s.tokens[id], now))
      && (forall id :: id in s'.tokens ==> s'.tokens[id] == s.tokens[id])
      && s'.order == Drop(s.order, set id | id in s.tokens && IsExpired(s.tokens[id], now))
      && (forall id :: id in s'.used <==> id in s.used && !(id in s.tokens && IsExpired(s.tokens[id], now)))
      && removed == |set id | id in s.tokens && IsExpired(s.tokens[id], now)|
  {
    var expired := ExpiredIds(s.order, s.tokens, now);
    ExpiredIdsDistinct(s.order, s.tokens, now);
    DistinctCount(expired);
    assert SetOf(expired) == set id | id in s.tokens && IsExpired(s.tokens[id], now);
    DropDistinct(s.order, SetOf(expired));
  }

  lemma CleanupWellFormed(s: StoreState, now: int)
    requires WellFormed(s)
    ensures WellFormed(Cleanup(s, now).0)
  {
    CleanupCharacterized(s, now);
  }

  /** A second cleanup at the same instant removes nothing. */
  lemma CleanupIdempotent(s: StoreState, now: int)
    requires WellFormed(s)
    ensures WellFormed(Cleanup(s, now).0)
    ensures Cleanup(Cleanup(s, now).0, now).1 == 0
  {
    CleanupCharacterized(s, now);
    var s' := Cleanup(s, now).0;
    CleanupCharacterized(s', now);
    assert (set id | id in s'.tokens && IsExpired(s'.tokens[id], now)) == {};
  }

  lemma {:induction false} ActiveAmongCharacterized(s: StoreState, ids: seq<string>, sub: string, now: int)
    requires WellFormed(s)
    requires forall id :: id in ids ==> id in s.tokens
    ensures forall t :: t in ActiveAmong(s, ids, sub, now) <==>
      t.tokenId in ids && s.tokens[t.tokenId] == t && ActiveFor(s, t, sub, now)
  {
    if ids != [] {
      var init := ids[..|ids| - 1];
      ActiveAmongCharacterized(s, init, sub, now);
      assert forall id :: id in ids <==> id in init || id == ids[|ids| - 1];
    }
  }

  /**
   * `list_for_principal(sub)` lists exactly the stored tokens of `sub` that are
   * neither expired nor consumed.
   */
  lemma ActiveCharacterized(s: StoreState, sub: string, now: int)
    requires WellFormed(s)
    ensures forall t :: t in Active(s, sub, now) <==>
      Stored(s, t.tokenId) == Some(t) && t.principalSub == sub && !IsExpired(t, now) && !Consumed(s, t.tokenId)
  {
    ActiveAmongCharacterized(s, s.order, sub, now);
  }

  /** A store holding one token lists exactly that token for its principal while it is active. */
  lemma ListSoleToken(t: Token, sub: string, now: int)
    ensures WellFormed(Put(Empty(), t))
    ensures Active(Put(Empty(), t), sub, now) == if t.principalSub == sub && !IsExpired(t, now) then [t] else []
  {
    var one := Put(Empty(), t);
    assert one.order == [t.tokenId] && one.tokens[t.tokenId] == t && one.used == {};
    assert one.order[..0] == [];
    assert Active(one, sub, now)
        == ActiveAmong(one, [], sub, now) + (if ActiveFor(one, t, sub, now) then [t] else []);
  }

  // ---------------------------------------------------- the store object

  class PCCapStore {
    var order: seq<string>
    var tokens: map<string, Token>
    var used: set<string>

    function State(): StoreState
      reads this
    {
      StoreState(order, tokens, used)
    }

    ghost predicate Valid()
      reads this
    {
      WellFormed(State())
    }

    constructor()
      ensures Valid() && State() == Empty()
    {
      order, tokens, used := [], map[], {};
    }

    /** `store(token)`. */
    method Store(t: Token)
      requires Valid()
      modifies this
      ensures Valid() && State() == Put(old(State()), t)
    {
      PutThenGet(State(), t);
      if t.tokenId !in tokens {
        order := order + [t.tokenId];
      }
      tokens := tokens[t.tokenId := t];
    }

    /** `get(token_id)`. */
    function Get(id: string): (r: Option<Token>)
      reads this
      ensures r == Stored(State(), id)
    {
      if id in tokens then Some(tokens[id]) else None
    }

    /** `revoke(token_id)`. */
    method Revoke(id: string) returns (removed: bool)
      requires Valid()
      modifies this
      ensures Valid() && (State(), removed) == Remove(old(State()), id)
    {
      RemoveCharacterized(State(), id);
      if id in tokens {
        tokens := tokens - {id};
        used := used - {id};
        order := Drop(order, {id});
        removed := true;
      } else {
        removed := false;
      }
    }

    /** `mark_used(token_id)`. */
    method MarkUsed(id: string) returns (marked: bool)
      requires Valid()
      modifies this
      ensures Valid() && (State(), marked) == Consume(old(State()), id)
    {
      if id in used {
        return false;
      }
      used := used + {id};
      marked := true;
    }

    /** `is_used(token_id)`. */
    predicate IsUsed(id: string)
      reads this
    {
      id in used
    }

    /** The list comprehension in `cleanup_expired`: the expired ids in insertion order. */
    method ExpiredInOrder(now: int) returns (expired: seq<string>)
      requires Valid()
      ensures expired == ExpiredIds(order, tokens, now)
    {
      expired := [];
      var i := 0;
      while i < |order|
        invariant 0 <= i <= |order|
        invariant expired == ExpiredIds(order[..i], tokens, now)
      {
        var tid := order[i];
        if IsExpired(tokens[tid], now) {
          expired := expired + [tid];
        }
        assert order[..i + 1][..i] == order[..i];
        i := i + 1;
      }
      assert order[..i] == order;
    }

    /** The loop in `cleanup_expired` that deletes each listed id and its consumed mark. */
    method DeleteAll(ids: seq<string>)
      modifies this
      ensures State() == StoreState(Drop(old(order), SetOf(ids)), old(tokens) - SetOf(ids), old(used) - SetOf(ids))
    {
      ghost var order0, tokens0, used0 := order, tokens, used;
      DropNothing(order0);
      assert SetOf(ids[..0]) == {};
      var j := 0;
      while j < |ids|
        invariant 0 <= j <= |ids|
        invariant order == Drop(order0, SetOf(ids[..j]))
        invariant tokens == tokens0 - SetOf(ids[..j])
        invariant used == used0 - SetOf(ids[..j])
      {
        var tid := ids[j];
        tokens := tokens - {tid};
        used := used - {tid};
        DropTwice(order0, SetOf(ids[..j]), {tid});
        order := Drop(order, {tid});
        SetOfStep(ids, j);
        j := j + 1;
      }
      assert ids[..j] == ids;
    }

    /** `cleanup_expired(now)`: collect the expired ids, then delete them. */
    method CleanupExpired(now: int) returns (count: nat)
      requires Valid()
      modifies this
      ensures Valid() && (State(), count) == Cleanup(old(State()), now)
    {
      ghost var s0 := State();
      var expired := ExpiredInOrder(now);
      DeleteAll(expired);
      count := |expired|;
      CleanupWellFormed(s0, now);
    }

    /** `list_for_principal(sub)`, with the clock read as `now`. */
    method ListForPrincipal(sub: string, now: int) returns (listed: seq<Token>)
      requires Valid()
      ensures listed == Active(State(), sub, now)
    {
      listed := [];
      var i := 0;
      while i < |order|
        invariant 0 <= i <= |order|
        invariant listed == ActiveAmong(State(), order[..i], sub, now)
      {
        var t := tokens[order[i]];
        if t.principalSub == sub && !IsExpired(t, now) && !IsUsed(t.tokenId) {
          listed := listed + [t];
        }
        assert order[..i + 1][..i] == order[..i];
        i := i + 1;
      }
      assert order[..i] == order;
    }
  }
}
