/** Confirm tokens: the bounded store of single-use Yes and Cancel buttons, and what every
    sequence of mints, rebinds, presses and finishes keeps. */
module Tokens {
  import opened RuleModel

  const MAX_TOKENS := 256
  const EPOCH_LEN := 4
  const NONCE_LEN := 12

  type Nonce = string

  datatype Intent = Intent(action: string, target: string, actor: int, chat: int, message: int, final: bool)

  datatype TokenState = Pending | Running | Done

  datatype Token = Token(intent: Intent, expires: int, state: TokenState)

  datatype Check = Confirmed | Stale | Expired | WrongActor | NowRunning | AlreadyDone

  /** tokens by nonce, and the nonces, oldest first. */
  datatype Store = Store(tokens: map<Nonce, Token>, order: seq<Nonce>)

  predicate Distinct(order: seq<Nonce>) {
    forall i, j :: 0 <= i < j < |order| ==> order[i] != order[j]
  }

  /** The map and the order list hold the same nonces, once each, within the bound. */
  ghost predicate Valid(s: Store) {
    && Distinct(s.order)
    && (forall n :: n in s.order <==> n in s.tokens)
    && |s.order| <= MAX_TOKENS
  }

  // ---- The operations on values ----

  /** The order list without the nonces in drop. */
  function Filter(order: seq<Nonce>, drop: set<Nonce>): seq<Nonce> {
    if order == [] then []
    else
      var last := order[|order| - 1];
      Filter(order[..|order| - 1], drop) + (if last in drop then [] else [last])
  }

  function ExpiredAt(tokens: map<Nonce, Token>, now: int): set<Nonce> {
    set n | n in tokens && now >= tokens[n].expires
  }

  function Only(tokens: map<Nonce, Token>, order: seq<Nonce>): map<Nonce, Token> {
    map n | n in tokens && n in order :: tokens[n]
  }

  /** Room for one more: expired tokens go first, then the oldest. */
  function Evicted(s: Store, now: int): Store
    requires Valid(s)
  {
    if |s.order| < MAX_TOKENS then s
    else
      var left := Filter(s.order, ExpiredAt(s.tokens, now));
      var kept := if |left| < MAX_TOKENS then left else left[|left| - MAX_TOKENS + 1..];
      Store(Only(s.tokens, kept), kept)
  }

  function Minted(s: Store, nonce: Nonce, intent: Intent, ttl: int, now: int): Store
    requires Valid(s)
  {
    if nonce in s.tokens then s
    else
      var e := Evicted(s, now);
      Store(e.tokens[nonce := Token(intent, now + ttl, Pending)], e.order + [nonce])
  }

  function Removed(s: Store, nonce: Nonce): Store {
    Store(s.tokens - {nonce}, Filter(s.order, {nonce}))
  }

  function Rebound(s: Store, nonce: Nonce, message: int): Store {
    if nonce in s.tokens && s.tokens[nonce].state.Pending? then
      var t := s.tokens[nonce];
      s.(tokens := s.tokens[nonce := t.(intent := t.intent.(message := message))])
    else s
  }

  /** The checks Claim and Cancel share, in order. */
  function CheckOf(s: Store, nonce: Nonce, actor: int, chat: int, message: int, now: int): Check {
    if nonce !in s.tokens then Stale
    else
      var t := s.tokens[nonce];
      if now >= t.expires then Expired
      else if t.intent.chat != chat || t.intent.message != message || message == 0 then Stale
      else if t.intent.actor != actor then WrongActor
      else if t.state.Running? then NowRunning
      else if t.state.Done? then AlreadyDone
      else Confirmed
  }

  predicate WellFormed(epoch: string, arg: string) {
    |arg| == EPOCH_LEN + NONCE_LEN && arg[..EPOCH_LEN] == epoch
  }

  function Taken(s: Store, nonce: Nonce, check: Check, claim: bool): Store {
    if check.Expired? then Removed(s, nonce)
    else if !check.Confirmed? || nonce !in s.tokens then s
    else if claim then s.(tokens := s.tokens[nonce := s.tokens[nonce].(state := Running)])
    else Removed(s, nonce)
  }

  function Finished(s: Store, nonce: Nonce): Store {
    if nonce in s.tokens then s.(tokens := s.tokens[nonce := s.tokens[nonce].(state := Done)]) else s
  }

  // ---- Keeping the store valid ----

  lemma {:induction false} FilterIs(order: seq<Nonce>, drop: set<Nonce>)
    ensures forall n :: n in Filter(order, drop) <==> n in order && n !in drop
    ensures Distinct(order) ==> Distinct(Filter(order, drop))
    ensures |Filter(order, drop)| <= |order|
  {
    if order != [] {
      var k := |order| - 1;
      FilterIs(order[..k], drop);
      assert order == order[..k] + [order[k]];
      if Distinct(order) {
        assert Distinct(order[..k]);
      }
    }
  }

  lemma {:induction false} NothingFiltered(drop: set<Nonce>)
    ensures Filter([], drop) == []
  {
  }

  lemma {:induction false} FilterSnoc(order: seq<Nonce>, drop: set<Nonce>, i: nat)
    requires i < |order|
    ensures Filter(order[..i + 1], drop) == Filter(order[..i], drop) + (if order[i] in drop then [] else [order[i]])
  {
    assert order[..i + 1][..i] == order[..i];
  }

  lemma {:induction false} SuffixIsPart(order: seq<Nonce>, k: nat)
    requires k <= |order| && Distinct(order)
    ensures Distinct(order[k..]) && forall n :: n in order[k..] ==> n in order
  {
  }

  lemma {:induction false} EvictedIsValid(s: Store, now: int)
    requires Valid(s)
    ensures Valid(Evicted(s, now)) && |Evicted(s, now).order| < MAX_TOKENS
    ensures forall n :: n in Evicted(s, now).tokens ==> n in s.tokens && Evicted(s, now).tokens[n] == s.tokens[n]
  {
    hide Filter, Distinct;
    if |s.order| >= MAX_TOKENS {
      var left := Filter(s.order, ExpiredAt(s.tokens, now));
      FilterIs(s.order, ExpiredAt(s.tokens, now));
      SuffixIsPart(left, if |left| < MAX_TOKENS then 0 else |left| - MAX_TOKENS + 1);
    }
  }

  /** Evicting drops a token that has not expired only when live tokens alone fill the store. */
  lemma {:induction false} LiveTokensGoOnlyWhenFull(s: Store, now: int, n: Nonce)
    requires Valid(s) && n in s.tokens && now < s.tokens[n].expires && n !in Evicted(s, now).tokens
    ensures |Evicted(s, now).order| == MAX_TOKENS - 1
    ensures forall m :: m in Evicted(s, now).order ==> m in s.tokens && now < s.tokens[m].expires
  {
    hide Filter, Distinct;
    var left := Filter(s.order, ExpiredAt(s.tokens, now));
    FilterIs(s.order, ExpiredAt(s.tokens, now));
    SuffixIsPart(left, if |left| < MAX_TOKENS then 0 else |left| - MAX_TOKENS + 1);
  }

  lemma {:induction false} MintedIsValid(s: Store, nonce: Nonce, intent: Intent, ttl: int, now: int)
    requires Valid(s)
    ensures Valid(Minted(s, nonce, intent, ttl, now))
  {
    if nonce !in s.tokens {
      EvictedIsValid(s, now);
    }
  }

  lemma {:induction false} RemovedIsValid(s: Store, nonce: Nonce)
    requires Valid(s)
    ensures Valid(Removed(s, nonce))
  {
    hide Filter, Distinct;
    FilterIs(s.order, {nonce});
  }

  // ---- The store as code ----

  class Book {
    const epoch: string
    var tokens: map<Nonce, Token>
    var order: seq<Nonce>

    constructor (epoch: string)
      ensures this.epoch == epoch && S() == Store(map[], []) && Valid(S())
    {
      this.epoch := epoch;
      tokens, order := map[], [];
    }

    ghost function S(): Store
      reads this
    {
      Store(tokens, order)
    }

    /** evict: t.mu is held. */
    method Evict(now: int)
      requires Valid(S())
      modifies this
      ensures S() == Evicted(old(S()), now) && Valid(S()) && |order| < MAX_TOKENS
    {
      hide Filter, Distinct;
      EvictedIsValid(S(), now);
      if |order| < MAX_TOKENS {
        return;
      }
      var kept := DropExpired(now);
      ghost var left := kept;
      while |kept| >= MAX_TOKENS
        invariant |kept| <= |left| && kept == left[|left| - |kept|..]
        invariant |left| < MAX_TOKENS ==> kept == left
        invariant |left| >= MAX_TOKENS ==> |kept| >= MAX_TOKENS - 1
        decreases |kept|
      {
        kept := kept[1..];
      }
      tokens := Only(tokens, kept);
      order := kept;
    }

    /** The part of evict that deletes expired tokens from the order list. */
    method DropExpired(now: int) returns (left: seq<Nonce>)
      requires forall n :: n in order ==> n in tokens
      ensures left == Filter(order, ExpiredAt(tokens, now))
    {
      hide Filter;
      left := [];
      assert Filter([], ExpiredAt(tokens, now)) == [] by {
        NothingFiltered(ExpiredAt(tokens, now));
      }
      for i := 0 to |order|
        invariant left == Filter(order[..i], ExpiredAt(tokens, now))
      {
        FilterSnoc(order, ExpiredAt(tokens, now), i);
        if now < tokens[order[i]].expires {
          left := left + [order[i]];
        }
      }
      assert order[..|order|] == order;
    }

    /** MintTTL; nonce is None when the random source failed. */
    method MintTTL(nonce: Option<Nonce>, intent: Intent, ttl: int, now: int) returns (minted: bool)
      requires Valid(S())
      modifies this
      ensures Valid(S())
      ensures S() == if nonce.Some? then Minted(old(S()), nonce.value, intent, ttl, now) else old(S())
      ensures minted <==> nonce.Some? && nonce.value !in old(tokens)
    {
      if nonce.None? {
        return false;
      }
      if nonce.value in tokens {
        return false;
      }
      MintedIsValid(S(), nonce.value, intent, ttl, now);
      Evict(now);
      tokens := tokens[nonce.value := Token(intent, now + ttl, Pending)];
      order := order + [nonce.value];
      return true;
    }

    method Remove(nonce: Nonce)
      requires Valid(S())
      modifies this
      ensures S() == Removed(old(S()), nonce) && Valid(S())
    {
      RemovedIsValid(S(), nonce);
      tokens := tokens - {nonce};
      order := Filter(order, {nonce});
    }

    method Rebind(nonce: Nonce, message: int)
      requires Valid(S())
      modifies this`tokens
      ensures S() == Rebound(old(S()), nonce, message) && Valid(S())
    {
      if nonce in tokens && tokens[nonce].state.Pending? {
        var t := tokens[nonce];
        tokens := tokens[nonce := t.(intent := t.intent.(message := message))];
      }
    }

    /** take: the checks, then what winning does: running for Yes, gone for Cancel. */
    method Take(nonce: Nonce, actor: int, chat: int, message: int, now: int, claim: bool) returns (check: Check)
      requires Valid(S())
      modifies this
      ensures check == CheckOf(old(S()), nonce, actor, chat, message, now)
      ensures S() == Taken(old(S()), nonce, check, claim) && Valid(S())
    {
      if nonce !in tokens {
        return Stale;
      }
      var t := tokens[nonce];
      if now >= t.expires {
        Remove(nonce);
        return Expired;
      }
      if t.intent.chat != chat || t.intent.message != message || message == 0 {
        return Stale;
      }
      if t.intent.actor != actor {
        return WrongActor;
      }
      if t.state.Running? {
        return NowRunning;
      }
      if t.state.Done? {
        return AlreadyDone;
      }
      if claim {
        tokens := tokens[nonce := t.(state := Running)];
      } else {
        Remove(nonce);
      }
      return Confirmed;
    }

    /** Claim: a Yes press with the button's "<epoch><nonce>". */
    method Claim(arg: string, actor: int, chat: int, message: int, now: int) returns (check: Check)
      requires Valid(S())
      modifies this
      ensures Valid(S())
      ensures !WellFormed(epoch, arg) ==> check == Stale && S() == old(S())
      ensures WellFormed(epoch, arg) ==>
                && check == CheckOf(old(S()), arg[EPOCH_LEN..], actor, chat, message, now)
                && S() == Taken(old(S()), arg[EPOCH_LEN..], check, true)
    {
      if |arg| != EPOCH_LEN + NONCE_LEN || arg[..EPOCH_LEN] != epoch {
        return Stale;
      }
      check := Take(arg[EPOCH_LEN..], actor, chat, message, now, true);
    }

    /** Cancel: a Cancel press. */
    method Cancel(nonce: Nonce, actor: int, chat: int, message: int, now: int) returns (check: Check)
      requires Valid(S())
      modifies this
      ensures Valid(S())
      ensures |nonce| != NONCE_LEN ==> check == Stale && S() == old(S())
      ensures |nonce| == NONCE_LEN ==>
                && check == CheckOf(old(S()), nonce, actor, chat, message, now)
                && S() == Taken(old(S()), nonce, check, false)
    {
      if |nonce| != NONCE_LEN {
        return Stale;
      }
      check := Take(nonce, actor, chat, message, now, false);
    }

    method Finish(nonce: Nonce)
      requires Valid(S())
      modifies this`tokens
      ensures S() == Finished(old(S()), nonce) && Valid(S())
    {
      if nonce in tokens {
        tokens := tokens[nonce := tokens[nonce].(state := Done)];
      }
    }
  }

  // ---- Whole runs ----

  /** Press is a Yes (claim) or a Cancel that named a well-formed nonce. */
  datatype Op =
    | Mint(nonce: Nonce, intent: Intent, ttl: int, now: int)
    | Rebind(nonce: Nonce, message: int)
    | Press(nonce: Nonce, actor: int, chat: int, message: int, now: int, claim: bool)
    | Finish(nonce: Nonce)

  function Do(s: Store, op: Op): Store
    requires Valid(s)
  {
    match op
    case Mint(n, intent, ttl, now) => Minted(s, n, intent, ttl, now)
    case Rebind(n, message) => Rebound(s, n, message)
    case Press(n, actor, chat, message, now, claim) => Taken(s, n, CheckOf(s, n, actor, chat, message, now), claim)
    case Finish(n) => Finished(s, n)
  }

  function After(ops: seq<Op>): (s: Store)
    ensures Valid(s)
    decreases |ops|
  {
    if ops == [] then Store(map[], [])
    else
      var s := After(ops[..|ops| - 1]);
      DoKeepsValid(s, ops[|ops| - 1]);
      Do(s, ops[|ops| - 1])
  }

  lemma {:induction false} DoKeepsValid(s: Store, op: Op)
    requires Valid(s)
    ensures Valid(Do(s, op))
  {
    match op
    case Mint(n, intent, ttl, now) => MintedIsValid(s, n, intent, ttl, now);
    case Rebind(_, _) =>
    case Press(n, _, _, _, _, _) => RemovedIsValid(s, n);
    case Finish(_) =>
  }

  /** The i-th operation is a press that wins its token. */
  predicate Wins(ops: seq<Op>, i: nat)
    requires i < |ops|
  {
    && ops[i].Press?
    && CheckOf(After(ops[..i]), ops[i].nonce, ops[i].actor, ops[i].chat, ops[i].message, ops[i].now) == Confirmed
  }

  /** Nonces never repeat. */
  predicate NoRepeat(ops: seq<Op>) {
    forall i, j :: 0 <= i < j < |ops| && ops[i].Mint? && ops[j].Mint? ==> ops[i].nonce != ops[j].nonce
  }

  /** The mint of a nonce. */
  function MintOf(ops: seq<Op>, n: Nonce): Option<Op> {
    if ops == [] then None
    else if ops[|ops| - 1].Mint? && ops[|ops| - 1].nonce == n then Some(ops[|ops| - 1])
    else MintOf(ops[..|ops| - 1], n)
  }

  /** The message a nonce's screen is in: that of its last rebind, else of its mint. */
  function BoundTo(ops: seq<Op>, n: Nonce): int {
    if ops == [] then 0
    else
      var op := ops[|ops| - 1];
      if op.Mint? && op.nonce == n then op.intent.message
      else if op.Rebind? && op.nonce == n then op.message
      else BoundTo(ops[..|ops| - 1], n)
  }

  predicate WonBefore(ops: seq<Op>, n: Nonce) {
    exists i :: 0 <= i < |ops| && ops[i].Press? && ops[i].nonce == n && Wins(ops, i)
  }

  /** What the store knows about a nonce is what the run did to it. */
  predicate Faithful(ops: seq<Op>, n: Nonce) {
    var s := After(ops);
    n in s.tokens ==>
      && MintOf(ops, n).Some? && MintOf(ops, n).value.Mint?
      && var m := MintOf(ops, n).value;
         && s.tokens[n].intent.actor == m.intent.actor && s.tokens[n].intent.chat == m.intent.chat
         && s.tokens[n].expires == m.now + m.ttl
         && (s.tokens[n].state.Pending? ==> s.tokens[n].intent.message == BoundTo(ops, n) && !WonBefore(ops, n))
  }

  lemma {:induction false} NoMint(ops: seq<Op>, n: Nonce)
    requires forall i :: 0 <= i < |ops| && ops[i].Mint? ==> ops[i].nonce != n
    ensures MintOf(ops, n).None?
  {
    if ops != [] {
      NoMint(ops[..|ops| - 1], n);
    }
  }

  /** A press wins only over a nonce that was minted. */
  lemma {:induction false} NeverMintedNeverWon(ops: seq<Op>, n: Nonce)
    requires MintOf(ops, n).None?
    ensures n !in After(ops).tokens && !WonBefore(ops, n)
    decreases |ops|
  {
    hide Evicted, Filter, Distinct, Valid;
    if ops != [] {
      var init, op := ops[..|ops| - 1], ops[|ops| - 1];
      NeverMintedNeverWon(init, n);
      if op.Mint? {
        EvictedIsValid(After(init), op.now);
      }
      WonStep(ops, n);
    }
  }

  lemma {:induction false} WonStep(ops: seq<Op>, n: Nonce)
    requires ops != []
    ensures var init, op := ops[..|ops| - 1], ops[|ops| - 1];
            WonBefore(ops, n) <==>
              WonBefore(init, n) || (op.Press? && op.nonce == n
                                     && CheckOf(After(init), n, op.actor, op.chat, op.message, op.now) == Confirmed)
  {
    hide After, CheckOf;
    var init := ops[..|ops| - 1];
    if i :| 0 <= i < |ops| && ops[i].Press? && ops[i].nonce == n && Wins(ops, i) {
      if i < |init| {
        assert init[i] == ops[i] && init[..i] == ops[..i];
        assert Wins(init, i);
      }
    }
    if i :| 0 <= i < |init| && init[i].Press? && init[i].nonce == n && Wins(init, i) {
      assert init[i] == ops[i] && init[..i] == ops[..i];
      assert Wins(ops, i);
    }
    assert ops[..|ops| - 1] == init;
    if ops[|ops| - 1].Press? && ops[|ops| - 1].nonce == n
       && CheckOf(After(init), n, ops[|ops| - 1].actor, ops[|ops| - 1].chat, ops[|ops| - 1].message, ops[|ops| - 1].now) == Confirmed {
      assert Wins(ops, |ops| - 1);
    }
  }

  lemma {:induction false} StoreIsFaithful(ops: seq<Op>, n: Nonce)
    requires NoRepeat(ops)
    ensures Faithful(ops, n)
    decreases |ops|
  {
    hide Evicted, Filter, Distinct, Valid, WonBefore;
    if ops != [] {
      var init, op := ops[..|ops| - 1], ops[|ops| - 1];
      StoreIsFaithful(init, n);
      WonStep(ops, n);
      if op.Mint? {
        EvictedIsValid(After(init), op.now);
        if op.nonce == n {
          NotMintedBefore(ops, n);
          NeverMintedNeverWon(init, n);
        }
      }
    }
  }

  lemma {:induction false} NotMintedBefore(ops: seq<Op>, n: Nonce)
    requires NoRepeat(ops) && ops != [] && ops[|ops| - 1].Mint? && ops[|ops| - 1].nonce == n
    ensures MintOf(ops[..|ops| - 1], n).None?
  {
    var init := ops[..|ops| - 1];
    forall i | 0 <= i < |init| && init[i].Mint?
      ensures init[i].nonce != n
    {
      assert ops[i] == init[i];
    }
    NoMint(init, n);
  }

  /** Over every sequence of operations with fresh nonces, a token is won only by the user who
      asked, in the chat of the prompt, on the message its screen is in (which must be known),
      before it expires, and never again. */
  lemma {:induction false} TokensAreWonOnceByTheirOwner(ops: seq<Op>, i: nat)
    requires NoRepeat(ops) && i < |ops| && Wins(ops, i)
    ensures var before, p := ops[..i], ops[i];
            && MintOf(before, p.nonce).Some? && MintOf(before, p.nonce).value.Mint?
            && var m := MintOf(before, p.nonce).value;
               && m.intent.actor == p.actor && m.intent.chat == p.chat
               && p.message == BoundTo(before, p.nonce) && p.message != 0
               && p.now < m.now + m.ttl
    ensures forall j :: 0 <= j < |ops| && j != i && ops[j].Press? && ops[j].nonce == ops[i].nonce ==> !Wins(ops, j)
  {
    hide After, WonBefore;
    var before, n := ops[..i], ops[i].nonce;
    StoreIsFaithful(before, n);
    forall j | 0 <= j < |ops| && j != i && ops[j].Press? && ops[j].nonce == n
      ensures !Wins(ops, j)
    {
      if Wins(ops, j) {
        var a, b := if i < j then i else j, if i < j then j else i;
        StoreIsFaithful(ops[..b], n);
        WonInPrefix(ops, a, b);
        assert false;
      }
    }
  }

  lemma {:induction false} WonInPrefix(ops: seq<Op>, a: nat, b: nat)
    requires a < b < |ops| && Wins(ops, a)
    ensures WonBefore(ops[..b], ops[a].nonce)
  {
    hide After;
    var p := ops[..b];
    assert p[a] == ops[a] && p[..a] == ops[..a];
    assert Wins(p, a);
  }

  /** Over every sequence of operations the map and the order list hold the same nonces,
      without duplicates, at most MAX_TOKENS of them. */
  lemma {:induction false} StoreStaysBounded(ops: seq<Op>)
    ensures Valid(After(ops)) && |After(ops).tokens| <= 256
  {
    var s := After(ops);
    SizeOfOrder(s.order, s.tokens.Keys);
  }

  lemma {:induction false} SizeOfOrder(order: seq<Nonce>, keys: set<Nonce>)
    requires Distinct(order) && forall n :: n in order <==> n in keys
    ensures |keys| == |order|
  {
    if order != [] {
      var rest := order[1..];
      assert forall n :: n in rest <==> n in keys - {order[0]};
      SizeOfOrder(rest, keys - {order[0]});
    } else {
      assert keys == {};
    }
  }
}
