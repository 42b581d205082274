/** What a press is answered, exactly: by the mint, the rebinds, the wins, the finishes and the clock of
    the run before it, and when a token leaves the store. */
module TokenAnswers {
  import opened Tokens

  // ---- When a token leaves the store ----

  /** How many of the nonces have not expired. */
  function LiveOf(order: seq<Nonce>, tokens: map<Nonce, Token>, now: int): nat {
    if order == [] then 0
    else (if order[0] in tokens && now < tokens[order[0]].expires then 1 else 0) + LiveOf(order[1..], tokens, now)
  }

  lemma {:induction false} LiveConcat(a: seq<Nonce>, b: seq<Nonce>, tokens: map<Nonce, Token>, now: int)
    ensures LiveOf(a + b, tokens, now) == LiveOf(a, tokens, now) + LiveOf(b, tokens, now)
  {
    if a == [] {
      assert a + b == b;
    } else {
      assert (a + b)[0] == a[0] && (a + b)[1..] == a[1..] + b;
      LiveConcat(a[1..], b, tokens, now);
    }
  }

  /** What is left after the expired tokens have gone keeps its order: p live ones stand behind n. */
  lemma {:induction false} LeftOf(order: seq<Nonce>, tokens: map<Nonce, Token>, now: int)
    requires forall n :: n in order ==> n in tokens
    ensures |Filter(order, ExpiredAt(tokens, now))| == LiveOf(order, tokens, now)
  {
    if order != [] {
      var k := |order| - 1;
      var init, last := order[..k], order[k];
      assert order == init + [last];
      LeftOf(init, tokens, now);
      LiveConcat(init, [last], tokens, now);
      assert [last][1..] == [];
    }
  }

  lemma {:induction false} FilterConcat(a: seq<Nonce>, b: seq<Nonce>, drop: set<Nonce>)
    ensures Filter(a + b, drop) == Filter(a, drop) + Filter(b, drop)
  {
    if b == [] {
      assert a + b == a;
    } else {
      var k := |b| - 1;
      assert (a + b)[..|a + b| - 1] == a + b[..k] && (a + b)[|a + b| - 1] == b[k];
      FilterConcat(a, b[..k], drop);
    }
  }

  /** A mint evicts a token exactly when the store is full and the token has expired, or 255 tokens
      that stand behind it have not. */
  lemma {:induction false} EvictedExactly(s: Store, now: int, p: nat)
    requires Valid(s) && p < |s.order|
    ensures s.order[p] !in Evicted(s, now).tokens <==>
            |s.order| >= 256 && (now >= s.tokens[s.order[p]].expires || LiveOf(s.order[p+1..], s.tokens, now) >= 255)
  {
    hide Filter, Distinct;
    var n, drop := s.order[p], ExpiredAt(s.tokens, now);
    var a, b := s.order[..p], s.order[p+1..];
    assert s.order == a + [n] + b;
    FilterConcat(a + [n], b, drop);
    FilterConcat(a, [n], drop);
    FilterOne(n, drop);
    var left := Filter(s.order, drop);
    FilterIs(s.order, drop);
    LeftOf(b, s.tokens, now);
    if |s.order| >= MAX_TOKENS && now < s.tokens[n].expires {
      var front, behind := Filter(a, drop), Filter(b, drop);
      assert left == front + [n] + behind;
      assert left[|front|] == n;
      var kept := if |left| < MAX_TOKENS then left else left[|left| - MAX_TOKENS + 1..];
      InSuffix(left, |front|, |left| - |kept|);
      assert n in kept <==> |behind| < 255;
    }
  }

  lemma {:induction false} InSuffix(order: seq<Nonce>, i: nat, k: nat)
    requires i < |order| && k <= |order| && Distinct(order)
    ensures order[i] in order[k..] <==> i >= k
  {
    if i >= k {
      assert order[k..][i-k] == order[i];
    }
  }

  lemma {:induction false} FilterOne(n: Nonce, drop: set<Nonce>)
    ensures Filter([n], drop) == if n in drop then [] else [n]
  {
    NothingFiltered(drop);
    assert [n][..0] == [];
  }

  /** After the i-th operation a token minted before it is no longer in the store: a press came too
      late, a Cancel won, or a mint evicted it. */
  ghost predicate Removes(ops: seq<Op>, i: nat, n: Nonce)
    requires i < |ops|
  {
    var m := MintOf(ops[..i], n);
    m.Some? && m.value.Mint?
    && match ops[i]
       case Press(k, _, _, _, now, claim) => k == n && (now >= m.value.now + m.value.ttl || (!claim && Wins(ops, i)))
       case Mint(_, _, _, now) => n in After(ops[..i]).tokens && n !in Evicted(After(ops[..i]), now).tokens
       case _ => false
  }

  ghost predicate Gone(ops: seq<Op>, n: Nonce) {
    exists i :: 0 <= i < |ops| && Removes(ops, i, n)
  }

  ghost predicate FinishedBefore(ops: seq<Op>, n: Nonce) {
    exists i :: 0 <= i < |ops| && ops[i].Finish? && ops[i].nonce == n && MintOf(ops[..i], n).Some?
  }

  /** The message a token stays bound to: no rebind counts once it is won or finished. */
  ghost function ScreenOf(ops: seq<Op>, n: Nonce): int
    decreases |ops|
  {
    if ops == [] then 0
    else
      var init, op := ops[..|ops| - 1], ops[|ops| - 1];
      if op.Mint? && op.nonce == n then op.intent.message
      else if op.Rebind? && op.nonce == n && !WonBefore(init, n) && !FinishedBefore(init, n) then op.message
      else ScreenOf(init, n)
  }

  lemma {:induction false} GoneStep(ops: seq<Op>, n: Nonce)
    requires ops != []
    ensures Gone(ops, n) <==> Gone(ops[..|ops| - 1], n) || Removes(ops, |ops| - 1, n)
  {
    hide Removes;
    var init := ops[..|ops| - 1];
    forall i | 0 <= i < |init|
      ensures Removes(init, i, n) <==> Removes(ops, i, n)
    {
      RemovesInPrefix(ops, i, n);
    }
  }

  lemma {:induction false} RemovesInPrefix(ops: seq<Op>, i: nat, n: Nonce)
    requires i < |ops| - 1
    ensures Removes(ops[..|ops| - 1], i, n) <==> Removes(ops, i, n)
  {
    hide MintOf, After, Evicted, CheckOf;
    var init := ops[..|ops| - 1];
    assert init[i] == ops[i] && init[..i] == ops[..i];
  }

  lemma {:induction false} FinishedStep(ops: seq<Op>, n: Nonce)
    requires ops != []
    ensures var init, op := ops[..|ops| - 1], ops[|ops| - 1];
            FinishedBefore(ops, n) <==> FinishedBefore(init, n) || (op.Finish? && op.nonce == n && MintOf(init, n).Some?)
  {
    hide MintOf;
    var init := ops[..|ops| - 1];
    assert forall i :: 0 <= i < |init| ==> init[i] == ops[i] && init[..i] == ops[..i];
  }

  lemma {:induction false} NeverMintedNeverFinished(ops: seq<Op>, n: Nonce)
    requires MintOf(ops, n).None?
    ensures !FinishedBefore(ops, n) && !Gone(ops, n)
    decreases |ops|
  {
    hide Removes;
    if ops != [] {
      NeverMintedNeverFinished(ops[..|ops| - 1], n);
      FinishedStep(ops, n);
      GoneStep(ops, n);
      assert !Removes(ops, |ops| - 1, n) by {
        UnmintedStays(ops, n);
      }
    }
  }

  lemma {:induction false} UnmintedStays(ops: seq<Op>, n: Nonce)
    requires ops != [] && MintOf(ops[..|ops| - 1], n).None?
    ensures !Removes(ops, |ops| - 1, n)
  {
    hide After, Evicted, CheckOf;
  }

  /** What the store knows about a nonce, by the run that led to it. */
  ghost predicate Tells(ops: seq<Op>, n: Nonce) {
    var s, m := After(ops), MintOf(ops, n);
    && (n in s.tokens <==> m.Some? && !Gone(ops, n))
    && (n in s.tokens ==>
          && m.value.Mint?
          && s.tokens[n].intent.actor == m.value.intent.actor && s.tokens[n].intent.chat == m.value.intent.chat
          && s.tokens[n].expires == m.value.now + m.value.ttl
          && s.tokens[n].intent.message == ScreenOf(ops, n)
          && (s.tokens[n].state.Done? <==> FinishedBefore(ops, n))
          && (s.tokens[n].state.Running? <==> WonBefore(ops, n) && !FinishedBefore(ops, n)))
  }

  lemma {:induction false} MintIsMint(ops: seq<Op>, n: Nonce)
    ensures MintOf(ops, n).Some? ==> MintOf(ops, n).value.Mint?
  {
    if ops != [] {
      MintIsMint(ops[..|ops| - 1], n);
    }
  }

  lemma {:induction false} MintTells(ops: seq<Op>, n: Nonce)
    requires NoRepeat(ops) && ops != [] && ops[|ops| - 1].Mint? && Tells(ops[..|ops| - 1], n)
    ensures Tells(ops, n)
  {
    hide Evicted, WonBefore, FinishedBefore, Gone, Valid;
    var init, op := ops[..|ops| - 1], ops[|ops| - 1];
    WonStep(ops, n);
    FinishedStep(ops, n);
    GoneStep(ops, n);
    MintIsMint(init, n);
    EvictedIsValid(After(init), op.now);
    NotMintedBefore(ops, op.nonce);
    NeverMintedNeverWon(init, op.nonce);
    NeverMintedNeverFinished(init, op.nonce);
    assert After(ops) == Minted(After(init), op.nonce, op.intent, op.ttl, op.now);
  }

  lemma {:induction false} PressTells(ops: seq<Op>, n: Nonce)
    requires ops != [] && ops[|ops| - 1].Press? && Tells(ops[..|ops| - 1], n)
    ensures Tells(ops, n)
  {
    hide Evicted, WonBefore, FinishedBefore, Gone, Valid, Filter;
    var init, op := ops[..|ops| - 1], ops[|ops| - 1];
    WonStep(ops, n);
    FinishedStep(ops, n);
    GoneStep(ops, n);
    MintIsMint(init, n);
  }

  lemma {:induction false} OtherTells(ops: seq<Op>, n: Nonce)
    requires ops != [] && (ops[|ops| - 1].Rebind? || ops[|ops| - 1].Finish?) && Tells(ops[..|ops| - 1], n)
    ensures Tells(ops, n)
  {
    hide Evicted, WonBefore, FinishedBefore, Gone, Valid, Filter, CheckOf;
    WonStep(ops, n);
    FinishedStep(ops, n);
    GoneStep(ops, n);
    MintIsMint(ops[..|ops| - 1], n);
  }

  /** Over every run with fresh nonces: a token is in the store exactly when it was minted and nothing
      has removed it, with the terms of its mint; it is done exactly when finished, and running exactly
      when won and not finished. */
  lemma {:induction false} StoreTells(ops: seq<Op>, n: Nonce)
    requires NoRepeat(ops)
    ensures Tells(ops, n)
    decreases |ops|
  {
    hide Tells;
    if ops == [] {
      NothingTold(n);
    } else {
      var init := ops[..|ops| - 1];
      assert NoRepeat(init);
      StoreTells(init, n);
      if ops[|ops| - 1].Mint? {
        MintTells(ops, n);
      } else if ops[|ops| - 1].Press? {
        PressTells(ops, n);
      } else {
        OtherTells(ops, n);
      }
    }
  }

  lemma {:induction false} NothingTold(n: Nonce)
    ensures Tells([], n)
  {
  }

  lemma {:induction false} ScreenIsBound(ops: seq<Op>, n: Nonce)
    requires !WonBefore(ops, n) && !FinishedBefore(ops, n)
    ensures ScreenOf(ops, n) == BoundTo(ops, n)
    decreases |ops|
  {
    hide WonBefore, FinishedBefore;
    if ops != [] {
      WonStep(ops, n);
      FinishedStep(ops, n);
      ScreenIsBound(ops[..|ops| - 1], n);
    }
  }

  // ---- The answers ----

  /** The answer to the i-th operation, a press. */
  function Answer(ops: seq<Op>, i: nat): Check
    requires i < |ops| && ops[i].Press?
  {
    CheckOf(After(ops[..i]), ops[i].nonce, ops[i].actor, ops[i].chat, ops[i].message, ops[i].now)
  }

  /** The press is from the user who asked, in the chat and on the message of the prompt. */
  ghost predicate InPlace(before: seq<Op>, p: Op, m: Op)
    requires p.Press? && m.Mint?
  {
    p.chat == m.intent.chat && p.message == ScreenOf(before, p.nonce) && p.message != 0
  }

  /** Every press of every run with fresh nonces is answered by what the run did before: the token gone
      or never minted, its time over, the wrong place, the wrong user, at work, done, or won. */
  lemma {:induction false} EveryPressIsAnswered(ops: seq<Op>, i: nat)
    requires NoRepeat(ops) && i < |ops| && ops[i].Press?
    ensures var before, p, r := ops[..i], ops[i], Answer(ops, i);
            var n := p.nonce;
            var m := MintOf(before, n);
            if m.None? || Gone(before, n) then r == Stale
            else
              m.value.Mint?
              && r == if p.now >= m.value.now + m.value.ttl then Expired
                      else if !InPlace(before, p, m.value) then Stale
                      else if p.actor != m.value.intent.actor then WrongActor
                      else if FinishedBefore(before, n) then AlreadyDone
                      else if WonBefore(before, n) then NowRunning
                      else Confirmed
  {
    hide After, Gone, WonBefore, FinishedBefore, ScreenOf, MintOf;
    StoreTells(ops[..i], ops[i].nonce);
  }

  /** A press wins if and only if it comes from the user who asked, in the chat of the prompt, on the
      message its screen is in, which must be known, before its time is over, on a token that was
      neither won nor finished nor removed. */
  lemma {:induction false} PressWinsExactly(ops: seq<Op>, i: nat)
    requires NoRepeat(ops) && i < |ops| && ops[i].Press?
    ensures var before, p := ops[..i], ops[i];
            var n := p.nonce;
            var m := MintOf(before, n);
            Wins(ops, i) <==>
              && m.Some? && m.value.Mint? && p.now < m.value.now + m.value.ttl
              && p.actor == m.value.intent.actor && p.chat == m.value.intent.chat
              && p.message == BoundTo(before, n) && p.message != 0
              && !WonBefore(before, n) && !FinishedBefore(before, n) && !Gone(before, n)
  {
    hide After, Gone, WonBefore, FinishedBefore, ScreenOf, MintOf, BoundTo;
    var before, n := ops[..i], ops[i].nonce;
    EveryPressIsAnswered(ops, i);
    MintIsMint(before, n);
    if !WonBefore(before, n) && !FinishedBefore(before, n) {
      ScreenIsBound(before, n);
    }
  }

  // ---- Oldest first ----

  /** Where a nonce was minted, |ops| when nowhere. */
  function MintAt(ops: seq<Op>, n: Nonce): (i: nat)
    ensures i <= |ops| && (i < |ops| ==> ops[i].Mint? && ops[i].nonce == n)
  {
    if ops == [] then 0
    else if MintAt(ops[..|ops| - 1], n) < |ops| - 1 then MintAt(ops[..|ops| - 1], n)
    else if ops[|ops| - 1].Mint? && ops[|ops| - 1].nonce == n then |ops| - 1
    else |ops|
  }

  /** Every nonce of the list was minted, each after the one before it. */
  ghost predicate ByAge(ops: seq<Op>, order: seq<Nonce>) {
    && (forall i :: 0 <= i < |order| ==> MintAt(ops, order[i]) < |ops|)
    && forall i, j :: 0 <= i < j < |order| ==> MintAt(ops, order[i]) < MintAt(ops, order[j])
  }

  lemma {:induction false} FilterKeepsAge(ops: seq<Op>, order: seq<Nonce>, drop: set<Nonce>)
    requires ByAge(ops, order)
    ensures ByAge(ops, Filter(order, drop))
  {
    hide MintAt;
    if order != [] {
      var k := |order| - 1;
      FilterKeepsAge(ops, order[..k], drop);
      FilterIs(order[..k], drop);
      var out := Filter(order[..k], drop);
      forall i | 0 <= i < |out|
        ensures MintAt(ops, out[i]) < MintAt(ops, order[k])
      {
        assert out[i] in order[..k];
      }
    }
  }

  lemma {:induction false} EvictedKeepsAge(ops: seq<Op>, s: Store, now: int)
    requires Valid(s) && ByAge(ops, s.order)
    ensures ByAge(ops, Evicted(s, now).order)
  {
    hide MintAt, Filter;
    FilterKeepsAge(ops, s.order, ExpiredAt(s.tokens, now));
  }

  lemma {:induction false} AgeStays(ops: seq<Op>, order: seq<Nonce>)
    requires ops != [] && ByAge(ops[..|ops| - 1], order)
    ensures ByAge(ops, order)
  {
    forall i | 0 <= i < |order|
      ensures MintAt(ops, order[i]) == MintAt(ops[..|ops| - 1], order[i])
    {
    }
  }

  lemma {:induction false} MintedNow(ops: seq<Op>, n: Nonce)
    requires NoRepeat(ops) && ops != [] && ops[|ops| - 1].Mint? && ops[|ops| - 1].nonce == n
    ensures MintAt(ops, n) == |ops| - 1
  {
    var i := MintAt(ops[..|ops| - 1], n);
    if i < |ops| - 1 {
      assert false;
    }
  }

  /** Over every run with fresh nonces the order list has the oldest token first, so the tokens that
      stand behind another were minted after it. */
  lemma {:induction false} OldestFirst(ops: seq<Op>)
    requires NoRepeat(ops)
    ensures ByAge(ops, After(ops).order)
    decreases |ops|
  {
    hide MintAt, Filter, Evicted, ByAge, Valid, CheckOf, Distinct;
    if ops == [] {
      NobodyIsOld();
    } else {
      var init, op := ops[..|ops| - 1], ops[|ops| - 1];
      var s := After(init);
      OldestFirst(init);
      if op.Mint? && op.nonce !in s.tokens {
        EvictedKeepsAge(init, s, op.now);
        AgeStays(ops, Evicted(s, op.now).order);
        MintedNow(ops, op.nonce);
        NewestLast(ops, Evicted(s, op.now).order, op.nonce, init);
      } else {
        FilterKeepsAge(init, s.order, if op.Press? then {op.nonce} else {});
        AgeStays(ops, s.order);
        AgeStays(ops, Filter(s.order, if op.Press? then {op.nonce} else {}));
      }
    }
  }

  lemma {:induction false} NobodyIsOld()
    ensures ByAge([], After([]).order)
  {
  }

  lemma {:induction false} NewestLast(ops: seq<Op>, order: seq<Nonce>, n: Nonce, init: seq<Op>)
    requires ops != [] && init == ops[..|ops| - 1] && ByAge(init, order) && ByAge(ops, order) && MintAt(ops, n) == |ops| - 1
    ensures ByAge(ops, order + [n])
  {
    forall i | 0 <= i < |order|
      ensures MintAt(ops, order[i]) < |ops| - 1
    {
    }
    hide MintAt;
  }

  /** A Yes button names its token to the process that made it and to no other. */
  lemma {:induction false} YesNamesItsToken(epoch: string, other: string, nonce: Nonce)
    requires |epoch| == 4 && |nonce| == 12
    ensures WellFormed(epoch, epoch + nonce) && (epoch + nonce)[EPOCH_LEN..] == nonce
    ensures |other| == 4 && other != epoch ==> !WellFormed(other, epoch + nonce)
  {
    assert (epoch + nonce)[..4] == epoch;
  }
}
