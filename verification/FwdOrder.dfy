/** When the order of a zone's lists matters to the answer on a port, which the zone's hash cannot
    tell: the exact condition, for every zone and query. */
module FwdOrder {
  import opened RuleModel
  import opened RuleSpecs
  import opened FwdRich
  import opened FwdZone
  import opened FwdStages

  /** x is foremost in the stage that decides: negative priorities, or positive ones when nothing
      before them is live. */
  ghost predicate Decisive(z: Zone, x: Rich, q: Query) {
    && Foremost(z, x, q)
    && (x.prio < 0 || (x.prio > 0 && !Lists(z, q) && forall y :: Live(z, y, q) ==> y.prio > 0))
  }

  /** The foremost rules of the deciding stage say the same. */
  ghost predicate Agreed(z: Zone, q: Query) {
    forall x, y :: Decisive(z, x, q) && Decisive(z, y, q) ==> (x.r.action.Admits() <==> y.r.action.Admits())
  }

  /** Then the staged evaluation has one answer. */
  lemma {:induction false} StagedHasOneAnswer(z: Zone, q: Query, s: PortState, t: PortState)
    requires Agreed(z, q) && Staged(z, q, s) && Staged(z, q, t)
    ensures s == t
  {
    hide Live, Lists, Foremost;
    assert forall x :: Foremost(z, x, q) ==> Live(z, x, q) by {
      forall x | Foremost(z, x, q)
        ensures Live(z, x, q)
      {
        ForemostIsLive(z, x, q);
      }
    }
    if exists x :: Live(z, x, q) && x.prio < 0 {
      OneAnswerOnSide(z, q, s, t, true);
    } else if !(exists x :: Live(z, x, q) && x.prio == 0) && !Lists(z, q) && exists x :: Live(z, x, q) && x.prio > 0 {
      OneAnswerOnSide(z, q, s, t, false);
    }
  }

  lemma {:induction false} ForemostIsLive(z: Zone, x: Rich, q: Query)
    requires Foremost(z, x, q)
    ensures Live(z, x, q)
  {
    hide Live;
  }

  lemma {:induction false} OneAnswerOnSide(z: Zone, q: Query, s: PortState, t: PortState, early: bool)
    requires Agreed(z, q)
    requires !early ==> !Lists(z, q) && forall y :: Live(z, y, q) ==> y.prio > 0
    requires exists x :: Foremost(z, x, q) && (if early then x.prio < 0 else x.prio > 0) && s == StateOf(x.r.action)
    requires exists x :: Foremost(z, x, q) && (if early then x.prio < 0 else x.prio > 0) && t == StateOf(x.r.action)
    ensures s == t
  {
    hide Live, Lists, Foremost;
    var x :| Foremost(z, x, q) && (if early then x.prio < 0 else x.prio > 0) && s == StateOf(x.r.action);
    var y :| Foremost(z, y, q) && (if early then y.prio < 0 else y.prio > 0) && t == StateOf(y.r.action);
    assert Decisive(z, x, q) && Decisive(z, y, q);
  }

  /** The lists hold the same entries, in whatever order and however often. */
  ghost predicate SameSets(a: Zone, b: Zone) {
    && a.target == b.target && a.svcPorts == b.svcPorts
    && (forall p :: p in a.ports <==> p in b.ports)
    && (forall p :: p in a.protocols <==> p in b.protocols)
    && (forall s :: s in a.services <==> s in b.services)
    && (forall w :: w in a.rich <==> w in b.rich)
  }

  lemma {:induction false} SameSetsSameLive(a: Zone, b: Zone, q: Query)
    requires SameSets(a, b)
    ensures forall x :: Has(a, x) <==> Has(b, x)
    ensures forall x :: Live(a, x, q) <==> Live(b, x, q)
    ensures Lists(a, q) <==> Lists(b, q)
  {
    hide ParseRich, EntryCovers, Reaches, RowCovers;
    forall x
      ensures Has(a, x) <==> Has(b, x)
    {
      if i :| 0 <= i < |a.rich| && ParseRich(a.rich[i]) == Some(x) {
        assert a.rich[i] in b.rich;
      }
      if i :| 0 <= i < |b.rich| && ParseRich(b.rich[i]) == Some(x) {
        assert b.rich[i] in a.rich;
      }
    }
    if Lists(a, q) {
      ListsOneWay(a, b, q);
    }
    if Lists(b, q) {
      ListsOneWay(b, a, q);
    }
  }

  lemma {:induction false} ListsOneWay(a: Zone, b: Zone, q: Query)
    requires SameSets(a, b) && Lists(a, q)
    ensures Lists(b, q)
  {
    hide EntryCovers, TcpProto;
    if i :| 0 <= i < |a.ports| && a.ports[i].Ported? && EntryCovers(a.ports[i], q.port) {
      assert a.ports[i] in b.ports;
    } else if i :| 0 <= i < |a.protocols| && TcpProto(a.protocols[i]) {
      assert a.protocols[i] in b.protocols;
    } else {
      var i :| 0 <= i < |a.services| && Offers(a, a.services[i], q.port);
      assert Offers(b, a.services[i], q.port);
      assert a.services[i] in b.services;
    }
  }

  lemma {:induction false} SameLiveSameStages(a: Zone, b: Zone, q: Query, s: PortState)
    requires (forall x :: Live(a, x, q) <==> Live(b, x, q)) && (Lists(a, q) <==> Lists(b, q))
    requires Staged(b, q, s)
    ensures Staged(a, q, s)
  {
    hide Live, Lists;
    assert forall x :: Foremost(a, x, q) <==> Foremost(b, x, q);
  }

  /** The lists are the same in another order, each entry named as often: what the zone's hash sees
      of them. */
  ghost predicate SameLists(a: Zone, b: Zone) {
    && a.target == b.target && a.svcPorts == b.svcPorts
    && multiset(a.services) == multiset(b.services) && multiset(a.ports) == multiset(b.ports)
    && multiset(a.protocols) == multiset(b.protocols) && multiset(a.sourcePorts) == multiset(b.sourcePorts)
    && multiset(a.rich) == multiset(b.rich)
  }

  lemma {:induction false} SameListsSameSets(a: Zone, b: Zone)
    requires SameLists(a, b)
    ensures SameSets(a, b)
  {
    assert forall p :: p in a.ports <==> p in multiset(a.ports);
    assert forall p :: p in b.ports <==> p in multiset(b.ports);
    assert forall p :: p in a.protocols <==> p in multiset(a.protocols);
    assert forall p :: p in b.protocols <==> p in multiset(b.protocols);
    assert forall s :: s in a.services <==> s in multiset(a.services);
    assert forall s :: s in b.services <==> s in multiset(b.services);
    assert forall w :: w in a.rich <==> w in multiset(a.rich);
    assert forall w :: w in b.rich <==> w in multiset(b.rich);
  }

  /** Whatever the order of the lists, the answer is one. */
  ghost predicate OrderFree(z: Zone, q: Query) {
    forall b :: SameLists(z, b) ==> VerdictOn(b, q).state == VerdictOn(z, q).state
  }

  /** When the foremost rules agree, not even naming an entry more often changes the answer. */
  lemma {:induction false} AgreedIsOrderFree(z: Zone, b: Zone, q: Query)
    requires SameSets(z, b) && Agreed(z, q)
    ensures VerdictOn(b, q).state == VerdictOn(z, q).state
  {
    hide Live, Lists, Has, VerdictOn, Staged, Agreed;
    SameSetsSameLive(z, b, q);
    StagedEvaluation(z, q);
    StagedEvaluation(b, q);
    SameLiveSameStages(z, b, q, VerdictOn(b, q).state);
    StagedHasOneAnswer(z, q, VerdictOn(z, q).state, VerdictOn(b, q).state);
  }

  // ---- The entry that decides, by the order of the lists ----

  lemma {:induction false} FirstOfConcat(a: seq<Entry>, b: seq<Entry>, q: Query)
    ensures FirstOf(a + b, q) == if FirstOf(a, q).Some? then FirstOf(a, q) else FirstOf(b, q)
  {
    hide EntryHits;
    if a == [] {
      assert a + b == b;
    } else {
      assert (a + b)[1..] == a[1..] + b;
      FirstOfConcat(a[1..], b, q);
    }
  }

  lemma {:induction false} FirstOfRanked(es: seq<Entry>, q: Query)
    requires FirstOf(es, q).Some?
    ensures var e := FirstOf(es, q).value; FirstOf(Ranked(es, e.group, e.prio), q) == Some(e)
  {
    hide EntryHits;
    var e := FirstOf(es, q).value;
    var rest := Ranked(es[1..], e.group, e.prio);
    assert [] + rest == rest && ([es[0]] + rest)[1..] == rest;
    if !EntryHits(es[0], q) {
      FirstOfRanked(es[1..], q);
    }
  }

  lemma {:induction false} RankedConcat(a: seq<Entry>, b: seq<Entry>, g: Group, prio: int)
    ensures Ranked(a + b, g, prio) == Ranked(a, g, prio) + Ranked(b, g, prio)
  {
    if a == [] {
      assert a + b == b;
    } else {
      assert (a + b)[1..] == a[1..] + b;
      RankedConcat(a[1..], b, g, prio);
    }
  }

  lemma {:induction false} RankedAll(es: seq<Entry>, g: Group, prio: int)
    requires forall e :: e in es ==> e.group == g && e.prio == prio
    ensures Ranked(es, g, prio) == es
  {
    if es != [] {
      RankedAll(es[1..], g, prio);
    }
  }

  lemma {:induction false} RankedNone(es: seq<Entry>, g: Group, prio: int)
    requires forall e :: e in es ==> e.group != g
    ensures Ranked(es, g, prio) == []
  {
    if es != [] {
      RankedNone(es[1..], g, prio);
    }
  }

  /** The verdict's action is that of the zone's first entry hit among those of the least group and
      priority hit. */
  lemma {:induction false} ListedFirstDecides(z: Zone, q: Query) returns (e: Entry)
    requires Lists(z, q) || exists x :: Live(z, x, q)
    ensures IsFirst(StableSort(Entries(z)), e, q) && VerdictOn(z, q).state == StateOf(e.r.action)
    ensures FirstOf(Ranked(Entries(z), e.group, e.prio), q) == Some(e)
  {
    hide EntryHits, Entries, StableSort, IsFirst, VerdictOn, Lists, Live, Ranked, FirstOf;
    var es := StableSort(Entries(z));
    StableSortSorts(Entries(z));
    SomethingHit(z, q);
    VerdictOfFirst(z, q);
    e := FirstOf(es, q).value;
    FirstOfRanked(es, q);
  }

  /** The zone with a rich rule before all the others. */
  function Raised(z: Zone, w: seq<RichWord>): Zone {
    z.(rich := [w] + z.rich)
  }

  function Without(z: Zone, i: nat): Zone
    requires i < |z.rich|
  {
    z.(rich := z.rich[..i] + z.rich[i+1..])
  }

  /** The zone with one of its own rich rules moved before all the others. */
  function Moved(z: Zone, i: nat): Zone
    requires i < |z.rich|
  {
    Raised(Without(z, i), z.rich[i])
  }

  lemma {:induction false} MovedSameLists(z: Zone, i: nat)
    requires i < |z.rich|
    ensures SameLists(z, Moved(z, i))
  {
    var before, after, w := z.rich[..i], z.rich[i+1..], z.rich[i];
    assert z.rich == before + ([w] + after);
    assert Moved(z, i).rich == [w] + (before + after);
  }

  /** The entries of one rank of a raised zone: the raised rule's come first. */
  lemma {:induction false} RaisedRanked(z: Zone, w: seq<RichWord>, x: Rich, q: Query)
    requires ParseRich(w) == Some(x) && x.prio != 0
    ensures exists rest :: Ranked(Entries(Raised(z, w)), GroupOf(x), x.prio) == RichEntries(z, w) + rest
  {
    hide ParseRich, RichEntries, PortEntries, ProtocolEntries, ServiceEntries, SourcePortEntries;
    var b, g := Raised(z, w), GroupOf(x);
    var lists := Flat(PortEntries, b.ports) + Flat(ProtocolEntries, b.protocols)
                 + Flat(s => ServiceEntries(b, s), b.services) + Flat(SourcePortEntries, b.sourcePorts);
    var f := u => RichEntries(b, u);
    var mine, others := RichEntries(z, w), Flat(f, z.rich);
    SameRichEntries(z, b, w);
    assert b.rich[0] == w && b.rich[1..] == z.rich;
    assert Flat(f, b.rich) == mine + others;
    assert Entries(b) == lists + (mine + others);
    hide Flat;
    ListEntriesHit(b, q);
    RichEntriesHit(z, w, x, q);
    RankedNone(lists, g, x.prio);
    RankedAll(mine, g, x.prio);
    RankedConcat(mine, others, g, x.prio);
    RankedConcat(lists, mine + others, g, x.prio);
    assert [] + (mine + Ranked(others, g, x.prio)) == mine + Ranked(others, g, x.prio);
  }

  lemma {:induction false} SameRichEntries(a: Zone, b: Zone, w: seq<RichWord>)
    requires a.svcPorts == b.svcPorts
    ensures RichEntries(a, w) == RichEntries(b, w)
  {
    hide ParseRich, MergeAll;
  }

  /** The rank of the entry that decides, when x is decisive. */
  lemma {:induction false} DecisiveRank(z: Zone, x: Rich, q: Query, e: Entry)
    requires Decisive(z, x, q) && IsFirst(StableSort(Entries(z)), e, q)
    ensures e.group == GroupOf(x) && e.prio == x.prio
  {
    hide Lists, Live, IsFirst, Entries, StableSort;
    FirstIsFirst(z, e, q);
  }

  lemma {:induction false} DecisiveCarries(a: Zone, b: Zone, x: Rich, q: Query)
    requires SameSets(a, b) && Decisive(a, x, q)
    ensures Decisive(b, x, q)
  {
    hide Lists, Live, SameSets;
    SameSetsSameLive(a, b, q);
  }

  /** A decisive rule that is moved before the others decides; one that is listed first already
      does so as it stands. */
  lemma {:induction false} MovedDecides(z: Zone, i: nat, x: Rich, q: Query)
    requires i < |z.rich| && ParseRich(z.rich[i]) == Some(x) && Decisive(z, x, q)
    ensures SameLists(z, Moved(z, i)) && VerdictOn(Moved(z, i), q).state == StateOf(x.r.action)
    ensures i == 0 ==> VerdictOn(z, q).state == StateOf(x.r.action)
  {
    hide Lists, Entries, StableSort, VerdictOn, EntryHits, IsFirst, Ranked, FirstOf, RichEntries, ParseRich, SameLists, SameSets, Hits,
      Raised;
    var b, w := Moved(z, i), z.rich[i];
    MovedSameLists(z, i);
    SameListsSameSets(z, b);
    DecisiveCarries(z, b, x, q);
    var e := ListedFirstDecides(b, q);
    DecisiveRank(b, x, q, e);
    RaisedRanked(Without(z, i), w, x, q);
    SameRichEntries(z, Without(z, i), w);
    var mine := RichEntries(z, w);
    var rest :| Ranked(Entries(b), GroupOf(x), x.prio) == mine + rest;
    RichEntriesHit(z, w, x, q);
    FirstOfHits(mine, q);
    FirstOfConcat(mine, rest, q);
    if i == 0 {
      FirstStays(z);
    }
  }

  lemma {:induction false} FirstStays(z: Zone)
    requires z.rich != []
    ensures Moved(z, 0) == z
  {
    assert [z.rich[0]] + (z.rich[..0] + z.rich[1..]) == z.rich;
  }

  /** For every zone and query: the order of the zone's lists, which its hash does not see, does not
      matter to the answer if and only if the foremost rules of the deciding stage agree. */
  lemma {:induction false} OrderMattersExactly(z: Zone, q: Query)
    ensures OrderFree(z, q) <==> Agreed(z, q)
  {
    hide Decisive, VerdictOn, SameLists, SameSets;
    if Agreed(z, q) {
      forall b | SameLists(z, b)
        ensures VerdictOn(b, q).state == VerdictOn(z, q).state
      {
        SameListsSameSets(z, b);
        AgreedIsOrderFree(z, b, q);
      }
    }
    if OrderFree(z, q) {
      forall x, y | Decisive(z, x, q) && Decisive(z, y, q)
        ensures x.r.action.Admits() <==> y.r.action.Admits()
      {
        var a := BothAnswers(z, q, x);
        var b := BothAnswers(z, q, y);
      }
    }
  }

  /** Every decisive rule decides for some order of the lists. */
  lemma {:induction false} BothAnswers(z: Zone, q: Query, x: Rich) returns (b: Zone)
    requires Decisive(z, x, q)
    ensures SameLists(z, b) && VerdictOn(b, q).state == StateOf(x.r.action)
  {
    hide ParseRich, Hits, VerdictOn, SameLists, Lists;
    var i :| 0 <= i < |z.rich| && ParseRich(z.rich[i]) == Some(x);
    MovedDecides(z, i, x, q);
    b := Moved(z, i);
  }

  /** Two zones whose lists are the same as sets answer alike when the foremost rules of one agree. */
  lemma {:induction false} OrderDoesNotMatter(a: Zone, b: Zone, q: Query)
    requires SameSets(a, b) && Agreed(a, q)
    ensures VerdictOn(a, q).state == VerdictOn(b, q).state
    ensures Reachable(VerdictOn(a, q)) <==> Reachable(VerdictOn(b, q))
  {
    hide Agreed, ZoneStatus, Verdict;
    AgreedIsOrderFree(a, b, q);
    SamePolicy(a, b, q);
  }

  lemma {:induction false} SamePolicy(a: Zone, b: Zone, q: Query)
    requires a.target == b.target
    ensures VerdictOn(a, q).policy == VerdictOn(b, q).policy
  {
    hide Entries, StableSort, RowsOf, Verdict;
    VerdictStateAndRule(ZoneStatus(a).rules, ZoneStatus(a).policy, q.port, q.v6, q.peer);
    VerdictStateAndRule(ZoneStatus(b).rules, ZoneStatus(b).policy, q.port, q.v6, q.peer);
  }

  /** Deciding rules of one non-zero priority agree, as they do when those priorities are
      distinct. */
  ghost predicate Settled(z: Zone) {
    forall x, y :: Has(z, x) && Has(z, y) && x.decides && y.decides && x.prio == y.prio && x.prio != 0 ==>
      (x.r.action.Admits() <==> y.r.action.Admits())
  }

  /** Distinct priorities settle every query. */
  lemma {:induction false} SettledIsAgreed(z: Zone, q: Query)
    requires Settled(z)
    ensures Agreed(z, q)
  {
    hide Has, Lists, Offers, Reaches, RowCovers;
  }

  // ---- Two rules of one priority ----

  function Plain(prio: int, action: string): seq<RichWord> {
    [Bare("rule"), Pair("priority", Num(prio)), Bare(action)]
  }

  function Everything(prio: int, action: Action): Rich {
    Rich(NO_RULE.(action := action), Both, prio, "", true, false)
  }

  lemma {:induction false} PlainReads(prio: int, action: Action)
    requires prio != 0 && (action.Allow? || action.Deny?)
    ensures ParseRich(Plain(prio, FwdRich.ActionText(action))) == Some(Everything(prio, action))
  {
    hide ReadWords;
    var words := Plain(prio, FwdRich.ActionText(action));
    var p := Pair("priority", Num(prio));
    assert words[1..] == [p] + [ActionBare(action)];
    ReadOne(RICH_START, p, [ActionBare(action)]);
    ReadAction(RICH_START.(x := RICH_START.x.(prio := prio)), action);
  }

  /** ... and disagreeing rules of one priority unsettle it: wherever they are foremost, one order
      of the same lists opens the port and another closes it. */
  lemma {:induction false} UnsettledOrderMatters(z: Zone, q: Query, x: Rich, y: Rich) returns (a: Zone, b: Zone)
    requires Decisive(z, x, q) && Decisive(z, y, q) && x.r.action.Admits() && !y.r.action.Admits()
    ensures SameLists(z, a) && SameLists(z, b) && VerdictOn(a, q).state == Open && VerdictOn(b, q).state == Closed
  {
    hide Decisive, VerdictOn, SameLists;
    a := BothAnswers(z, q, x);
    b := BothAnswers(z, q, y);
  }

  /** Such a zone: two rules for everyone, of any one negative priority. */
  lemma {:induction false} TwoRulesDisagree(z: Zone, prio: int, q: Query)
    requires prio < 0 && z.rich == [Plain(prio, FwdRich.ActionText(Allow)), Plain(prio, FwdRich.ActionText(Deny))]
    ensures Decisive(z, Everything(prio, Allow), q) && Decisive(z, Everything(prio, Deny), q)
  {
    hide ParseRich, Lists;
    PlainReads(prio, Allow);
    PlainReads(prio, Deny);
    assert ParseRich(z.rich[0]) == Some(Everything(prio, Allow)) && ParseRich(z.rich[1]) == Some(Everything(prio, Deny));
    assert Hits(z, Everything(prio, Allow), q) && Hits(z, Everything(prio, Deny), q);
    assert forall y :: Has(z, y) ==> y.prio == prio;
  }
}
