/** firewalld's staged evaluation of a zone, stated on the zone's own lists, and that the verdict
    on the rows the zone is listed as computes it. */
module FwdStages {
  import opened RuleModel
  import opened RuleSpecs
  import opened Simulation
  import opened FwdRich
  import opened FwdZone
  import Effects

  /** One TCP port, one family, one peer (None: an arbitrary host). */
  datatype Query = Query(port: int, v6: bool, peer: Option<Addr>)

  function VerdictOn(z: Zone, q: Query): PortVerdict {
    Verdict(ZoneStatus(z).rules, ZoneStatus(z).policy, q.port, q.v6, q.peer)
  }

  // ---- The reference ----

  /** The rule is certain to concern the peer. */
  predicate Reaches(r: Rule, q: Query) {
    && r.dir.In? && r.iface == "" && r.dst.None? && !r.partial && !r.unresolved
    && (r.from.Some? ==> q.peer.Some? && r.from.value.Contains(q.peer.value))
  }

  /** The service is known and one of its ports is this one. */
  ghost predicate Offers(z: Zone, svc: string, port: int) {
    svc in z.svcPorts && exists i :: 0 <= i < |z.svcPorts[svc]| && EntryCovers(z.svcPorts[svc][i], port)
  }

  ghost predicate Hits(z: Zone, x: Rich, q: Query) {
    && x.decides && Listed(x.fam, q.v6) && Reaches(x.r, q)
    && (if x.service != "" then Offers(z, x.service, q.port) else RowCovers(x.r, q.port))
  }

  /** The zone lists a rich rule that reads as x. */
  ghost predicate Has(z: Zone, x: Rich) {
    exists i :: 0 <= i < |z.rich| && ParseRich(z.rich[i]) == Some(x)
  }

  /** A port, a whole protocol or a service of the zone opens the port. */
  ghost predicate Lists(z: Zone, q: Query) {
    || (exists i :: 0 <= i < |z.ports| && z.ports[i].Ported? && EntryCovers(z.ports[i], q.port))
    || (exists i :: 0 <= i < |z.protocols| && TcpProto(z.protocols[i]))
    || (exists i :: 0 <= i < |z.services| && Offers(z, z.services[i], q.port))
  }

  ghost predicate Live(z: Zone, x: Rich, q: Query) {
    Has(z, x) && Hits(z, x, q)
  }

  /** x is hit, and no rule of its side of zero comes before it. */
  ghost predicate Foremost(z: Zone, x: Rich, q: Query) {
    && Live(z, x, q)
    && forall y :: Live(z, y, q) && y.prio != 0 && (y.prio < 0 <==> x.prio < 0) ==> x.prio <= y.prio
  }

  /** Negative priorities in order, then any refusing rule, then anything that opens the port,
      then positive priorities in order; nothing of these leaves it to the target. */
  ghost predicate Staged(z: Zone, q: Query, s: PortState) {
    if exists x :: Live(z, x, q) && x.prio < 0 then
      exists x :: Foremost(z, x, q) && x.prio < 0 && s == StateOf(x.r.action)
    else if exists x :: Live(z, x, q) && x.prio == 0 && !x.r.action.Admits() then s == Closed
    else if Lists(z, q) || exists x :: Live(z, x, q) && x.prio == 0 then s == Open
    else if exists x :: Live(z, x, q) && x.prio > 0 then
      exists x :: Foremost(z, x, q) && x.prio > 0 && s == StateOf(x.r.action)
    else s == Unmanaged
  }

  // ---- The first entry of the sorted list ----

  predicate EntryHits(e: Entry, q: Query) {
    Listed(e.fam, q.v6) && Reaches(e.r, q) && RowCovers(e.r, q.port)
  }

  lemma {:induction false} RowHits(e: Entry, q: Query)
    ensures RoleOf(RowFor(e, q.v6), q.port, q.v6, q.peer).Decides? <==> Reaches(e.r, q) && RowCovers(e.r, q.port)
  {
    hide RowRaw;
  }

  /** e is hit and nothing that is hit comes before it. */
  ghost predicate IsFirst(es: seq<Entry>, e: Entry, q: Query) {
    e in es && EntryHits(e, q) && forall o :: o in es && EntryHits(o, q) ==> Leq(e, o)
  }

  lemma {:induction false} HeadIsFirst(es: seq<Entry>, q: Query)
    requires Sorted(es) && es != [] && EntryHits(es[0], q)
    ensures IsFirst(es, es[0], q)
  {
    hide EntryHits;
    forall o | o in es && EntryHits(o, q)
      ensures Leq(es[0], o)
    {
      var k :| 0 <= k < |es| && es[k] == o;
    }
  }

  lemma {:induction false} FirstOfRest(es: seq<Entry>, q: Query)
    requires es != [] && !EntryHits(es[0], q)
    ensures forall e :: IsFirst(es[1..], e, q) ==> IsFirst(es, e, q)
    ensures (exists e :: e in es && EntryHits(e, q)) <==> exists e :: e in es[1..] && EntryHits(e, q)
  {
    hide EntryHits, Leq;
    assert forall e :: e in es && EntryHits(e, q) ==> e in es[1..];
    assert forall e :: e in es[1..] ==> e in es;
  }

  lemma {:induction false} HitIs(e: Entry, q: Query)
    ensures EntryHits(e, q) <==> Listed(e.fam, q.v6) && Reaches(e.r, q) && RowCovers(e.r, q.port)
  {
  }

  lemma {:induction false} RowKeepsAction(e: Entry, six: bool)
    ensures RowFor(e, six).action == e.r.action
  {
  }

  /** The rows of the other family decide nothing. */
  lemma {:induction false} OtherFamilyIsMute(es: seq<Entry>, q: Query)
    ensures forall r :: r in RowsOf(es, !q.v6) ==> !RoleOf(r, q.port, q.v6, q.peer).Decides?
  {
    hide RowRaw;
    if es != [] {
      OtherFamilyIsMute(es[1..], q);
    }
  }

  /** The first entry hit. */
  function FirstOf(es: seq<Entry>, q: Query): Option<Entry> {
    if es == [] then None else if EntryHits(es[0], q) then Some(es[0]) else FirstOf(es[1..], q)
  }

  lemma {:induction false} FirstOfHits(es: seq<Entry>, q: Query)
    ensures FirstOf(es, q).Some? ==> FirstOf(es, q).value in es && EntryHits(FirstOf(es, q).value, q)
    ensures (exists e :: e in es && EntryHits(e, q)) ==> FirstOf(es, q).Some?
  {
    hide EntryHits;
    if es != [] {
      FirstOfHits(es[1..], q);
      assert forall e :: e in es ==> e == es[0] || e in es[1..];
    }
  }

  lemma {:induction false} FirstOfSorted(es: seq<Entry>, q: Query)
    requires Sorted(es) && FirstOf(es, q).Some?
    ensures IsFirst(es, FirstOf(es, q).value, q)
  {
    hide EntryHits, Leq;
    if EntryHits(es[0], q) {
      HeadIsFirst(es, q);
    } else {
      FirstOfSorted(es[1..], q);
      FirstOfRest(es, q);
    }
  }

  /** The verdict's state is that of the first entry hit in the sorted list. */
  lemma {:induction false} FirstOfDecides(es: seq<Entry>, q: Query, policy: string)
    ensures var v := Verdict(RowsOf(es, q.v6), policy, q.port, q.v6, q.peer);
            v.rule.Some? == FirstOf(es, q).Some? && (v.rule.Some? ==> v.rule.value.action == FirstOf(es, q).value.r.action)
  {
    hide RowFor, EntryHits, RoleOf;
    if es != [] {
      var rest := es[1..];
      FirstOfDecides(rest, q, policy);
      RowHits(es[0], q);
      HitIs(es[0], q);
      RowKeepsAction(es[0], q.v6);
      var rows := RowsOf(es, q.v6);
      assert Listed(es[0].fam, q.v6) ==> rows[0] == RowFor(es[0], q.v6) && rows[1..] == RowsOf(rest, q.v6);
      assert !Listed(es[0].fam, q.v6) ==> rows == RowsOf(rest, q.v6);
    }
  }

  /** The zone's state is that of the rows of the one family. */
  lemma {:induction false} StateOfZone(z: Zone, q: Query)
    ensures VerdictOn(z, q).state == Verdict(RowsOf(StableSort(Entries(z)), q.v6), Policy(z.target), q.port, q.v6, q.peer).state
  {
    hide RowsOf, Entries, StableSort, Verdict, RoleOf;
    var es, policy := StableSort(Entries(z)), Policy(z.target);
    var v4, v6 := RowsOf(es, false), RowsOf(es, true);
    var mine, other := RowsOf(es, q.v6), RowsOf(es, !q.v6);
    OtherFamilyIsMute(es, q);
    NoDecider(other, policy, q.port, q.v6, q.peer);
    VerdictOfConcat(v4, v6, policy, q.port, q.v6, q.peer);
    VerdictStateAndRule(other, policy, q.port, q.v6, q.peer);
    VerdictStateAndRule(mine, policy, q.port, q.v6, q.peer);
    VerdictStateAndRule(v4 + v6, policy, q.port, q.v6, q.peer);
    assert Effects.SameRules(Renumber(v4 + v6), v4 + v6);
    Effects.SameRulesSameState(Renumber(v4 + v6), v4 + v6, policy, q.port, q.v6, q.peer);
  }

  /** The state of the zone's verdict is that of the first entry hit. */
  lemma {:induction false} VerdictOfFirst(z: Zone, q: Query)
    ensures var es := StableSort(Entries(z));
            if exists e :: e in es && EntryHits(e, q)
            then FirstOf(es, q).Some? && IsFirst(es, FirstOf(es, q).value, q)
                 && VerdictOn(z, q).state == StateOf(FirstOf(es, q).value.r.action)
            else VerdictOn(z, q).state == Unmanaged
  {
    hide EntryHits, RowsOf, Entries, StableSort, IsFirst, Verdict, FirstOf, VerdictOn;
    var es, policy := StableSort(Entries(z)), Policy(z.target);
    StableSortSorts(Entries(z));
    FirstOfHits(es, q);
    if FirstOf(es, q).Some? {
      FirstOfSorted(es, q);
    }
    FirstOfDecides(es, q, policy);
    StateOfZone(z, q);
    VerdictStateAndRule(RowsOf(es, q.v6), policy, q.port, q.v6, q.peer);
  }

  // ---- Entries and the lists they come from ----

  lemma {:induction false} MergedRowsAlike(z: Zone, base: Rule, svc: string, q: Query)
    requires svc in z.svcPorts
    ensures var rows := ServiceRows(z, base, svc);
            forall i :: 0 <= i < |rows| ==> rows[i].action == base.action && (Reaches(rows[i], q) <==> Reaches(base, q))
  {
    var b := base.(app := svc);
    var m := MergeAll(b, Merge([], map[]), z.svcPorts[svc]);
    forall i | 0 <= i < |m.rows|
      ensures m.rows[i].action == base.action && (Reaches(m.rows[i], q) <==> Reaches(base, q))
    {
      assert m.rows[i] == b.(proto := m.rows[i].proto, ports := m.rows[i].ports);
    }
  }

  /** The rows a service is listed as open a port exactly when the service does. */
  lemma {:induction false} ServiceRowsHit(z: Zone, base: Rule, svc: string, q: Query)
    ensures var rows := ServiceRows(z, base, svc);
            && (forall i :: 0 <= i < |rows| ==> rows[i].action == base.action)
            && ((exists i :: 0 <= i < |rows| && Reaches(rows[i], q) && RowCovers(rows[i], q.port)) <==>
                Reaches(base, q) && Offers(z, svc, q.port))
  {
    hide RowCovers, EntryCovers, MergeAll, Reaches;
    var rows := ServiceRows(z, base, svc);
    if svc in z.svcPorts {
      MergedRowsAlike(z, base, svc, q);
      MergeCovers(base.(app := svc), Merge([], map[]), z.svcPorts[svc], q.port);
      assert SomeCovers(rows, q.port) <==> Offers(z, svc, q.port);
    } else {
      UnresolvedReachesNobody(rows[0], q);
    }
  }

  lemma {:induction false} UnresolvedReachesNobody(r: Rule, q: Query)
    requires r.unresolved
    ensures !Reaches(r, q)
  {
  }

  ghost predicate FromRich(z: Zone, x: Rich, e: Entry) {
    Has(z, x) && e.group == GroupOf(x) && e.prio == x.prio && e.r.action == x.r.action
  }

  /** One rich rule: its entries are hit exactly when it is. */
  lemma {:induction false} RichEntriesHit(z: Zone, words: seq<RichWord>, x: Rich, q: Query)
    requires ParseRich(words) == Some(x)
    ensures forall e :: e in RichEntries(z, words) ==> e.group == GroupOf(x) && e.prio == x.prio && e.r.action == x.r.action
    ensures (exists e :: e in RichEntries(z, words) && EntryHits(e, q)) <==> Hits(z, x, q)
  {
    hide ParseRich, ServiceRows, Reaches, RowCovers, Listed, Offers, GroupOf;
    var es := RichEntries(z, words);
    ServiceRowsHit(z, x.r, x.service, q);
    if x.decides {
      var rows := if x.service != "" then ServiceRows(z, x.r, x.service) else [x.r];
      assert forall i :: 0 <= i < |es| ==> es[i] == Entry(rows[i], x.fam, GroupOf(x), x.prio, "rich rule");
      if Hits(z, x, q) {
        var i :| 0 <= i < |rows| && Reaches(rows[i], q) && RowCovers(rows[i], q.port);
        assert EntryHits(es[i], q);
      }
    }
  }

  /** Every entry that opens a port is of the zone's lists: its ports, protocols and services. */
  lemma {:induction false} ListEntriesHit(z: Zone, q: Query)
    ensures var es := Flat(PortEntries, z.ports) + Flat(ProtocolEntries, z.protocols)
                      + Flat(s => ServiceEntries(z, s), z.services) + Flat(SourcePortEntries, z.sourcePorts);
            && (forall e :: e in es ==> e.group == Accept && e.prio == 0 && e.r.action == Allow)
            && ((exists e :: e in es && EntryHits(e, q)) <==> Lists(z, q))
  {
    hide Offers, Flat;
    PortsHit(z, q);
    ProtocolsHit(z, q);
    ServicesHit(z, q);
    SourcePortsMute(z, q);
  }

  lemma {:induction false} PortsHit(z: Zone, q: Query)
    ensures var es := Flat(PortEntries, z.ports);
            && (forall e :: e in es ==> e.group == Accept && e.prio == 0 && e.r.action == Allow)
            && ((exists e :: e in es && EntryHits(e, q)) <==>
                exists i :: 0 <= i < |z.ports| && z.ports[i].Ported? && EntryCovers(z.ports[i], q.port))
  {
    hide Flat;
    var es := Flat(PortEntries, z.ports);
    forall e | e in es
      ensures e.group == Accept && e.prio == 0 && e.r.action == Allow
      ensures EntryHits(e, q) ==> exists i :: 0 <= i < |z.ports| && z.ports[i].Ported? && EntryCovers(z.ports[i], q.port)
    {
      FlatHas(PortEntries, z.ports, e);
      var i :| 0 <= i < |z.ports| && e in PortEntries(z.ports[i]);
      PortHits(z.ports[i], e, q);
    }
    if i :| 0 <= i < |z.ports| && z.ports[i].Ported? && EntryCovers(z.ports[i], q.port) {
      var e := PortEntries(z.ports[i])[0];
      PortHits(z.ports[i], e, q);
      FlatHas(PortEntries, z.ports, e);
    }
  }

  lemma {:induction false} PortHits(p: PortEntry, e: Entry, q: Query)
    requires e in PortEntries(p)
    ensures p.Ported? && e.group == Accept && e.prio == 0 && e.r.action == Allow
    ensures EntryHits(e, q) <==> EntryCovers(p, q.port)
  {
    assert e.r.ports[0] == p.r;
  }

  lemma {:induction false} ProtocolsHit(z: Zone, q: Query)
    ensures var es := Flat(ProtocolEntries, z.protocols);
            && (forall e :: e in es ==> e.group == Accept && e.prio == 0 && e.r.action == Allow)
            && ((exists e :: e in es && EntryHits(e, q)) <==> exists i :: 0 <= i < |z.protocols| && TcpProto(z.protocols[i]))
  {
    hide Flat;
    var es := Flat(ProtocolEntries, z.protocols);
    forall e | e in es
      ensures e.group == Accept && e.prio == 0 && e.r.action == Allow
      ensures EntryHits(e, q) ==> exists i :: 0 <= i < |z.protocols| && TcpProto(z.protocols[i])
    {
      FlatHas(ProtocolEntries, z.protocols, e);
      var i :| 0 <= i < |z.protocols| && e in ProtocolEntries(z.protocols[i]);
      assert e == ProtocolEntries(z.protocols[i])[0];
    }
    if i :| 0 <= i < |z.protocols| && TcpProto(z.protocols[i]) {
      var e := ProtocolEntries(z.protocols[i])[0];
      assert EntryHits(e, q);
      FlatHas(ProtocolEntries, z.protocols, e);
    }
  }

  lemma {:induction false} ServicesHit(z: Zone, q: Query)
    ensures var es := Flat(s => ServiceEntries(z, s), z.services);
            && (forall e :: e in es ==> e.group == Accept && e.prio == 0 && e.r.action == Allow)
            && ((exists e :: e in es && EntryHits(e, q)) <==> exists i :: 0 <= i < |z.services| && Offers(z, z.services[i], q.port))
  {
    hide Flat, ServiceRows, Offers, EntryHits;
    var f := s => ServiceEntries(z, s);
    var es := Flat(f, z.services);
    forall e | e in es
      ensures e.group == Accept && e.prio == 0 && e.r.action == Allow
      ensures EntryHits(e, q) ==> exists i :: 0 <= i < |z.services| && Offers(z, z.services[i], q.port)
    {
      FlatHas(f, z.services, e);
      var i :| 0 <= i < |z.services| && e in f(z.services[i]);
      ServiceHits(z, z.services[i], q);
    }
    if i :| 0 <= i < |z.services| && Offers(z, z.services[i], q.port) {
      ServiceHits(z, z.services[i], q);
      var e :| e in ServiceEntries(z, z.services[i]) && EntryHits(e, q);
      assert e in f(z.services[i]);
      FlatHas(f, z.services, e);
    }
  }

  lemma {:induction false} ServiceHits(z: Zone, s: string, q: Query)
    ensures forall e :: e in ServiceEntries(z, s) ==> e.group == Accept && e.prio == 0 && e.r.action == Allow
    ensures (exists e :: e in ServiceEntries(z, s) && EntryHits(e, q)) <==> Offers(z, s, q.port)
  {
    hide ServiceRows, RowCovers, Offers;
    var es, rows := ServiceEntries(z, s), ServiceRows(z, NO_RULE, s);
    ServiceRowsHit(z, NO_RULE, s, q);
    assert forall i :: 0 <= i < |es| ==> es[i] == Opened(NO_RULE, "service").(r := rows[i]);
    if i :| 0 <= i < |rows| && Reaches(rows[i], q) && RowCovers(rows[i], q.port) {
      assert EntryHits(es[i], q);
    }
  }

  lemma {:induction false} SourcePortsMute(z: Zone, q: Query)
    ensures forall e :: e in Flat(SourcePortEntries, z.sourcePorts) ==>
              e.group == Accept && e.prio == 0 && e.r.action == Allow && !EntryHits(e, q)
  {
    hide Flat;
    forall e | e in Flat(SourcePortEntries, z.sourcePorts)
      ensures e.group == Accept && e.prio == 0 && e.r.action == Allow && !EntryHits(e, q)
    {
      FlatHas(SourcePortEntries, z.sourcePorts, e);
      var i :| 0 <= i < |z.sourcePorts| && e in SourcePortEntries(z.sourcePorts[i]);
      assert e == SourcePortEntries(z.sourcePorts[i])[0];
    }
  }

  /** An entry that is hit stands for the zone's lists or for a live rich rule. */
  lemma {:induction false} EntryStandsFor(z: Zone, e: Entry, q: Query)
    requires e in Entries(z) && EntryHits(e, q)
    ensures || (Lists(z, q) && e.group == Accept && e.prio == 0 && e.r.action == Allow)
            || exists x :: Live(z, x, q) && FromRich(z, x, e)
  {
    hide EntryHits, Flat, Lists, Hits, ParseRich;
    ListEntriesHit(z, q);
    var f := w => RichEntries(z, w);
    if e in Flat(f, z.rich) {
      FlatHas(f, z.rich, e);
      var i :| 0 <= i < |z.rich| && e in f(z.rich[i]);
      var x := ParseRich(z.rich[i]).value;
      RichEntriesHit(z, z.rich[i], x, q);
      assert Live(z, x, q) && FromRich(z, x, e);
    }
  }

  /** A live rich rule has an entry that is hit. */
  lemma {:induction false} RichHasEntry(z: Zone, x: Rich, q: Query) returns (e: Entry)
    requires Live(z, x, q)
    ensures e in Entries(z) && EntryHits(e, q) && FromRich(z, x, e)
  {
    hide EntryHits, Flat, Hits, ParseRich;
    var f := w => RichEntries(z, w);
    var i :| 0 <= i < |z.rich| && ParseRich(z.rich[i]) == Some(x);
    RichEntriesHit(z, z.rich[i], x, q);
    e :| e in RichEntries(z, z.rich[i]) && EntryHits(e, q);
    assert e in f(z.rich[i]);
    FlatHas(f, z.rich, e);
  }

  /** What the lists open has an entry that is hit. */
  lemma {:induction false} ListHasEntry(z: Zone, q: Query) returns (e: Entry)
    requires Lists(z, q)
    ensures e in Entries(z) && EntryHits(e, q) && e.group == Accept && e.prio == 0
  {
    hide EntryHits, Flat, Lists;
    ListEntriesHit(z, q);
    e :| e in Flat(PortEntries, z.ports) + Flat(ProtocolEntries, z.protocols)
              + Flat(s => ServiceEntries(z, s), z.services) + Flat(SourcePortEntries, z.sourcePorts) && EntryHits(e, q);
  }

  // ---- The main results ----

  /** The first entry hit is before every live rich rule, and before the lists when they open
      the port. */
  lemma {:induction false} FirstIsFirst(z: Zone, e: Entry, q: Query)
    requires IsFirst(StableSort(Entries(z)), e, q)
    ensures Lists(z, q) ==> Index(e.group) < 2 || (e.group == Accept && e.prio <= 0)
    ensures forall x :: Live(z, x, q) ==> Index(e.group) < Index(GroupOf(x)) || (e.group == GroupOf(x) && e.prio <= x.prio)
    ensures (Lists(z, q) && e.group == Accept && e.prio == 0 && e.r.action == Allow) || exists x :: Live(z, x, q) && FromRich(z, x, e)
  {
    hide EntryHits, Entries, Lists, Live, FromRich, GroupOf;
    StableSortSorts(Entries(z));
    var es := StableSort(Entries(z));
    assert forall o :: o in Entries(z) <==> o in es by {
      forall o
        ensures o in Entries(z) <==> o in es
      {
        assert o in multiset(es) <==> o in multiset(Entries(z));
      }
    }
    EntryStandsFor(z, e, q);
    if Lists(z, q) {
      var o := ListHasEntry(z, q);
      assert Leq(e, o);
    }
    forall x | Live(z, x, q)
      ensures Index(e.group) < Index(GroupOf(x)) || (e.group == GroupOf(x) && e.prio <= x.prio)
    {
      var o := RichHasEntry(z, x, q);
      RichOf(z, x, o);
      assert Leq(e, o);
    }
  }

  lemma {:induction false} RichOf(z: Zone, x: Rich, e: Entry)
    requires FromRich(z, x, e)
    ensures e.group == GroupOf(x) && e.prio == x.prio && e.r.action == x.r.action
  {
  }

  /** A live rule, or the lists, that stand before everything live stage the answer. */
  lemma {:induction false} FirstStages(z: Zone, q: Query, e: Entry)
    requires Lists(z, q) ==> Index(e.group) < 2 || (e.group == Accept && e.prio <= 0)
    requires forall x :: Live(z, x, q) ==> Index(e.group) < Index(GroupOf(x)) || (e.group == GroupOf(x) && e.prio <= x.prio)
    requires (Lists(z, q) && e.group == Accept && e.prio == 0 && e.r.action == Allow) || exists x :: Live(z, x, q) && FromRich(z, x, e)
    ensures Staged(z, q, StateOf(e.r.action))
  {
    hide Lists, Live, Has;
    if x :| Live(z, x, q) && FromRich(z, x, e) {
      if x.prio != 0 {
        assert Foremost(z, x, q);
      }
    }
  }

  /** The verdict on the rows a zone is listed as is firewalld's staged evaluation of it. */
  lemma {:induction false} StagedEvaluation(z: Zone, q: Query)
    ensures Staged(z, q, VerdictOn(z, q).state)
  {
    hide EntryHits, Entries, Lists, Live, StableSort, VerdictOn, IsFirst, FirstOf, FromRich, GroupOf;
    var es := StableSort(Entries(z));
    VerdictOfFirst(z, q);
    if exists e :: e in es && EntryHits(e, q) {
      var e := FirstOf(es, q).value;
      FirstIsFirst(z, e, q);
      FirstStages(z, q, e);
    } else if Lists(z, q) || exists x :: Live(z, x, q) {
      SomethingHit(z, q);
    }
  }

  lemma {:induction false} SomethingHit(z: Zone, q: Query)
    requires Lists(z, q) || exists x :: Live(z, x, q)
    ensures exists e :: e in StableSort(Entries(z)) && EntryHits(e, q)
  {
    hide EntryHits, Entries, Lists, Live;
    StableSortSorts(Entries(z));
    if Lists(z, q) {
      var e := ListHasEntry(z, q);
      assert e in multiset(StableSort(Entries(z)));
    } else {
      var x :| Live(z, x, q);
      var e := RichHasEntry(z, x, q);
      assert e in multiset(StableSort(Entries(z)));
    }
  }

  // ---- Every entry is shown ----

  lemma {:induction false} RowsOfHas(es: seq<Entry>, six: bool, r: Rule)
    ensures r in RowsOf(es, six) <==> exists i :: 0 <= i < |es| && Listed(es[i].fam, six) && r == RowFor(es[i], six)
  {
    hide RowFor, Listed;
    if es != [] {
      RowsOfHas(es[1..], six, r);
      var rest := es[1..];
      if i :| 0 <= i < |es| && Listed(es[i].fam, six) && r == RowFor(es[i], six) {
        assert i == 0 || rest[i-1] == es[i];
      }
      if i :| 0 <= i < |rest| && Listed(rest[i].fam, six) && r == RowFor(rest[i], six) {
        assert es[i+1] == rest[i];
      }
    }
  }

  /** The zone has a row that shows rule r in family six. */
  ghost predicate HasRow(z: Zone, r: Rule, six: bool) {
    exists i :: 0 <= i < |ZoneStatus(z).rules|
                && ZoneStatus(z).rules[i] == r.(v6 := six, num := i + 1, raw := ZoneStatus(z).rules[i].raw)
                && RowRaw(r.(v6 := six)) <= ZoneStatus(z).rules[i].raw
  }

  lemma {:induction false} EntryHasRow(z: Zone, e: Entry, six: bool)
    requires e in Entries(z) && Listed(e.fam, six)
    ensures HasRow(z, e.r, six)
  {
    hide Entries, StableSort, Listed, RowRaw;
    var es := StableSort(Entries(z));
    StableSortSorts(Entries(z));
    assert e in multiset(es) && e in es;
    assert RowRaw(e.r.(v6 := six)) <= RowFor(e, six).raw;
    RowsOfHas(es, six, RowFor(e, six));
    var four, all := RowsOf(es, false), RowsOf(es, false) + RowsOf(es, true);
    var k :| 0 <= k < |RowsOf(es, six)| && RowsOf(es, six)[k] == RowFor(e, six);
    var i := if six then |four| + k else k;
    assert all[i] == RowFor(e, six);
    assert ZoneStatus(z).rules[i] == all[i].(num := i + 1);
  }

  /** A service whose ports are unknown, and a source port, are shown in both families: as a rule that may
      open anything, and as one that opens part of a protocol. */
  lemma {:induction false} ZoneShowsTheUncertain(z: Zone, six: bool)
    ensures forall svc :: svc in z.services && svc !in z.svcPorts ==>
              HasRow(z, Rule(0, Allow, In, "", [], None, None, "", svc, false, [], true, false), six)
    ensures forall p :: p in z.sourcePorts && p.Ported? ==>
              HasRow(z, Rule(0, Allow, In, p.proto, [], None, None, "", "", false, [], false, true), six)
  {
    hide HasRow;
    forall svc | svc in z.services && svc !in z.svcPorts
      ensures HasRow(z, Rule(0, Allow, In, "", [], None, None, "", svc, false, [], true, false), six)
    {
      var e := ServiceEntries(z, svc)[0];
      var i :| 0 <= i < |z.services| && z.services[i] == svc;
      ServiceEntryIn(z, i, e);
      EntryHasRow(z, e, six);
    }
    forall p | p in z.sourcePorts && p.Ported?
      ensures HasRow(z, Rule(0, Allow, In, p.proto, [], None, None, "", "", false, [], false, true), six)
    {
      var e := SourcePortEntries(p)[0];
      var i :| 0 <= i < |z.sourcePorts| && z.sourcePorts[i] == p;
      SourcePortEntryIn(z, i, e);
      EntryHasRow(z, e, six);
    }
  }

  lemma {:induction false} ServiceEntryIn(z: Zone, i: nat, e: Entry)
    requires i < |z.services| && e in ServiceEntries(z, z.services[i])
    ensures e in Entries(z)
  {
    hide Flat, ServiceEntries;
    FlatHas(s => ServiceEntries(z, s), z.services, e);
  }

  lemma {:induction false} SourcePortEntryIn(z: Zone, i: nat, e: Entry)
    requires i < |z.sourcePorts| && e in SourcePortEntries(z.sourcePorts[i])
    ensures e in Entries(z)
  {
    hide Flat, SourcePortEntries;
    FlatHas(SourcePortEntries, z.sourcePorts, e);
  }
}
