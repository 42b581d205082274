/** A firewalld zone as the rule model: its lists become the rows of one ordered status, and the
    verdict on those rows is firewalld's own staged evaluation of the zone. */
module FwdZone {
  import opened RuleModel
  import opened RuleSpecs
  import opened Simulation
  import opened FwdRich

  /** An entry of a ports list, or of a service's ports: a port range with its protocol, or the
      text of anything else. */
  datatype PortEntry = Ported(r: PortRange, proto: string) | Other(s: string)

  /** svcPorts: the ports of the services whose ports are known. */
  datatype Zone = Zone(target: string, services: seq<string>, ports: seq<PortEntry>, protocols: seq<string>,
                       sourcePorts: seq<PortEntry>, rich: seq<seq<RichWord>>, svcPorts: map<string, seq<PortEntry>>)

  /** fwdPolicy: the incoming policy a zone target stands for. */
  function Policy(target: string): string {
    if target == "ACCEPT" then "allow"
    else if target == "DROP" then "deny"
    else if target in ["default", "%%REJECT%%", "REJECT"] then "reject"
    else ""
  }

  // ---- The rows of a service ----

  /** The rows built so far, and the row to extend for each protocol. */
  datatype Merge = Merge(rows: seq<Rule>, byProto: map<string, nat>) {
    ghost predicate Ok(base: Rule) {
      && (forall k :: k in byProto ==> byProto[k] < |rows| && rows[byProto[k]].proto == k)
      && (forall i :: 0 <= i < |rows| ==> rows[i] == base.(proto := rows[i].proto, ports := rows[i].ports))
    }
  }

  function MergeEntry(base: Rule, m: Merge, p: PortEntry): (out: Merge)
    requires m.Ok(base)
    ensures out.Ok(base)
  {
    var proto := if p.Ported? then p.proto else p.s;
    if proto in m.byProto && p.Ported? && m.rows[m.byProto[proto]].ports != [] then
      var i := m.byProto[proto];
      m.(rows := m.rows[i := m.rows[i].(ports := m.rows[i].ports + [p.r])])
    else
      Merge(m.rows + [base.(proto := proto, ports := if p.Ported? then [p.r] else [])], m.byProto[proto := |m.rows|])
  }

  function MergeAll(base: Rule, m: Merge, entries: seq<PortEntry>): (out: Merge)
    requires m.Ok(base)
    ensures out.Ok(base)
    decreases |entries|
  {
    if entries == [] then m else MergeAll(base, MergeEntry(base, m, entries[0]), entries[1..])
  }

  function ServiceRows(z: Zone, base: Rule, svc: string): seq<Rule> {
    if svc in z.svcPorts then MergeAll(base.(app := svc), Merge([], map[]), z.svcPorts[svc]).rows
    else [base.(app := svc, unresolved := true)]
  }

  /** serviceRows: the loop over the service's ports. */
  method ListService(z: Zone, base0: Rule, svc: string) returns (rows: seq<Rule>)
    ensures rows == ServiceRows(z, base0, svc)
  {
    var base := base0.(app := svc);
    if svc !in z.svcPorts {
      return [base.(unresolved := true)];
    }
    var entries := z.svcPorts[svc];
    rows := [];
    var byProto: map<string, nat> := map[];
    assert entries[0..] == entries;
    for i := 0 to |entries|
      invariant Merge(rows, byProto).Ok(base)
      invariant MergeAll(base, Merge(rows, byProto), entries[i..]) == MergeAll(base, Merge([], map[]), entries)
    {
      var p := entries[i];
      assert entries[i..][0] == p && entries[i..][1..] == entries[i+1..];
      var proto := if p.Ported? then p.proto else p.s;
      if proto in byProto && p.Ported? && |rows[byProto[proto]].ports| > 0 {
        var k := byProto[proto];
        rows := rows[k := rows[k].(ports := rows[k].ports + [p.r])];
        continue;
      }
      byProto := byProto[proto := |rows|];
      rows := rows + [base.(proto := proto, ports := if p.Ported? then [p.r] else [])];
    }
  }

  predicate TcpProto(proto: string) {
    proto == "" || proto == "tcp"
  }

  /** The row is about this TCP port, addresses aside. */
  predicate RowCovers(row: Rule, port: int) {
    TcpProto(row.proto) && row.CoversPort(port)
  }

  /** The entry opens this TCP port. */
  predicate EntryCovers(p: PortEntry, port: int) {
    match p
    case Ported(r, proto) => TcpProto(proto) && r.lo <= port <= r.hi
    case Other(s) => TcpProto(s)
  }

  ghost predicate SomeCovers(rows: seq<Rule>, port: int) {
    exists i :: 0 <= i < |rows| && RowCovers(rows[i], port)
  }

  lemma {:induction false} MergeEntryCovers(base: Rule, m: Merge, p: PortEntry, port: int)
    requires m.Ok(base)
    ensures SomeCovers(MergeEntry(base, m, p).rows, port) <==> SomeCovers(m.rows, port) || EntryCovers(p, port)
  {
    var out := MergeEntry(base, m, p).rows;
    var proto := if p.Ported? then p.proto else p.s;
    if proto in m.byProto && p.Ported? && m.rows[m.byProto[proto]].ports != [] {
      var i := m.byProto[proto];
      var ports := m.rows[i].ports;
      assert out[i].ports == ports + [p.r];
      assert out[i].CoversPort(port) <==> m.rows[i].CoversPort(port) || p.r.lo <= port <= p.r.hi by {
        if m.rows[i].CoversPort(port) {
          var k :| 0 <= k < |ports| && ports[k].lo <= port <= ports[k].hi;
          assert (ports + [p.r])[k] == ports[k];
        }
        assert (ports + [p.r])[|ports|] == p.r;
      }
      assert RowCovers(out[i], port) <==> RowCovers(m.rows[i], port) || EntryCovers(p, port);
      forall j | 0 <= j < |out| && j != i
        ensures out[j] == m.rows[j]
      {
      }
    } else {
      var row := out[|m.rows|];
      assert RowCovers(row, port) <==> EntryCovers(p, port) by {
        if p.Ported? {
          assert row.ports[0] == p.r;
        }
      }
      forall j | 0 <= j < |m.rows|
        ensures out[j] == m.rows[j]
      {
      }
    }
  }

  lemma {:induction false} MergeCovers(base: Rule, m: Merge, entries: seq<PortEntry>, port: int)
    requires m.Ok(base)
    ensures SomeCovers(MergeAll(base, m, entries).rows, port) <==>
            SomeCovers(m.rows, port) || exists i :: 0 <= i < |entries| && EntryCovers(entries[i], port)
    decreases |entries|
  {
    hide MergeEntry, SomeCovers, EntryCovers;
    if entries != [] {
      MergeEntryCovers(base, m, entries[0], port);
      MergeCovers(base, MergeEntry(base, m, entries[0]), entries[1..], port);
      var rest := entries[1..];
      if i :| 0 <= i < |entries| && EntryCovers(entries[i], port) {
        assert i == 0 || rest[i - 1] == entries[i];
      }
      if i :| 0 <= i < |rest| && EntryCovers(rest[i], port) {
        assert entries[i + 1] == rest[i];
      }
    }
  }

  // ---- The entries of a zone ----

  datatype Group = Pre | Refuse | Accept | Post

  /** fwdEntry: one rule of the zone before it is listed per family. */
  datatype Entry = Entry(r: Rule, fam: Fam, group: Group, prio: int, what: string)

  function Index(g: Group): int {
    match g
    case Pre => 0
    case Refuse => 1
    case Accept => 2
    case Post => 3
  }

  /** The order of evaluation. */
  predicate Leq(a: Entry, b: Entry) {
    Index(a.group) < Index(b.group) || (a.group == b.group && a.prio <= b.prio)
  }

  function Opened(r: Rule, what: string): Entry {
    Entry(r, Both, Accept, 0, what)
  }

  function PortEntries(p: PortEntry): seq<Entry> {
    if p.Ported? then [Opened(NO_RULE.(proto := p.proto, ports := [p.r]), "port")] else []
  }

  function ProtocolEntries(s: string): seq<Entry> {
    [Opened(NO_RULE.(proto := s), "protocol")]
  }

  function ServiceEntries(z: Zone, s: string): seq<Entry> {
    Same(ServiceRows(z, NO_RULE, s), Opened(NO_RULE, "service"))
  }

  /** Traffic from a source port is narrower than any port rule. */
  function SourcePortEntries(p: PortEntry): seq<Entry> {
    if p.Ported? then [Opened(NO_RULE.(proto := p.proto, partial := true), "source port")] else []
  }

  function GroupOf(x: Rich): Group {
    if x.prio < 0 then Pre
    else if x.prio > 0 then Post
    else if x.r.action.Deny? || x.r.action.Reject? then Refuse
    else Accept
  }

  /** One entry for each row, alike otherwise. */
  function Same(rows: seq<Rule>, e: Entry): (es: seq<Entry>)
    ensures |es| == |rows|
    ensures forall i :: 0 <= i < |es| ==> es[i] == e.(r := rows[i])
  {
    if rows == [] then [] else [e.(r := rows[0])] + Same(rows[1..], e)
  }

  function RichEntries(z: Zone, words: seq<RichWord>): seq<Entry> {
    match ParseRich(words)
    case None => []
    case Some(x) =>
      if !x.decides then []
      else Same(if x.service != "" then ServiceRows(z, x.r, x.service) else [x.r], Entry(x.r, x.fam, GroupOf(x), x.prio, "rich rule"))
  }

  /** f of every element, one after another. */
  function Flat<T>(f: T -> seq<Entry>, xs: seq<T>): seq<Entry> {
    if xs == [] then [] else f(xs[0]) + Flat(f, xs[1..])
  }

  lemma {:induction false} FlatSnoc<T>(f: T -> seq<Entry>, xs: seq<T>, i: nat)
    requires i < |xs|
    ensures Flat(f, xs[..i+1]) == Flat(f, xs[..i]) + f(xs[i])
    decreases i
  {
    if i == 0 {
      assert xs[..1][1..] == [] && xs[..0] == [];
    } else {
      FlatSnoc(f, xs[1..], i - 1);
      assert xs[..i+1][1..] == xs[1..][..i] && xs[..i][1..] == xs[1..][..i-1];
      assert f(xs[0]) + (Flat(f, xs[1..][..i-1]) + f(xs[i])) == (f(xs[0]) + Flat(f, xs[1..][..i-1])) + f(xs[i]);
    }
  }

  lemma {:induction false} FlatNone<T>(f: T -> seq<Entry>, xs: seq<T>)
    ensures Flat(f, xs[..0]) == []
  {
  }

  lemma {:induction false} FlatHas<T(!new)>(f: T -> seq<Entry>, xs: seq<T>, e: Entry)
    ensures e in Flat(f, xs) <==> exists i :: 0 <= i < |xs| && e in f(xs[i])
  {
    if xs != [] {
      FlatHas(f, xs[1..], e);
      var rest := xs[1..];
      if i :| 0 <= i < |xs| && e in f(xs[i]) {
        assert i == 0 || rest[i - 1] == xs[i];
      }
      if i :| 0 <= i < |rest| && e in f(rest[i]) {
        assert xs[i + 1] == rest[i];
      }
    }
  }

  function Entries(z: Zone): seq<Entry> {
    Flat(PortEntries, z.ports) + Flat(ProtocolEntries, z.protocols) + Flat(s => ServiceEntries(z, s), z.services)
    + Flat(SourcePortEntries, z.sourcePorts) + Flat(w => RichEntries(z, w), z.rich)
  }

  // ---- The stable sort ----

  ghost predicate Sorted(es: seq<Entry>) {
    forall i, j :: 0 <= i < j < |es| ==> Leq(es[i], es[j])
  }

  /** e goes before the first entry that comes after it. */
  function Slot(es: seq<Entry>, e: Entry): seq<Entry> {
    if es == [] then [e]
    else if Leq(es[0], e) && !Leq(e, es[0]) then [es[0]] + Slot(es[1..], e)
    else [e] + es
  }

  /** slices.SortStableFunc by group and priority. */
  function StableSort(es: seq<Entry>): seq<Entry> {
    if es == [] then [] else Slot(StableSort(es[1..]), es[0])
  }

  lemma {:induction false} SlotKeeps(es: seq<Entry>, e: Entry)
    ensures multiset(Slot(es, e)) == multiset(es) + multiset{e}
  {
    hide Leq;
    if es != [] {
      assert es == [es[0]] + es[1..];
      SlotKeeps(es[1..], e);
    }
  }

  lemma {:induction false} SlotSorts(es: seq<Entry>, e: Entry)
    requires Sorted(es)
    ensures Sorted(Slot(es, e))
  {
    if es != [] && Leq(es[0], e) && !Leq(e, es[0]) {
      var rest, out := es[1..], Slot(es[1..], e);
      SlotSorts(rest, e);
      SlotKeeps(rest, e);
      forall j | 0 <= j < |out|
        ensures Leq(es[0], out[j])
      {
        assert out[j] in multiset(out);
        assert out[j] == e || out[j] in rest;
        if out[j] != e {
          var k :| 0 <= k < |rest| && rest[k] == out[j];
          assert es[k + 1] == out[j];
        }
      }
    } else if es != [] {
      forall j | 0 <= j < |es|
        ensures Leq(e, es[j])
      {
        assert j == 0 || Leq(es[0], es[j]);
      }
    }
  }

  /** The entries of one group and priority, in the order they stand in. */
  function Ranked(es: seq<Entry>, g: Group, prio: int): seq<Entry> {
    if es == [] then []
    else (if es[0].group == g && es[0].prio == prio then [es[0]] else []) + Ranked(es[1..], g, prio)
  }

  lemma {:induction false} SlotIsStable(es: seq<Entry>, e: Entry, g: Group, prio: int)
    ensures Ranked(Slot(es, e), g, prio) == (if e.group == g && e.prio == prio then [e] else []) + Ranked(es, g, prio)
  {
    if es != [] && Leq(es[0], e) && !Leq(e, es[0]) {
      SlotIsStable(es[1..], e, g, prio);
      assert Slot(es, e)[1..] == Slot(es[1..], e);
    } else {
      assert ([e] + es)[1..] == es;
    }
  }

  lemma {:induction false} RankedSame(es: seq<Entry>, g: Group, prio: int)
    ensures Ranked(StableSort(es), g, prio) == Ranked(es, g, prio)
  {
    hide Slot;
    if es != [] {
      RankedSame(es[1..], g, prio);
      SlotIsStable(StableSort(es[1..]), es[0], g, prio);
    }
  }

  /** The sorted entries are the zone's entries, in the order of evaluation, those of one group
      and priority in the order they had. */
  lemma {:induction false} StableSortSorts(es: seq<Entry>)
    ensures Sorted(StableSort(es))
    ensures multiset(StableSort(es)) == multiset(es)
    ensures forall g, prio :: Ranked(StableSort(es), g, prio) == Ranked(es, g, prio)
  {
    hide Slot, Leq;
    forall g, prio
      ensures Ranked(StableSort(es), g, prio) == Ranked(es, g, prio)
    {
      RankedSame(es, g, prio);
    }
    hide Ranked;
    if es != [] {
      StableSortSorts(es[1..]);
      SlotSorts(StableSort(es[1..]), es[0]);
      SlotKeeps(StableSort(es[1..]), es[0]);
      assert es == [es[0]] + es[1..];
    }
  }

  // ---- The status ----

  predicate Listed(fam: Fam, six: bool) {
    match fam
    case Both => true
    case OnlyV4 => !six
    case OnlyV6 => six
  }

  function RowFor(e: Entry, six: bool): Rule {
    var r := e.r.(v6 := six);
    r.(raw := RowRaw(r) + [Text(e.what)] + (if r.app != "" && r.ports != [] then [Text(r.app)] else []))
  }

  function RowsOf(es: seq<Entry>, six: bool): seq<Rule> {
    if es == [] then []
    else (if Listed(es[0].fam, six) then [RowFor(es[0], six)] else []) + RowsOf(es[1..], six)
  }

  /** fwdZone.status */
  function ZoneStatus(z: Zone): Status {
    var es := StableSort(Entries(z));
    Status(Policy(z.target), Renumber(RowsOf(es, false) + RowsOf(es, true)))
  }

  /** status's loops over the lists of the zone. */
  method Gather(z: Zone) returns (es: seq<Entry>)
    ensures es == Entries(z)
  {
    hide Flat, ServiceRows, Same;
    es := [];
    FlatNone(PortEntries, z.ports);
    FlatNone(ProtocolEntries, z.protocols);
    FlatNone(s => ServiceEntries(z, s), z.services);
    FlatNone(SourcePortEntries, z.sourcePorts);
    for i := 0 to |z.ports|
      invariant es == Flat(PortEntries, z.ports[..i])
    {
      FlatSnoc(PortEntries, z.ports, i);
      if z.ports[i].Ported? {
        es := es + [Opened(NO_RULE.(proto := z.ports[i].proto, ports := [z.ports[i].r]), "port")];
      }
    }
    assert z.ports[..|z.ports|] == z.ports;
    ghost var so := es;
    for i := 0 to |z.protocols|
      invariant es == so + Flat(ProtocolEntries, z.protocols[..i])
    {
      FlatSnoc(ProtocolEntries, z.protocols, i);
      es := es + [Opened(NO_RULE.(proto := z.protocols[i]), "protocol")];
    }
    assert z.protocols[..|z.protocols|] == z.protocols;
    so := es;
    ghost var svc := s => ServiceEntries(z, s);
    for i := 0 to |z.services|
      invariant es == so + Flat(svc, z.services[..i])
    {
      FlatSnoc(svc, z.services, i);
      var rows := ListService(z, NO_RULE, z.services[i]);
      es := es + Same(rows, Opened(NO_RULE, "service"));
    }
    assert z.services[..|z.services|] == z.services;
    so := es;
    for i := 0 to |z.sourcePorts|
      invariant es == so + Flat(SourcePortEntries, z.sourcePorts[..i])
    {
      FlatSnoc(SourcePortEntries, z.sourcePorts, i);
      if z.sourcePorts[i].Ported? {
        es := es + [Opened(NO_RULE.(proto := z.sourcePorts[i].proto, partial := true), "source port")];
      }
    }
    assert z.sourcePorts[..|z.sourcePorts|] == z.sourcePorts;
    var rich := GatherRich(z);
    es := es + rich;
  }

  method GatherRich(z: Zone) returns (es: seq<Entry>)
    ensures es == Flat(w => RichEntries(z, w), z.rich)
  {
    hide ServiceRows, Same, ParseRich, GroupOf;
    ghost var f := w => RichEntries(z, w);
    es := [];
    for i := 0 to |z.rich|
      invariant es == Flat(f, z.rich[..i])
    {
      FlatSnoc(f, z.rich, i);
      var x := ReadRich(z.rich[i]);
      if x.None? || !x.value.decides {
        continue;
      }
      var rows := [x.value.r];
      if x.value.service != "" {
        rows := ListService(z, x.value.r, x.value.service);
      }
      es := es + Same(rows, Entry(x.value.r, x.value.fam, GroupOf(x.value), x.value.prio, "rich rule"));
    }
    assert z.rich[..|z.rich|] == z.rich;
  }

  /** status's loops over the families and the sorted entries. */
  method BuildStatus(z: Zone) returns (st: Status)
    ensures st == ZoneStatus(z)
  {
    hide Entries, StableSort, RowFor, Policy, Listed;
    var gathered := Gather(z);
    var es := StableSort(gathered);
    var v4 := ListFamily(es, false, 0);
    var v6 := ListFamily(es, true, |v4|);
    st := Status(Policy(z.target), v4 + v6);
    assert v4 + v6 == Renumber(RowsOf(es, false) + RowsOf(es, true));
  }

  lemma {:induction false} RowsSnoc(es: seq<Entry>, i: nat, six: bool)
    requires i < |es|
    ensures RowsOf(es[..i+1], six) == RowsOf(es[..i], six) + (if Listed(es[i].fam, six) then [RowFor(es[i], six)] else [])
    decreases i
  {
    hide RowFor, Listed;
    if i == 0 {
      assert es[..1][1..] == [] && es[..0] == [];
    } else {
      RowsSnoc(es[1..], i - 1, six);
      assert es[..i+1][1..] == es[1..][..i] && es[..i][1..] == es[1..][..i-1];
    }
  }

  /** The rows of one family, numbered from n + 1. */
  method ListFamily(es: seq<Entry>, six: bool, n: nat) returns (rows: seq<Rule>)
    ensures |rows| == |RowsOf(es, six)|
    ensures forall i :: 0 <= i < |rows| ==> rows[i] == RowsOf(es, six)[i].(num := n + i + 1)
  {
    hide RowFor, Listed;
    rows := [];
    for i := 0 to |es|
      invariant |rows| == |RowsOf(es[..i], six)|
      invariant forall k :: 0 <= k < |rows| ==> rows[k] == RowsOf(es[..i], six)[k].(num := n + k + 1)
    {
      hide RowsOf;
      RowsSnoc(es, i, six);
      if !Listed(es[i].fam, six) {
        continue;
      }
      rows := rows + [RowFor(es[i], six).(num := n + |rows| + 1)];
    }
    assert es[..|es|] == es;
  }
}
