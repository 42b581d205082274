/** Opening and closing port 22 works, and exactly when it can be taken back by spec. */
module SshEffect {
  import opened RuleModel
  import opened RuleSpecs
  import opened Simulation
  import opened Planning
  import opened Consistency
  import opened Effects
  import opened SshPort

  /** The traffic of a plain 22/tcp rule. */
  const SSH_KEY := Key(In, None, None, "", false, "", "tcp", [SSH_RANGE])

  lemma {:induction false} TargetKey(open: bool, six: bool)
    ensures KeyOf(TargetRow(open, six)) == SSH_KEY
  {
  }

  // ---- What the deletions leave ----

  lemma {:induction false} DeletesRemoveRows(rules: seq<Rule>, specs: seq<Spec>, f: bool)
    requires forall i :: 0 <= i < |specs| ==> SpecRule(specs[i]).Some?
    ensures forall r :: r in ApplyPlan(rules, Deletes(specs), f) <==>
              r in rules && forall i :: 0 <= i < |specs| ==> !RowOf(r, Read(specs[i]))
    decreases |specs|
  {
    hide SpecRule, RowOf;
    if specs != [] {
      assert Deletes(specs)[1..] == Deletes(specs[1..]);
      var next := WithoutRowsOf(rules, Read(specs[0]));
      assert ApplyChange(rules, Deletes(specs)[0], f) == next;
      DeletesRemoveRows(next, specs[1..], f);
      forall r | r in rules
        ensures (forall i :: 0 <= i < |specs| ==> !RowOf(r, Read(specs[i]))) <==>
                !RowOf(r, Read(specs[0])) && forall i :: 0 <= i < |specs[1..]| ==> !RowOf(r, Read(specs[1..][i]))
      {
        assert forall i :: 0 < i < |specs| ==> specs[1..][i - 1] == specs[i];
      }
    }
  }

  lemma {:induction false} DoomedReadable(added: seq<Spec>, st: Status, open: bool)
    requires Readable(added)
    ensures Readable(DoomedSpecs(added, st, open))
  {
    hide SpecRule, Doomed, DoomedSpecs;
    DoomedSpecsAreDoomed(added, st, open);
    var gone := DoomedSpecs(added, st, open);
    forall i | 0 <= i < |gone|
      ensures SpecRule(gone[i]).Some?
    {
      assert gone[i] in added;
    }
  }

  /** A row whose spec is doomed is gone. */
  lemma {:induction false} DoomedRowGone(added: seq<Spec>, st: Status, open: bool, v6: bool, j: nat, row: Rule)
    requires Consistent(st, added, v6)
    requires j < |added| && RowOf(row, ReadAll(added)[j]) && Doomed(added[j], st, open)
    ensures row !in ApplyPlan(st.rules, Deletes(DoomedSpecs(added, st, open)), v6)
  {
    hide SpecRule, RowOf, Doomed, DoomedSpecs, ApplyPlan;
    var gone := DoomedSpecs(added, st, open);
    DoomedSpecsAreDoomed(added, st, open);
    DoomedReadable(added, st, open);
    DeletesRemoveRows(st.rules, gone, v6);
    assert added[j] in gone;
    var i :| 0 <= i < |gone| && gone[i] == added[j];
    assert Read(gone[i]) == ReadAll(added)[j];
  }

  /** A row that is gone was one of a doomed spec's. */
  lemma {:induction false} GoneRowDoomed(added: seq<Spec>, st: Status, open: bool, v6: bool, row: Rule) returns (j: nat)
    requires Consistent(st, added, v6) && row in st.rules
    requires row !in ApplyPlan(st.rules, Deletes(DoomedSpecs(added, st, open)), v6)
    ensures j < |added| && RowOf(row, ReadAll(added)[j]) && Doomed(added[j], st, open)
  {
    hide SpecRule, RowOf, Doomed, DoomedSpecs, ApplyPlan;
    var gone := DoomedSpecs(added, st, open);
    DoomedSpecsAreDoomed(added, st, open);
    DoomedReadable(added, st, open);
    DeletesRemoveRows(st.rules, gone, v6);
    var i :| 0 <= i < |gone| && RowOf(row, Read(gone[i]));
    assert gone[i] in added;
    j :| 0 <= j < |added| && added[j] == gone[i];
    assert Read(gone[i]) == ReadAll(added)[j];
  }

  /** The spec of a row about nothing but ports or an app, read the narrow way. */
  lemma {:induction false} PlainRowSpec(added: seq<Spec>, st: Status, v6: bool, row: Rule) returns (j: nat, s: RuleSpec)
    requires Consistent(st, added, v6) && row in st.rules
    requires row.dir.In? && row.from.None? && row.dst.None? && row.iface == "" && !row.partial
    ensures j < |added| && RowOf(row, ReadAll(added)[j])
    ensures ParseRuleSpec(added[j]) == Some(s) && s.plain && s.action == row.action && s.app == row.app
    ensures row.app == "" ==> if row.ports == [] then s.port == NONE else s.port == PortList(row.ports, row.proto)
    ensures ReadAll(added)[j].fam == Both
  {
    hide SpecRule, ParseRuleSpec, RowOf;
    j := RowHasOneSpec(st, added, v6, row);
    var p := ReadAll(added)[j];
    RowOfFields(row, p);
    ReadersAgreeOnPlainRules(added[j]);
    s := ParseRuleSpec(added[j]).value;
  }

  lemma {:induction false} RowOfFields(row: Rule, p: Parsed)
    requires RowOf(row, p)
    ensures var r := p.rule;
            && row.action == r.action && row.dir == r.dir && row.from == r.from && row.dst == r.dst
            && row.iface == r.iface && row.partial == r.partial && row.app == r.app
            && (row.app == "" ==> row.ports == r.ports && row.proto == r.proto)
  {
  }

  /** No copy of the new rule is left, so the new row is never skipped. */
  lemma {:induction false} NoCopyLeft(added: seq<Spec>, st: Status, open: bool, v6: bool, row: Rule)
    requires Consistent(st, added, v6)
    requires row in ApplyPlan(st.rules, Deletes(DoomedSpecs(added, st, open)), v6)
    ensures !(KeyOf(row) == SSH_KEY && row.action == Wanted(open))
  {
    hide SpecRule, ParseRuleSpec, RowOf, DoomedSpecs, ApplyPlan;
    DoomedReadable(added, st, open);
    DeletesRemoveRows(st.rules, DoomedSpecs(added, st, open), v6);
    if KeyOf(row) == SSH_KEY && row.action == Wanted(open) {
      var j, s := PlainRowSpec(added, st, v6, row);
      DoomedRowGone(added, st, open, v6, j, row);
      assert false;
    }
  }

  /** When no IPv4 row is counted as staying, none is left. */
  lemma {:induction false} NoV4Left(added: seq<Spec>, st: Status, open: bool, v6: bool, row: Rule)
    requires Consistent(st, added, v6) && !SomeStay(st, DoomedSpecs(added, st, open))
    requires row in ApplyPlan(st.rules, Deletes(DoomedSpecs(added, st, open)), v6)
    ensures row.v6
  {
    hide SpecRule, ParseRuleSpec, RowOf, DoomedSpecs, ApplyPlan, SshOnly;
    var gone := DoomedSpecs(added, st, open);
    DoomedReadable(added, st, open);
    DoomedSpecsAreDoomed(added, st, open);
    DeletesRemoveRows(st.rules, gone, v6);
    if !row.v6 {
      var k :| 0 <= k < |st.rules| && st.rules[k] == row;
      assert !Stays(st.rules[k], gone);
      var i :| 0 <= i < |gone| && ParseRuleSpec(gone[i]).Some? && MatchesRow(ParseRuleSpec(gone[i]).value, row);
      var g := ParseRuleSpec(gone[i]).value;
      assert MustGo(g, st, open);
      var j, s := PlainRowSpec(added, st, v6, row);
      SameVerdictOnSpecs(g, s, row, st, open);
      DoomedRowGone(added, st, open, v6, j, row);
      assert false;
    }
  }

  /** Two specs that match one row must go together. */
  lemma {:induction false} SameVerdictOnSpecs(g: RuleSpec, s: RuleSpec, row: Rule, st: Status, open: bool)
    requires MustGo(g, st, open) && MatchesRow(g, row)
    requires s.plain && s.action == row.action && s.app == row.app
    requires row.app == "" ==> if row.ports == [] then s.port == NONE else s.port == PortList(row.ports, row.proto)
    ensures MustGo(s, st, open)
  {
    if g.app != "" {
      assert SshOnly(s, st);
    } else {
      assert s.port == g.port;
    }
  }

  /** With no IPv4 row left, no IPv6 row decides for an arbitrary host: one that did would be
      listed for both families, and its IPv4 row went with it. */
  lemma {:induction false} NoV6Decides(added: seq<Spec>, st: Status, open: bool, v6: bool, row: Rule, port: int)
    requires Consistent(st, added, v6) && !SomeStay(st, DoomedSpecs(added, st, open))
    requires row in ApplyPlan(st.rules, Deletes(DoomedSpecs(added, st, open)), v6)
    ensures !RoleOf(row, port, true, None).Decides?
  {
    hide SpecRule, ParseRuleSpec, RowOf, DoomedSpecs, ApplyPlan, SomeStay;
    var gone := DoomedSpecs(added, st, open);
    DoomedReadable(added, st, open);
    DeletesRemoveRows(st.rules, gone, v6);
    if RoleOf(row, port, true, None).Decides? {
      var j, s := PlainRowSpec(added, st, v6, row);
      var four := SpecHasRow(st, added, v6, j, false);
      if four in ApplyPlan(st.rules, Deletes(gone), v6) {
        NoV4Left(added, st, open, v6, four);
        assert false;
      } else {
        var k := GoneRowDoomed(added, st, open, v6, four);
        var only := RowHasOneSpec(st, added, v6, four);
        assert k == j;
        DoomedRowGone(added, st, open, v6, j, row);
        assert false;
      }
    }
  }

  // ---- The new row decides ----

  lemma {:induction false} TargetDecides(open: bool, six: bool)
    ensures RoleOf(TargetRow(open, six), 22, six, None).Decides?
    ensures StateOf(TargetRow(open, six).action) == if open then Open else Closed
  {
    var row := TargetRow(open, six);
    assert row.ports == [SSH_RANGE];
    assert row.ports[0].lo <= 22 <= row.ports[0].hi;
  }

  /** Where Place puts a row that no row of its slot already equals. */
  lemma {:induction false} PlaceIsInsert(rules: seq<Rule>, row: Rule, op: Op) returns (base: seq<Rule>, at: nat)
    requires forall r :: r in rules && SameSlot(r, row) ==> r.action != row.action
    ensures at <= |base| && Place(rules, row, op) == InsertAt(base, at, row)
    ensures forall r :: r in base ==> r in rules
    ensures op.Add? || at == Spot(base, row.v6, op)
  {
    hide SameSlot;
    var i := IndexMatch(rules, row);
    base := if i < |rules| then RemoveAt(rules, i) else rules;
    at := Spot(base, row.v6, op);
    if i < |rules| {
      assert rules[i] in rules;
      if op.Add? {
        at := i;
        assert rules[i := row] == InsertAt(base, i, row);
      }
    }
  }

  /** Placed at its spot, or in place, with no deciding row of its family above it. */
  lemma {:induction false} PlacedDecides(rules: seq<Rule>, row: Rule, op: Op, port: int, peer: Option<Addr>)
    requires RoleOf(row, port, row.v6, peer).Decides?
    requires forall r :: r in rules && SameSlot(r, row) ==> r.action != row.action
    requires !op.Add? || forall r :: r in rules ==> !RoleOf(r, port, row.v6, peer).Decides?
    ensures var d := Deciding(Place(rules, row, op), port, row.v6, peer); d != [] && d[0] == row
  {
    hide RoleOf, SameSlot, Deciding, Place;
    var base, at := PlaceIsInsert(rules, row, op);
    forall r | r in base[..at]
      ensures !RoleOf(r, port, row.v6, peer).Decides?
    {
      assert r in base;
      if !op.Add? {
        var k :| 0 <= k < at && base[k] == r;
        OtherFamilySkipped(r, port, row.v6, peer);
      }
    }
    DecidingNone(base[..at], port, row.v6, peer);
    DecidingAround(base, at, row, port, row.v6, peer);
    DecidingOne(row, port, row.v6, peer);
  }

  lemma {:induction false} OtherFamilySkipped(r: Rule, port: int, v6: bool, peer: Option<Addr>)
    ensures r.v6 != v6 ==> !RoleOf(r, port, v6, peer).Decides?
  {
  }

  lemma {:induction false} PlaceMembers(rules: seq<Rule>, row: Rule, op: Op)
    ensures forall r :: r in Place(rules, row, op) ==> r == row || r in rules
  {
    hide SameSlot;
  }

  lemma {:induction false} SlotIsSshKey(r: Rule, open: bool, six: bool)
    requires SameSlot(r, TargetRow(open, six))
    ensures KeyOf(r) == SSH_KEY
  {
    SameMatchIsSameKey(r, TargetRow(open, six));
    TargetKey(open, six);
  }

  lemma {:induction false} TargetFirst(added: seq<Spec>, st: Status, open: bool, v6: bool, six: bool)
    requires Consistent(st, added, v6) && (six ==> v6)
    ensures var out := ApplyPlan(st.rules, SshPortPlan(added, st, open), v6);
            var d := Deciding(out, 22, six, None); d != [] && d[0] == TargetRow(open, six)
  {
    hide RoleOf, ApplyPlan, Place, TargetRow, SshPortPlan, DoomedSpecs, SomeStay, KeyOf, SameSlot;
    var rest, op := PlanApplied(added, st, open, v6);
    var row4, row6 := TargetRow(open, false), TargetRow(open, true);
    TargetRowFamily(open);
    TargetDecides(open, six);
    var four := Place(rest, row4, op);
    forall r | r in rest
      ensures !(KeyOf(r) == SSH_KEY && r.action == Wanted(open))
      ensures op.Add? ==> r.v6 && !RoleOf(r, 22, true, None).Decides? && !RoleOf(r, 22, false, None).Decides?
    {
      NoCopyLeft(added, st, open, v6, r);
      if op.Add? {
        NoV4Left(added, st, open, v6, r);
        NoV6Decides(added, st, open, v6, r, 22);
        OtherFamilySkipped(r, 22, false, None);
      }
    }
    if !six {
      forall r | r in rest && SameSlot(r, row4)
        ensures r.action != row4.action
      {
        SlotIsSshKey(r, open, false);
      }
      PlacedDecides(rest, row4, op, 22, None);
      TargetIsMute(four, open, true, op, 22, false, None);
    } else {
      PlaceMembers(rest, row4, op);
      forall r | r in four
        ensures SameSlot(r, row6) ==> r.action != row6.action
        ensures op.Add? ==> !RoleOf(r, 22, true, None).Decides?
      {
        if r == row4 {
          OtherFamilySkipped(r, 22, true, None);
          SlotsOfOneFamily(row4, row6);
        } else if SameSlot(r, row6) {
          SlotIsSshKey(r, open, true);
        }
      }
      PlacedDecides(four, row6, op, 22, None);
    }
  }

  lemma {:induction false} SlotsOfOneFamily(a: Rule, b: Rule)
    ensures SameSlot(a, b) ==> a.v6 == b.v6
  {
  }

  lemma {:induction false} TargetRowFamily(open: bool)
    ensures !TargetRow(open, false).v6 && TargetRow(open, true).v6
    ensures TargetRow(open, false).action == Wanted(open) == TargetRow(open, true).action
  {
  }

  /** From a consistent list, simulating the plan leaves port 22 open (or closed) for an
      arbitrary host in every family ufw has, also when `add` had to replace `insert 1`. */
  lemma {:induction false} SshPortPlanWorks(added: seq<Spec>, st: Status, open: bool, v6: bool, six: bool)
    requires Consistent(st, added, v6) && (six ==> v6)
    ensures Verdict(Simulate(st, SshPortPlan(added, st, open), v6).rules, st.policy, 22, six, None).state ==
            if open then Open else Closed
  {
    hide Verdict, ApplyPlan, Deciding, SshPortPlan, TargetRow;
    TargetFirst(added, st, open, v6, six);
    TargetDecides(open, six);
    var out := ApplyPlan(st.rules, SshPortPlan(added, st, open), v6);
    StateOfDeciding(out, st.policy, 22, six, None);
    SameRulesSameState(Renumber(out), out, st.policy, 22, six, None);
  }

  // ---- When there is a rule to insert before ----

  lemma {:induction false} PlainSpecMatches(spec: Spec, row: Rule, st: Status, open: bool)
    requires SpecRule(spec).Some? && Doomed(spec, st, open) && RowOf(row, Read(spec)) && !row.partial
    ensures MatchesRow(ParseRuleSpec(spec).value, row)
  {
    hide SpecRule, ParseRuleSpec;
    var s := ParseRuleSpec(spec).value;
    SshOnlyIsPlain(s, st);
    PlainSpecsRead(spec);
    RowOfFields(row, Read(spec));
  }

  /** `insert 1`, which ufw refuses in an empty IPv4 list, is planned exactly when an IPv4 row is left,
      or when a deleted IPv4 row has a source port: such a row is deleted but counted as staying. */
  lemma {:induction false} InsertExactly(added: seq<Spec>, st: Status, open: bool, v6: bool)
    requires Consistent(st, added, v6)
    ensures var plan := SshPortPlan(added, st, open);
            var dels := plan[..|plan| - 1];
            var rest := ApplyPlan(st.rules, dels, v6);
            && (forall i :: 0 <= i < |dels| ==> dels[i].op.Delete?)
            && (plan[|plan| - 1].op == Insert || plan[|plan| - 1].op == Add)
            && (plan[|plan| - 1].op == Insert <==>
                  (exists r :: r in rest && !r.v6) || exists r :: r in st.rules && r !in rest && !r.v6 && r.partial)
  {
    hide SpecRule, ParseRuleSpec, RowOf, DoomedSpecs, ApplyPlan, MustGo, MatchesRow;
    var gone := DoomedSpecs(added, st, open);
    var plan := SshPortPlan(added, st, open);
    var rest := ApplyPlan(st.rules, Deletes(gone), v6);
    assert plan[..|plan| - 1] == Deletes(gone);
    forall r | r in rest && !r.v6
      ensures SomeStay(st, gone)
    {
      if !SomeStay(st, gone) {
        NoV4Left(added, st, open, v6, r);
        assert false;
      }
    }
    forall r | r in st.rules && !r.v6 && r.partial
      ensures SomeStay(st, gone)
    {
      var i :| 0 <= i < |st.rules| && st.rules[i] == r;
      PartialStays(st.rules[i], gone);
    }
    if SomeStay(st, gone) {
      var i :| 0 <= i < |st.rules| && Stays(st.rules[i], gone);
      var row := st.rules[i];
      if row !in rest && !row.partial {
        var j := GoneRowDoomed(added, st, open, v6, row);
        PlainSpecMatches(added[j], row, st, open);
        DoomedSpecsAreDoomed(added, st, open);
        assert false;
      }
    }
  }

  /** Anyone, from port 22. */
  const FROM_SSH: Spec := [Text("allow"), Text("from"), ANY, Text("port"), SSH_ANY]

  lemma {:induction false} FromSshIsQuiet()
    ensures StripNoise(FROM_SSH) == FROM_SSH && FROM_SSH[1..] == [Text("from"), ANY] + [Text("port"), SSH_ANY]
    ensures NONE !in FROM_SSH
  {
    assert forall i :: 0 <= i < |FROM_SSH| ==>
        FROM_SSH[i] != Text("log") && FROM_SSH[i] != Text("log-all") && FROM_SSH[i] != Text("comment") && FROM_SSH[i] != NONE;
    NothingToStrip(FROM_SSH);
  }

  lemma {:induction false} FromSshReads()
    ensures SpecRule(FROM_SSH) == Some(Parsed(Blank(Allow).(partial := true), Both))
  {
    hide SpecRule, ReadPairs;
    FromSshIsQuiet();
    PlainHead(FROM_SSH, Allow);
    PairThen(START, Text("from"), ANY, [Text("port"), SSH_ANY]);
    assert [Text("port"), SSH_ANY] + [] == [Text("port"), SSH_ANY];
    PairThen(START.(side := "from"), Text("port"), SSH_ANY, []);
    NoMorePairs(START.(side := "from", partial := true));
  }

  lemma {:induction false} SpecPairThen(a: SpecReading, k: Word, v: Word, rest: Spec)
    requires |rest| % 2 == 0 && ReadSpecPair(a, k, v).Some?
    ensures ReadSpecPairs(a, [k, v] + rest) == ReadSpecPairs(ReadSpecPair(a, k, v).value, rest)
  {
    assert ([k, v] + rest)[2..] == rest;
  }

  lemma {:induction false} FromSshReadsNarrowly()
    ensures ParseRuleSpec(FROM_SSH) == Some(RuleSpec(Allow, SSH_ANY, "", true))
  {
    hide ReadSpecPairs, StripNoise;
    FromSshIsQuiet();
    SpecPairThen(SPEC_START, Text("from"), ANY, [Text("port"), SSH_ANY]);
    assert [Text("port"), SSH_ANY] + [] == [Text("port"), SSH_ANY];
    SpecPairThen(SPEC_START, Text("port"), SSH_ANY, []);
    NoMoreSpecPairs(SPEC_START.(port := SSH_ANY));
  }

  lemma {:induction false} NoMoreSpecPairs(a: SpecReading)
    ensures ReadSpecPairs(a, []) == Some(a)
  {
  }

  lemma {:induction false} FromSshIsListed(st: Status)
    requires st.rules == [RowIn(Blank(Allow).(partial := true), false)]
    ensures Consistent(st, [FROM_SSH], false)
  {
    hide SpecRule, RowRaw;
    FromSshReads();
    FromSshIsQuiet();
    var row := st.rules[0];
    var ids := Ids(st.rules);
    forall id: RowId
      ensures id in ids <==> id in SpecRows(ReadAll([FROM_SSH]), false)
    {
      assert id in ids <==> id == Id(row);
      assert IsRowOf(id, ReadAll([FROM_SSH])[0], false) <==> id == Id(row);
    }
  }

  /** That happens: with one rule for a source port 22 as the only one, closing port 22 deletes it and
      then inserts at position 1 of the empty list. */
  lemma {:induction false} InsertIntoNothing(st: Status)
    requires st.rules == [RowIn(Blank(Allow).(partial := true), false)]
    ensures Consistent(st, [FROM_SSH], false)
    ensures SshPortPlan([FROM_SSH], st, false) == [Change(Delete, FROM_SSH), Change(Insert, Target(false))]
    ensures ApplyPlan(st.rules, [Change(Delete, FROM_SSH)], false) == []
  {
    hide SpecRule, ParseRuleSpec, RowRaw, Consistent;
    FromSshIsListed(st);
    FromSshReads();
    FromSshReadsNarrowly();
    assert [FROM_SSH][1..] == [] && [Change(Delete, FROM_SSH)][1..] == [] && st.rules[1..] == [];
    assert Doomed(FROM_SSH, st, false);
    assert DoomedSpecs([FROM_SSH], st, false) == [FROM_SSH] + DoomedSpecs([], st, false) == [FROM_SSH];
    assert Deletes([FROM_SSH]) == [Change(Delete, FROM_SSH)];
    PartialStays(st.rules[0], [FROM_SSH]);
    assert SomeStay(st, [FROM_SSH]);
    assert RowOf(st.rules[0], Read(FROM_SSH));
    assert WithoutRowsOf(st.rules, Read(FROM_SSH)) == WithoutRowsOf(st.rules[1..], Read(FROM_SSH)) == [];
    assert ApplyChange(st.rules, Change(Delete, FROM_SSH), false) == [];
  }

  lemma {:induction false} PartialStays(row: Rule, gone: seq<Spec>)
    requires !row.v6 && row.partial
    ensures Stays(row, gone)
  {
    hide ParseRuleSpec;
  }

  // ---- Nothing that says the opposite is left ----

  /** The row concerns everyone, and port 22 and nothing else; an app's ports are those its rows show. */
  predicate AboutSshAlone(row: Rule, st: Status) {
    && row.dir.In? && row.from.None? && row.dst.None? && row.iface == "" && !row.partial
    && (if row.app == "" then row.ports == [PortRange(22, 22)] && (row.proto == "" || row.proto == "tcp")
        else forall i :: 0 <= i < |st.rules| && st.rules[i].app == row.app ==>
               !st.rules[i].unresolved && st.rules[i].ports == [PortRange(22, 22)] && st.rules[i].proto != "udp")
  }

  /** Only rules about port 22 alone are deleted that say the opposite, or are the new rule already; a
      rule for a source port apart, which says nothing about a port by itself. */
  lemma {:induction false} OnlySshIsDeleted(added: seq<Spec>, st: Status, open: bool, v6: bool, row: Rule)
    requires Consistent(st, added, v6) && row in st.rules && !row.partial
    requires var plan := SshPortPlan(added, st, open); row !in ApplyPlan(st.rules, plan[..|plan| - 1], v6)
    ensures AboutSshAlone(row, st) && row.proto != "udp"
    ensures row.action.Admits() != open
            || (row.app == "" && row.proto == "tcp" && row.action == if open then Allow else Deny)
  {
    hide SpecRule, ParseRuleSpec, RowOf, DoomedSpecs, ApplyPlan;
    var plan := SshPortPlan(added, st, open);
    assert plan[..|plan| - 1] == Deletes(DoomedSpecs(added, st, open));
    var j := GoneRowDoomed(added, st, open, v6, row);
    var s := ParseRuleSpec(added[j]).value;
    PlainSpecsRead(added[j]);
    RowOfFields(row, ReadAll(added)[j]);
    var i :| 0 <= i < |st.rules| && st.rules[i] == row;
  }

  /** An app whose ports are not shown is never taken for SSH. */
  lemma {:induction false} UnknownAppStays(spec: Spec, st: Status, open: bool)
    requires Doomed(spec, st, open) && ParseRuleSpec(spec).value.app != ""
    ensures exists row :: row in st.rules && row.app == ParseRuleSpec(spec).value.app && row.ports == [PortRange(22, 22)]
  {
    hide ParseRuleSpec;
    var i :| 0 <= i < |st.rules| && st.rules[i].app == ParseRuleSpec(spec).value.app;
    assert st.rules[i] in st.rules;
  }

  /** After opening port 22 no rule about it alone refuses, and after closing it none admits, app rules
      included. */
  lemma {:induction false} NoOpponentLeft(added: seq<Spec>, st: Status, open: bool, v6: bool, row: Rule)
    requires Consistent(st, added, v6)
    requires row in ApplyPlan(st.rules, SshPortPlan(added, st, open), v6) && AboutSshAlone(row, st)
    ensures row.action.Admits() <==> open
  {
    hide SpecRule, ParseRuleSpec, RowOf, DoomedSpecs, ApplyPlan, Place, SshPortPlan, AboutSshAlone;
    var rest, op := PlanApplied(added, st, open, v6);
    TargetRowFamily(open);
    PlaceMembers(rest, TargetRow(open, false), op);
    PlaceMembers(Place(rest, TargetRow(open, false), op), TargetRow(open, true), op);
    if row in rest {
      OpponentIsGone(added, st, open, v6, row);
    } else {
      TargetActs(open);
    }
  }

  lemma {:induction false} TargetActs(open: bool)
    ensures TargetRow(open, false).action == (if open then Allow else Deny) == TargetRow(open, true).action
  {
  }

  lemma {:induction false} OpponentIsGone(added: seq<Spec>, st: Status, open: bool, v6: bool, row: Rule)
    requires Consistent(st, added, v6) && AboutSshAlone(row, st)
    requires row in ApplyPlan(st.rules, Deletes(DoomedSpecs(added, st, open)), v6)
    ensures !Opposes(row.action, open)
  {
    hide SpecRule, ParseRuleSpec, RowOf, DoomedSpecs, ApplyPlan;
    DoomedReadable(added, st, open);
    DeletesRemoveRows(st.rules, DoomedSpecs(added, st, open), v6);
    if Opposes(row.action, open) {
      var j, s := PlainRowSpec(added, st, v6, row);
      var i :| 0 <= i < |st.rules| && st.rules[i] == row;
      assert SshOnly(s, st);
      DoomedRowGone(added, st, open, v6, j, row);
      assert false;
    }
  }

  // ---- Taking it back ----

  lemma {:induction false} DoomedKeysOnce(added: seq<Spec>, st: Status, open: bool)
    requires KeysOnce(added)
    ensures KeysOnce(DoomedSpecs(added, st, open))
  {
    hide SpecRule, KeyOf, Doomed;
    DoomedReadable(added, st, open);
    if added != [] {
      KeysOnceTail(added);
      DoomedKeysOnce(added[1..], st, open);
      DoomedSpecsAreDoomed(added[1..], st, open);
      var rest := DoomedSpecs(added[1..], st, open);
      assert [] + rest == rest;
      if Doomed(added[0], st, open) {
        forall s | s in rest
          ensures KeyOf(Read(s).rule) != KeyOf(Read(added[0]).rule)
        {
          HeadKeyAlone(added, s);
        }
        KeysOnceCons(added[0], rest);
      }
    }
  }

  lemma {:induction false} AvoidsUntouched(t: Table, plan: Plan, k: Key)
    requires Avoids(plan, k)
    ensures k in EditAll(t, plan) <==> k in t
    decreases |plan|
  {
    hide SpecRule, KeyOf;
    if plan != [] {
      AvoidsUntouched(Edit(t, plan[0]), plan[1..], k);
    }
  }

  lemma {:induction false} InverseAvoids(plan: Plan, k: Key)
    requires Avoids(plan, k)
    ensures Avoids(Inverse(plan), k)
  {
    hide SpecRule, KeyOf;
    if plan != [] {
      assert Avoids(plan[1..], k);
      InverseAvoids(plan[1..], k);
      assert Avoids([Undo(plan[0])], k) by {
        assert Undo(plan[0]).spec == plan[0].spec;
        assert plan[0] in plan;
      }
      AvoidsConcat(Inverse(plan[1..]), [Undo(plan[0])], k);
    }
  }

  lemma {:induction false} InverseConcat(p: Plan, q: Plan)
    ensures Inverse(p + q) == Inverse(q) + Inverse(p)
  {
    if p == [] {
      assert p + q == q;
    } else {
      assert (p + q)[0] == p[0] && (p + q)[1..] == p[1..] + q;
      InverseConcat(p[1..], q);
    }
  }

  /** There is a rule over exactly 22/tcp that the plan neither deletes nor copies: a limit
      when opening, a reject when closing. */
  predicate HasLeftover(st: Status, open: bool) {
    exists i :: 0 <= i < |st.rules| && KeyOf(st.rules[i]) == SSH_KEY && st.rules[i].action == Leftover(open)
  }

  lemma {:induction false} LeftoverInTable(added: seq<Spec>, st: Status, open: bool, v6: bool)
    requires Consistent(st, added, v6)
    ensures var t := TableOfAdded(added);
            HasLeftover(st, open) <==> SSH_KEY in t && t[SSH_KEY] == Leftover(open)
  {
    hide KeyOf, TableOfAdded;
    ConsistentRows(st, added, v6);
    var t := TableOfAdded(added);
    if SSH_KEY in t && t[SSH_KEY] == Leftover(open) {
      var id := RowId(SSH_KEY, false, Leftover(open));
      assert id in Rows(t, v6);
      var r :| r in st.rules && Id(r) == id;
      var i :| 0 <= i < |st.rules| && st.rules[i] == r;
    }
    if i :| 0 <= i < |st.rules| && KeyOf(st.rules[i]) == SSH_KEY && st.rules[i].action == Leftover(open) {
      assert Id(st.rules[i]) in Ids(st.rules);
    }
  }

  /** The plan deletes whatever the table says about 22/tcp, except a leftover. */
  lemma {:induction false} DeletesSshKey(added: seq<Spec>, st: Status, open: bool, v6: bool)
    requires Consistent(st, added, v6)
    ensures var t, gone := TableOfAdded(added), DoomedSpecs(added, st, open);
            && ExactAll(t, Deletes(gone))
            && (SSH_KEY in EditAll(t, Deletes(gone)) <==> HasLeftover(st, open))
            && (HasLeftover(st, open) ==> Avoids(Deletes(gone), SSH_KEY))
  {
    hide SpecRule, KeyOf, ParseRuleSpec, DoomedSpecs, HasLeftover, SshOnly;
    var t, gone, ps := TableOfAdded(added), DoomedSpecs(added, st, open), ReadAll(added);
    AddedKeysOnce(st, added, v6);
    DoomedKeysOnce(added, st, open);
    forall i | 0 <= i < |gone|
      ensures KeyAt(gone, i) in t && t[KeyAt(gone, i)] == ActionAt(gone, i)
      ensures KeyAt(gone, i) == SSH_KEY ==> ActionAt(gone, i) != Leftover(open)
    {
      DoomedInTable(added, st, open, v6, i);
    }
    DeletesExact(t, gone);
    LeftoverInTable(added, st, open, v6);
    if SSH_KEY in t && t[SSH_KEY] != Leftover(open) {
      SshKeyDoomed(added, st, open, v6);
    }
    if HasLeftover(st, open) {
      forall i | 0 <= i < |gone|
        ensures KeyAt(gone, i) != SSH_KEY
      {
      }
      DeletesAvoid(gone, SSH_KEY);
    }
  }

  lemma {:induction false} DeletesAvoid(specs: seq<Spec>, k: Key)
    requires Readable(specs) && forall i :: 0 <= i < |specs| ==> KeyAt(specs, i) != k
    ensures Avoids(Deletes(specs), k)
  {
    hide KeyOf, SpecRule;
    forall i | 0 <= i < |specs|
      ensures KeyOf(Read(Deletes(specs)[i].spec).rule) != k
    {
      assert KeyAt(specs, i) != k;
    }
  }

  lemma {:induction false} DoomedInTable(added: seq<Spec>, st: Status, open: bool, v6: bool, i: nat)
    requires Consistent(st, added, v6) && i < |DoomedSpecs(added, st, open)|
    requires Readable(DoomedSpecs(added, st, open))
    ensures var t, gone := TableOfAdded(added), DoomedSpecs(added, st, open);
            && KeyAt(gone, i) in t && t[KeyAt(gone, i)] == ActionAt(gone, i)
            && (KeyAt(gone, i) == SSH_KEY ==> ActionAt(gone, i) != Leftover(open))
  {
    hide SpecRule, KeyOf, Doomed, DoomedSpecs;
    var gone := DoomedSpecs(added, st, open);
    DoomedSpecsAreDoomed(added, st, open);
    assert gone[i] in added;
    var j :| 0 <= j < |added| && added[j] == gone[i];
    TableHasSpec(ReadAll(added), j);
    DoomedActionIs(gone[i], st, open);
  }

  /** The spec of a 22/tcp rule other than a leftover is among the doomed. */
  lemma {:induction false} SshKeyDoomed(added: seq<Spec>, st: Status, open: bool, v6: bool)
    requires Consistent(st, added, v6) && Readable(DoomedSpecs(added, st, open))
    requires SSH_KEY in TableOfAdded(added) && TableOfAdded(added)[SSH_KEY] != Leftover(open)
    ensures Names(DoomedSpecs(added, st, open), SSH_KEY)
  {
    hide SpecRule, KeyOf, Doomed, DoomedSpecs;
    var ps, gone := ReadAll(added), DoomedSpecs(added, st, open);
    var j := TableKeyHasSpec(ps, SSH_KEY);
    TableHasSpec(ps, j);
    SshKeySpecDoomed(added[j], st, open);
    DoomedSpecsAreDoomed(added, st, open);
    assert added[j] in added && added[j] in gone;
    var i :| 0 <= i < |gone| && gone[i] == added[j];
    NamedAt(gone, i);
  }

  lemma {:induction false} DoomedActionIs(spec: Spec, st: Status, open: bool)
    requires Doomed(spec, st, open) && SpecRule(spec).Some?
    ensures KeyOf(Read(spec).rule) == SSH_KEY ==> Read(spec).rule.action != Leftover(open)
  {
    hide SpecRule, ParseRuleSpec, SshOnly;
    assert SshOnly(ParseRuleSpec(spec).value, st) ==> ParseRuleSpec(spec).value.plain by {
      SshOnlyIsPlain(ParseRuleSpec(spec).value, st);
    }
    PlainSpecsRead(spec);
  }

  lemma {:induction false} SshOnlyIsPlain(r: RuleSpec, st: Status)
    ensures SshOnly(r, st) ==> r.plain
  {
  }

  lemma {:induction false} SshKeySpecDoomed(spec: Spec, st: Status, open: bool)
    requires SpecRule(spec).Some? && NONE !in spec
    requires KeyOf(Read(spec).rule) == SSH_KEY && Read(spec).rule.action != Leftover(open)
    ensures Doomed(spec, st, open)
  {
    hide SpecRule, ParseRuleSpec;
    ReadersAgreeOnPlainRules(spec);
  }

  /** Opening or closing port 22 and then running the inverse plan gives back the rows, up
      to their order, if and only if no limit (opening) or reject (closing) rule of exactly
      22/tcp was there: that rule is replaced by the new one and not brought back. */
  lemma {:induction false} SshPortPlanUndone(added: seq<Spec>, st: Status, open: bool, v6: bool)
    requires Consistent(st, added, v6)
    ensures var plan := SshPortPlan(added, st, open);
            Ids(Simulate(Simulate(st, plan, v6), Inverse(plan), v6).rules) == Ids(st.rules) <==> !HasLeftover(st, open)
  {
    hide SpecRule, KeyOf, DoomedSpecs, HasLeftover, Simulate, SomeStay, TableOfAdded;
    var t, gone, plan := TableOfAdded(added), DoomedSpecs(added, st, open), SshPortPlan(added, st, open);
    var dels, add := Deletes(gone), plan[|plan| - 1];
    assert plan == dels + [add];
    ConsistentRows(st, added, v6);
    DeletesSshKey(added, st, open, v6);
    TargetReads(open);
    TargetKey(open, false);
    KeyIgnoresFamily(Blank(Wanted(open)).(ports := [SSH_RANGE], proto := "tcp"), false);
    var u := EditAll(t, dels);
    EditAllConcat(t, dels, [add]);
    assert [add][1..] == [];
    assert EditAll(u, [add]) == u[SSH_KEY := Wanted(open)];
    if HasLeftover(st, open) {
      var back := EditAll(EditAll(t, plan), Inverse(plan));
      assert SSH_KEY !in back by {
        InverseConcat(dels, [add]);
        assert Inverse([add]) == [Undo(add)] by {
          assert [add][1..] == [] && Inverse([]) == [] && [] + [Undo(add)] == [Undo(add)];
        }
        EditAllConcat(EditAll(t, plan), [Undo(add)], Inverse(dels));
        assert [Undo(add)][1..] == [];
        var v := EditAll(EditAll(t, plan), [Undo(add)]);
        assert SSH_KEY !in v;
        InverseAvoids(dels, SSH_KEY);
        AvoidsUntouched(v, Inverse(dels), SSH_KEY);
      }
      LeftoverInTable(added, st, open, v6);
      SimulateEdits(st, t, plan, v6);
      SimulateEdits(Simulate(st, plan, v6), EditAll(t, plan), Inverse(plan), v6);
      if Rows(back, v6) == Rows(t, v6) {
        RowsDetermineTable(back, t, v6);
        assert false;
      }
    } else {
      assert ExactAll(u, [add]);
      ExactPlanUndone(st, t, plan, v6);
    }
  }

  /** The leftover rule as `ufw show added` prints it. */
  function LeftoverSpec(open: bool): Spec {
    [ActionWord(Leftover(open)), SSH_TCP]
  }

  /** That happens: whatever the consistent list, once the limit (or reject) rule of 22/tcp is added to
      it, opening (or closing) port 22 cannot be taken back. */
  lemma {:induction false} LeftoverIsLost(added: seq<Spec>, st: Status, open: bool, v6: bool)
    requires Consistent(st, added, v6)
    ensures var more := [Change(Add, LeftoverSpec(open))];
            var u, specs := Simulate(st, more, v6), AddedAfterAll(added, more);
            var plan := SshPortPlan(specs, u, open);
            && Consistent(u, specs, v6) && HasLeftover(u, open)
            && Ids(Simulate(Simulate(u, plan, v6), Inverse(plan), v6).rules) != Ids(u.rules)
  {
    hide SpecRule, KeyOf, Simulate, SshPortPlan, TableOfAdded, HasLeftover, Consistent, AddedAfterAll;
    var more := [Change(Add, LeftoverSpec(open))];
    var u, specs := Simulate(st, more, v6), AddedAfterAll(added, more);
    assert NONE !in LeftoverSpec(open);
    PlansKeepConsistency(st, added, more, v6);
    ConsistentIsListing(st, added, v6);
    ConsistentIsListing(u, specs, v6);
    var t := TableOfAdded(added);
    LeftoverAdded(t, open);
    ConsistentRows(st, added, v6);
    ConsistentRows(u, specs, v6);
    SimulateEdits(st, t, more, v6);
    RowsDetermineTable(TableOfAdded(specs), EditAll(t, more), v6);
    LeftoverInTable(specs, u, open, v6);
    SshPortPlanUndone(specs, u, open, v6);
  }

  lemma {:induction false} ConsistentIsListing(st: Status, added: seq<Spec>, v6: bool)
    requires Consistent(st, added, v6)
    ensures Listing(st.rules) && Readable(added)
  {
    hide Listing, SpecRule;
  }

  lemma {:induction false} LeftoverAdded(t: Table, open: bool)
    ensures EditAll(t, [Change(Add, LeftoverSpec(open))]) == t[SSH_KEY := Leftover(open)]
  {
    hide SpecRule;
    SshSpecReads(Leftover(open));
    assert [Change(Add, LeftoverSpec(open))][1..] == [];
  }
}
