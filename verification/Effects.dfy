/** What a planned deny does to packets, and deleting one rule. */
module Effects {
  import opened RuleModel
  import opened Packets
  import opened RuleSpecs
  import opened Simulation
  import opened Planning

  /** Two lists that differ only in how their rows are numbered and printed. */
  predicate SameRules(a: seq<Rule>, b: seq<Rule>) {
    |a| == |b| && forall i :: 0 <= i < |a| ==> a[i] == b[i].(num := a[i].num, raw := a[i].raw)
  }

  lemma {:induction false} SameRulesSameState(a: seq<Rule>, b: seq<Rule>, policy: string, port: int, v6: bool, peer: Option<Addr>)
    requires SameRules(a, b)
    ensures var v, w := Verdict(a, policy, port, v6, peer), Verdict(b, policy, port, v6, peer);
            v.state == w.state && v.policy == w.policy && |v.except| == |w.except| && |v.unsure| == |w.unsure|
  {
    if a != [] {
      SameRulesSameState(a[1..], b[1..], policy, port, v6, peer);
      assert a[0] == b[0].(num := a[0].num, raw := a[0].raw);
      assert RoleOf(a[0], port, v6, peer) == RoleOf(b[0], port, v6, peer);
    }
  }

  /** The first row that is about the packet's family and port at all decides, and leaves
      nothing on the verdict's lists. */
  lemma {:induction false} FirstRelevantRowDecides(above: seq<Rule>, row: Rule, below: seq<Rule>,
                                                   policy: string, port: int, v6: bool, peer: Option<Addr>)
    requires forall r :: r in above ==> RoleOf(r, port, v6, peer).Skipped?
    requires RoleOf(row, port, v6, peer).Decides?
    ensures Verdict(above + [row] + below, policy, port, v6, peer) ==
            PortVerdict(StateOf(row.action), Some(row), policy, [], [])
  {
    var all := above + [row] + below;
    if above == [] {
      assert all[0] == row && all[1..] == below;
    } else {
      assert all[0] == above[0] && all[1..] == above[1..] + [row] + below;
      FirstRelevantRowDecides(above[1..], row, below, policy, port, v6, peer);
    }
  }

  /** A row put first in its family decides what it matches. */
  lemma {:induction false} FirstOfFamilyDecides(rules: seq<Rule>, at: nat, row: Rule, policy: string, port: int, peer: Option<Addr>)
    requires at <= |rules| && forall j :: 0 <= j < at ==> rules[j].v6 != row.v6
    requires RoleOf(row, port, row.v6, peer).Decides?
    ensures Verdict(InsertAt(rules, at, row), policy, port, row.v6, peer) ==
            PortVerdict(StateOf(row.action), Some(row), policy, [], [])
  {
    var above := rules[..at];
    forall r | r in above
      ensures RoleOf(r, port, row.v6, peer).Skipped?
    {
      var j :| 0 <= j < at && rules[j] == r;
    }
    FirstRelevantRowDecides(above, row, rules[at..], policy, port, row.v6, peer);
  }

  // ---- A planned deny ----

  /** The TCP ports a spec covers. */
  predicate Covers(s: FwSpec, port: int) {
    (s.proto == "" || s.proto == "tcp") && (s.ports == EVERY_PORT || s.ports.lo <= port <= s.ports.hi)
  }

  lemma {:induction false} MeaningDecides(s: FwSpec, port: int, peer: Addr)
    requires Buildable(s) && s.from.Some? && s.from.value.Contains(peer) && Covers(s, port)
    ensures RoleOf(RowIn(Meaning(s), peer.v6), port, peer.v6, Some(peer)).Decides?
  {
    var row := RowIn(Meaning(s), peer.v6);
    if row.ports != [] {
      assert row.ports[0].lo <= port <= row.ports[0].hi;
    }
  }

  /** Placing a rule over traffic nothing in its family matches, where OpFor says, puts it
      first in its family. */
  lemma {:induction false} DenyGoesFirst(rules: seq<Rule>, row: Rule, op: Op)
    requires Listing(rules) && IndexMatch(rules, row) == |rules|
    requires if row.v6 then op.Prepend?
             else op.Insert? || (op.Add? && forall r :: r in rules ==> r.v6)
    ensures Place(rules, row, op) == InsertAt(rules, Spot(rules, row.v6, op), row)
    ensures forall j :: 0 <= j < Spot(rules, row.v6, op) ==> rules[j].v6 != row.v6
  {
  }

  lemma {:induction false} AbsentFromTable(rules: seq<Rule>, t: Table, row: Rule, v6: bool)
    requires Ids(rules) == Rows(t, v6) && KeyOf(row) !in t
    ensures IndexMatch(rules, row) == |rules|
  {
    hide KeyOf, SameMatch;
    var i := IndexMatch(rules, row);
    if i < |rules| {
      assert Id(rules[i]) in Ids(rules);
      SameMatchIsSameKey(rules[i], row);
      assert false;
    }
  }

  lemma {:induction false} ApplyPlanConcat(rules: seq<Rule>, p: Plan, q: Plan, v6: bool)
    ensures ApplyPlan(rules, p + q, v6) == ApplyPlan(ApplyPlan(rules, p, v6), q, v6)
    decreases |p|
  {
    if p == [] {
      assert p + q == q;
    } else {
      assert (p + q)[0] == p[0] && (p + q)[1..] == p[1..] + q;
      ApplyPlanConcat(ApplyChange(rules, p[0], v6), p[1..], q, v6);
    }
  }

  lemma {:induction false} PlanOfOneSpec(added: seq<Spec>, st: Status, s: FwSpec, v6: bool) returns (dels: Plan, op: Op)
    requires Consistent(st, added, v6) && Buildable(s)
    requires PlanSpecs(added, st, [s], v6).Planned?
    ensures PlanSpecs(added, st, [s], v6).plan == dels + [Change(op, Args(s))]
    ensures op == OpFor(s, FamOfAddresses(s.from, None), st, dels, v6)
    ensures Listing(ApplyPlan(st.rules, dels, v6))
    ensures WantKey(s) !in EditAll(TableOfAdded(added), dels)
    ensures Ids(ApplyPlan(st.rules, dels, v6)) == Rows(EditAll(TableOfAdded(added), dels), v6)
    ensures forall i :: 0 <= i < |dels| ==> dels[i].op.Delete?
    ensures WantKey(s) !in TableOfAdded(added) ==> dels == []
  {
    hide SpecRule, KeyOf, PlanOne, WantKey, TableOfAdded, OpFor, Args;
    var t := TableOfAdded(added);
    ConsistentRows(st, added, v6);
    assert [s][1..] == [];
    assert PlanMany(added, st, [s], v6, []) == PlanOne(added, st, s, v6, []);
    var more := PlanOneGrows(added, st, s, v6, []);
    assert [] + more == more;
    GrownChangesAreExact(t, t, s, more);
    assert more != [];
    dels, op := more[..|more| - 1], more[|more| - 1].op;
    assert more == dels + [more[|more| - 1]];
    assert [] + dels == dels;
    ApplyPlanEdits(st.rules, t, dels, v6);
  }

  lemma {:induction false} DenyLandsFirst(added: seq<Spec>, st: Status, s: FwSpec, v6: bool) returns (rules: seq<Rule>, at: nat)
    requires Consistent(st, added, v6) && Buildable(s) && s.action.Deny?
    requires PlanSpecs(added, st, [s], v6).Planned?
    ensures var row := RowIn(Meaning(s), s.from.value.v6);
            && at <= |rules| && (forall j :: 0 <= j < at ==> rules[j].v6 != row.v6)
            && ApplyPlan(st.rules, PlanSpecs(added, st, [s], v6).plan, v6) == InsertAt(rules, at, row)
  {
    hide SpecRule, KeyOf, PlanSpecs, TableOfAdded, Args, RowRaw, OpFor, Place, InsertAt, SameMatch;
    var dels, op := PlanOfOneSpec(added, st, s, v6);
    rules := ApplyPlan(st.rules, dels, v6);
    ArgsReadBack(s);
    var six := s.from.value.v6;
    var row := RowIn(Meaning(s), six);
    var c := Change(op, Args(s));
    ApplyPlanConcat(st.rules, dels, [c], v6);
    assert [c][1..] == [];
    assert ApplyPlan(rules, [c], v6) == ApplyChange(rules, c, v6);
    OneFamily(rules, Meaning(s), six, op);
    assert Families(FamOfAddresses(s.from, None), v6) == [six];
    assert ApplyChange(rules, c, v6) == PlaceAll(rules, Meaning(s), [six], op);
    assert ApplyChange(rules, c, v6) == Place(rules, row, op);
    KeyIgnoresFamily(Meaning(s), six);
    AbsentFromTable(rules, EditAll(TableOfAdded(added), dels), row, v6);
    DenyOp(s, st, dels, v6);
    DenyGoesFirst(rules, row, op);
    at := Spot(rules, six, op);
  }

  lemma {:induction false} DenyOp(s: FwSpec, st: Status, dels: Plan, v6: bool)
    requires s.action.Deny? && s.from.Some?
    ensures var op := OpFor(s, FamOfAddresses(s.from, None), st, dels, v6);
            if s.from.value.v6 then op.Prepend?
            else op.Insert? || (op.Add? && forall r :: r in ApplyPlan(st.rules, dels, v6) ==> r.v6)
  {
    hide ApplyPlan;
  }

  lemma {:induction false} OneFamily(rules: seq<Rule>, r: Rule, six: bool, op: Op)
    ensures PlaceAll(rules, r, [six], op) == Place(rules, RowIn(r, six), op)
  {
    assert [six][1..] == [];
  }

  lemma {:induction false} KeyIgnoresFamily(r: Rule, six: bool)
    ensures KeyOf(RowIn(r, six)) == KeyOf(r)
  {
  }

  /** A planned deny takes effect: from a consistent list, when planSpecs plans one deny with
      a source, then in the simulated list the verdict for every address of that source on
      every covered TCP port is closed, with no exceptions and nothing unsure. */
  lemma {:induction false} PlannedDenyCloses(added: seq<Spec>, st: Status, s: FwSpec, v6: bool, port: int, peer: Addr)
    requires Consistent(st, added, v6) && Buildable(s) && s.action.Deny?
    requires PlanSpecs(added, st, [s], v6).Planned?
    requires s.from.value.Contains(peer) && Covers(s, port)
    ensures var after := Simulate(st, PlanSpecs(added, st, [s], v6).plan, v6);
            var v := Verdict(after.rules, after.policy, port, peer.v6, Some(peer));
            v.state == Closed && v.except == [] && v.unsure == []
  {
    hide SpecRule, KeyOf, PlanSpecs, RoleOf, Verdict, InsertAt, ApplyPlan;
    var rules, at := DenyLandsFirst(added, st, s, v6);
    var row := RowIn(Meaning(s), peer.v6);
    MeaningDecides(s, port, peer);
    FirstOfFamilyDecides(rules, at, row, st.policy, port, Some(peer));
    var plan := PlanSpecs(added, st, [s], v6).plan;
    var listed := ApplyPlan(st.rules, plan, v6);
    SameRulesSameState(Renumber(listed), listed, st.policy, port, peer.v6, Some(peer));
  }

  /** ... so no such packet is let in, whatever the hidden qualifiers of the other rows. */
  lemma {:induction false} PlannedDenyRefusesPackets(added: seq<Spec>, st: Status, s: FwSpec, v6: bool,
                                                     hidden: (Rule, Packet) -> bool, p: Packet)
    requires Consistent(st, added, v6) && Buildable(s) && s.action.Deny?
    requires PlanSpecs(added, st, [s], v6).Planned?
    requires s.from.value.Contains(p.src) && Covers(s, p.port)
    ensures !Delivered(Simulate(st, PlanSpecs(added, st, [s], v6).plan, v6), hidden, p)
  {
    hide SpecRule, KeyOf, PlanSpecs, RoleOf, Verdict, Simulate, FieldsMatch, Consistent, Buildable, Covers;
    PlannedDenyCloses(added, st, s, v6, p.port, p.src);
    ClosedRefusesEveryPacket(Simulate(st, PlanSpecs(added, st, [s], v6).plan, v6), hidden, p, p.port, p.src.v6, Some(p.src));
  }

  // ---- deleteBuild ----

  /** The spec a row is listed for: the first added one that lists it. */
  function RowSpec(row: Rule, added: seq<Spec>): Option<Spec> {
    if added == [] then None
    else
      match SpecRule(added[0])
      case Some(p) => if RowOf(row, p) then Some(added[0]) else RowSpec(row, added[1..])
      case None => RowSpec(row, added[1..])
  }

  lemma {:induction false} RowSpecIsAdded(row: Rule, added: seq<Spec>) returns (j: nat)
    requires Readable(added) && RowSpec(row, added).Some?
    ensures j < |added| && RowSpec(row, added) == Some(added[j]) && RowOf(row, Read(added[j]))
  {
    hide SpecRule, RowOf;
    if RowOf(row, Read(added[0])) {
      j := 0;
    } else {
      var i := RowSpecIsAdded(row, added[1..]);
      j := i + 1;
    }
  }

  /** rowSpecs, for one row: its loop over the added specs. */
  method FindSpec(row: Rule, added: seq<Spec>) returns (spec: Option<Spec>)
    ensures spec == RowSpec(row, added)
  {
    hide SpecRule, RowOf;
    assert added[0..] == added;
    for i := 0 to |added|
      invariant RowSpec(row, added[i..]) == RowSpec(row, added)
    {
      assert added[i..][0] == added[i] && added[i..][1..] == added[i+1..];
      var p := SpecRule(added[i]);
      if p.Some? && RowOf(row, p.value) {
        return Some(added[i]);
      }
    }
    return None;
  }

  /** ruleID: a row by its spec and family, or by what it prints when no spec lists it. */
  datatype RowName = BySpec(spec: Spec, v6: bool) | ByText(action: Action, raw: seq<Word>)

  function NameOf(row: Rule, added: seq<Spec>): RowName {
    match RowSpec(row, added)
    case Some(spec) => BySpec(spec, row.v6)
    case None => ByText(row.action, row.raw)
  }

  datatype DeleteAnswer = RowGone | NotIncoming | NotAdded | Deletion(plan: Plan, after: Status)

  /** deleteBuild: the first row of that name. A row that is gone, outgoing or of no added rule is
      not deleted; any other is, by its spec. */
  method DeleteBuild(st: Status, added: seq<Spec>, name: RowName, v6: bool) returns (r: DeleteAnswer)
    ensures r.RowGone? <==> forall i :: 0 <= i < |st.rules| ==> NameOf(st.rules[i], added) != name
    ensures !r.RowGone? ==>
              exists i :: 0 <= i < |st.rules| && NameOf(st.rules[i], added) == name
                          && (forall k :: 0 <= k < i ==> NameOf(st.rules[k], added) != name)
                          && var row := st.rules[i];
                             if !row.dir.In? then r == NotIncoming
                             else match RowSpec(row, added)
                                  case None => r == NotAdded
                                  case Some(spec) =>
                                    r == Deletion([Change(Delete, spec)], Simulate(st, [Change(Delete, spec)], v6))
  {
    hide RowSpec, Simulate;
    for i := 0 to |st.rules|
      invariant forall k :: 0 <= k < i ==> NameOf(st.rules[k], added) != name
    {
      var row := st.rules[i];
      var spec := FindSpec(row, added);
      if (if spec.Some? then BySpec(spec.value, row.v6) else ByText(row.action, row.raw)) == name {
        if !row.dir.In? {
          return NotIncoming;
        }
        if spec.None? {
          return NotAdded;
        }
        var plan := [Change(Delete, spec.value)];
        var after := SimulateInPlace(st, plan, v6);
        return Deletion(plan, after);
      }
    }
    return RowGone;
  }

  /** In a consistent list every row has a spec, and no two rows have one name. */
  lemma {:induction false} RowsAreNamed(added: seq<Spec>, st: Status, v6: bool, i: nat, j: nat)
    requires Consistent(st, added, v6) && i < |st.rules| && j < |st.rules|
    ensures RowSpec(st.rules[i], added).Some?
    ensures NameOf(st.rules[i], added) == NameOf(st.rules[j], added) ==> i == j
  {
    hide SpecRule, KeyOf, RowOf, IsRowOf;
    EveryRowHasSpec(added, st, v6, st.rules[i]);
    EveryRowHasSpec(added, st, v6, st.rules[j]);
    var m := RowSpecIsAdded(st.rules[i], added);
    var n := RowSpecIsAdded(st.rules[j], added);
    RowOfIsSameKey(st.rules[i], Read(added[m]));
    RowOfIsSameKey(st.rules[j], Read(added[n]));
    SameMatchIsSameKey(st.rules[i], st.rules[j]);
    SameMatchIsSameKey(st.rules[j], st.rules[i]);
  }

  lemma {:induction false} EveryRowHasSpec(added: seq<Spec>, st: Status, v6: bool, row: Rule)
    requires Consistent(st, added, v6) && row in st.rules
    ensures RowSpec(row, added).Some?
  {
    hide SpecRule, KeyOf, RowOf, IsRowOf;
    var j := RowHasOneSpec(st, added, v6, row);
    SpecIsFound(row, added, j);
  }

  lemma {:induction false} SpecIsFound(row: Rule, added: seq<Spec>, j: nat)
    requires j < |added| && SpecRule(added[j]).Some? && RowOf(row, SpecRule(added[j]).value)
    ensures RowSpec(row, added).Some?
  {
    hide SpecRule, RowOf;
    if j > 0 {
      SpecIsFound(row, added[1..], j - 1);
    }
  }

  /** Deleting a row by its spec takes out every row of that row's traffic and no other, and
      is undone by spec. */
  lemma {:induction false} DeleteBySpec(added: seq<Spec>, st: Status, v6: bool, row: Rule)
    requires Consistent(st, added, v6) && row in st.rules
    ensures RowSpec(row, added).Some?
    ensures var plan := [Change(Delete, RowSpec(row, added).value)];
            var after := Simulate(st, plan, v6);
            && (forall id: RowId :: id in Ids(after.rules) <==> id in Ids(st.rules) && id.key != KeyOf(row))
            && Ids(Simulate(after, Inverse(plan), v6).rules) == Ids(st.rules)
  {
    hide SpecRule, KeyOf, RowOf, Simulate;
    EveryRowHasSpec(added, st, v6, row);
    var j := RowSpecIsAdded(row, added);
    var ps, spec := ReadAll(added), added[j];
    var t, plan := TableOfAdded(added), [Change(Delete, spec)];
    ConsistentRows(st, added, v6);
    TableHasSpec(ps, j);
    RowOfIsSameKey(row, ps[j]);
    assert plan[1..] == [];
    assert EditAll(t, plan) == Edit(t, plan[0]) == t - {KeyOf(row)};
    assert ExactAll(t, plan);
    SimulateEdits(st, t, plan, v6);
    ExactPlanUndone(st, t, plan, v6);
  }

  // ---- Deleting or adding a list of specs ----

  function Deletes(specs: seq<Spec>): (plan: Plan)
    ensures |plan| == |specs|
    ensures forall i :: 0 <= i < |specs| ==> plan[i] == Change(Delete, specs[i])
  {
    seq(|specs|, i requires 0 <= i < |specs| => Change(Delete, specs[i]))
  }

  function Adds(specs: seq<Spec>): (plan: Plan)
    ensures |plan| == |specs|
    ensures forall i :: 0 <= i < |specs| ==> plan[i] == Change(Add, specs[i])
  {
    seq(|specs|, i requires 0 <= i < |specs| => Change(Add, specs[i]))
  }

  function KeyAt(specs: seq<Spec>, i: nat): Key
    requires Readable(specs) && i < |specs|
  {
    KeyOf(Read(specs[i]).rule)
  }

  function ActionAt(specs: seq<Spec>, i: nat): Action
    requires Readable(specs) && i < |specs|
  {
    Read(specs[i]).rule.action
  }

  ghost predicate KeysOnce(specs: seq<Spec>) {
    Readable(specs) && forall i, j :: 0 <= i < j < |specs| ==> KeyAt(specs, i) != KeyAt(specs, j)
  }

  /** Some spec is about traffic k. */
  ghost predicate Names(specs: seq<Spec>, k: Key)
    requires Readable(specs)
  {
    exists i :: 0 <= i < |specs| && KeyAt(specs, i) == k
  }

  lemma {:induction false} NamesStep(specs: seq<Spec>, k: Key)
    requires Readable(specs) && specs != []
    ensures Names(specs, k) <==> KeyAt(specs, 0) == k || Names(specs[1..], k)
  {
    hide SpecRule, KeyOf;
    var rest := specs[1..];
    if i: nat :| i < |specs| && KeyAt(specs, i) == k {
      if i > 0 {
        assert rest[i - 1] == specs[i] && KeyAt(rest, i - 1) == k;
      }
    }
    if i: nat :| i < |rest| && KeyAt(rest, i) == k {
      assert rest[i] == specs[i + 1] && KeyAt(specs, i + 1) == k;
    }
  }

  lemma {:induction false} KeysOnceTail(specs: seq<Spec>)
    requires KeysOnce(specs) && specs != []
    ensures KeysOnce(specs[1..]) && !Names(specs[1..], KeyAt(specs, 0))
    ensures forall i :: 0 <= i < |specs| - 1 ==> KeyAt(specs[1..], i) == KeyAt(specs, i + 1)
                                                    && ActionAt(specs[1..], i) == ActionAt(specs, i + 1)
  {
    hide SpecRule, KeyOf;
    var rest := specs[1..];
    forall i | 0 <= i < |rest|
      ensures SpecRule(rest[i]).Some? && KeyAt(rest, i) == KeyAt(specs, i + 1) && ActionAt(rest, i) == ActionAt(specs, i + 1)
    {
      assert rest[i] == specs[i + 1];
    }
    forall i, j | 0 <= i < j < |rest|
      ensures KeyAt(rest, i) != KeyAt(rest, j)
    {
      assert KeyAt(specs, i + 1) != KeyAt(specs, j + 1);
    }
  }

  /** Deleting specs that are in the table, one per key, is exact and removes their keys. */
  lemma {:induction false} DeletesExact(t: Table, specs: seq<Spec>)
    requires KeysOnce(specs)
    requires forall i :: 0 <= i < |specs| ==> KeyAt(specs, i) in t && t[KeyAt(specs, i)] == ActionAt(specs, i)
    ensures ExactAll(t, Deletes(specs))
    ensures var u := EditAll(t, Deletes(specs));
            forall k :: (k in u <==> k in t && !Names(specs, k)) && (k in u ==> u[k] == t[k])
    decreases |specs|
  {
    hide SpecRule, KeyOf, Names;
    if specs != [] {
      assert Deletes(specs)[1..] == Deletes(specs[1..]);
      KeysOnceTail(specs);
      var next := t - {KeyAt(specs, 0)};
      DeletesExact(next, specs[1..]);
      assert Edit(t, Deletes(specs)[0]) == next && Exact(t, Deletes(specs)[0]);
      forall k: Key
        ensures Names(specs, k) <==> KeyAt(specs, 0) == k || Names(specs[1..], k)
      {
        NamesStep(specs, k);
      }
    } else {
      assert forall k :: !Names(specs, k) by {
        NothingNamed();
      }
    }
  }

  lemma {:induction false} NothingNamed()
    ensures forall k :: !Names([], k)
  {
  }

  /** Adding specs over traffic the table does not know, one per key, is exact and adds them. */
  lemma {:induction false} AddsExact(t: Table, specs: seq<Spec>)
    requires KeysOnce(specs)
    requires forall i :: 0 <= i < |specs| ==> KeyAt(specs, i) !in t
    ensures ExactAll(t, Adds(specs))
    ensures var u := EditAll(t, Adds(specs));
            && (forall k :: (k in u <==> k in t || Names(specs, k)) && (k in t ==> u[k] == t[k]))
            && (forall i :: 0 <= i < |specs| ==> u[KeyAt(specs, i)] == ActionAt(specs, i))
    decreases |specs|
  {
    hide SpecRule, KeyOf, Names;
    if specs != [] {
      assert Adds(specs)[1..] == Adds(specs[1..]);
      KeysOnceTail(specs);
      var k0 := KeyAt(specs, 0);
      var next := t[k0 := ActionAt(specs, 0)];
      forall i | 0 <= i < |specs[1..]|
        ensures KeyAt(specs[1..], i) !in next
      {
        assert KeyAt(specs[1..], i) == KeyAt(specs, i + 1);
      }
      AddsExact(next, specs[1..]);
      assert Edit(t, Adds(specs)[0]) == next && Exact(t, Adds(specs)[0]);
      forall k: Key
        ensures Names(specs, k) <==> k0 == k || Names(specs[1..], k)
      {
        NamesStep(specs, k);
      }
      var u := EditAll(t, Adds(specs));
      assert u == EditAll(next, Adds(specs[1..]));
      forall i | 0 <= i < |specs|
        ensures KeyAt(specs, i) in u && u[KeyAt(specs, i)] == ActionAt(specs, i)
      {
        if i > 0 {
          assert KeyAt(specs[1..], i - 1) == KeyAt(specs, i);
          NamedAt(specs, i);
        }
      }
    } else {
      assert forall k :: !Names(specs, k) by {
        NothingNamed();
      }
    }
  }

  lemma {:induction false} NamedAt(specs: seq<Spec>, i: nat)
    requires Readable(specs) && i < |specs|
    ensures Names(specs, KeyAt(specs, i))
  {
    hide SpecRule, KeyOf;
  }

  lemma {:induction false} AddedKeysOnce(st: Status, added: seq<Spec>, v6: bool)
    requires Consistent(st, added, v6)
    ensures KeysOnce(added)
  {
    hide SpecRule, KeyOf;
    assert forall i :: 0 <= i < |added| ==> KeyAt(added, i) == KeyOf(ReadAll(added)[i].rule);
  }

  lemma {:induction false} KeysOnceCons(s: Spec, rest: seq<Spec>)
    requires SpecRule(s).Some? && KeysOnce(rest)
    requires forall r :: r in rest ==> KeyOf(Read(r).rule) != KeyOf(Read(s).rule)
    ensures KeysOnce([s] + rest)
  {
    hide SpecRule, KeyOf;
    var out := [s] + rest;
    forall i | 0 <= i < |out|
      ensures SpecRule(out[i]).Some?
    {
      assert i > 0 ==> out[i] == rest[i - 1];
    }
    forall i, j | 0 <= i < j < |out|
      ensures KeyAt(out, i) != KeyAt(out, j)
    {
      assert out[j] == rest[j - 1] && KeyAt(out, j) == KeyAt(rest, j - 1);
      assert i > 0 ==> out[i] == rest[i - 1] && KeyAt(out, i) == KeyAt(rest, i - 1);
    }
  }

  /** The tail of a list has no spec over its head's traffic. */
  lemma {:induction false} HeadKeyAlone(specs: seq<Spec>, r: Spec)
    requires KeysOnce(specs) && specs != [] && r in specs[1..]
    ensures KeyOf(Read(r).rule) != KeyOf(Read(specs[0]).rule)
  {
    hide SpecRule, KeyOf;
    var k :| 0 <= k < |specs[1..]| && specs[1..][k] == r;
    assert specs[k + 1] == r;
    assert KeyAt(specs, 0) != KeyAt(specs, k + 1);
  }
}
