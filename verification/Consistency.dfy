/** What `ufw show added` prints after a change, and that a simulated list and the added specs
    stay consistent over every run of plans. */
module Consistency {
  import opened RuleModel
  import opened RuleSpecs
  import opened Simulation
  import opened Planning

  /** The change takes the place of the added spec: it is over the same traffic, and, for a
      deletion, says the same. */
  predicate Displaces(c: Change, spec: Spec) {
    match SpecRule(c.spec)
    case None => false
    case Some(p) =>
      match SpecRule(spec)
      case None => false
      case Some(q) => KeyOf(p.rule) == KeyOf(q.rule) && (c.op.Delete? ==> p.rule.action == q.rule.action)
  }

  function Kept(added: seq<Spec>, c: Change): seq<Spec> {
    if added == [] then []
    else (if Displaces(c, added[0]) then [] else [added[0]]) + Kept(added[1..], c)
  }

  /** The added specs after one change. */
  function AddedAfter(added: seq<Spec>, c: Change): seq<Spec> {
    Kept(added, c) + (if c.op.Delete? || SpecRule(c.spec).None? then [] else [c.spec])
  }

  function AddedAfterAll(added: seq<Spec>, plan: Plan): seq<Spec>
    decreases |plan|
  {
    if plan == [] then added else AddedAfterAll(AddedAfter(added, plan[0]), plan[1..])
  }

  lemma {:induction false} KeptHas(added: seq<Spec>, c: Change, spec: Spec)
    ensures spec in Kept(added, c) <==> spec in added && !Displaces(c, spec)
  {
    hide Displaces;
    if added != [] {
      KeptHas(added[1..], c, spec);
      assert spec in added <==> spec == added[0] || spec in added[1..];
    }
  }

  /** Added specs that read, one per key, no two of them alike. */
  ghost predicate Tidy(added: seq<Spec>) {
    && Readable(added)
    && (forall j :: 0 <= j < |added| ==> NONE !in added[j])
    && forall i, j :: 0 <= i < j < |added| ==> KeyOf(Read(added[i]).rule) != KeyOf(Read(added[j]).rule)
  }

  lemma {:induction false} TidyTail(added: seq<Spec>)
    requires Tidy(added) && added != []
    ensures Tidy(added[1..])
    ensures forall s :: s in added[1..] ==> SpecRule(s).Some? && KeyOf(Read(s).rule) != KeyOf(Read(added[0]).rule)
  {
    hide KeyOf, SpecRule;
    var rest := added[1..];
    assert forall j :: 0 <= j < |rest| ==> rest[j] == added[j+1];
  }

  lemma {:induction false} TidyCons(spec: Spec, rest: seq<Spec>)
    requires Tidy(rest) && SpecRule(spec).Some? && NONE !in spec
    requires forall s :: s in rest ==> SpecRule(s).Some? && KeyOf(Read(s).rule) != KeyOf(Read(spec).rule)
    ensures Tidy([spec] + rest)
  {
    hide KeyOf, SpecRule;
    var added := [spec] + rest;
    assert forall j :: 0 < j < |added| ==> added[j] == rest[j-1] && added[j] in rest;
  }

  lemma {:induction false} TidySnoc(rest: seq<Spec>, spec: Spec)
    requires Tidy(rest) && SpecRule(spec).Some? && NONE !in spec
    requires forall s :: s in rest ==> SpecRule(s).Some? && KeyOf(Read(s).rule) != KeyOf(Read(spec).rule)
    ensures Tidy(rest + [spec])
  {
    hide KeyOf, SpecRule;
    var added := rest + [spec];
    assert forall j :: 0 <= j < |rest| ==> added[j] == rest[j] && added[j] in rest;
  }

  lemma {:induction false} KeptTidy(added: seq<Spec>, c: Change)
    requires Tidy(added)
    ensures Tidy(Kept(added, c))
  {
    hide KeyOf, SpecRule, Displaces, Tidy;
    if added != [] {
      TidyTail(added);
      TidyHead(added);
      KeptTidy(added[1..], c);
      forall s | s in Kept(added[1..], c)
        ensures s in added[1..]
      {
        KeptHas(added[1..], c, s);
      }
      TidyCons(added[0], Kept(added[1..], c));
      assert Kept(added, c) == if Displaces(c, added[0]) then Kept(added[1..], c) else [added[0]] + Kept(added[1..], c);
    } else {
      assert Kept(added, c) == added;
    }
  }

  lemma {:induction false} TidyHead(added: seq<Spec>)
    requires Tidy(added) && added != []
    ensures SpecRule(added[0]).Some? && NONE !in added[0]
  {
    hide SpecRule;
  }

  lemma {:induction false} TidyAll(added: seq<Spec>)
    requires Tidy(added)
    ensures forall s :: s in added ==> SpecRule(s).Some?
  {
    hide SpecRule;
  }

  lemma {:induction false} AfterTidy(added: seq<Spec>, c: Change)
    requires Tidy(added) && NONE !in c.spec
    ensures Tidy(AddedAfter(added, c))
  {
    hide KeyOf, SpecRule, Tidy, Kept;
    KeptTidy(added, c);
    if !c.op.Delete? && SpecRule(c.spec).Some? {
      TidyAll(Kept(added, c));
      forall s | s in Kept(added, c)
        ensures KeyOf(Read(s).rule) != KeyOf(Read(c.spec).rule)
      {
        KeptHas(added, c, s);
      }
      TidySnoc(Kept(added, c), c.spec);
    } else {
      assert AddedAfter(added, c) == Kept(added, c);
    }
  }

  /** Some spec of the list is listed as id. */
  ghost predicate ListedBy(id: RowId, added: seq<Spec>, v6: bool) {
    exists s :: s in added && SpecRule(s).Some? && IsRowOf(id, Read(s), v6)
  }

  /** What the kept specs list. */
  lemma {:induction false} KeptLists(id: RowId, added: seq<Spec>, c: Change, v6: bool)
    ensures ListedBy(id, Kept(added, c), v6) <==>
            ListedBy(id, added, v6)
            && !(SpecRule(c.spec).Some? && KeyOf(Read(c.spec).rule) == id.key && (c.op.Delete? ==> Read(c.spec).rule.action == id.action))
  {
    hide KeyOf, SpecRule, Kept;
    forall s
      ensures s in Kept(added, c) <==> s in added && !Displaces(c, s)
    {
      KeptHas(added, c, s);
    }
  }

  lemma {:induction false} AfterLists(id: RowId, added: seq<Spec>, c: Change, v6: bool)
    ensures ListedBy(id, AddedAfter(added, c), v6) <==>
            || ListedBy(id, Kept(added, c), v6)
            || (!c.op.Delete? && SpecRule(c.spec).Some? && IsRowOf(id, Read(c.spec), v6))
  {
    hide IsRowOf, SpecRule, Kept;
    assert forall s :: s in AddedAfter(added, c) <==> s in Kept(added, c) || (!c.op.Delete? && SpecRule(c.spec).Some? && s == c.spec);
  }

  /** The specs after a change list exactly the rows of the edited table. */
  lemma {:induction false} AfterListsTable(id: RowId, added: seq<Spec>, t: Table, c: Change, v6: bool)
    requires ListedBy(id, added, v6) <==> id in Rows(t, v6)
    ensures ListedBy(id, AddedAfter(added, c), v6) <==> id in Rows(Edit(t, c), v6)
  {
    hide KeyOf, SpecRule, ListedBy, AddedAfter, FamOfKey;
    KeptLists(id, added, c, v6);
    AfterLists(id, added, c, v6);
    if SpecRule(c.spec).Some? {
      KeyKeepsFamily(Read(c.spec));
    }
  }

  /** One change keeps the list and the added specs consistent. */
  lemma {:induction false} ChangeKeepsConsistency(st: Status, added: seq<Spec>, c: Change, v6: bool)
    requires Consistent(st, added, v6) && NONE !in c.spec
    ensures Consistent(st.(rules := ApplyChange(st.rules, c, v6)), AddedAfter(added, c), v6)
  {
    hide KeyOf, SpecRule, ApplyChange, AddedAfter, Listing;
    var t, after := TableOfAdded(added), AddedAfter(added, c);
    ConsistentRows(st, added, v6);
    ApplyChangeEdits(st.rules, t, c, v6);
    AfterTidy(added, c);
    var ids := Ids(ApplyChange(st.rules, c, v6));
    forall id: RowId
      ensures id in ids <==> id in SpecRows(ReadAll(after), v6)
    {
      assert id in Ids(st.rules) <==> id in SpecRows(ReadAll(added), v6);
      AfterListsTable(id, added, t, c, v6);
    }
    assert ids == SpecRows(ReadAll(after), v6);
  }

  lemma {:induction false} ApplyKeepsConsistency(st: Status, added: seq<Spec>, plan: Plan, v6: bool)
    requires Consistent(st, added, v6)
    requires forall i :: 0 <= i < |plan| ==> NONE !in plan[i].spec
    ensures Consistent(st.(rules := ApplyPlan(st.rules, plan, v6)), AddedAfterAll(added, plan), v6)
    decreases |plan|
  {
    hide ApplyChange, AddedAfter, Consistent;
    if plan == [] {
      assert st.(rules := st.rules) == st;
    } else {
      ChangeKeepsConsistency(st, added, plan[0], v6);
      ApplyKeepsConsistency(st.(rules := ApplyChange(st.rules, plan[0], v6)), AddedAfter(added, plan[0]), plan[1..], v6);
    }
  }

  /** Whatever the plan, the simulated list and the added specs after it stay consistent. */
  lemma {:induction false} PlansKeepConsistency(st: Status, added: seq<Spec>, plan: Plan, v6: bool)
    requires Consistent(st, added, v6)
    requires forall i :: 0 <= i < |plan| ==> NONE !in plan[i].spec
    ensures Consistent(Simulate(st, plan, v6), AddedAfterAll(added, plan), v6)
  {
    hide ApplyPlan, AddedAfterAll, Listing, SpecRule, Readable, ReadAll, OnePerKey;
    ApplyKeepsConsistency(st, added, plan, v6);
    RenumberKeeps(ApplyPlan(st.rules, plan, v6));
  }

  // ---- Runs ----

  /** The list and the added specs after plan upon plan. */
  function ListAfter(st: Status, plans: seq<Plan>, v6: bool): Status
    decreases |plans|
  {
    if plans == [] then st else ListAfter(Simulate(st, plans[0], v6), plans[1..], v6)
  }

  function SpecsAfter(added: seq<Spec>, plans: seq<Plan>): seq<Spec>
    decreases |plans|
  {
    if plans == [] then added else SpecsAfter(AddedAfterAll(added, plans[0]), plans[1..])
  }

  /** A list to start from: no rule and no spec. */
  lemma {:induction false} NoRulesAreConsistent(st: Status, v6: bool)
    requires st.rules == []
    ensures Consistent(st, [], v6)
  {
    assert Ids(st.rules) == SpecRows(ReadAll([]), v6);
  }

  /** Every run of plans from a consistent list, an empty one for instance, ends in one. */
  lemma {:induction false} RunsAreConsistent(st: Status, added: seq<Spec>, plans: seq<Plan>, v6: bool)
    requires Consistent(st, added, v6)
    requires forall i, j :: 0 <= i < |plans| && 0 <= j < |plans[i]| ==> NONE !in plans[i][j].spec
    ensures Consistent(ListAfter(st, plans, v6), SpecsAfter(added, plans), v6)
    decreases |plans|
  {
    hide Simulate, AddedAfterAll, Consistent;
    if plans != [] {
      PlansKeepConsistency(st, added, plans[0], v6);
      var rest := plans[1..];
      assert forall i :: 0 <= i < |rest| ==> rest[i] == plans[i+1];
      RunsAreConsistent(Simulate(st, plans[0], v6), AddedAfterAll(added, plans[0]), rest, v6);
    }
  }

  // ---- Plans of specs settle ----

  lemma {:induction false} ScanWords(added: seq<Spec>, want: Parsed, plan: Plan, present: bool)
    requires forall j :: 0 <= j < |added| ==> NONE !in added[j]
    requires forall i :: 0 <= i < |plan| ==> NONE !in plan[i].spec
    ensures forall i :: 0 <= i < |Scan(added, want, plan, present).0| ==> NONE !in Scan(added, want, plan, present).0[i].spec
  {
    hide SpecRule, SameMatch;
    if added != [] && SpecRule(added[0]).Some? {
      var p := SpecRule(added[0]).value;
      if p.fam != want.fam || !SameMatch(p.rule, want.rule) || Change(Delete, added[0]) in plan {
        ScanWords(added[1..], want, plan, present);
      } else if p.rule.action == want.rule.action {
        ScanWords(added[1..], want, plan, true);
      } else {
        ScanWords(added[1..], want, plan + [Change(Delete, added[0])], present);
      }
    } else if added != [] {
      ScanWords(added[1..], want, plan, present);
    }
  }

  lemma {:induction false} ArgsWords(s: FwSpec)
    ensures NONE !in Args(s)
  {
    var words := Args(s);
    assert forall i :: 0 <= i < |words| ==> words[i] != NONE;
  }

  lemma {:induction false} PlanOneWords(added: seq<Spec>, st: Status, s: FwSpec, v6: bool, plan: Plan)
    requires forall j :: 0 <= j < |added| ==> NONE !in added[j]
    requires forall i :: 0 <= i < |plan| ==> NONE !in plan[i].spec
    ensures var out := PlanOne(added, st, s, v6, plan);
            forall i :: 0 <= i < |out| ==> NONE !in out[i].spec
  {
    hide SpecRule, Scan, OpFor, Args;
    ArgsWords(s);
    if SpecRule(Args(s)).Some? {
      ScanWords(added, SpecRule(Args(s)).value, plan, false);
    }
  }

  lemma {:induction false} PlanWords(added: seq<Spec>, st: Status, specs: seq<FwSpec>, v6: bool, plan: Plan)
    requires forall j :: 0 <= j < |added| ==> NONE !in added[j]
    requires forall i :: 0 <= i < |plan| ==> NONE !in plan[i].spec
    ensures var out := PlanMany(added, st, specs, v6, plan);
            forall i :: 0 <= i < |out| ==> NONE !in out[i].spec
    decreases |specs|
  {
    hide PlanOne;
    if specs != [] {
      PlanOneWords(added, st, specs[0], v6, plan);
      var next := PlanOne(added, st, specs[0], v6, plan);
      PlanWords(added, st, specs[1..], v6, next);
      assert PlanMany(added, st, specs, v6, plan) == PlanMany(added, st, specs[1..], v6, next);
    }
  }

  /** Plans settle on their own list: once a plan of planSpecs is in place, planning the same
      specs again finds nothing to do. */
  lemma {:induction false} PlansSettleOnTheirOwn(added: seq<Spec>, st: Status, specs: seq<FwSpec>, v6: bool)
    requires Consistent(st, added, v6) && Independent(specs)
    requires PlanSpecs(added, st, specs, v6).Planned?
    ensures var plan := PlanSpecs(added, st, specs, v6).plan;
            PlanSpecs(AddedAfterAll(added, plan), Simulate(st, plan, v6), specs, v6) == NothingToDo
  {
    hide SpecRule, KeyOf, PlanMany, AddedAfterAll, Simulate, Independent;
    PlanWords(added, st, specs, v6, []);
    var plan := PlanSpecs(added, st, specs, v6).plan;
    assert plan == PlanMany(added, st, specs, v6, []);
    PlansKeepConsistency(st, added, plan, v6);
    hide Consistent, PlanSpecs;
    PlansSettle(added, st, specs, v6, AddedAfterAll(added, plan));
  }
}
