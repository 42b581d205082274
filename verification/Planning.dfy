/** Plans: inverting them, planning the bot's own specs, and what such a plan achieves. */
module Planning {
  import opened RuleModel
  import opened RuleSpecs
  import opened Simulation

  // ---- Inverse ----

  function Undo(c: Change): Change {
    if c.op.Delete? then Change(Add, c.spec) else Change(Delete, c.spec)
  }

  /** fwPlan.inverse: every change undone by spec, last change first. */
  function Inverse(plan: Plan): Plan {
    if plan == [] then [] else Inverse(plan[1..]) + [Undo(plan[0])]
  }

  method InverseOf(plan: Plan) returns (inv: Plan)
    ensures inv == Inverse(plan)
  {
    inv := [];
    var i := |plan| - 1;
    assert plan[|plan|..] == [];
    while i >= 0
      invariant -1 <= i < |plan|
      invariant inv == Inverse(plan[i+1..])
    {
      var c := plan[i];
      assert plan[i..][0] == c && plan[i..][1..] == plan[i+1..];
      if c.op.Delete? {
        inv := inv + [Change(Add, c.spec)];
      } else {
        inv := inv + [Change(Delete, c.spec)];
      }
      i := i - 1;
    }
    assert plan[0..] == plan;
  }

  /** c changes exactly what its inverse takes back: it deletes a rule that is there, or
      adds one over traffic no rule matches. */
  predicate Exact(t: Table, c: Change) {
    match SpecRule(c.spec)
    case None => false
    case Some(p) =>
      if c.op.Delete? then KeyOf(p.rule) in t && t[KeyOf(p.rule)] == p.rule.action
      else KeyOf(p.rule) !in t
  }

  predicate ExactAll(t: Table, plan: Plan)
    decreases |plan|
  {
    plan == [] || (Exact(t, plan[0]) && ExactAll(Edit(t, plan[0]), plan[1..]))
  }

  lemma {:induction false} EditAllConcat(t: Table, p: Plan, q: Plan)
    ensures EditAll(t, p + q) == EditAll(EditAll(t, p), q)
    ensures ExactAll(t, p + q) <==> ExactAll(t, p) && ExactAll(EditAll(t, p), q)
    decreases |p|
  {
    if p == [] {
      assert p + q == q;
    } else {
      assert (p + q)[0] == p[0] && (p + q)[1..] == p[1..] + q;
      EditAllConcat(Edit(t, p[0]), p[1..], q);
    }
  }

  lemma {:induction false} InverseRestores(t: Table, plan: Plan)
    requires ExactAll(t, plan)
    ensures EditAll(EditAll(t, plan), Inverse(plan)) == t
    decreases |plan|
  {
    if plan != [] {
      var u := Edit(t, plan[0]);
      InverseRestores(u, plan[1..]);
      EditAllConcat(EditAll(u, plan[1..]), Inverse(plan[1..]), [Undo(plan[0])]);
    }
  }

  /** Simulating an exact plan and then its inverse gives back the rows, up to their order. */
  lemma {:induction false} ExactPlanUndone(st: Status, t: Table, plan: Plan, v6: bool)
    requires Listing(st.rules) && Ids(st.rules) == Rows(t, v6) && ExactAll(t, plan)
    ensures Ids(Simulate(Simulate(st, plan, v6), Inverse(plan), v6).rules) == Ids(st.rules)
  {
    SimulateEdits(st, t, plan, v6);
    SimulateEdits(Simulate(st, plan, v6), EditAll(t, plan), Inverse(plan), v6);
    InverseRestores(t, plan);
  }

  lemma {:induction false} SimulateEdits(st: Status, t: Table, plan: Plan, v6: bool)
    requires Listing(st.rules) && Ids(st.rules) == Rows(t, v6)
    ensures Listing(Simulate(st, plan, v6).rules)
    ensures Ids(Simulate(st, plan, v6).rules) == Rows(EditAll(t, plan), v6)
  {
    ApplyPlanEdits(st.rules, t, plan, v6);
    RenumberKeeps(ApplyPlan(st.rules, plan, v6));
  }

  // ---- planSpecs ----

  const MAX_USER_RULES := 64

  datatype PlanResult = Planned(plan: Plan) | TooMany(count: int) | NothingToDo

  /** One pass over the added specs for one wanted rule: rules over the same traffic with
      another action are deleted, one with the same action makes it present. */
  function Scan(added: seq<Spec>, want: Parsed, plan: Plan, present: bool): (Plan, bool) {
    if added == [] then (plan, present)
    else
      match SpecRule(added[0])
      case None => Scan(added[1..], want, plan, present)
      case Some(p) =>
        if p.fam != want.fam || !SameMatch(p.rule, want.rule) || Change(Delete, added[0]) in plan then
          Scan(added[1..], want, plan, present)
        else if p.rule.action == want.rule.action then
          Scan(added[1..], want, plan, true)
        else
          Scan(added[1..], want, plan + [Change(Delete, added[0])], present)
  }

  predicate HasV4(rules: seq<Rule>) {
    exists i :: 0 <= i < |rules| && !rules[i].v6
  }

  function OpFor(s: FwSpec, fam: Fam, st: Status, plan: Plan, v6: bool): (op: Op)
    ensures !op.Delete?
  {
    if !s.action.Deny? then Add
    else if fam == OnlyV6 then Prepend
    else if HasV4(Simulate(st, plan, v6).rules) then Insert
    else Add
  }

  function PlanOne(added: seq<Spec>, st: Status, s: FwSpec, v6: bool, plan: Plan): Plan {
    match SpecRule(Args(s))
    case None => plan + [Change(OpFor(s, Both, st, plan, v6), Args(s))]
    case Some(want) =>
      var (scanned, present) := Scan(added, want, plan, false);
      if present then scanned
      else scanned + [Change(OpFor(s, want.fam, st, scanned, v6), Args(s))]
  }

  function PlanMany(added: seq<Spec>, st: Status, specs: seq<FwSpec>, v6: bool, plan: Plan): Plan
    decreases |specs|
  {
    if specs == [] then plan
    else PlanMany(added, st, specs[1..], v6, PlanOne(added, st, specs[0], v6, plan))
  }

  /** How many rules ufw holds after plan, by counting changes. */
  function CountAfter(n: int, plan: Plan): int {
    if plan == [] then n
    else CountAfter(n, plan[..|plan| - 1]) + (if plan[|plan| - 1].op.Delete? then -1 else 1)
  }

  function Settle(plan: Plan, count: int): PlanResult {
    if count > MAX_USER_RULES then TooMany(count)
    else if plan == [] then NothingToDo
    else Planned(plan)
  }

  function PlanSpecs(added: seq<Spec>, st: Status, specs: seq<FwSpec>, v6: bool): PlanResult {
    var plan := PlanMany(added, st, specs, v6, []);
    Settle(plan, CountAfter(|added|, plan))
  }

  /** The inner loop of planSpecs, with its count of rules. */
  method ScanTheAdded(added: seq<Spec>, want: Parsed, start: Plan, startCount: int) returns (plan: Plan, count: int, present: bool)
    requires startCount == CountAfter(|added|, start)
    ensures (plan, present) == Scan(added, want, start, false)
    ensures count == CountAfter(|added|, plan)
  {
    hide SpecRule, SameMatch;
    plan, count, present := start, startCount, false;
    var j := 0;
    assert added[0..] == added;
    while j < |added|
      invariant 0 <= j <= |added|
      invariant Scan(added[j..], want, plan, present) == Scan(added, want, start, false)
      invariant count == CountAfter(|added|, plan)
    {
      var spec := added[j];
      assert added[j..][0] == spec && added[j..][1..] == added[j+1..];
      j := j + 1;
      var p := SpecRule(spec);
      if p.None? || p.value.fam != want.fam || !SameMatch(p.value.rule, want.rule) || Change(Delete, spec) in plan {
        continue;
      }
      if p.value.rule.action == want.rule.action {
        present := true;
        continue;
      }
      plan := plan + [Change(Delete, spec)];
      count := count - 1;
    }
  }

  /** planSpecs: the loop over the specs. */
  method PlanTheSpecs(added: seq<Spec>, st: Status, specs: seq<FwSpec>, v6: bool) returns (r: PlanResult)
    requires forall i :: 0 <= i < |specs| ==> Buildable(specs[i])
    ensures r == PlanSpecs(added, st, specs, v6)
  {
    hide SpecRule, KeyOf, SameMatch, OpFor, Args, Scan;
    var plan: Plan := [];
    var count := |added|;
    var i := 0;
    assert specs[0..] == specs;
    while i < |specs|
      invariant 0 <= i <= |specs|
      invariant PlanMany(added, st, specs[i..], v6, plan) == PlanMany(added, st, specs, v6, [])
      invariant count == CountAfter(|added|, plan)
    {
      var s := specs[i];
      assert specs[i..][0] == s && specs[i..][1..] == specs[i+1..];
      i := i + 1;
      ArgsReadBack(s);
      var want := SpecRule(Args(s)).value;
      var present;
      plan, count, present := ScanTheAdded(added, want, plan, count);
      if present {
        continue;
      }
      var op := OpFor(s, want.fam, st, plan, v6);
      plan := plan + [Change(op, Args(s))];
      count := count + 1;
    }
    if count > MAX_USER_RULES {
      return TooMany(count);
    } else if |plan| == 0 {
      return NothingToDo;
    }
    return Planned(plan);
  }

  // ---- What a plan of specs achieves ----

  function WantKey(s: FwSpec): Key {
    KeyOf(Meaning(s))
  }

  /** Buildable specs, no two over the same traffic. */
  ghost predicate Independent(specs: seq<FwSpec>) {
    && (forall i :: 0 <= i < |specs| ==> Buildable(specs[i]))
    && (forall i, j :: 0 <= i < j < |specs| ==> WantKey(specs[i]) != WantKey(specs[j]))
  }

  /** The table in which every spec holds. */
  function WithSpecs(t: Table, specs: seq<FwSpec>): Table
    decreases |specs|
  {
    if specs == [] then t else WithSpecs(t[WantKey(specs[0]) := specs[0].action], specs[1..])
  }

  /** No change of plan is about traffic k. */
  predicate Avoids(plan: Plan, k: Key) {
    forall i :: 0 <= i < |plan| ==>
      match SpecRule(plan[i].spec)
      case None => true
      case Some(p) => KeyOf(p.rule) != k
  }

  lemma {:induction false} ScanSkips(added: seq<Spec>, want: Parsed, plan: Plan, present: bool)
    requires Readable(added)
    requires forall j :: 0 <= j < |added| ==> KeyOf(Read(added[j]).rule) != KeyOf(want.rule)
    ensures Scan(added, want, plan, present) == (plan, present)
  {
    hide SpecRule, KeyOf, SameMatch;
    if added != [] {
      SameMatchIsSameKey(Read(added[0]).rule, want.rule);
      ScanSkips(added[1..], want, plan, present);
    }
  }

  lemma {:induction false} ScanFinds(added: seq<Spec>, want: Parsed, plan: Plan, j: nat)
    requires Readable(added) && j < |added| && WellParsed(want)
    requires forall i :: 0 <= i < |added| ==> (KeyOf(Read(added[i]).rule) == KeyOf(want.rule) <==> i == j)
    requires Avoids(plan, KeyOf(want.rule))
    ensures Scan(added, want, plan, false) ==
            if Read(added[j]).rule.action == want.rule.action then (plan, true)
            else (plan + [Change(Delete, added[j])], false)
  {
    hide SpecRule, KeyOf, SameMatch;
    SameMatchIsSameKey(Read(added[0]).rule, want.rule);
    KeyKeepsFamily(want);
    KeyKeepsFamily(Read(added[0]));
    if j == 0 {
      var rest := added[1..];
      forall i | 0 <= i < |rest|
        ensures KeyOf(Read(rest[i]).rule) != KeyOf(want.rule)
      {
        assert rest[i] == added[i + 1];
      }
      ScanSkips(rest, want, plan, true);
      ScanSkips(rest, want, plan + [Change(Delete, added[0])], false);
    } else {
      ScanFinds(added[1..], want, plan, j - 1);
    }
  }

  /** Where the added rules stand on the traffic of one wanted rule. */
  lemma {:induction false} ScanOutcome(added: seq<Spec>, want: Parsed, plan: Plan) returns (dels: Plan, present: bool)
    requires Readable(added) && OnePerKey(ReadAll(added)) && WellParsed(want)
    requires Avoids(plan, KeyOf(want.rule))
    ensures Scan(added, want, plan, false) == (plan + dels, present)
    ensures var t, k := TableOfAdded(added), KeyOf(want.rule);
            && (present <==> k in t && t[k] == want.rule.action)
            && (dels != [] <==> k in t && t[k] != want.rule.action)
            && (dels != [] ==> |dels| == 1 && dels[0].op.Delete?
                               && SpecRule(dels[0].spec).Some?
                               && KeyOf(Read(dels[0].spec).rule) == k && Read(dels[0].spec).rule.action == t[k])
  {
    hide SpecRule, KeyOf, SameMatch, Scan;
    var ps, k := ReadAll(added), KeyOf(want.rule);
    assert forall i :: 0 <= i < |added| ==> Read(added[i]) == ps[i];
    if k in TableOf(ps) {
      var j := TableKeyHasSpec(ps, k);
      TableHasSpec(ps, j);
      ScanFinds(added, want, plan, j);
      present := ps[j].rule.action == want.rule.action;
      dels := if present then [] else [Change(Delete, added[j])];
      assert plan + [] == plan;
    } else {
      forall j | 0 <= j < |added|
        ensures KeyOf(Read(added[j]).rule) != k
      {
        TableHasSpec(ps, j);
      }
      ScanSkips(added, want, plan, false);
      present, dels := false, [];
      assert plan + [] == plan;
    }
  }

  /** The changes one spec adds to a plan: an opposite rule deleted, then the rule itself. */
  ghost predicate GrowsBy(t: Table, s: FwSpec, more: Plan) {
    && |more| <= 2
    && (more != [] ==> more[|more| - 1].spec == Args(s) && !more[|more| - 1].op.Delete?)
    && (|more| == 2 ==> more[0].op.Delete? && SpecRule(more[0].spec).Some?
                        && KeyOf(Read(more[0].spec).rule) == WantKey(s)
                        && WantKey(s) in t && t[WantKey(s)] == Read(more[0].spec).rule.action)
    && (more == [] <==> WantKey(s) in t && t[WantKey(s)] == s.action)
    && (|more| == 1 <==> WantKey(s) !in t)
  }

  lemma {:induction false} PlanOneGrows(added: seq<Spec>, st: Status, s: FwSpec, v6: bool, plan: Plan) returns (more: Plan)
    requires Readable(added) && OnePerKey(ReadAll(added)) && Buildable(s)
    requires Avoids(plan, WantKey(s))
    ensures PlanOne(added, st, s, v6, plan) == plan + more
    ensures GrowsBy(TableOfAdded(added), s, more)
    ensures more != [] ==>
              more[|more| - 1].op == OpFor(s, FamOfAddresses(s.from, None), st, plan + more[..|more| - 1], v6)
  {
    hide SpecRule, KeyOf, SameMatch, Scan, OpFor, Args;
    ArgsReadBack(s);
    var want := SpecRule(Args(s)).value;
    assert KeyOf(want.rule) == WantKey(s) && want.rule.action == s.action;
    var dels, present := ScanOutcome(added, want, plan);
    if present {
      more := [];
      assert dels == [];
    } else {
      var add := Change(OpFor(s, want.fam, st, plan + dels, v6), Args(s));
      more := dels + [add];
      assert dels != [] ==> more[0] == dels[0];
      assert more[..|more| - 1] == dels;
      assert plan + more == plan + dels + [add];
    }
  }

  /** Two changes: a rule over traffic k taken out, another put in. */
  lemma {:induction false} SwapIsExact(u: Table, del: Change, add: Change, k: Key, action: Action)
    requires del.op.Delete? && !add.op.Delete? && SpecRule(del.spec).Some? && SpecRule(add.spec).Some?
    requires KeyOf(Read(del.spec).rule) == k && k in u && u[k] == Read(del.spec).rule.action
    requires KeyOf(Read(add.spec).rule) == k && Read(add.spec).rule.action == action
    ensures ExactAll(u, [del, add])
    ensures EditAll(u, [del, add]) == u[k := action]
    ensures EditAll(u, [del]) == u - {k}
  {
    hide SpecRule, KeyOf;
    var v := u - {k};
    assert Edit(u, del) == v;
    assert v[k := action] == u[k := action];
    assert [del, add][1..] == [add] && [add][1..] == [] && [del][1..] == [];
    assert EditAll(u, [del, add]) == EditAll(v, [add]);
    assert EditAll(v, [add]) == EditAll(Edit(v, add), []);
    assert ExactAll(v, [add]);
    assert ExactAll(u, [del, add]);
  }

  /** Grown changes are exact and make the spec hold, from any table that agrees on the
      spec's traffic. */
  lemma {:induction false} GrownChangesAreExact(t: Table, u: Table, s: FwSpec, more: Plan)
    requires Buildable(s) && GrowsBy(t, s, more)
    requires (WantKey(s) in t <==> WantKey(s) in u) && (WantKey(s) in t ==> t[WantKey(s)] == u[WantKey(s)])
    ensures ExactAll(u, more)
    ensures EditAll(u, more) == u[WantKey(s) := s.action]
    ensures |more| == 2 ==> EditAll(u, more[..1]) == u - {WantKey(s)}
    ensures forall k :: k != WantKey(s) ==> Avoids(more, k)
  {
    hide SpecRule, KeyOf, Args;
    ArgsReadBack(s);
    var k := WantKey(s);
    if |more| == 1 {
      assert more == [more[0]];
    } else if |more| == 2 {
      assert more == [more[0], more[1]] && more[..1] == [more[0]];
      SwapIsExact(u, more[0], more[1], k, s.action);
    }
  }

  lemma {:induction false} AvoidsConcat(p: Plan, q: Plan, k: Key)
    ensures Avoids(p + q, k) <==> Avoids(p, k) && Avoids(q, k)
  {
    hide SpecRule, KeyOf;
    assert forall i :: 0 <= i < |p| ==> (p + q)[i] == p[i];
    assert forall i :: 0 <= i < |q| ==> (p + q)[|p| + i] == q[i];
  }

  /** The whole plan: exact changes, after which every spec holds; it is empty only when
      every spec held already. */
  lemma {:induction false} PlanManyAchieves(added: seq<Spec>, st: Status, specs: seq<FwSpec>, v6: bool, plan: Plan)
    requires Readable(added) && OnePerKey(ReadAll(added)) && Independent(specs)
    requires ExactAll(TableOfAdded(added), plan)
    requires forall i :: 0 <= i < |specs| ==> Avoids(plan, WantKey(specs[i]))
    requires var t, u := TableOfAdded(added), EditAll(TableOfAdded(added), plan);
             forall i :: 0 <= i < |specs| ==>
               var k := WantKey(specs[i]); (k in t <==> k in u) && (k in t ==> t[k] == u[k])
    ensures var t, out := TableOfAdded(added), PlanMany(added, st, specs, v6, plan);
            && ExactAll(t, out)
            && EditAll(t, out) == WithSpecs(EditAll(t, plan), specs)
            && (out == [] <==> plan == [] && forall i :: 0 <= i < |specs| ==>
                  WantKey(specs[i]) in t && t[WantKey(specs[i])] == specs[i].action)
    decreases |specs|
  {
    hide SpecRule, KeyOf, PlanOne, Avoids, WantKey, Buildable, TableOfAdded;
    if specs != [] {
      var t, s, rest := TableOfAdded(added), specs[0], specs[1..];
      var u := EditAll(t, plan);
      var more := PlanOneGrows(added, st, s, v6, plan);
      GrownChangesAreExact(t, u, s, more);
      EditAllConcat(t, plan, more);
      forall i | 0 <= i < |rest|
        ensures rest[i] == specs[i + 1] && WantKey(rest[i]) != WantKey(s) && Avoids(plan + more, WantKey(rest[i]))
      {
        AvoidsConcat(plan, more, WantKey(rest[i]));
      }
      PlanManyAchieves(added, st, rest, v6, plan + more);
    }
  }

  lemma {:induction false} WithSpecsHolds(t: Table, specs: seq<FwSpec>, i: nat)
    requires Independent(specs) && i < |specs|
    ensures WantKey(specs[i]) in WithSpecs(t, specs) && WithSpecs(t, specs)[WantKey(specs[i])] == specs[i].action
    decreases |specs|
  {
    hide WantKey, Buildable;
    var u := t[WantKey(specs[0]) := specs[0].action];
    if i == 0 {
      WithSpecsKeeps(u, specs[1..], WantKey(specs[0]));
    } else {
      WithSpecsHolds(u, specs[1..], i - 1);
    }
  }

  lemma {:induction false} WithSpecsKeeps(t: Table, specs: seq<FwSpec>, k: Key)
    requires forall i :: 0 <= i < |specs| ==> WantKey(specs[i]) != k
    ensures k in WithSpecs(t, specs) <==> k in t
    ensures k in t ==> WithSpecs(t, specs)[k] == t[k]
    decreases |specs|
  {
    hide WantKey;
    if specs != [] {
      WithSpecsKeeps(t[WantKey(specs[0]) := specs[0].action], specs[1..], k);
    }
  }

  lemma {:induction false} WithSpecsSettled(t: Table, specs: seq<FwSpec>)
    requires forall i :: 0 <= i < |specs| ==> WantKey(specs[i]) in t && t[WantKey(specs[i])] == specs[i].action
    ensures WithSpecs(t, specs) == t
    decreases |specs|
  {
    hide WantKey;
    if specs != [] {
      assert t[WantKey(specs[0]) := specs[0].action] == t;
      WithSpecsSettled(t, specs[1..]);
    }
  }

  /** Counting the changes of an exact plan counts the rules. */
  lemma {:induction false} CountIsSize(t: Table, plan: Plan)
    requires ExactAll(t, plan)
    ensures CountAfter(|t|, plan) == |EditAll(t, plan)|
  {
    hide SpecRule, KeyOf;
    if plan != [] {
      var init, last := plan[..|plan| - 1], plan[|plan| - 1];
      assert plan == init + [last];
      EditAllConcat(t, init, [last]);
      CountIsSize(t, init);
      var u := EditAll(t, init);
      assert EditAll(u, [last]) == Edit(u, last) && Exact(u, last) by {
        assert [last][1..] == [];
      }
    }
  }

  /** What planSpecs answers, from a consistent list, for specs no two of which match the
      same traffic. With t the rules before and u the rules after every spec holds: it is
      refused exactly when u is over the limit, there is nothing to do exactly when u is t,
      and a plan turns t into u by changes that each can be taken back. */
  lemma {:induction false} PlanSpecsAnswers(added: seq<Spec>, st: Status, specs: seq<FwSpec>, v6: bool)
    requires Consistent(st, added, v6) && Independent(specs)
    ensures var t, r := TableOfAdded(added), PlanSpecs(added, st, specs, v6);
            var u := WithSpecs(t, specs);
            && (r.TooMany? <==> |u| > 64) && (r.TooMany? ==> r.count == |u|)
            && (r.NothingToDo? <==> u == t && |u| <= 64)
            && (r.Planned? ==> ExactAll(t, r.plan) && EditAll(t, r.plan) == u)
  {
    hide SpecRule, KeyOf, PlanMany, WantKey, TableOfAdded;
    var t := TableOfAdded(added);
    ConsistentRows(st, added, v6);
    PlanManyAchieves(added, st, specs, v6, []);
    var plan, u := PlanMany(added, st, specs, v6, []), WithSpecs(t, specs);
    CountIsSize(t, plan);
    if u == t {
      forall i | 0 <= i < |specs|
        ensures WantKey(specs[i]) in t && t[WantKey(specs[i])] == specs[i].action
      {
        WithSpecsHolds(t, specs, i);
      }
    }
    if plan == [] {
      WithSpecsSettled(t, specs);
    }
  }

  /** Undo by spec: simulating a plan of planSpecs and then its inverse gives back the rows,
      up to their order. */
  lemma {:induction false} PlannedSpecsUndone(added: seq<Spec>, st: Status, specs: seq<FwSpec>, v6: bool)
    requires Consistent(st, added, v6) && Independent(specs)
    requires PlanSpecs(added, st, specs, v6).Planned?
    ensures var plan := PlanSpecs(added, st, specs, v6).plan;
            Ids(Simulate(Simulate(st, plan, v6), Inverse(plan), v6).rules) == Ids(st.rules)
  {
    PlanSpecsAnswers(added, st, specs, v6);
    ConsistentRows(st, added, v6);
    ExactPlanUndone(st, TableOfAdded(added), PlanSpecs(added, st, specs, v6).plan, v6);
  }

  /** Plans settle: once a plan is in place, planning the same specs on any listing of the
      resulting rules finds nothing to do. */
  lemma {:induction false} PlansSettle(added: seq<Spec>, st: Status, specs: seq<FwSpec>, v6: bool, addedAfter: seq<Spec>)
    requires Consistent(st, added, v6) && Independent(specs)
    requires PlanSpecs(added, st, specs, v6).Planned?
    requires Consistent(Simulate(st, PlanSpecs(added, st, specs, v6).plan, v6), addedAfter, v6)
    ensures PlanSpecs(addedAfter, Simulate(st, PlanSpecs(added, st, specs, v6).plan, v6), specs, v6) == NothingToDo
  {
    hide SpecRule, KeyOf, PlanSpecs, WantKey, TableOfAdded, Simulate;
    PlanSpecsAnswers(added, st, specs, v6);
    ConsistentRows(st, added, v6);
    var t, plan := TableOfAdded(added), PlanSpecs(added, st, specs, v6).plan;
    var after := Simulate(st, plan, v6);
    SimulateEdits(st, t, plan, v6);
    ConsistentRows(after, addedAfter, v6);
    var u := WithSpecs(t, specs);
    RowsDetermineTable(u, TableOfAdded(addedAfter), v6);
    PlanSpecsAnswers(addedAfter, after, specs, v6);
    forall i | 0 <= i < |specs|
      ensures WantKey(specs[i]) in u && u[WantKey(specs[i])] == specs[i].action
    {
      WithSpecsHolds(t, specs, i);
    }
    WithSpecsSettled(u, specs);
  }
}
