/** Plans and their simulation on the listed rows: what a change does to the list, that the
    list stays a ufw list, and the list seen as a table from traffic to action. */
module Simulation {
  import opened RuleModel
  import opened RuleSpecs

  /** insert and prepend put a rule first in its family, add puts it last. */
  datatype Op = Insert | Prepend | Add | Delete

  datatype Change = Change(op: Op, spec: Spec)

  type Plan = seq<Change>

  // ---- Rows as ufw would print them ----

  function ActionText(a: Action): string {
    match a
    case Allow => "ALLOW"
    case Deny => "DENY"
    case Reject => "REJECT"
    case Limit => "LIMIT"
  }

  function DirText(d: Dir): string {
    match d
    case In => "IN"
    case Out => "OUT"
    case Fwd => "FWD"
  }

  function RowRaw(r: Rule): seq<Word> {
    (if r.app != "" && r.ports == [] then [Text(r.app)]
     else if r.ports == [] && r.proto == "" then [Text("Anywhere")]
     else if r.ports == [] then [Text("any/" + r.proto)]
     else [PortList(r.ports, r.proto)])
    + (if r.v6 && r.dst.None? then [Text("(v6)")] else [])
    + [Text(ActionText(r.action)), Text(DirText(r.dir))]
    + (if r.from.Some? then [Address(r.from.value)]
       else if r.v6 then [Text("Anywhere"), Text("(v6)")]
       else [Text("Anywhere")])
  }

  // ---- The list operations of simulate ----

  function WithoutRowsOf(rules: seq<Rule>, p: Parsed): (rest: seq<Rule>)
    ensures forall r :: r in rest <==> r in rules && !RowOf(r, p)
  {
    if rules == [] then []
    else if RowOf(rules[0], p) then WithoutRowsOf(rules[1..], p)
    else [rules[0]] + WithoutRowsOf(rules[1..], p)
  }

  predicate SameSlot(a: Rule, b: Rule) {
    a.v6 == b.v6 && SameMatch(a, b)
  }

  /** The first row of row's family that matches the same traffic; |rules| when none does. */
  function IndexMatch(rules: seq<Rule>, row: Rule): (i: nat)
    ensures i <= |rules|
    ensures i < |rules| ==> SameSlot(rules[i], row)
    ensures forall j :: 0 <= j < i ==> !SameSlot(rules[j], row)
  {
    if rules == [] then 0
    else if SameSlot(rules[0], row) then 0
    else 1 + IndexMatch(rules[1..], row)
  }

  /** The first IPv6 row; |rules| when there is none. */
  function FirstV6(rules: seq<Rule>): (i: nat)
    ensures i <= |rules|
    ensures i < |rules| ==> rules[i].v6
    ensures forall j :: 0 <= j < i ==> !rules[j].v6
  {
    if rules == [] then 0
    else if rules[0].v6 then 0
    else 1 + FirstV6(rules[1..])
  }

  function RemoveAt(rules: seq<Rule>, i: nat): seq<Rule>
    requires i < |rules|
  {
    rules[..i] + rules[i+1..]
  }

  function InsertAt(rules: seq<Rule>, i: nat, row: Rule): seq<Rule>
    requires i <= |rules|
  {
    rules[..i] + [row] + rules[i..]
  }

  /** Where a new row goes. */
  function Spot(rules: seq<Rule>, six: bool, op: Op): (at: nat)
    ensures at <= |rules|
  {
    if !op.Add? then (if six then FirstV6(rules) else 0)
    else if six then |rules|
    else FirstV6(rules)
  }

  /** One row of an insert, prepend or add: an existing rule is skipped, an add over the
      same traffic changes the action in place, anything else goes to its spot. */
  function Place(rules: seq<Rule>, row: Rule, op: Op): seq<Rule> {
    var i := IndexMatch(rules, row);
    if i < |rules| && rules[i].action == row.action then rules
    else if i < |rules| && op.Add? then rules[i := row]
    else
      var base := if i < |rules| then RemoveAt(rules, i) else rules;
      InsertAt(base, Spot(base, row.v6, op), row)
  }

  /** The row of r in family six. */
  function RowIn(r: Rule, six: bool): Rule {
    var row := r.(v6 := six);
    row.(raw := RowRaw(row))
  }

  function PlaceAll(rules: seq<Rule>, r: Rule, fams: seq<bool>, op: Op): seq<Rule>
    decreases |fams|
  {
    if fams == [] then rules
    else PlaceAll(Place(rules, RowIn(r, fams[0]), op), r, fams[1..], op)
  }

  function ApplyChange(rules: seq<Rule>, c: Change, v6: bool): seq<Rule> {
    match SpecRule(c.spec)
    case None => rules
    case Some(p) =>
      if c.op.Delete? then WithoutRowsOf(rules, p)
      else PlaceAll(rules, p.rule, Families(p.fam, v6), c.op)
  }

  function ApplyPlan(rules: seq<Rule>, plan: Plan, v6: bool): seq<Rule>
    decreases |plan|
  {
    if plan == [] then rules else ApplyPlan(ApplyChange(rules, plan[0], v6), plan[1..], v6)
  }

  function Renumber(rules: seq<Rule>): (out: seq<Rule>)
    ensures |out| == |rules|
    ensures forall i :: 0 <= i < |out| ==> out[i] == rules[i].(num := i + 1)
  {
    seq(|rules|, i requires 0 <= i < |rules| => rules[i].(num := i + 1))
  }

  function Simulate(st: Status, plan: Plan, v6: bool): Status {
    st.(rules := Renumber(ApplyPlan(st.rules, plan, v6)))
  }

  /** simulate: the loops over the changes and the families. */
  method SimulateInPlace(st: Status, plan: Plan, v6: bool) returns (after: Status)
    ensures after == Simulate(st, plan, v6)
  {
    hide SpecRule, RowOf, SameMatch, IndexMatch, RowIn;
    var rules := st.rules;
    var k := 0;
    assert plan[0..] == plan;
    while k < |plan|
      invariant 0 <= k <= |plan|
      invariant ApplyPlan(rules, plan[k..], v6) == ApplyPlan(st.rules, plan, v6)
    {
      var c := plan[k];
      assert plan[k..][0] == c && plan[k..][1..] == plan[k+1..];
      ghost var before := rules;
      k := k + 1;
      var p := SpecRule(c.spec);
      if p.None? {
        continue;
      }
      if c.op.Delete? {
        rules := WithoutRowsOf(rules, p.value);
        continue;
      }
      var fams := Families(p.value.fam, v6);
      var f := 0;
      assert fams[0..] == fams;
      while f < |fams|
        invariant 0 <= f <= |fams|
        invariant PlaceAll(rules, p.value.rule, fams[f..], c.op) == ApplyChange(before, c, v6)
      {
        assert fams[f..][0] == fams[f] && fams[f..][1..] == fams[f+1..];
        var row := RowIn(p.value.rule, fams[f]);
        f := f + 1;
        var i := IndexMatch(rules, row);
        if i < |rules| && rules[i].action == row.action {
          continue;
        }
        if i < |rules| && c.op.Add? {
          rules := rules[i := row];
          continue;
        }
        if i < |rules| {
          rules := RemoveAt(rules, i);
        }
        var firstV6 := FirstV6(rules);
        var at := |rules|;
        if !c.op.Add? && row.v6 {
          at := firstV6;
        } else if !c.op.Add? {
          at := 0;
        } else if !row.v6 {
          at := firstV6;
        }
        rules := InsertAt(rules, at, row);
      }
    }
    for i := 0 to |rules|
      invariant |rules| == |ApplyPlan(st.rules, plan, v6)|
      invariant forall j :: 0 <= j < i ==> rules[j] == ApplyPlan(st.rules, plan, v6)[j].(num := j + 1)
      invariant forall j :: i <= j < |rules| ==> rules[j] == ApplyPlan(st.rules, plan, v6)[j]
    {
      rules := rules[i := rules[i].(num := i + 1)];
    }
    after := st.(rules := rules);
  }

  // ---- What every list keeps ----

  predicate V4First(rules: seq<Rule>) {
    forall i, j :: 0 <= i < j < |rules| && rules[i].v6 ==> rules[j].v6
  }

  predicate OneRowPerMatch(rules: seq<Rule>) {
    forall i, j :: 0 <= i < j < |rules| ==> !SameSlot(rules[i], rules[j])
  }

  /** A list as ufw keeps it: IPv4 rows before IPv6 rows, one row per match and family. */
  predicate Listing(rules: seq<Rule>) {
    V4First(rules) && OneRowPerMatch(rules)
  }

  /** A row up to SameRow: what it matches, its family and its action. */
  datatype RowId = RowId(key: Key, v6: bool, action: Action)

  function Id(r: Rule): RowId {
    RowId(KeyOf(r), r.v6, r.action)
  }

  lemma {:induction false} SameRowIsSameId(a: Rule, b: Rule)
    ensures SameRow(a, b) <==> Id(a) == Id(b)
  {
    SameMatchIsSameKey(a, b);
  }

  ghost function Ids(rules: seq<Rule>): iset<RowId> {
    iset r | r in rules :: Id(r)
  }

  lemma {:induction false} RemoveAtKeeps(rules: seq<Rule>, i: nat)
    requires i < |rules| && Listing(rules)
    ensures Listing(RemoveAt(rules, i))
    ensures Ids(RemoveAt(rules, i)) == Ids(rules) - iset{Id(rules[i])}
    ensures forall r :: r in RemoveAt(rules, i) ==> r in rules && !SameSlot(r, rules[i])
  {
    hide KeyOf, SameMatch;
    var out := RemoveAt(rules, i);
    forall k | 0 <= k < |out|
      ensures out[k] == rules[if k < i then k else k + 1]
    {
    }
    forall k | 0 <= k < |rules| && k != i
      ensures rules[k] in out
    {
      assert out[if k < i then k else k - 1] == rules[k];
    }
    forall r | r in out
      ensures r in rules && !SameSlot(r, rules[i]) && Id(r) != Id(rules[i])
    {
      var k :| 0 <= k < |out| && out[k] == r;
      assert rules[if k < i then k else k + 1] == r;
      SlotsDiffer(rules, if k < i then k else k + 1, i);
      SameMatchIsSameKey(r, rules[i]);
    }
    forall id | id in Ids(rules) && id != Id(rules[i])
      ensures id in Ids(out)
    {
      var r :| r in rules && Id(r) == id;
      var k :| 0 <= k < |rules| && rules[k] == r;
    }
  }

  lemma {:induction false} SlotsDiffer(rules: seq<Rule>, i: nat, j: nat)
    requires i < |rules| && j < |rules| && i != j && OneRowPerMatch(rules)
    ensures !SameSlot(rules[i], rules[j])
  {
    SameMatchIsSameKey(rules[i], rules[j]);
    SameMatchIsSameKey(rules[j], rules[i]);
  }

  lemma {:induction false} InsertAtKeeps(rules: seq<Rule>, at: nat, row: Rule)
    requires at <= |rules| && Listing(rules)
    requires forall r :: r in rules ==> !SameSlot(r, row)
    requires forall j :: 0 <= j < at && rules[j].v6 ==> row.v6
    requires forall j :: at <= j < |rules| && row.v6 ==> rules[j].v6
    ensures Listing(InsertAt(rules, at, row))
    ensures Ids(InsertAt(rules, at, row)) == Ids(rules) + iset{Id(row)}
  {
    var out := InsertAt(rules, at, row);
    forall k | 0 <= k < |out|
      ensures out[k] == if k < at then rules[k] else if k == at then row else rules[k - 1]
    {
    }
    forall k | 0 <= k < |rules|
      ensures rules[k] in out
    {
      assert out[if k < at then k else k + 1] == rules[k];
    }
    assert out[at] == row;
    forall i, j | 0 <= i < j < |out|
      ensures !SameSlot(out[i], out[j])
    {
      assert out[i] == row || out[i] in rules;
      assert out[j] == row || out[j] in rules;
    }
    forall id | id in Ids(rules)
      ensures id in Ids(out)
    {
      var r :| r in rules && Id(r) == id;
      assert r in out;
    }
  }

  /** ids with the row of id's traffic and family, if any, changed to id. */
  ghost function Put(ids: iset<RowId>, id: RowId): iset<RowId> {
    iset x: RowId | if x.key == id.key && x.v6 == id.v6 then x == id else x in ids
  }

  /** Taking out the row of row's slot and putting row in is a Put. */
  lemma {:induction false} SlotIsPut(rules: seq<Rule>, i: nat, row: Rule)
    requires i < |rules| && Listing(rules) && SameSlot(rules[i], row)
    ensures Put(Ids(rules), Id(row)) == Ids(RemoveAt(rules, i)) + iset{Id(row)}
    ensures Listing(RemoveAt(rules, i))
    ensures forall r :: r in RemoveAt(rules, i) ==> r in rules && !SameSlot(r, row)
  {
    RemoveAtKeeps(rules, i);
    SameMatchIsSameKey(rules[i], row);
    var base := RemoveAt(rules, i);
    forall r | r in base
      ensures !SameSlot(r, row) && !(KeyOf(r) == KeyOf(row) && r.v6 == row.v6)
    {
      SameMatchIsSameKey(r, rules[i]);
      SameMatchIsSameKey(r, row);
    }
    forall x | x in Put(Ids(rules), Id(row)) && x != Id(row)
      ensures x in Ids(base)
    {
    }
  }

  lemma {:induction false} PlaceKeeps(rules: seq<Rule>, row: Rule, op: Op)
    requires Listing(rules)
    ensures Listing(Place(rules, row, op))
    ensures Ids(Place(rules, row, op)) == Put(Ids(rules), Id(row))
  {
    hide KeyOf, SameMatch;
    var i := IndexMatch(rules, row);
    if i == |rules| {
      PlaceNew(rules, row, op);
    } else {
      SlotIsPut(rules, i, row);
      var base := RemoveAt(rules, i);
      if rules[i].action == row.action {
        SameMatchIsSameKey(rules[i], row);
        assert Id(rules[i]) == Id(row) && rules[i] in rules;
        RemoveAtKeeps(rules, i);
      } else if op.Add? {
        assert rules[i := row] == InsertAt(base, i, row);
        InsertAtKeeps(base, i, row);
      } else {
        InsertAtKeeps(base, Spot(base, row.v6, op), row);
      }
    }
  }

  lemma {:induction false} PlaceNew(rules: seq<Rule>, row: Rule, op: Op)
    requires Listing(rules) && IndexMatch(rules, row) == |rules|
    ensures Listing(Place(rules, row, op))
    ensures Ids(Place(rules, row, op)) == Put(Ids(rules), Id(row))
  {
    hide KeyOf, SameMatch;
    forall r | r in rules
      ensures !SameSlot(r, row) && !(KeyOf(r) == KeyOf(row) && r.v6 == row.v6)
    {
      SameMatchIsSameKey(r, row);
    }
    assert Put(Ids(rules), Id(row)) == Ids(rules) + iset{Id(row)};
    InsertAtKeeps(rules, Spot(rules, row.v6, op), row);
  }

  lemma {:induction false} WithoutRowsKeeps(rules: seq<Rule>, p: Parsed)
    requires Listing(rules)
    ensures Listing(WithoutRowsOf(rules, p))
  {
    hide SameMatch, RowOf;
    if rules != [] {
      var rest := rules[1..];
      WithoutRowsKeeps(rest, p);
      if !RowOf(rules[0], p) {
        var out := WithoutRowsOf(rest, p);
        forall j | 0 <= j < |out|
          ensures (rules[0].v6 ==> out[j].v6) && !SameSlot(rules[0], out[j])
        {
          assert out[j] in rest;
          var k :| 0 <= k < |rest| && rest[k] == out[j];
          assert rules[k + 1] == out[j];
        }
      }
    }
  }

  /** Every change keeps the list a ufw list, whatever its spec says. */
  lemma {:induction false} ApplyChangeKeepsListing(rules: seq<Rule>, c: Change, v6: bool)
    requires Listing(rules)
    ensures Listing(ApplyChange(rules, c, v6))
  {
    match SpecRule(c.spec)
    case None =>
    case Some(p) =>
      if c.op.Delete? {
        WithoutRowsKeeps(rules, p);
      } else {
        PlaceAllKeepsListing(rules, p.rule, Families(p.fam, v6), c.op);
      }
  }

  lemma {:induction false} PlaceAllKeepsListing(rules: seq<Rule>, r: Rule, fams: seq<bool>, op: Op)
    requires Listing(rules)
    ensures Listing(PlaceAll(rules, r, fams, op))
    decreases |fams|
  {
    if fams != [] {
      PlaceKeeps(rules, RowIn(r, fams[0]), op);
      PlaceAllKeepsListing(Place(rules, RowIn(r, fams[0]), op), r, fams[1..], op);
    }
  }

  lemma {:induction false} ApplyPlanKeepsListing(rules: seq<Rule>, plan: Plan, v6: bool)
    requires Listing(rules)
    ensures Listing(ApplyPlan(rules, plan, v6))
    decreases |plan|
  {
    if plan != [] {
      ApplyChangeKeepsListing(rules, plan[0], v6);
      ApplyPlanKeepsListing(ApplyChange(rules, plan[0], v6), plan[1..], v6);
    }
  }

  lemma {:induction false} IdsWithin(a: seq<Rule>, b: seq<Rule>)
    requires |a| == |b|
    requires forall i :: 0 <= i < |a| ==> Id(a[i]) == Id(b[i])
    ensures Ids(a) <= Ids(b)
  {
    hide KeyOf;
    forall id | id in Ids(a)
      ensures id in Ids(b)
    {
      var r :| r in a && Id(r) == id;
      var i :| 0 <= i < |a| && a[i] == r;
      assert b[i] in b;
    }
  }

  lemma {:induction false} RenumberKeeps(rules: seq<Rule>)
    ensures Ids(Renumber(rules)) == Ids(rules)
    ensures Listing(rules) ==> Listing(Renumber(rules))
  {
    var out := Renumber(rules);
    IdsWithin(rules, out);
    IdsWithin(out, rules);
    forall i, j | 0 <= i < j < |rules|
      ensures SameSlot(out[i], out[j]) <==> SameSlot(rules[i], rules[j])
    {
    }
  }

  /** Simulating any plan keeps IPv4 rows before IPv6 rows, one row per match and family,
      and numbers the rows 1..n; the policy does not change. */
  lemma {:induction false} SimulateKeepsListing(st: Status, plan: Plan, v6: bool)
    requires Listing(st.rules)
    ensures var after := Simulate(st, plan, v6);
            && Listing(after.rules)
            && after.policy == st.policy
            && forall i :: 0 <= i < |after.rules| ==> after.rules[i].num == i + 1
  {
    ApplyPlanKeepsListing(st.rules, plan, v6);
    RenumberKeeps(ApplyPlan(st.rules, plan, v6));
  }

  // ---- The list as a table ----

  /** The user rules by the traffic they match. */
  type Table = map<Key, Action>

  function FamOfKey(k: Key): Fam {
    FamOfAddresses(k.from, k.dst)
  }

  /** The rows a table is listed as. */
  ghost function Rows(t: Table, v6: bool): iset<RowId> {
    iset id: RowId | id.key in t && t[id.key] == id.action && HasFamily(FamOfKey(id.key), v6, id.v6)
  }

  /** What a change does to the table. */
  function Edit(t: Table, c: Change): Table {
    match SpecRule(c.spec)
    case None => t
    case Some(p) =>
      var k := KeyOf(p.rule);
      if !c.op.Delete? then t[k := p.rule.action]
      else if k in t && t[k] == p.rule.action then t - {k}
      else t
  }

  function EditAll(t: Table, plan: Plan): Table
    decreases |plan|
  {
    if plan == [] then t else EditAll(Edit(t, plan[0]), plan[1..])
  }

  lemma {:induction false} RowsDetermineTable(t: Table, u: Table, v6: bool)
    requires Rows(t, v6) == Rows(u, v6)
    ensures t == u
  {
    TableWithin(t, u, v6);
    TableWithin(u, t, v6);
  }

  lemma {:induction false} TableWithin(t: Table, u: Table, v6: bool)
    requires Rows(t, v6) <= Rows(u, v6)
    ensures forall k :: k in t ==> k in u && u[k] == t[k]
  {
    forall k | k in t
      ensures k in u && u[k] == t[k]
    {
      var f := FamOfKey(k) == OnlyV6;
      assert RowId(k, f, t[k]) in Rows(t, v6);
    }
  }

  lemma {:induction false} RowOfInTable(r: Rule, t: Table, p: Parsed, v6: bool)
    requires WellParsed(p) && Id(r) in Rows(t, v6)
    ensures RowOf(r, p) <==> KeyOf(r) == KeyOf(p.rule) && r.action == p.rule.action
  {
    RowOfIsSameKey(r, p);
  }

  lemma {:induction false} DeleteEdits(rules: seq<Rule>, t: Table, c: Change, p: Parsed, v6: bool)
    requires c.op.Delete? && SpecRule(c.spec) == Some(p)
    requires Ids(rules) == Rows(t, v6)
    ensures Ids(WithoutRowsOf(rules, p)) == Rows(Edit(t, c), v6)
  {
    hide KeyOf, SameMatch, RowOf, SpecRule, WithoutRowsOf;
    var k, out := KeyOf(p.rule), WithoutRowsOf(rules, p);
    assert WellParsed(p);
    var u := Edit(t, c);
    assert forall x :: x in u <==> x in t && !(x == k && t[x] == p.rule.action);
    forall id: RowId
      ensures id in Ids(out) <==> id in Rows(u, v6)
    {
      if id in Ids(out) {
        var r :| r in out && Id(r) == id;
        assert Id(r) in Ids(rules);
        RowOfInTable(r, t, p, v6);
      }
      if id in Rows(u, v6) {
        assert id in Ids(rules);
        var r :| r in rules && Id(r) == id;
        RowOfInTable(r, t, p, v6);
      }
    }
  }

  /** ids where the rows of key in the listed families say action. */
  ghost function PutAll(ids: iset<RowId>, key: Key, action: Action, fams: seq<bool>): iset<RowId>
    decreases |fams|
  {
    if fams == [] then ids else PutAll(Put(ids, RowId(key, fams[0], action)), key, action, fams[1..])
  }

  lemma {:induction false} PlaceAllPuts(rules: seq<Rule>, r: Rule, fams: seq<bool>, op: Op)
    requires Listing(rules)
    ensures Ids(PlaceAll(rules, r, fams, op)) == PutAll(Ids(rules), KeyOf(r), r.action, fams)
    decreases |fams|
  {
    if fams != [] {
      PlaceKeeps(rules, RowIn(r, fams[0]), op);
      PlaceAllPuts(Place(rules, RowIn(r, fams[0]), op), r, fams[1..], op);
    }
  }

  lemma {:induction false} PutAllMembers(ids: iset<RowId>, key: Key, action: Action, fams: seq<bool>, x: RowId)
    ensures x in PutAll(ids, key, action, fams) <==>
              if x.key == key && x.v6 in fams then x.action == action else x in ids
    decreases |fams|
  {
    if fams != [] {
      PutAllMembers(Put(ids, RowId(key, fams[0], action)), key, action, fams[1..], x);
    }
  }

  lemma {:induction false} PutEdits(t: Table, k: Key, action: Action, v6: bool)
    ensures PutAll(Rows(t, v6), k, action, Families(FamOfKey(k), v6)) == Rows(t[k := action], v6)
  {
    var fams := Families(FamOfKey(k), v6);
    forall x: RowId
      ensures x in PutAll(Rows(t, v6), k, action, fams) <==> x in Rows(t[k := action], v6)
    {
      PutAllMembers(Rows(t, v6), k, action, fams, x);
      FamiliesAre(FamOfKey(k), v6, x.v6);
    }
  }

  /** A change edits the listed rows exactly as it edits the table. */
  lemma {:induction false} ApplyChangeEdits(rules: seq<Rule>, t: Table, c: Change, v6: bool)
    requires Listing(rules) && Ids(rules) == Rows(t, v6)
    ensures Listing(ApplyChange(rules, c, v6)) && Ids(ApplyChange(rules, c, v6)) == Rows(Edit(t, c), v6)
  {
    ApplyChangeKeepsListing(rules, c, v6);
    match SpecRule(c.spec)
    case None =>
    case Some(p) =>
      if c.op.Delete? {
        DeleteEdits(rules, t, c, p, v6);
      } else {
        PlaceAllPuts(rules, p.rule, Families(p.fam, v6), c.op);
        PutEdits(t, KeyOf(p.rule), p.rule.action, v6);
      }
  }

  lemma {:induction false} ApplyPlanEdits(rules: seq<Rule>, t: Table, plan: Plan, v6: bool)
    requires Listing(rules) && Ids(rules) == Rows(t, v6)
    ensures Listing(ApplyPlan(rules, plan, v6)) && Ids(ApplyPlan(rules, plan, v6)) == Rows(EditAll(t, plan), v6)
    decreases |plan|
  {
    if plan != [] {
      ApplyChangeEdits(rules, t, plan[0], v6);
      ApplyPlanEdits(ApplyChange(rules, plan[0], v6), Edit(t, plan[0]), plan[1..], v6);
    }
  }

  // ---- A list and the specs `ufw show added` prints for it ----

  predicate Readable(added: seq<Spec>) {
    forall j :: 0 <= j < |added| ==> SpecRule(added[j]).Some?
  }

  function Read(spec: Spec): (p: Parsed)
    requires SpecRule(spec).Some?
    ensures WellParsed(p)
  {
    SpecRule(spec).value
  }

  function ReadAll(added: seq<Spec>): (ps: seq<Parsed>)
    requires Readable(added)
    ensures |ps| == |added|
    ensures forall j :: 0 <= j < |ps| ==> WellParsed(ps[j]) && Some(ps[j]) == SpecRule(added[j])
  {
    seq(|added|, j requires 0 <= j < |added| => Read(added[j]))
  }

  predicate WellParsed(p: Parsed) {
    p.fam == FamOfAddresses(p.rule.from, p.rule.dst)
  }

  /** The rows a list of specs is shown as: one for each spec in each of its families. */
  ghost function SpecRows(ps: seq<Parsed>, v6: bool): iset<RowId> {
    iset id: RowId | InSpecRows(id, ps, v6)
  }

  predicate InSpecRows(id: RowId, ps: seq<Parsed>, v6: bool) {
    exists j :: 0 <= j < |ps| && IsRowOf(id, ps[j], v6)
  }

  predicate IsRowOf(id: RowId, p: Parsed, v6: bool) {
    id.key == KeyOf(p.rule) && id.action == p.rule.action && HasFamily(p.fam, v6, id.v6)
  }

  /** No two specs match the same traffic. */
  ghost predicate OnePerKey(ps: seq<Parsed>) {
    forall i, j :: 0 <= i < j < |ps| ==> KeyOf(ps[i].rule) != KeyOf(ps[j].rule)
  }

  /** st and added describe the same firewall, in words ufw prints: the rows are exactly
      those the specs are listed as. */
  ghost predicate Consistent(st: Status, added: seq<Spec>, v6: bool) {
    && Listing(st.rules)
    && Readable(added)
    && (forall j :: 0 <= j < |added| ==> NONE !in added[j])
    && OnePerKey(ReadAll(added))
    && Ids(st.rules) == SpecRows(ReadAll(added), v6)
  }

  lemma {:induction false} RowOfIsSameKey(row: Rule, p: Parsed)
    requires WellParsed(p)
    ensures RowOf(row, p) <==>
              && KeyOf(row) == KeyOf(p.rule) && row.action == p.rule.action
              && HasFamily(p.fam, true, row.v6)
  {
    SameMatchIsSameKey(row, p.rule);
  }

  /** The table of a list of specs. */
  function TableOf(ps: seq<Parsed>): (t: Table) {
    if ps == [] then map[]
    else TableOf(ps[..|ps| - 1])[KeyOf(ps[|ps| - 1].rule) := ps[|ps| - 1].rule.action]
  }

  lemma {:induction false} TableKeyHasSpec(ps: seq<Parsed>, k: Key) returns (j: nat)
    requires k in TableOf(ps)
    ensures j < |ps| && KeyOf(ps[j].rule) == k
  {
    hide KeyOf;
    var n := |ps| - 1;
    if KeyOf(ps[n].rule) == k {
      j := n;
    } else {
      j := TableKeyHasSpec(ps[..n], k);
    }
  }

  lemma {:induction false} TableHasSpec(ps: seq<Parsed>, j: nat)
    requires OnePerKey(ps) && j < |ps|
    ensures KeyOf(ps[j].rule) in TableOf(ps) && TableOf(ps)[KeyOf(ps[j].rule)] == ps[j].rule.action
  {
    hide KeyOf;
    var n := |ps| - 1;
    if j < n {
      assert ps[..n][j] == ps[j];
      TableHasSpec(ps[..n], j);
    }
  }

  lemma {:induction false} TableSize(ps: seq<Parsed>)
    requires OnePerKey(ps)
    ensures |TableOf(ps)| == |ps|
  {
    hide KeyOf;
    if ps != [] {
      var n := |ps| - 1;
      TableSize(ps[..n]);
      if KeyOf(ps[n].rule) in TableOf(ps[..n]) {
        var j := TableKeyHasSpec(ps[..n], KeyOf(ps[n].rule));
        assert false;
      }
      GrowTable(TableOf(ps[..n]), KeyOf(ps[n].rule), ps[n].rule.action);
    }
  }

  lemma {:induction false} GrowTable(t: Table, k: Key, a: Action)
    requires k !in t
    ensures |t[k := a]| == |t| + 1
  {
    assert t[k := a].Keys == t.Keys + {k};
  }

  function TableOfAdded(added: seq<Spec>): Table
    requires Readable(added)
  {
    TableOf(ReadAll(added))
  }

  lemma {:induction false} SpecRowsAreTableRows(ps: seq<Parsed>, v6: bool)
    requires OnePerKey(ps)
    requires forall j :: 0 <= j < |ps| ==> WellParsed(ps[j])
    ensures SpecRows(ps, v6) == Rows(TableOf(ps), v6)
  {
    hide KeyOf;
    forall id | id in Rows(TableOf(ps), v6)
      ensures id in SpecRows(ps, v6)
    {
      var j := TableKeyHasSpec(ps, id.key);
      TableHasSpec(ps, j);
      KeyKeepsFamily(ps[j]);
      assert IsRowOf(id, ps[j], v6);
    }
    forall id | id in SpecRows(ps, v6)
      ensures id in Rows(TableOf(ps), v6)
    {
      var j: nat :| j < |ps| && IsRowOf(id, ps[j], v6);
      TableHasSpec(ps, j);
      KeyKeepsFamily(ps[j]);
    }
  }

  lemma {:induction false} KeyKeepsFamily(p: Parsed)
    requires WellParsed(p)
    ensures p.fam == FamOfKey(KeyOf(p.rule))
  {
  }

  /** The rows of a consistent list are exactly those of its specs' table. */
  lemma {:induction false} ConsistentRows(st: Status, added: seq<Spec>, v6: bool)
    requires Consistent(st, added, v6)
    ensures Ids(st.rules) == Rows(TableOfAdded(added), v6)
    ensures |TableOfAdded(added)| == |added|
  {
    TableSize(ReadAll(added));
    SpecRowsAreTableRows(ReadAll(added), v6);
  }

  /** In a consistent list every row lists exactly one added spec, in one of its families. */
  lemma {:induction false} RowHasOneSpec(st: Status, added: seq<Spec>, v6: bool, row: Rule) returns (j: nat)
    requires Consistent(st, added, v6) && row in st.rules
    ensures j < |added| && RowOf(row, ReadAll(added)[j]) && HasFamily(ReadAll(added)[j].fam, v6, row.v6)
    ensures forall i :: 0 <= i < |added| && RowOf(row, ReadAll(added)[i]) ==> i == j
  {
    hide KeyOf, SpecRule, RowOf;
    var ps := ReadAll(added);
    assert Id(row) in Ids(st.rules);
    j :| 0 <= j < |ps| && IsRowOf(Id(row), ps[j], v6);
    RowOfIsSameKey(row, ps[j]);
    forall i | 0 <= i < |added| && RowOf(row, ps[i])
      ensures i == j
    {
      RowOfIsSameKey(row, ps[i]);
    }
  }

  /** ... and every spec is listed in each of its families. */
  lemma {:induction false} SpecHasRow(st: Status, added: seq<Spec>, v6: bool, j: nat, f: bool) returns (row: Rule)
    requires Consistent(st, added, v6) && j < |added| && HasFamily(ReadAll(added)[j].fam, v6, f)
    ensures row in st.rules && row.v6 == f && RowOf(row, ReadAll(added)[j])
  {
    hide KeyOf, SpecRule, RowOf;
    var p := ReadAll(added)[j];
    var id := RowId(KeyOf(p.rule), f, p.rule.action);
    assert IsRowOf(id, p, v6);
    assert id in SpecRows(ReadAll(added), v6);
    row :| row in st.rules && Id(row) == id;
    RowOfIsSameKey(row, p);
  }
}
