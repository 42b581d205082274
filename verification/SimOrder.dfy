/** The order a simulated change leaves, family by family, and what an added rule does to a verdict. */
module SimOrder {
  import opened RuleModel
  import opened RuleSpecs
  import opened Simulation
  import opened Planning
  import Effects

  /** The rows of one family, in order. */
  function Family(rules: seq<Rule>, six: bool): seq<Rule> {
    if rules == [] then []
    else (if rules[0].v6 == six then [rules[0]] else []) + Family(rules[1..], six)
  }

  lemma {:induction false} FamilyConcat(a: seq<Rule>, b: seq<Rule>, six: bool)
    ensures Family(a + b, six) == Family(a, six) + Family(b, six)
  {
    if a == [] {
      assert a + b == b;
    } else {
      assert (a + b)[0] == a[0] && (a + b)[1..] == a[1..] + b;
      FamilyConcat(a[1..], b, six);
    }
  }

  predicate AllOf(rules: seq<Rule>, six: bool) {
    forall i :: 0 <= i < |rules| ==> rules[i].v6 == six
  }

  lemma {:induction false} FamilyIs(rules: seq<Rule>, six: bool)
    ensures forall r :: r in Family(rules, six) <==> r in rules && r.v6 == six
    ensures AllOf(Family(rules, six), six)
  {
    if rules != [] {
      FamilyIs(rules[1..], six);
      assert forall r :: r in rules <==> r == rules[0] || r in rules[1..];
    }
  }

  lemma {:induction false} FamilyOfOne(rules: seq<Rule>, six: bool)
    requires AllOf(rules, six)
    ensures Family(rules, six) == rules && Family(rules, !six) == []
  {
    if rules != [] {
      FamilyOfOne(rules[1..], six);
    }
  }

  /** A ufw list is its IPv4 rows and then its IPv6 rows. */
  lemma {:induction false} ListSplits(rules: seq<Rule>)
    requires V4First(rules)
    ensures rules == Family(rules, false) + Family(rules, true)
  {
    hide Family;
    if rules == [] {
      NoFamily();
    } else if rules[0].v6 {
      FamilyOfOne(rules, true);
      assert [] + rules == rules;
    } else {
      var head, rest := [rules[0]], rules[1..];
      ListSplits(rest);
      FamilyOfOne(head, false);
      assert rules == head + rest;
      FamilyConcat(head, rest, false);
      FamilyConcat(head, rest, true);
      AddFront(head, Family(rest, false), Family(rest, true));
    }
  }

  lemma {:induction false} NoFamily()
    ensures Family([], false) == [] && Family([], true) == []
  {
  }

  lemma {:induction false} AddFront(a: seq<Rule>, b: seq<Rule>, c: seq<Rule>)
    ensures a + (b + c) == (a + b) + ([] + c)
  {
  }

  /** The rows of two families, one after the other. */
  lemma {:induction false} FamiliesOf(four: seq<Rule>, six: seq<Rule>)
    requires AllOf(four, false) && AllOf(six, true)
    ensures Family(four + six, false) == four && Family(four + six, true) == six
    ensures FirstV6(four + six) == |four|
  {
    FamilyOfOne(four, false);
    FamilyOfOne(six, true);
    FamilyConcat(four, six, false);
    FamilyConcat(four, six, true);
    assert four + [] == four && [] + six == six;
    assert forall j :: 0 <= j < |four| ==> (four + six)[j] == four[j];
    assert six != [] ==> (four + six)[|four|] == six[0];
  }

  // ---- How a row prints ----

  /** Rows that show all there is to them print alike only when they are alike. */
  lemma {:induction false} PrintTellsRows(a: Rule, b: Rule)
    requires a.app == "" && b.app == "" && a.dst == None && b.dst == None && RowRaw(a) == RowRaw(b)
    ensures a.ports == b.ports && a.proto == b.proto && a.v6 == b.v6
    ensures a.action == b.action && a.dir == b.dir && a.from == b.from
  {
    hide ActionText, DirText;
    assert RowRaw(a)[0] == RowRaw(b)[0] && RowRaw(a)[1] == RowRaw(b)[1];
    assert ("any/" + a.proto)[0] == 'a' && ("any/" + a.proto)[4..] == a.proto;
    assert ("any/" + b.proto)[0] == 'a' && ("any/" + b.proto)[4..] == b.proto;
    NotAFamily(a.action);
    NotAFamily(b.action);
    var k := if a.v6 then 2 else 1;
    assert a.v6 == b.v6;
    assert RowRaw(a)[k] == Text(ActionText(a.action)) && RowRaw(b)[k] == Text(ActionText(b.action));
    assert RowRaw(a)[k+1] == Text(DirText(a.dir)) && RowRaw(b)[k+1] == Text(DirText(b.dir));
    assert a.from.Some? ==> RowRaw(a)[k+2] == Address(a.from.value);
    assert a.from.None? ==> RowRaw(a)[k+2] == Text("Anywhere");
    assert b.from.Some? ==> RowRaw(b)[k+2] == Address(b.from.value);
    assert b.from.None? ==> RowRaw(b)[k+2] == Text("Anywhere");
    TextsDiffer(a, b);
  }

  lemma {:induction false} NotAFamily(a: Action)
    ensures ActionText(a) != "(v6)"
  {
  }

  lemma {:induction false} TextsDiffer(a: Rule, b: Rule)
    ensures ActionText(a.action) == ActionText(b.action) <==> a.action == b.action
    ensures DirText(a.dir) == DirText(b.dir) <==> a.dir == b.dir
  {
  }

  // ---- One row ----

  /** The family's rows after row is added, inserted or prepended: new traffic goes to the end, or to
      the front; known traffic is left alone when it says the same, and else an add changes it where it
      stands and an insert moves it to the front. All other rows keep their order. */
  ghost predicate PutInOrder(before: seq<Rule>, row: Rule, op: Op, after: seq<Rule>) {
    && ((forall r :: r in before ==> KeyOf(r) != KeyOf(row)) ==>
          after == if op.Add? then before + [row] else [row] + before)
    && forall k :: 0 <= k < |before| && KeyOf(before[k]) == KeyOf(row) ==>
         after == if before[k].action == row.action then before
                  else if op.Add? then before[k := row]
                  else [row] + before[..k] + before[k+1..]
  }

  lemma {:induction false} MatchInFour(four: seq<Rule>, six: seq<Rule>, row: Rule)
    requires AllOf(four, false) && AllOf(six, true) && OneRowPerMatch(four + six) && !row.v6
    ensures var i := IndexMatch(four + six, row);
            && ((i < |four| && KeyOf(four[i]) == KeyOf(row)) || i == |four + six|)
            && (i == |four + six| ==> forall r :: r in four ==> KeyOf(r) != KeyOf(row))
            && forall k :: 0 <= k < |four| && KeyOf(four[k]) == KeyOf(row) ==> k == i
  {
    hide KeyOf, SameMatch;
    var all := four + six;
    var i := IndexMatch(all, row);
    forall k | 0 <= k < |four|
      ensures all[k] == four[k] && (SameSlot(four[k], row) <==> KeyOf(four[k]) == KeyOf(row))
    {
      SameMatchIsSameKey(four[k], row);
    }
    forall k | 0 <= k < |four| && KeyOf(four[k]) == KeyOf(row)
      ensures k == i
    {
      SlotOnce(all, k, i, row);
    }
  }

  lemma {:induction false} SlotOnce(rules: seq<Rule>, k: nat, i: nat, row: Rule)
    requires k < |rules| && i < |rules| && OneRowPerMatch(rules) && SameSlot(rules[k], row) && SameSlot(rules[i], row)
    ensures k == i
  {
    SameMatchIsSameKey(rules[k], row);
    SameMatchIsSameKey(rules[i], row);
    if k != i {
      SlotsDiffer(rules, k, i);
      SameMatchIsSameKey(rules[k], rules[i]);
    }
  }

  lemma {:induction false} MatchInSix(four: seq<Rule>, six: seq<Rule>, row: Rule)
    requires AllOf(four, false) && AllOf(six, true) && OneRowPerMatch(four + six) && row.v6
    ensures var i := IndexMatch(four + six, row);
            && ((|four| <= i < |four + six| && KeyOf(six[i-|four|]) == KeyOf(row)) || i == |four + six|)
            && (i == |four + six| ==> forall r :: r in six ==> KeyOf(r) != KeyOf(row))
            && forall k :: 0 <= k < |six| && KeyOf(six[k]) == KeyOf(row) ==> k + |four| == i
  {
    hide KeyOf, SameMatch;
    var all := four + six;
    var i := IndexMatch(all, row);
    forall k | 0 <= k < |six|
      ensures all[k + |four|] == six[k] && (SameSlot(six[k], row) <==> KeyOf(six[k]) == KeyOf(row))
    {
      SameMatchIsSameKey(six[k], row);
    }
    forall k | 0 <= k < |six| && KeyOf(six[k]) == KeyOf(row)
      ensures k + |four| == i
    {
      SlotOnce(all, k + |four|, i, row);
    }
  }

  lemma {:induction false} NewInOrder(before: seq<Rule>, row: Rule, op: Op)
    requires forall r :: r in before ==> KeyOf(r) != KeyOf(row)
    ensures PutInOrder(before, row, op, if op.Add? then before + [row] else [row] + before)
  {
    hide KeyOf;
  }

  lemma {:induction false} KnownInOrder(before: seq<Rule>, row: Rule, op: Op, k: nat)
    requires k < |before| && forall j :: 0 <= j < |before| && KeyOf(before[j]) == KeyOf(row) <==> j == k
    ensures PutInOrder(before, row, op,
                       if before[k].action == row.action then before
                       else if op.Add? then before[k := row]
                       else [row] + RemoveAt(before, k))
  {
    hide KeyOf;
    assert before[k] in before;
    assert [row] + RemoveAt(before, k) == [row] + before[..k] + before[k+1..];
  }

  lemma {:induction false} NewInFour(four: seq<Rule>, six: seq<Rule>, row: Rule, op: Op)
    requires AllOf(four, false) && AllOf(six, true) && !row.v6
    ensures var all := four + six; var out := InsertAt(all, Spot(all, false, op), row);
            && Family(out, false) == (if op.Add? then four + [row] else [row] + four)
            && Family(out, true) == six
  {
    hide Family;
    FamiliesOf(four, six);
    var new4 := if op.Add? then four + [row] else [row] + four;
    assert InsertAt(four + six, if op.Add? then |four| else 0, row) == new4 + six;
    FamiliesOf(new4, six);
  }

  lemma {:induction false} NewInSix(four: seq<Rule>, six: seq<Rule>, row: Rule, op: Op)
    requires AllOf(four, false) && AllOf(six, true) && row.v6
    ensures var all := four + six; var out := InsertAt(all, Spot(all, true, op), row);
            && Family(out, true) == (if op.Add? then six + [row] else [row] + six)
            && Family(out, false) == four
  {
    hide Family;
    FamiliesOf(four, six);
    var new6 := if op.Add? then six + [row] else [row] + six;
    assert InsertAt(four + six, if op.Add? then |four + six| else |four|, row) == four + new6;
    FamiliesOf(four, new6);
  }

  lemma {:induction false} ChangedInPlace(four: seq<Rule>, six: seq<Rule>, row: Rule, i: nat)
    requires AllOf(four, false) && AllOf(six, true) && i < |four + six|
    requires if row.v6 then i >= |four| else i < |four|
    ensures var out := (four + six)[i := row];
            && Family(out, false) == (if row.v6 then four else four[i := row])
            && Family(out, true) == (if row.v6 then six[i - |four| := row] else six)
  {
    hide Family;
    if row.v6 {
      assert (four + six)[i := row] == four + six[i - |four| := row];
      FamiliesOf(four, six[i - |four| := row]);
    } else {
      assert (four + six)[i := row] == four[i := row] + six;
      FamiliesOf(four[i := row], six);
    }
  }

  lemma {:induction false} WithoutOne(four: seq<Rule>, six: seq<Rule>, i: nat)
    requires AllOf(four, false) && AllOf(six, true) && i < |four + six|
    ensures RemoveAt(four + six, i) ==
            if i < |four| then RemoveAt(four, i) + six else four + RemoveAt(six, i - |four|)
    ensures i < |four| ==> AllOf(RemoveAt(four, i), false)
    ensures i >= |four| ==> AllOf(RemoveAt(six, i - |four|), true)
  {
  }

  lemma {:induction false} PlaceInFour(four: seq<Rule>, six: seq<Rule>, row: Rule, op: Op)
    requires AllOf(four, false) && AllOf(six, true) && OneRowPerMatch(four + six) && !row.v6
    ensures var out := Place(four + six, row, op);
            PutInOrder(four, row, op, Family(out, false)) && Family(out, true) == six
  {
    hide KeyOf, SameMatch, SameSlot, IndexMatch, Family, PutInOrder, Spot, InsertAt, RemoveAt, OneRowPerMatch, AllOf;
    var all := four + six;
    var i := IndexMatch(all, row);
    MatchInFour(four, six, row);
    FamiliesOf(four, six);
    if i == |all| {
      NewInOrder(four, row, op);
      NewInFour(four, six, row, op);
    } else {
      KnownInOrder(four, row, op, i);
      if all[i].action != row.action {
        ChangedInPlace(four, six, row, i);
        WithoutOne(four, six, i);
        NewInFour(RemoveAt(four, i), six, row, op);
      }
    }
  }

  lemma {:induction false} PlaceInSix(four: seq<Rule>, six: seq<Rule>, row: Rule, op: Op)
    requires AllOf(four, false) && AllOf(six, true) && OneRowPerMatch(four + six) && row.v6
    ensures var out := Place(four + six, row, op);
            PutInOrder(six, row, op, Family(out, true)) && Family(out, false) == four
  {
    hide KeyOf, SameMatch, SameSlot, IndexMatch, Family, PutInOrder, Spot, InsertAt, RemoveAt, OneRowPerMatch, AllOf;
    var all := four + six;
    var i := IndexMatch(all, row);
    MatchInSix(four, six, row);
    FamiliesOf(four, six);
    if i == |all| {
      NewInOrder(six, row, op);
      NewInSix(four, six, row, op);
    } else {
      var k := i - |four|;
      KnownInOrder(six, row, op, k);
      if all[i].action != row.action {
        ChangedInPlace(four, six, row, i);
        WithoutOne(four, six, i);
        NewInSix(four, RemoveAt(six, k), row, op);
      }
    }
  }

  lemma {:induction false} PlaceOrder(rules: seq<Rule>, row: Rule, op: Op)
    requires Listing(rules)
    ensures var out := Place(rules, row, op);
            && PutInOrder(Family(rules, row.v6), row, op, Family(out, row.v6))
            && Family(out, !row.v6) == Family(rules, !row.v6)
  {
    hide Place, PutInOrder, SameSlot, Family;
    ListSplits(rules);
    FamilyIs(rules, false);
    FamilyIs(rules, true);
    if row.v6 {
      PlaceInSix(Family(rules, false), Family(rules, true), row, op);
    } else {
      PlaceInFour(Family(rules, false), Family(rules, true), row, op);
    }
  }

  // ---- One change ----

  /** A change of a ufw list, family by family, whatever the list and the change: in a family the rule is
      listed in its row is put in order, a deletion takes out the one row that says the same, and no
      other family changes. */
  lemma {:induction false} ChangeOrder(rules: seq<Rule>, c: Change, v6: bool, six: bool)
    requires Listing(rules) && SpecRule(c.spec).Some?
    ensures var p := SpecRule(c.spec).value;
            var before, after := Family(rules, six), Family(ApplyChange(rules, c, v6), six);
            && (!c.op.Delete? ==>
                  if HasFamily(p.fam, v6, six) then PutInOrder(before, RowIn(p.rule, six), c.op, after) else after == before)
            && (c.op.Delete? ==> TakenOut(before, p, after))
  {
    hide Place, PutInOrder, TakenOut, SpecRule, Family, RowOf, RowIn, KeyOf, Listing, SameSlot;
    var p := SpecRule(c.spec).value;
    if c.op.Delete? {
      DeleteOrder(rules, p, six);
    } else {
      RowInFamily(p.rule, false);
      RowInFamily(p.rule, true);
      PlaceAllOrder(rules, p.rule, p.fam, v6, c.op, six);
    }
  }

  lemma {:induction false} RowInFamily(r: Rule, six: bool)
    ensures RowIn(r, six).v6 == six && KeyOf(RowIn(r, six)) == KeyOf(r) && RowIn(r, six).action == r.action
  {
    hide RowRaw;
  }

  lemma {:induction false} PlaceAllOrder(rules: seq<Rule>, r: Rule, fam: Fam, v6: bool, op: Op, six: bool)
    requires Listing(rules)
    ensures var before, after := Family(rules, six), Family(PlaceAll(rules, r, Families(fam, v6), op), six);
            if HasFamily(fam, v6, six) then PutInOrder(before, RowIn(r, six), op, after) else after == before
  {
    hide Place, PutInOrder, Family, RowIn, KeyOf, Listing, SameSlot;
    RowInFamily(r, false);
    RowInFamily(r, true);
    var fams := Families(fam, v6);
    var first := Place(rules, RowIn(r, fams[0]), op);
    PlaceOrder(rules, RowIn(r, fams[0]), op);
    if |fams| == 2 {
      PlaceKeeps(rules, RowIn(r, false), op);
      PlaceOrder(first, RowIn(r, true), op);
      assert fams[1..] == [true] && [true][1..] == [];
      assert PlaceAll(rules, r, fams, op) == Place(first, RowIn(r, true), op);
    } else {
      assert fams[1..] == [];
      assert PlaceAll(rules, r, fams, op) == first;
    }
  }

  /** after is before without the one row that p is listed as, if there is one. */
  ghost predicate TakenOut(before: seq<Rule>, p: Parsed, after: seq<Rule>) {
    && ((forall r :: r in before ==> !RowOf(r, p)) ==> after == before)
    && forall k :: 0 <= k < |before| && RowOf(before[k], p) ==> after == before[..k] + before[k+1..]
  }

  lemma {:induction false} DeleteOrder(rules: seq<Rule>, p: Parsed, six: bool)
    requires Listing(rules)
    ensures TakenOut(Family(rules, six), p, Family(WithoutRowsOf(rules, p), six))
  {
    hide RowOf, SameSlot, TakenOut, WithoutRowsOf;
    if rules == [] {
      NoneTakenOut(p);
    } else {
      var r, rest := rules[0], rules[1..];
      assert Listing(rest);
      DeleteOrder(rest, p, six);
      WithoutStep(rules, p, six);
      FamilyIs(rest, six);
      var later, after := Family(rest, six), Family(WithoutRowsOf(rest, p), six);
      assert [] + later == later && [] + after == after;
      if r.v6 == six && RowOf(r, p) {
        OthersStay(rules, p);
        HeadTakenOut(r, later, p, after);
      } else if r.v6 == six {
        LaterTakenOut(r, later, p, after);
      }
    }
  }

  lemma {:induction false} WithoutStep(rules: seq<Rule>, p: Parsed, six: bool)
    requires rules != []
    ensures Family(WithoutRowsOf(rules, p), six) ==
            (if rules[0].v6 == six && !RowOf(rules[0], p) then [rules[0]] else []) + Family(WithoutRowsOf(rules[1..], p), six)
  {
    hide RowOf;
    var w := WithoutRowsOf(rules[1..], p);
    assert ([rules[0]] + w)[0] == rules[0] && ([rules[0]] + w)[1..] == w;
    assert [] + Family(w, six) == Family(w, six);
  }

  lemma {:induction false} OthersStay(rules: seq<Rule>, p: Parsed)
    requires OneRowPerMatch(rules) && rules != [] && RowOf(rules[0], p)
    ensures forall q :: q in rules[1..] && q.v6 == rules[0].v6 ==> !RowOf(q, p)
  {
    hide RowOf, SameSlot;
    forall i | 0 < i < |rules| && rules[i].v6 == rules[0].v6
      ensures !RowOf(rules[i], p)
    {
      if RowOf(rules[i], p) {
        SameSpecSameSlot(rules[0], rules[i], p);
        assert false;
      }
    }
  }

  lemma {:induction false} NoneTakenOut(p: Parsed)
    ensures WithoutRowsOf([], p) == [] && TakenOut([], p, [])
  {
  }

  lemma {:induction false} HeadTakenOut(r: Rule, later: seq<Rule>, p: Parsed, after: seq<Rule>)
    requires RowOf(r, p) && (forall q :: q in later ==> !RowOf(q, p)) && TakenOut(later, p, after)
    ensures TakenOut([r] + later, p, after)
  {
    hide RowOf;
    var before := [r] + later;
    assert before[0] == r && before[..0] + before[1..] == later;
    forall k | 0 < k < |before|
      ensures !RowOf(before[k], p)
    {
      assert before[k] == later[k-1];
    }
  }

  lemma {:induction false} LaterTakenOut(r: Rule, later: seq<Rule>, p: Parsed, after: seq<Rule>)
    requires !RowOf(r, p) && TakenOut(later, p, after)
    ensures TakenOut([r] + later, p, [r] + after)
  {
    hide RowOf;
    var before := [r] + later;
    forall k | 0 <= k < |before| && RowOf(before[k], p)
      ensures [r] + after == before[..k] + before[k+1..]
    {
      assert before[k] == later[k-1];
      assert before[..k] == [r] + later[..k-1] && before[k+1..] == later[k..];
    }
    if forall q :: q in before ==> !RowOf(q, p) {
      assert forall q :: q in later ==> q in before;
    }
  }

  lemma {:induction false} SameSpecSameSlot(a: Rule, b: Rule, p: Parsed)
    requires a.v6 == b.v6 && RowOf(a, p) && RowOf(b, p)
    ensures SameSlot(a, b)
  {
  }

  // ---- The verdict after an add ----

  /** A verdict of one family looks at that family's rows alone. */
  lemma {:induction false} VerdictOfFamily(rules: seq<Rule>, policy: string, port: int, six: bool, peer: Option<Addr>)
    ensures Verdict(rules, policy, port, six, peer) == Verdict(Family(rules, six), policy, port, six, peer)
  {
    hide RoleOf;
    if rules != [] {
      VerdictOfFamily(rules[1..], policy, port, six, peer);
      OtherFamilySkips(rules[0], port, six, peer);
      var f := Family(rules[1..], six);
      assert ([rules[0]] + f)[1..] == f && [] + f == f;
    }
  }

  lemma {:induction false} OtherFamilySkips(r: Rule, port: int, six: bool, peer: Option<Addr>)
    ensures r.v6 != six ==> RoleOf(r, port, six, peer).Skipped?
  {
  }

  /** A row at the end changes nothing that is decided before it. */
  lemma {:induction false} VerdictOfLast(rules: seq<Rule>, row: Rule, policy: string, port: int, six: bool, peer: Option<Addr>)
    ensures var v, w := Verdict(rules, policy, port, six, peer), Verdict(rules + [row], policy, port, six, peer);
            if v.rule.Some? then w == v
            else w.rule == if RoleOf(row, port, six, peer).Decides? then Some(row) else None
  {
    hide RoleOf;
    if rules == [] {
      assert rules + [row] == [row] && [row][1..] == [];
    } else {
      assert (rules + [row])[0] == rules[0] && (rules + [row])[1..] == rules[1..] + [row];
      VerdictOfLast(rules[1..], row, policy, port, six, peer);
    }
  }

  /** An add of a rule over traffic the list does not know changes no verdict that a row decides
      already, and decides what it matches where none did. */
  lemma {:induction false} AddYields(st: Status, c: Change, v6: bool, port: int, six: bool, peer: Option<Addr>)
    requires Listing(st.rules) && c.op.Add? && SpecRule(c.spec).Some?
    requires forall r :: r in st.rules ==> KeyOf(r) != KeyOf(SpecRule(c.spec).value.rule)
    ensures var p := SpecRule(c.spec).value;
            var v, w := Verdict(st.rules, st.policy, port, six, peer), Verdict(Simulate(st, [c], v6).rules, st.policy, port, six, peer);
            && (v.rule.Some? ==> w.state == v.state)
            && (v.rule.None? ==>
                  w.state == if HasFamily(p.fam, v6, six) && RoleOf(RowIn(p.rule, six), port, six, peer).Decides?
                             then StateOf(p.rule.action) else Unmanaged)
  {
    hide SpecRule, KeyOf, RoleOf, Verdict, ApplyChange, Family, RowIn, Listing, StateOf;
    var p := SpecRule(c.spec).value;
    var row, before := RowIn(p.rule, six), Family(st.rules, six);
    var out := ApplyChange(st.rules, c, v6);
    assert [c][1..] == [] && ApplyPlan(st.rules, [c], v6) == out;
    ChangeOrder(st.rules, c, v6, six);
    RowInFamily(p.rule, six);
    FamilyIs(st.rules, six);
    VerdictOfFamily(st.rules, st.policy, port, six, peer);
    VerdictOfFamily(out, st.policy, port, six, peer);
    VerdictOfLast(before, row, st.policy, port, six, peer);
    VerdictStateAndRule(st.rules, st.policy, port, six, peer);
    VerdictStateAndRule(out, st.policy, port, six, peer);
    Effects.SameRulesSameState(Renumber(out), out, st.policy, port, six, peer);
  }

  /** A planned allow or limit comes last: what is left after the opposite rule, if any, has been deleted
      (dels) keeps every verdict a row decides, and the new rule decides what it matches where none does. */
  lemma {:induction false} PlannedAllowYields(added: seq<Spec>, st: Status, s: FwSpec, v6: bool, port: int, six: bool, peer: Option<Addr>)
    returns (dels: Plan)
    requires Consistent(st, added, v6) && Buildable(s) && !s.action.Deny?
    requires PlanSpecs(added, st, [s], v6).Planned?
    ensures var plan := PlanSpecs(added, st, [s], v6).plan;
            && |plan| == |dels| + 1 && plan[..|dels|] == dels
            && (forall i :: 0 <= i < |dels| ==> dels[i].op.Delete?)
            && (WantKey(s) !in TableOfAdded(added) ==> dels == [])
    ensures var v := Verdict(Simulate(st, dels, v6).rules, st.policy, port, six, peer);
            var w := Verdict(Simulate(st, PlanSpecs(added, st, [s], v6).plan, v6).rules, st.policy, port, six, peer);
            && (v.rule.Some? ==> w.state == v.state)
            && (v.rule.None? ==>
                  w.state == if HasFamily(FamOfAddresses(s.from, None), v6, six)
                                && RoleOf(RowIn(Meaning(s), six), port, six, peer).Decides?
                             then StateOf(s.action) else Unmanaged)
  {
    hide SpecRule, KeyOf, RoleOf, Verdict, ApplyPlan, RowIn, Listing, Args, OpFor, WantKey, TableOfAdded, Rows, EditAll, PlanSpecs;
    var op;
    dels, op := Effects.PlanOfOneSpec(added, st, s, v6);
    var rules := ApplyPlan(st.rules, dels, v6);
    var u, c := st.(rules := rules), Change(op, Args(s));
    ArgsReadBack(s);
    AllowIsAdded(s, st, dels, v6);
    NoneOfKey(rules, s, EditAll(TableOfAdded(added), dels), v6);
    AddYields(u, c, v6, port, six, peer);
    Effects.ApplyPlanConcat(st.rules, dels, [c], v6);
    Effects.SameRulesSameState(Renumber(rules), rules, st.policy, port, six, peer);
    VerdictStateAndRule(rules, st.policy, port, six, peer);
    VerdictStateAndRule(Renumber(rules), st.policy, port, six, peer);
    MeaningAction(s);
    assert Simulate(st, dels, v6).rules == Renumber(rules);
    assert Simulate(st, dels + [c], v6) == Simulate(u, [c], v6);
  }

  /** How a planned rule goes in, after the deletions before it: a deny in front, by `insert` only where
      there is an IPv4 rule to insert before and by `prepend` for an IPv6 source; anything else last. */
  lemma {:induction false} PlannedPlace(added: seq<Spec>, st: Status, s: FwSpec, v6: bool) returns (dels: Plan)
    requires Consistent(st, added, v6) && Buildable(s)
    requires PlanSpecs(added, st, [s], v6).Planned?
    ensures var plan := PlanSpecs(added, st, [s], v6).plan;
            && |plan| == |dels| + 1 && plan[..|dels|] == dels && (forall i :: 0 <= i < |dels| ==> dels[i].op.Delete?)
            && plan[|dels|].spec == Args(s)
            && plan[|dels|].op ==
               if s.action != Deny then Add
               else if s.from.value.v6 then Prepend
               else if exists r :: r in ApplyPlan(st.rules, dels, v6) && !r.v6 then Insert
               else Add
  {
    hide SpecRule, KeyOf, ApplyPlan, Listing, Args, WantKey, TableOfAdded, Rows, EditAll, PlanSpecs;
    var op;
    dels, op := Effects.PlanOfOneSpec(added, st, s, v6);
    V4Renumbered(ApplyPlan(st.rules, dels, v6));
  }

  lemma {:induction false} V4Renumbered(rules: seq<Rule>)
    ensures HasV4(Renumber(rules)) <==> exists r :: r in rules && !r.v6
  {
    if i :| 0 <= i < |rules| && !Renumber(rules)[i].v6 {
      assert rules[i] in rules && !rules[i].v6;
    }
    if r :| r in rules && !r.v6 {
      var i :| 0 <= i < |rules| && rules[i] == r;
      assert !Renumber(rules)[i].v6;
    }
  }

  lemma {:induction false} MeaningAction(s: FwSpec)
    ensures Meaning(s).action == s.action
  {
  }

  lemma {:induction false} AllowIsAdded(s: FwSpec, st: Status, dels: Plan, v6: bool)
    requires !s.action.Deny?
    ensures OpFor(s, FamOfAddresses(s.from, None), st, dels, v6).Add?
  {
  }

  lemma {:induction false} NoneOfKey(rules: seq<Rule>, s: FwSpec, t: Table, v6: bool)
    requires Ids(rules) == Rows(t, v6) && WantKey(s) !in t
    ensures forall r :: r in rules ==> KeyOf(r) != KeyOf(Meaning(s))
  {
    hide KeyOf;
    forall r | r in rules
      ensures KeyOf(r) != KeyOf(Meaning(s))
    {
      assert Id(r) in Ids(rules);
    }
  }
}
