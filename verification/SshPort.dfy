/** Opening and closing port 22: the plan, why it works, what it leaves alone and when it can
    be taken back by spec. */
module SshPort {
  import opened RuleModel
  import opened RuleSpecs
  import opened Simulation
  import opened Planning
  import opened Effects

  const SSH_RANGE := PortRange(22, 22)
  const SSH_TCP := PortList([SSH_RANGE], "tcp")
  const SSH_ANY := PortList([SSH_RANGE], "")

  // ---- The plan ----

  /** The rule is about port 22 and nothing else; an app's ports are those its rows show. */
  predicate SshOnly(r: RuleSpec, st: Status) {
    r.plain &&
    if r.app != "" then
      && (forall i :: 0 <= i < |st.rules| && st.rules[i].app == r.app ==>
            !st.rules[i].unresolved && st.rules[i].ports == [SSH_RANGE] && st.rules[i].proto != "udp")
      && (exists i :: 0 <= i < |st.rules| && st.rules[i].app == r.app)
    else
      r.port == SSH_ANY || r.port == SSH_TCP
  }

  /** sshOnly's loop over the rows of an app. */
  method IsSshOnly(r: RuleSpec, st: Status) returns (only: bool)
    ensures only == SshOnly(r, st)
  {
    if !r.plain {
      return false;
    }
    if r.app != "" {
      var seen := false;
      for i := 0 to |st.rules|
        invariant forall k :: 0 <= k < i && st.rules[k].app == r.app ==>
                    !st.rules[k].unresolved && st.rules[k].ports == [SSH_RANGE] && st.rules[k].proto != "udp"
        invariant seen <==> exists k :: 0 <= k < i && st.rules[k].app == r.app
      {
        var row := st.rules[i];
        if row.app != r.app {
          continue;
        }
        if row.unresolved || |row.ports| != 1 || row.ports[0] != SSH_RANGE || row.proto == "udp" {
          return false;
        }
        seen := true;
      }
      return seen;
    }
    return r.port == SSH_ANY || r.port == SSH_TCP;
  }

  predicate MatchesRow(r: RuleSpec, row: Rule) {
    && row.action == r.action && row.dir.In? && row.from.None? && row.dst.None? && row.iface == "" && !row.partial
    && if r.app != "" then row.app == r.app
       else row.app == "" && IsPortSpec(r.port) && r.port.proto == row.proto && r.port.ports == row.ports
  }

  function Wanted(open: bool): Action {
    if open then Allow else Deny
  }

  predicate Opposes(a: Action, open: bool) {
    if open then a.Deny? || a.Reject? else a.Allow? || a.Limit?
  }

  /** The action that neither opposes nor equals the wanted one. */
  function Leftover(open: bool): Action {
    if open then Limit else Reject
  }

  /** The rule r must go: it says the opposite about port 22 alone, or is a copy of the new
      rule, which ufw would otherwise leave where it is. */
  predicate MustGo(r: RuleSpec, st: Status, open: bool) {
    && SshOnly(r, st)
    && ((r.action == Wanted(open) && r.app == "" && r.port == SSH_TCP) || Opposes(r.action, open))
  }

  predicate Doomed(spec: Spec, st: Status, open: bool) {
    ParseRuleSpec(spec).Some? && MustGo(ParseRuleSpec(spec).value, st, open)
  }

  function DoomedSpecs(added: seq<Spec>, st: Status, open: bool): seq<Spec> {
    if added == [] then []
    else (if Doomed(added[0], st, open) then [added[0]] else []) + DoomedSpecs(added[1..], st, open)
  }

  /** An IPv4 row none of the doomed specs matches. */
  predicate Stays(row: Rule, gone: seq<Spec>) {
    && !row.v6
    && forall i :: 0 <= i < |gone| && ParseRuleSpec(gone[i]).Some? ==> !MatchesRow(ParseRuleSpec(gone[i]).value, row)
  }

  predicate SomeStay(st: Status, gone: seq<Spec>) {
    exists i :: 0 <= i < |st.rules| && Stays(st.rules[i], gone)
  }

  function Target(open: bool): Spec {
    [ActionWord(Wanted(open)), SSH_TCP]
  }

  function SshPortPlan(added: seq<Spec>, st: Status, open: bool): Plan {
    var gone := DoomedSpecs(added, st, open);
    Deletes(gone) + [Change(if SomeStay(st, gone) then Insert else Add, Target(open))]
  }

  lemma {:induction false} DoomedStep(added: seq<Spec>, j: nat, st: Status, open: bool, gone: seq<Spec>)
    requires j < |added|
    ensures gone + DoomedSpecs(added[j..], st, open) ==
            (if Doomed(added[j], st, open) then gone + [added[j]] else gone) + DoomedSpecs(added[j+1..], st, open)
  {
    hide Doomed;
    assert added[j..][0] == added[j] && added[j..][1..] == added[j+1..];
  }

  lemma {:induction false} NothingDoomed(st: Status, open: bool)
    ensures DoomedSpecs([], st, open) == []
  {
  }

  /** How many IPv4 rows the deletions leave. */
  method CountLeft(st: Status, gone: seq<Spec>) returns (left: nat)
    requires forall i :: 0 <= i < |gone| ==> ParseRuleSpec(gone[i]).Some?
    ensures left == 0 <==> !SomeStay(st, gone)
  {
    hide ParseRuleSpec, MatchesRow;
    left := 0;
    for i := 0 to |st.rules|
      invariant left == 0 <==> forall k :: 0 <= k < i ==> !Stays(st.rules[k], gone)
    {
      var row := st.rules[i];
      if row.v6 {
        continue;
      }
      var matched := false;
      for k := 0 to |gone|
        invariant matched <==> exists m :: 0 <= m < k && MatchesRow(ParseRuleSpec(gone[m]).value, row)
      {
        if MatchesRow(ParseRuleSpec(gone[k]).value, row) {
          matched := true;
        }
      }
      if !matched {
        left := left + 1;
      }
    }
  }

  /** sshPortPlan: the loop over the added rules. */
  method BuildSshPortPlan(added: seq<Spec>, st: Status, open: bool) returns (plan: Plan)
    ensures plan == SshPortPlan(added, st, open)
  {
    hide ParseRuleSpec, MatchesRow, SshOnly, SomeStay, DoomedSpecs, Deletes;
    var gone: seq<Spec> := [];
    plan := [];
    assert added[0..] == added;
    for j := 0 to |added|
      invariant gone + DoomedSpecs(added[j..], st, open) == DoomedSpecs(added, st, open)
      invariant plan == Deletes(gone)
      invariant forall i :: 0 <= i < |gone| ==> ParseRuleSpec(gone[i]).Some?
    {
      var spec := added[j];
      DoomedStep(added, j, st, open, gone);
      var r := ParseRuleSpec(spec);
      if r.None? {
        continue;
      }
      var only := IsSshOnly(r.value, st);
      if !only {
        continue;
      }
      var same := r.value.action == Wanted(open) && r.value.app == "" && r.value.port == SSH_TCP;
      if same || Opposes(r.value.action, open) {
        plan := plan + [Change(Delete, spec)];
        gone := gone + [spec];
      }
    }
    assert added[|added|..] == [] && DoomedSpecs([], st, open) == [] && gone + [] == gone by {
      NothingDoomed(st, open);
    }
    var left := CountLeft(st, gone);
    var op := Insert;
    if left == 0 {
      op := Add;
    }
    assert gone == DoomedSpecs(added, st, open);
    plan := plan + [Change(op, Target(open))];
  }

  // ---- The two spec readers agree where it matters ----

  lemma {:induction false} StripKeepsWords(spec: Spec, w: Word)
    requires w in StripNoise(spec)
    ensures w in spec
  {
    if spec != [] {
      if spec[0] == Text("log") || spec[0] == Text("log-all") {
        StripKeepsWords(spec[1..], w);
      } else if spec[0] == Text("comment") {
        if |spec| > 1 {
          StripKeepsWords(spec[2..], w);
        }
      } else if w != spec[0] {
        StripKeepsWords(spec[1..], w);
      }
    }
  }

  lemma {:induction false} NotPlainStays(a: SpecReading, words: Spec)
    requires |words| % 2 == 0 && !a.plain && ReadSpecPairs(a, words).Some?
    ensures !ReadSpecPairs(a, words).value.plain
    decreases |words|
  {
    if words != [] {
      NotPlainStays(ReadSpecPair(a, words[0], words[1]).value, words[2..]);
    }
  }

  /** What ParseRuleSpec makes of the words after the action and the direction. */
  function SpecTail(action: Action, w: Spec): Option<RuleSpec> {
    if |w| == 1 && w[0] != Text("from") && w[0] != Text("to") then
      (if IsPortSpec(w[0]) then Some(RuleSpec(action, w[0], "", true))
       else if w[0].Text? then Some(RuleSpec(action, NONE, w[0].s, true))
       else None)
    else if |w| % 2 != 0 then None
    else
      match ReadSpecPairs(SPEC_START, w)
      case None => None
      case Some(a) =>
        Some(RuleSpec(action, if a.proto != "" && a.port != NONE then JoinProto(a.port, a.proto) else a.port, a.app, a.plain))
  }

  /** A rule without addresses, interface or hidden qualifiers, and the narrower reading of it. */
  predicate SamePlain(r: Rule, s: RuleSpec) {
    && s.action == r.action && s.app == r.app
    && (if r.ports == [] then s.port == NONE else s.port == PortList(r.ports, r.proto))
  }

  lemma {:induction false} TailsAgree(blank: Rule, w: Spec)
    requires blank == Blank(blank.action)
    requires ReadTail(blank, w).Some?
    ensures SpecTail(blank.action, w).Some?
    ensures var r, s := ReadTail(blank, w).value, SpecTail(blank.action, w).value;
            && (s.plain <==> r.from.None? && r.dst.None?)
            && (!r.partial ==> SamePlain(r, s))
  {
    if |w| % 2 == 0 && w != [] {
      SpecPairsReadable(START, SPEC_START, w);
      ReadersAgree(START, SPEC_START, w);
    }
  }

  lemma {:induction false} ReadersAgreeOnPlainRules(spec: Spec)
    requires SpecRule(spec).Some? && NONE !in spec
    requires var r := SpecRule(spec).value.rule;
             r.dir.In? && r.iface == "" && r.from.None? && r.dst.None? && !r.partial
    ensures ParseRuleSpec(spec).Some? && ParseRuleSpec(spec).value.plain
    ensures SamePlain(SpecRule(spec).value.rule, ParseRuleSpec(spec).value)
  {
    hide ReadTail, SpecTail;
    var words := StripNoise(spec);
    var action := ParseAction(words[0]).value;
    var w := if words[1] == Text("in") then words[2..] else words[1..];
    assert ParseRuleSpec(spec) == SpecTail(action, w) by {
      SpecTailIs(spec, action);
    }
    if |w| >= 2 && w[0] == Text("on") {
      assert w[1] in words;
      StripKeepsWords(spec, w[1]);
      assert false;
    } else {
      TailsAgree(Blank(action), w);
    }
  }

  lemma {:induction false} SpecTailIs(spec: Spec, action: Action)
    requires var words := StripNoise(spec); |words| >= 2 && ParseAction(words[0]) == Some(action) && words[1] != Text("out")
    ensures var words := StripNoise(spec);
            ParseRuleSpec(spec) == SpecTail(action, if words[1] == Text("in") then words[2..] else words[1..])
  {
  }

  /** What specRule makes of a spec the narrower reader calls plain: a rule for anyone and
      anywhere with the same ports or app, or one with a source port, which never decides. */
  lemma {:induction false} PlainSpecsRead(spec: Spec)
    requires ParseRuleSpec(spec).Some? && ParseRuleSpec(spec).value.plain && SpecRule(spec).Some?
    ensures var r, s := SpecRule(spec).value.rule, ParseRuleSpec(spec).value;
            && (r.partial || SamePlain(r, s))
            && r.dir.In? && r.iface == "" && r.from.None? && r.dst.None?
  {
    hide ReadTail, SpecTail;
    var words := StripNoise(spec);
    var action := ParseAction(words[0]).value;
    var w := if words[1] == Text("in") then words[2..] else words[1..];
    SpecTailIs(spec, action);
    if |w| >= 2 && w[0] == Text("on") {
      OnIsNotPlain(action, w);
      assert false;
    } else {
      TailsAgree(Blank(action), w);
    }
  }

  lemma {:induction false} OnIsNotPlain(action: Action, w: Spec)
    requires |w| >= 2 && w[0] == Text("on") && SpecTail(action, w).Some?
    ensures !SpecTail(action, w).value.plain
  {
    NotPlainStays(SPEC_START.(plain := false), w[2..]);
  }

  /** Any action over 22/tcp, as the spec of a rule. */
  lemma {:induction false} SshSpecReads(action: Action)
    ensures SpecRule([ActionWord(action), SSH_TCP]) ==
            Some(Parsed(Blank(action).(ports := [SSH_RANGE], proto := "tcp"), Both))
  {
    var words := [ActionWord(action), SSH_TCP];
    NothingToStrip(words);
    PlainHead(words, action);
  }

  lemma {:induction false} TargetReads(open: bool)
    ensures SpecRule(Target(open)) ==
            Some(Parsed(Blank(Wanted(open)).(ports := [SSH_RANGE], proto := "tcp"), Both))
  {
    SshSpecReads(Wanted(open));
  }

  function TargetRow(open: bool, six: bool): Rule {
    RowIn(Blank(Wanted(open)).(ports := [SSH_RANGE], proto := "tcp"), six)
  }

  // ---- The deciding rows of a list ----

  function Deciding(rules: seq<Rule>, port: int, v6: bool, peer: Option<Addr>): seq<Rule> {
    if rules == [] then []
    else (if RoleOf(rules[0], port, v6, peer).Decides? then [rules[0]] else []) + Deciding(rules[1..], port, v6, peer)
  }

  lemma {:induction false} StateOfDeciding(rules: seq<Rule>, policy: string, port: int, v6: bool, peer: Option<Addr>)
    ensures var d := Deciding(rules, port, v6, peer);
            Verdict(rules, policy, port, v6, peer).state == if d == [] then Unmanaged else StateOf(d[0].action)
  {
    if rules != [] {
      StateOfDeciding(rules[1..], policy, port, v6, peer);
    }
  }

  lemma {:induction false} DecidingConcat(a: seq<Rule>, b: seq<Rule>, port: int, v6: bool, peer: Option<Addr>)
    ensures Deciding(a + b, port, v6, peer) == Deciding(a, port, v6, peer) + Deciding(b, port, v6, peer)
  {
    hide RoleOf;
    if a == [] {
      assert a + b == b;
    } else {
      assert (a + b)[0] == a[0] && (a + b)[1..] == a[1..] + b;
      DecidingConcat(a[1..], b, port, v6, peer);
      var head := if RoleOf(a[0], port, v6, peer).Decides? then [a[0]] else [];
      var da, db := Deciding(a[1..], port, v6, peer), Deciding(b, port, v6, peer);
      assert head + (da + db) == (head + da) + db;
    }
  }

  lemma {:induction false} DecidingNone(rules: seq<Rule>, port: int, v6: bool, peer: Option<Addr>)
    requires forall r :: r in rules ==> !RoleOf(r, port, v6, peer).Decides?
    ensures Deciding(rules, port, v6, peer) == []
  {
    hide RoleOf;
    if rules != [] {
      DecidingNone(rules[1..], port, v6, peer);
    }
  }

  lemma {:induction false} DecidingOne(r: Rule, port: int, v6: bool, peer: Option<Addr>)
    ensures Deciding([r], port, v6, peer) == if RoleOf(r, port, v6, peer).Decides? then [r] else []
  {
    hide RoleOf;
    assert [r][1..] == [];
  }

  lemma {:induction false} DecidingAround(rules: seq<Rule>, at: nat, row: Rule, port: int, v6: bool, peer: Option<Addr>)
    requires at <= |rules|
    ensures Deciding(InsertAt(rules, at, row), port, v6, peer) ==
            Deciding(rules[..at], port, v6, peer) + Deciding([row], port, v6, peer) + Deciding(rules[at..], port, v6, peer)
    ensures Deciding(rules, port, v6, peer) ==
            Deciding(rules[..at], port, v6, peer) + Deciding(rules[at..], port, v6, peer)
  {
    hide RoleOf;
    assert rules == rules[..at] + rules[at..];
    DecidingConcat(rules[..at], rules[at..], port, v6, peer);
    DecidingConcat(rules[..at], [row], port, v6, peer);
    DecidingConcat(rules[..at] + [row], rules[at..], port, v6, peer);
  }

  /** Putting in a row that does not decide changes no deciding row. */
  lemma {:induction false} MuteInsert(rules: seq<Rule>, at: nat, row: Rule, port: int, v6: bool, peer: Option<Addr>)
    requires at <= |rules| && !RoleOf(row, port, v6, peer).Decides?
    ensures Deciding(InsertAt(rules, at, row), port, v6, peer) == Deciding(rules, port, v6, peer)
  {
    hide RoleOf;
    DecidingAround(rules, at, row, port, v6, peer);
    DecidingOne(row, port, v6, peer);
  }

  lemma {:induction false} MutePlace(rules: seq<Rule>, row: Rule, op: Op, port: int, v6: bool, peer: Option<Addr>)
    requires !RoleOf(row, port, v6, peer).Decides?
    requires forall r :: r in rules && SameSlot(r, row) ==> !RoleOf(r, port, v6, peer).Decides?
    ensures Deciding(Place(rules, row, op), port, v6, peer) == Deciding(rules, port, v6, peer)
  {
    hide RoleOf, SameSlot;
    var i := IndexMatch(rules, row);
    if i < |rules| {
      var base := RemoveAt(rules, i);
      assert rules == InsertAt(base, i, rules[i]);
      MuteInsert(base, i, rules[i], port, v6, peer);
      if op.Add? && rules[i].action != row.action {
        assert rules[i := row] == InsertAt(base, i, row);
        MuteInsert(base, i, row, port, v6, peer);
      } else if rules[i].action != row.action {
        MuteInsert(base, Spot(base, row.v6, op), row, port, v6, peer);
      }
    } else {
      MuteInsert(rules, Spot(rules, row.v6, op), row, port, v6, peer);
    }
  }

  lemma {:induction false} MuteDelete(rules: seq<Rule>, p: Parsed, port: int, v6: bool, peer: Option<Addr>)
    requires forall r :: r in rules && RowOf(r, p) ==> !RoleOf(r, port, v6, peer).Decides?
    ensures Deciding(WithoutRowsOf(rules, p), port, v6, peer) == Deciding(rules, port, v6, peer)
  {
    hide RoleOf, RowOf;
    if rules != [] {
      MuteDelete(rules[1..], p, port, v6, peer);
      var rest := WithoutRowsOf(rules[1..], p);
      if !RowOf(rules[0], p) {
        assert ([rules[0]] + rest)[1..] == rest;
      }
    }
  }

  // ---- Other ports are left alone ----

  /** No row a doomed spec deletes ever decides another port. */
  lemma {:induction false} DoomedRowsAreMute(spec: Spec, st: Status, open: bool, row: Rule, port: int, v6: bool, peer: Option<Addr>)
    requires Doomed(spec, st, open) && SpecRule(spec).Some? && row in st.rules && RowOf(row, SpecRule(spec).value)
    requires port != 22
    ensures !RoleOf(row, port, v6, peer).Decides?
  {
    hide SpecRule, ParseRuleSpec;
    PlainSpecsRead(spec);
    var i :| 0 <= i < |st.rules| && st.rules[i] == row;
  }

  lemma {:induction false} DeletesAreMute(rules: seq<Rule>, specs: seq<Spec>, st: Status, open: bool, f: bool,
                                          port: int, v6: bool, peer: Option<Addr>)
    requires forall r :: r in rules ==> r in st.rules
    requires forall i :: 0 <= i < |specs| ==> Doomed(specs[i], st, open)
    requires port != 22
    ensures Deciding(ApplyPlan(rules, Deletes(specs), f), port, v6, peer) == Deciding(rules, port, v6, peer)
    decreases |specs|
  {
    hide SpecRule, Doomed, RoleOf, RowOf;
    if specs != [] {
      var c := Deletes(specs)[0];
      assert Deletes(specs)[1..] == Deletes(specs[1..]);
      var next := ApplyChange(rules, c, f);
      if SpecRule(c.spec).Some? {
        var p := SpecRule(c.spec).value;
        forall r | r in rules && RowOf(r, p)
          ensures !RoleOf(r, port, v6, peer).Decides?
        {
          DoomedRowsAreMute(specs[0], st, open, r, port, v6, peer);
        }
        MuteDelete(rules, p, port, v6, peer);
      }
      DeletesAreMute(next, specs[1..], st, open, f, port, v6, peer);
    }
  }

  lemma {:induction false} TargetIsMute(rules: seq<Rule>, open: bool, six: bool, op: Op, port: int, v6: bool, peer: Option<Addr>)
    requires port != 22 || six != v6
    ensures Deciding(Place(rules, TargetRow(open, six), op), port, v6, peer) == Deciding(rules, port, v6, peer)
  {
    var row := TargetRow(open, six);
    assert row.ports == [SSH_RANGE];
    MutePlace(rules, row, op, port, v6, peer);
  }

  lemma {:induction false} PlanApplied(added: seq<Spec>, st: Status, open: bool, v6: bool) returns (rest: seq<Rule>, op: Op)
    ensures rest == ApplyPlan(st.rules, Deletes(DoomedSpecs(added, st, open)), v6)
    ensures op == if SomeStay(st, DoomedSpecs(added, st, open)) then Insert else Add
    ensures var four := Place(rest, TargetRow(open, false), op);
            ApplyPlan(st.rules, SshPortPlan(added, st, open), v6) == if v6 then Place(four, TargetRow(open, true), op) else four
  {
    hide SpecRule, Target, Place, RowIn, DoomedSpecs;
    var gone := DoomedSpecs(added, st, open);
    op := if SomeStay(st, gone) then Insert else Add;
    rest := ApplyPlan(st.rules, Deletes(gone), v6);
    TargetReads(open);
    var c := Change(op, Target(open));
    ApplyPlanConcat(st.rules, Deletes(gone), [c], v6);
    assert [c][1..] == [];
    assert ApplyPlan(rest, [c], v6) == ApplyChange(rest, c, v6);
    var r := Blank(Wanted(open)).(ports := [SSH_RANGE], proto := "tcp");
    assert [false, true][1..] == [true];
    OneFamily(rest, r, false, op);
    OneFamily(Place(rest, RowIn(r, false), op), r, true, op);
  }

  lemma {:induction false} DoomedSpecsAreDoomed(added: seq<Spec>, st: Status, open: bool)
    ensures forall i :: 0 <= i < |DoomedSpecs(added, st, open)| ==> Doomed(DoomedSpecs(added, st, open)[i], st, open)
    ensures forall s :: s in added && Doomed(s, st, open) ==> s in DoomedSpecs(added, st, open)
    ensures forall s :: s in DoomedSpecs(added, st, open) ==> s in added
  {
    hide Doomed;
    if added != [] {
      DoomedSpecsAreDoomed(added[1..], st, open);
    }
  }

  /** Opening or closing port 22 changes the state of no other port, for either family and
      any peer, whatever the list and the added rules are. */
  lemma {:induction false} OtherPortsUntouched(added: seq<Spec>, st: Status, open: bool, ipv6: bool,
                                               port: int, v6: bool, peer: Option<Addr>)
    requires port != 22
    ensures Verdict(Simulate(st, SshPortPlan(added, st, open), ipv6).rules, st.policy, port, v6, peer).state ==
            Verdict(st.rules, st.policy, port, v6, peer).state
  {
    hide RoleOf, Verdict, DoomedSpecs, Doomed, Place, TargetRow, SshPortPlan;
    var gone := DoomedSpecs(added, st, open);
    DoomedSpecsAreDoomed(added, st, open);
    var rest, op := PlanApplied(added, st, open, ipv6);
    DeletesAreMute(st.rules, gone, st, open, ipv6, port, v6, peer);
    TargetIsMute(rest, open, false, op, port, v6, peer);
    TargetIsMute(Place(rest, TargetRow(open, false), op), open, true, op, port, v6, peer);
    var out := ApplyPlan(st.rules, SshPortPlan(added, st, open), ipv6);
    StateOfDeciding(out, st.policy, port, v6, peer);
    StateOfDeciding(st.rules, st.policy, port, v6, peer);
    SameRulesSameState(Renumber(out), out, st.policy, port, v6, peer);
  }
}
