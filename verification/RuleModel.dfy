/** The ufw rule model: the rows of `ufw status`, the first-match verdict on one
    TCP port, and what that verdict says about the packets the firewall sees.

    A netip.Prefix is a family and an interval of addresses; its zero value, like the
    zero netip.Addr, is None. Addresses are already unmapped. */
module RuleModel {

  datatype Option<+T> = None | Some(value: T)

  // ---- Addresses ----

  datatype Addr = Addr(v6: bool, bits: nat)

  datatype Prefix = Prefix(v6: bool, lo: nat, hi: nat) {
    predicate Contains(a: Addr) {
      a.v6 == v6 && lo <= a.bits <= hi
    }
  }

  // ---- Rules ----

  datatype PortRange = PortRange(lo: int, hi: int)

  datatype Action = Allow | Deny | Reject | Limit {
    predicate Admits() {
      Allow? || Limit?
    }
  }

  datatype Dir = In | Out | Fwd

  /** One word of a rule spec or of a printed row. A port word is kept parsed, so it has
      one spelling ("22", never "022"), and an address word is its prefix. */
  datatype Word = Text(s: string) | Address(p: Prefix) | PortList(ports: seq<PortRange>, proto: string)

  datatype Rule = Rule(
    num: nat,
    action: Action,
    dir: Dir,
    proto: string,
    ports: seq<PortRange>,
    from: Option<Prefix>,
    dst: Option<Prefix>,
    iface: string,
    app: string,
    v6: bool,
    raw: seq<Word>,
    unresolved: bool,
    partial: bool) {

    /** An empty port list is every port. */
    predicate CoversPort(port: int) {
      ports == [] || exists i :: 0 <= i < |ports| && ports[i].lo <= port <= ports[i].hi
    }
  }

  datatype Status = Status(policy: string, rules: seq<Rule>) {
    predicate HasV6() {
      exists i :: 0 <= i < |rules| && rules[i].v6
    }
  }

  // ---- Verdict ----

  datatype PortState = Open | Closed | Unmanaged

  datatype PortVerdict = PortVerdict(
    state: PortState,
    rule: Option<Rule>,
    policy: string,
    except: seq<Rule>,
    unsure: seq<Rule>)

  /** What one row contributes to the verdict on port, for peer (None: an arbitrary host). */
  datatype Role = Skipped | Unsure | Except | Decides

  predicate Restricted(r: Rule, peer: Option<Addr>) {
    r.partial || r.iface != "" || r.dst.Some? || (r.from.Some? && peer.None?)
  }

  function RoleOf(r: Rule, port: int, v6: bool, peer: Option<Addr>): Role {
    if !r.dir.In? || r.v6 != v6 || (r.proto != "" && r.proto != "tcp") then Skipped
    else if r.unresolved then Unsure
    else if !r.CoversPort(port) then Skipped
    else if r.from.Some? && peer.Some? && !r.from.value.Contains(peer.value) then Skipped
    else if Restricted(r, peer) then (if r.action.Admits() then Except else Skipped)
    else Decides
  }

  function StateOf(a: Action): PortState {
    if a.Admits() then Open else Closed
  }

  /** The verdict as a function of the list: the first deciding row, and the allowing and
      unresolved rows above it. */
  function Verdict(rules: seq<Rule>, policy: string, port: int, v6: bool, peer: Option<Addr>): PortVerdict {
    if rules == [] then
      PortVerdict(Unmanaged, None, policy, [], [])
    else
      var rest := Verdict(rules[1..], policy, port, v6, peer);
      match RoleOf(rules[0], port, v6, peer)
      case Skipped => rest
      case Unsure => rest.(unsure := [rules[0]] + rest.unsure)
      case Except => rest.(except := [rules[0]] + rest.except)
      case Decides => PortVerdict(StateOf(rules[0].action), Some(rules[0]), policy, [], [])
  }

  /** v with the rows of two lists put before its own. */
  function After(except: seq<Rule>, unsure: seq<Rule>, v: PortVerdict): PortVerdict {
    v.(except := except + v.except, unsure := unsure + v.unsure)
  }

  lemma {:induction false} VerdictStep(rules: seq<Rule>, i: nat, except: seq<Rule>, unsure: seq<Rule>,
                    policy: string, port: int, v6: bool, peer: Option<Addr>)
    requires i < |rules|
    ensures var r, rest := rules[i], Verdict(rules[i+1..], policy, port, v6, peer);
            After(except, unsure, Verdict(rules[i..], policy, port, v6, peer)) ==
            match RoleOf(r, port, v6, peer)
            case Skipped => After(except, unsure, rest)
            case Unsure => After(except, unsure + [r], rest)
            case Except => After(except + [r], unsure, rest)
            case Decides => PortVerdict(StateOf(r.action), Some(r), policy, except, unsure)
  {
    var tail, r, rest := rules[i..], rules[i], Verdict(rules[i+1..], policy, port, v6, peer);
    assert tail[0] == r && tail[1..] == rules[i+1..];
    assert unsure + ([r] + rest.unsure) == (unsure + [r]) + rest.unsure;
    assert except + ([r] + rest.except) == (except + [r]) + rest.except;
    assert except + [] == except && unsure + [] == unsure;
  }

  /** ufwStatus.verdict: the loop over the rows. */
  method Evaluate(st: Status, port: int, v6: bool, peer: Option<Addr>) returns (v: PortVerdict)
    ensures v == Verdict(st.rules, st.policy, port, v6, peer)
  {
    v := PortVerdict(Unmanaged, None, st.policy, [], []);
    var i := 0;
    assert st.rules[0..] == st.rules;
    while i < |st.rules|
      invariant 0 <= i <= |st.rules|
      invariant v.state == Unmanaged && v.rule == None && v.policy == st.policy
      invariant After(v.except, v.unsure, Verdict(st.rules[i..], st.policy, port, v6, peer)) ==
                Verdict(st.rules, st.policy, port, v6, peer)
    {
      var r := st.rules[i];
      VerdictStep(st.rules, i, v.except, v.unsure, st.policy, port, v6, peer);
      i := i + 1;
      if !r.dir.In? || r.v6 != v6 || (r.proto != "" && r.proto != "tcp") {
        continue;
      }
      if r.unresolved {
        v := v.(unsure := v.unsure + [r]);
        continue;
      }
      if !r.CoversPort(port) {
        continue;
      }
      if r.from.Some? && peer.Some? && !r.from.value.Contains(peer.value) {
        continue;
      }
      var restricted := r.partial || r.iface != "" || r.dst.Some? || (r.from.Some? && peer.None?);
      if restricted {
        if r.action.Admits() {
          v := v.(except := v.except + [r]);
        }
        continue;
      }
      v := v.(rule := Some(r));
      if r.action.Admits() {
        v := v.(state := Open);
      } else {
        v := v.(state := Closed);
      }
      return;
    }
  }

  /** reachable: the verdict lets the connection in. */
  predicate Reachable(v: PortVerdict) {
    v.state == Open || (v.state == Unmanaged && v.policy == "allow")
  }

  lemma {:induction false} VerdictStateAndRule(rules: seq<Rule>, policy: string, port: int, v6: bool, peer: Option<Addr>)
    ensures var v := Verdict(rules, policy, port, v6, peer);
            && v.policy == policy
            && v.state == (if v.rule.Some? then StateOf(v.rule.value.action) else Unmanaged)
  {
    if rules != [] {
      VerdictStateAndRule(rules[1..], policy, port, v6, peer);
    }
  }

  // ---- How edits of the list move the verdict ----

  /** The first deciding row of a concatenation. */
  lemma {:induction false} VerdictOfConcat(a: seq<Rule>, b: seq<Rule>, policy: string, port: int, v6: bool, peer: Option<Addr>)
    ensures var va, vb := Verdict(a, policy, port, v6, peer), Verdict(b, policy, port, v6, peer);
            Verdict(a + b, policy, port, v6, peer).rule == (if va.rule.Some? then va.rule else vb.rule)
  {
    if a == [] {
      assert a + b == b;
    } else {
      assert (a + b)[0] == a[0] && (a + b)[1..] == a[1..] + b;
      VerdictOfConcat(a[1..], b, policy, port, v6, peer);
    }
  }

  /** Rows that do not decide can come and go. */
  lemma {:induction false} NoDecider(rules: seq<Rule>, policy: string, port: int, v6: bool, peer: Option<Addr>)
    requires forall r :: r in rules ==> !RoleOf(r, port, v6, peer).Decides?
    ensures Verdict(rules, policy, port, v6, peer).rule == None
    ensures Verdict(rules, policy, port, v6, peer).state == Unmanaged
  {
    if rules != [] {
      NoDecider(rules[1..], policy, port, v6, peer);
    }
  }
}
