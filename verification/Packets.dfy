/** What a verdict says about the packets the firewall sees. The reference is the real firewall,
    which tries the rows top to bottom and may know qualifiers that no row shows. */
module Packets {
  import opened RuleModel

  /** One incoming TCP connection attempt. `rest` is everything the rule model leaves out
      (the source port, for one). */
  datatype Packet = Packet(src: Addr, dst: Addr, iface: string, port: int, rest: nat)

  /** The fields of r that the model does represent agree with p. */
  predicate FieldsMatch(r: Rule, p: Packet) {
    && r.dir.In?
    && r.v6 == p.src.v6
    && (r.proto == "" || r.proto == "tcp")
    && (r.unresolved || r.CoversPort(p.port))
    && (r.from.Some? ==> r.from.value.Contains(p.src))
    && (r.dst.Some? ==> r.dst.value.Contains(p.dst))
    && (r.iface != "" ==> r.iface == p.iface)
  }

  /** The row matches p in the real firewall. A row never matches against a field it shows, and
      one without hidden qualifiers matches exactly by its fields; what the hidden qualifiers of
      the other rows accept is up to `hidden`. */
  predicate Hits(hidden: (Rule, Packet) -> bool, r: Rule, p: Packet) {
    FieldsMatch(r, p) && (r.partial || r.unresolved ==> hidden(r, p))
  }

  /** The row that decides p in the real firewall: rows are tried top to bottom. */
  function FirstHit(rules: seq<Rule>, hidden: (Rule, Packet) -> bool, p: Packet): Option<Rule> {
    if rules == [] then None
    else if Hits(hidden, rules[0], p) then Some(rules[0])
    else FirstHit(rules[1..], hidden, p)
  }

  predicate Delivered(st: Status, hidden: (Rule, Packet) -> bool, p: Packet) {
    match FirstHit(st.rules, hidden, p)
    case Some(r) => r.action.Admits()
    case None => st.policy == "allow"
  }

  /** r may match only part of what its row suggests, or only some hosts. */
  predicate Loose(r: Rule, peer: Option<Addr>) {
    r.unresolved || Restricted(r, peer)
  }

  ghost predicate Concerns(p: Packet, port: int, v6: bool, peer: Option<Addr>) {
    p.port == port && p.src.v6 == v6 && (peer.Some? ==> peer.value == p.src)
  }

  /** The verdict's deciding rule is the real one unless a loose row hits first, and every
      loose row that lets the packet in is on one of the verdict's lists. */
  lemma {:induction false} FirstHitVersusVerdict(rules: seq<Rule>, policy: string, hidden: (Rule, Packet) -> bool, p: Packet,
                                                 port: int, v6: bool, peer: Option<Addr>)
    requires Concerns(p, port, v6, peer)
    ensures var v, h := Verdict(rules, policy, port, v6, peer), FirstHit(rules, hidden, p);
            && (h != v.rule ==> h.Some? && Loose(h.value, peer) && h.value in rules && Hits(hidden, h.value, p))
            && (h != v.rule && h.value.action.Admits() ==> h.value in v.except || h.value in v.unsure)
  {
    if rules != [] {
      FirstHitVersusVerdict(rules[1..], policy, hidden, p, port, v6, peer);
    }
  }

  /** A packet that no partial, bound or unresolved row hits (nor, for an arbitrary host, a
      row restricted by source) is let in exactly when the verdict says so. */
  lemma {:induction false} VerdictIsExact(st: Status, hidden: (Rule, Packet) -> bool, p: Packet,
                                         port: int, v6: bool, peer: Option<Addr>)
    requires Concerns(p, port, v6, peer)
    requires forall r :: r in st.rules && Hits(hidden, r, p) ==> !Loose(r, peer)
    ensures FirstHit(st.rules, hidden, p) == Verdict(st.rules, st.policy, port, v6, peer).rule
    ensures Delivered(st, hidden, p) <==> Reachable(Verdict(st.rules, st.policy, port, v6, peer))
  {
    FirstHitVersusVerdict(st.rules, st.policy, hidden, p, port, v6, peer);
    VerdictStateAndRule(st.rules, st.policy, port, v6, peer);
  }

  /** A closed verdict with nothing on its lists refuses every packet it concerns, whatever
      the hidden qualifiers of the other rows are. */
  lemma {:induction false} ClosedRefusesEveryPacket(st: Status, hidden: (Rule, Packet) -> bool, p: Packet,
                                                    port: int, v6: bool, peer: Option<Addr>)
    requires Concerns(p, port, v6, peer)
    requires var v := Verdict(st.rules, st.policy, port, v6, peer); v.state == Closed && v.except == [] && v.unsure == []
    ensures !Delivered(st, hidden, p)
  {
    FirstHitVersusVerdict(st.rules, st.policy, hidden, p, port, v6, peer);
    VerdictStateAndRule(st.rules, st.policy, port, v6, peer);
  }

  /** r lets in some of the packets a verdict on port concerns, but which ones it does not show: it has
      hidden qualifiers, or is bound to an interface, a destination or a source the question leaves
      open. */
  predicate MayAdmit(r: Rule, port: int, v6: bool, peer: Option<Addr>) {
    && r.action.Admits() && !r.unresolved
    && r.dir.In? && r.v6 == v6 && (r.proto == "" || r.proto == "tcp") && r.CoversPort(port)
    && (r.from.Some? && peer.Some? ==> r.from.value.Contains(peer.value))
    && (r.partial || r.iface != "" || r.dst.Some? || (r.from.Some? && peer.None?))
  }

  /** The lists of a verdict are exactly the rows above the deciding one that may let the packet in, and
      those whose ports are unknown; n is where the deciding row stands. */
  lemma {:induction false} VerdictLists(rules: seq<Rule>, policy: string, port: int, v6: bool, peer: Option<Addr>) returns (n: nat)
    ensures n <= |rules|
    ensures var v := Verdict(rules, policy, port, v6, peer);
            && (if n < |rules| then v.rule == Some(rules[n]) else v.rule == None)
            && (forall r :: r in v.except <==> r in rules[..n] && MayAdmit(r, port, v6, peer))
            && (forall r :: r in v.unsure <==>
                  r in rules[..n] && r.unresolved && r.dir.In? && r.v6 == v6 && (r.proto == "" || r.proto == "tcp"))
  {
    n := 0;
    if rules != [] {
      var role := RoleOf(rules[0], port, v6, peer);
      if !role.Decides? {
        var m := VerdictLists(rules[1..], policy, port, v6, peer);
        n := m + 1;
        RoleExplained(rules[0], port, v6, peer);
        hide RoleOf, MayAdmit;
        assert rules[..n] == [rules[0]] + rules[1..][..m];
      }
    }
  }

  lemma {:induction false} RoleExplained(r: Rule, port: int, v6: bool, peer: Option<Addr>)
    ensures RoleOf(r, port, v6, peer).Except? <==> MayAdmit(r, port, v6, peer)
    ensures RoleOf(r, port, v6, peer).Unsure? <==>
            r.unresolved && r.dir.In? && r.v6 == v6 && (r.proto == "" || r.proto == "tcp")
  {
  }
}
