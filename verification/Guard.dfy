/** The SSH guard and the plan run it protects. */
module Guard {
  import opened RuleModel
  import opened Packets
  import opened RuleSpecs
  import opened Simulation

  /** verdictSig: what decided a verdict, as the rows were printed. */
  datatype Signature = Signature(state: PortState, policy: string, rule: Option<(Action, seq<Word>)>,
                                 except: seq<(Action, seq<Word>)>, unsure: seq<(Action, seq<Word>)>)

  function Shown(r: Rule): (Action, seq<Word>) {
    (r.action, r.raw)
  }

  function ShownAll(rules: seq<Rule>): seq<(Action, seq<Word>)> {
    seq(|rules|, i requires 0 <= i < |rules| => Shown(rules[i]))
  }

  function Sig(v: PortVerdict): Signature {
    Signature(v.state, v.policy, if v.rule.Some? then Some(Shown(v.rule.value)) else None, ShownAll(v.except), ShownAll(v.unsure))
  }

  function VerdictOf(st: Status, port: int, v6: bool, peer: Option<Addr>): PortVerdict {
    Verdict(st.rules, st.policy, port, v6, peer)
  }

  /** The change does not take SSH from peer: it is let in after, or it was not before and
      the change does not touch what decides for it. */
  predicate KeepsPeer(before: Status, after: Status, port: int, peer: Addr) {
    var vb, va := VerdictOf(before, port, peer.v6, Some(peer)), VerdictOf(after, port, peer.v6, Some(peer));
    Reachable(va) || (!Reachable(vb) && Sig(vb) == Sig(va))
  }

  /** The change does not close port to an arbitrary host of the family. */
  predicate KeepsOpen(before: Status, after: Status, port: int, v6: bool) {
    Reachable(VerdictOf(before, port, v6, None)) ==> Reachable(VerdictOf(after, port, v6, None))
  }

  /** The IPv6 question is skipped when neither list has an IPv6 row. */
  predicate Asked(before: Status, after: Status, v6: bool) {
    !v6 || before.HasV6() || after.HasV6()
  }

  ghost predicate Passes(before: Status, after: Status, ports: seq<int>, peers: seq<Addr>) {
    && (forall i, j :: 0 <= i < |ports| && 0 <= j < |peers| ==> KeepsPeer(before, after, ports[i], peers[j]))
    && (forall i, v6 :: 0 <= i < |ports| && Asked(before, after, v6) ==> KeepsOpen(before, after, ports[i], v6))
  }

  /** The rows print alike. */
  predicate PrintAlike(a: seq<Rule>, b: seq<Rule>) {
    |a| == |b| && forall i :: 0 <= i < |a| ==> a[i].action == b[i].action && a[i].raw == b[i].raw
  }

  /** The same state, policy and lists, and the same deciding row, as they are printed. */
  predicate SameDecision(v: PortVerdict, w: PortVerdict) {
    && v.state == w.state && v.policy == w.policy
    && (v.rule.Some? <==> w.rule.Some?) && (v.rule.Some? ==> PrintAlike([v.rule.value], [w.rule.value]))
    && PrintAlike(v.except, w.except) && PrintAlike(v.unsure, w.unsure)
  }

  lemma {:induction false} ShownIsPrinted(a: seq<Rule>, b: seq<Rule>)
    ensures ShownAll(a) == ShownAll(b) <==> PrintAlike(a, b)
  {
    if ShownAll(a) == ShownAll(b) {
      assert |ShownAll(a)| == |a| && |ShownAll(b)| == |b|;
      forall i | 0 <= i < |a|
        ensures a[i].action == b[i].action && a[i].raw == b[i].raw
      {
        assert ShownAll(a)[i] == (a[i].action, a[i].raw);
        assert ShownAll(b)[i] == (b[i].action, b[i].raw);
      }
    }
  }

  lemma {:induction false} SigIsDecision(v: PortVerdict, w: PortVerdict)
    ensures Sig(v) == Sig(w) <==> SameDecision(v, w)
  {
    hide PrintAlike, ShownAll;
    ShownIsPrinted(v.except, w.except);
    ShownIsPrinted(v.unsure, w.unsure);
    if v.rule.Some? && w.rule.Some? {
      OneShown(v.rule.value, w.rule.value);
    }
  }

  lemma {:induction false} OneShown(r: Rule, s: Rule)
    ensures Shown(r) == Shown(s) <==> PrintAlike([r], [s])
  {
    if PrintAlike([r], [s]) {
      assert [r][0].action == [s][0].action && [r][0].raw == [s][0].raw;
    }
  }

  /** The guard passes exactly when no admin peer loses a port, and no port closes for an arbitrary host in
      a family that either list has rows of: a peer that was not shown to reach a port may only stay as it
      was, decided by the same rows as printed. */
  lemma {:induction false} GuardPassesExactly(before: Status, after: Status, ports: seq<int>, peers: seq<Addr>)
    ensures Passes(before, after, ports, peers) <==>
            && (forall port, peer :: port in ports && peer in peers ==>
                  var vb := Verdict(before.rules, before.policy, port, peer.v6, Some(peer));
                  var va := Verdict(after.rules, after.policy, port, peer.v6, Some(peer));
                  Reachable(va) || (!Reachable(vb) && SameDecision(vb, va)))
            && (forall port, v6 :: port in ports && (v6 ==> before.HasV6() || after.HasV6()) ==>
                  Reachable(Verdict(before.rules, before.policy, port, v6, None)) ==>
                    Reachable(Verdict(after.rules, after.policy, port, v6, None)))
  {
    hide Verdict, KeepsPeer, KeepsOpen, SameDecision, Reachable, Passes;
    PassesByMembers(before, after, ports, peers);
    if Passes(before, after, ports, peers) {
      forall port, peer | port in ports && peer in peers
        ensures var vb := Verdict(before.rules, before.policy, port, peer.v6, Some(peer));
                var va := Verdict(after.rules, after.policy, port, peer.v6, Some(peer));
                Reachable(va) || (!Reachable(vb) && SameDecision(vb, va))
      {
        KeepsPeerIs(before, after, port, peer);
      }
      forall port, v6 | port in ports && (v6 ==> before.HasV6() || after.HasV6())
        ensures Reachable(Verdict(before.rules, before.policy, port, v6, None)) ==>
                  Reachable(Verdict(after.rules, after.policy, port, v6, None))
      {
        KeepsOpenIs(before, after, port, v6);
      }
    } else if !(forall port, peer :: port in ports && peer in peers ==> KeepsPeer(before, after, port, peer)) {
      var port, peer: Addr :| port in ports && peer in peers && !KeepsPeer(before, after, port, peer);
      KeepsPeerIs(before, after, port, peer);
    } else {
      var port, v6 :| port in ports && (v6 ==> before.HasV6() || after.HasV6()) && !KeepsOpen(before, after, port, v6);
      KeepsOpenIs(before, after, port, v6);
    }
  }

  lemma {:induction false} KeepsPeerIs(before: Status, after: Status, port: int, peer: Addr)
    ensures KeepsPeer(before, after, port, peer) <==>
            var vb := Verdict(before.rules, before.policy, port, peer.v6, Some(peer));
            var va := Verdict(after.rules, after.policy, port, peer.v6, Some(peer));
            Reachable(va) || (!Reachable(vb) && SameDecision(vb, va))
  {
    hide Verdict, Sig, SameDecision;
    SigIsDecision(VerdictOf(before, port, peer.v6, Some(peer)), VerdictOf(after, port, peer.v6, Some(peer)));
  }

  lemma {:induction false} KeepsOpenIs(before: Status, after: Status, port: int, v6: bool)
    ensures KeepsOpen(before, after, port, v6) <==>
            (Reachable(Verdict(before.rules, before.policy, port, v6, None)) ==>
               Reachable(Verdict(after.rules, after.policy, port, v6, None)))
  {
  }

  lemma {:induction false} PassesByMembers(before: Status, after: Status, ports: seq<int>, peers: seq<Addr>)
    ensures Passes(before, after, ports, peers) <==>
            && (forall port, peer :: port in ports && peer in peers ==> KeepsPeer(before, after, port, peer))
            && (forall port, v6 :: port in ports && (v6 ==> before.HasV6() || after.HasV6()) ==> KeepsOpen(before, after, port, v6))
  {
    hide KeepsPeer, KeepsOpen;
    if Passes(before, after, ports, peers) {
      forall port, peer | port in ports && peer in peers
        ensures KeepsPeer(before, after, port, peer)
      {
        var i :| 0 <= i < |ports| && ports[i] == port;
        var j :| 0 <= j < |peers| && peers[j] == peer;
        assert KeepsPeer(before, after, ports[i], peers[j]);
      }
      forall port, v6 | port in ports && (v6 ==> before.HasV6() || after.HasV6())
        ensures KeepsOpen(before, after, port, v6)
      {
        var i :| 0 <= i < |ports| && ports[i] == port;
        assert Asked(before, after, v6);
        assert KeepsOpen(before, after, ports[i], v6);
      }
    }
  }

  datatype Refusal = BlocksPeer(port: int, peer: Addr) | ClosesPort(port: int, v6: bool)

  /** sshGuard: the loops over ports, peers and families; None when the change may run. A
      refusal names a port and a peer or family it is true of. */
  method SshGuard(before: Status, after: Status, ports: seq<int>, peers: seq<Addr>) returns (why: Option<Refusal>)
    ensures why.None? <==> Passes(before, after, ports, peers)
    ensures why.Some? ==>
              match why.value
              case BlocksPeer(port, peer) => port in ports && peer in peers && !KeepsPeer(before, after, port, peer)
              case ClosesPort(port, v6) => port in ports && Asked(before, after, v6) && !KeepsOpen(before, after, port, v6)
  {
    hide VerdictOf, Sig;
    for i := 0 to |ports|
      invariant forall k, j :: 0 <= k < i && 0 <= j < |peers| ==> KeepsPeer(before, after, ports[k], peers[j])
      invariant forall k, v6 :: 0 <= k < i && Asked(before, after, v6) ==> KeepsOpen(before, after, ports[k], v6)
    {
      var port := ports[i];
      for j := 0 to |peers|
        invariant forall k :: 0 <= k < j ==> KeepsPeer(before, after, port, peers[k])
      {
        var peer := peers[j];
        var vb, va := VerdictOf(before, port, peer.v6, Some(peer)), VerdictOf(after, port, peer.v6, Some(peer));
        if !Reachable(va) && (Reachable(vb) || Sig(vb) != Sig(va)) {
          assert !KeepsPeer(before, after, ports[i], peers[j]);
          return Some(BlocksPeer(port, peer));
        }
      }
      var families := [false, true];
      for f := 0 to 2
        invariant forall k :: 0 <= k < f && Asked(before, after, families[k]) ==> KeepsOpen(before, after, port, families[k])
      {
        var v6 := families[f];
        if v6 && !before.HasV6() && !after.HasV6() {
          continue;
        }
        if Reachable(VerdictOf(before, port, v6, None)) && !Reachable(VerdictOf(after, port, v6, None)) {
          assert Asked(before, after, v6) && !KeepsOpen(before, after, ports[i], v6);
          return Some(ClosesPort(port, v6));
        }
      }
      assert forall v6 :: Asked(before, after, v6) ==> KeepsOpen(before, after, port, v6) by {
        assert families[0] == false && families[1] == true;
      }
    }
    why := None;
  }

  // ---- Soundness ----

  lemma {:induction false} NoRowsOfFamily(rules: seq<Rule>, policy: string, port: int, v6: bool, peer: Option<Addr>)
    requires forall r :: r in rules ==> r.v6 != v6
    ensures Verdict(rules, policy, port, v6, peer) == PortVerdict(Unmanaged, None, policy, [], [])
  {
    if rules != [] {
      NoRowsOfFamily(rules[1..], policy, port, v6, peer);
    }
  }

  /** Every admin peer that was let in on one of the ports still is. */
  ghost predicate PeersKept(before: Status, after: Status, ports: seq<int>, peers: seq<Addr>) {
    forall port, peer :: port in ports && peer in peers && Reachable(VerdictOf(before, port, peer.v6, Some(peer))) ==>
      Reachable(VerdictOf(after, port, peer.v6, Some(peer)))
  }

  /** Every arbitrary host that was let in on port still is, in both families. */
  ghost predicate HostsKept(before: Status, after: Status, port: int) {
    forall v6 :: Reachable(VerdictOf(before, port, v6, None)) ==> Reachable(VerdictOf(after, port, v6, None))
  }

  /** The IPv6 question is asked, or the policies answer it. */
  predicate SkipIsSafe(before: Status, after: Status) {
    Asked(before, after, true) || before.policy != "allow" || after.policy == "allow"
  }

  lemma {:induction false} UnaskedIsPolicy(before: Status, after: Status, port: int)
    requires !Asked(before, after, true)
    ensures Reachable(VerdictOf(before, port, true, None)) <==> before.policy == "allow"
    ensures Reachable(VerdictOf(after, port, true, None)) <==> after.policy == "allow"
  {
    hide Verdict;
    NoRowsOfFamily(before.rules, before.policy, port, true, None);
    NoRowsOfFamily(after.rules, after.policy, port, true, None);
  }

  /** A passed guard, whatever the two policies: every admin peer keeps SSH, and every arbitrary
      host does, in both families, exactly when the IPv6 question was asked or the policies
      answer it. */
  lemma {:induction false} GuardIsSound(before: Status, after: Status, ports: seq<int>, peers: seq<Addr>)
    requires Passes(before, after, ports, peers)
    ensures PeersKept(before, after, ports, peers)
    ensures forall port :: port in ports ==> (HostsKept(before, after, port) <==> SkipIsSafe(before, after))
  {
    hide Sig, VerdictOf;
    forall port, peer | port in ports && peer in peers && Reachable(VerdictOf(before, port, peer.v6, Some(peer)))
      ensures Reachable(VerdictOf(after, port, peer.v6, Some(peer)))
    {
      var i :| 0 <= i < |ports| && ports[i] == port;
      var j :| 0 <= j < |peers| && peers[j] == peer;
      assert KeepsPeer(before, after, ports[i], peers[j]);
    }
    forall port | port in ports
      ensures HostsKept(before, after, port) <==> SkipIsSafe(before, after)
    {
      var i :| 0 <= i < |ports| && ports[i] == port;
      assert Asked(before, after, false) && KeepsOpen(before, after, ports[i], false);
      if Asked(before, after, true) {
        assert KeepsOpen(before, after, ports[i], true);
      } else {
        UnaskedIsPolicy(before, after, port);
      }
    }
  }

  /** The exception is real: with the policy turned from allow to deny and one IPv4 rule left to let
      everyone in, the guard passes for all ports and all IPv4 peers, and IPv6 hosts lose SSH. */
  lemma {:induction false} SkipCanBeUnsafe(ports: seq<int>, peers: seq<Addr>)
    requires forall i :: 0 <= i < |peers| ==> !peers[i].v6
    ensures var before, after := Status("allow", []), Status("deny", [Blank(Allow)]);
            && Passes(before, after, ports, peers) && !SkipIsSafe(before, after)
            && forall port :: port in ports ==> !HostsKept(before, after, port)
  {
    hide Verdict;
    var before, after := Status("allow", []), Status("deny", [Blank(Allow)]);
    forall port, peer: Option<Addr> | peer.Some? ==> !peer.value.v6
      ensures Reachable(VerdictOf(after, port, false, peer))
    {
      OneRuleLetsIn(port, peer);
    }
    GuardIsSound(before, after, ports, peers);
  }

  lemma {:induction false} OneRuleLetsIn(port: int, peer: Option<Addr>)
    ensures Verdict([Blank(Allow)], "deny", port, false, peer).state == Open
  {
    assert RoleOf(Blank(Allow), port, false, peer).Decides?;
  }

  /** A packet to port that only rows the verdict can decide by hit. */
  ghost predicate Plain(st: Status, hidden: (Rule, Packet) -> bool, p: Packet, peer: Option<Addr>) {
    forall r :: r in st.rules && Hits(hidden, r, p) ==> !Loose(r, peer)
  }

  /** The same for packets: one that was let in, from an admin peer or from an arbitrary host,
      and that no loose row hits before or after, is let in after exactly when it is an admin
      peer's, or IPv4, or the skipped question was safe to skip. */
  lemma {:induction false} GuardKeepsDelivery(before: Status, after: Status, ports: seq<int>, peers: seq<Addr>,
                                              hidden: (Rule, Packet) -> bool, p: Packet, peer: Option<Addr>)
    requires Passes(before, after, ports, peers) && p.port in ports
    requires peer.Some? ==> peer.value in peers && p.src == peer.value
    requires Plain(before, hidden, p, peer) && Plain(after, hidden, p, peer)
    requires Delivered(before, hidden, p)
    ensures Delivered(after, hidden, p) <==> peer.Some? || !p.src.v6 || SkipIsSafe(before, after)
  {
    hide Passes, FirstHit, Verdict, FieldsMatch, Loose, SkipIsSafe, Delivered;
    GuardIsSound(before, after, ports, peers);
    VerdictIsExact(before, hidden, p, p.port, p.src.v6, peer);
    VerdictIsExact(after, hidden, p, p.port, p.src.v6, peer);
    assert Reachable(VerdictOf(before, p.port, p.src.v6, peer));
    if peer.Some? {
      assert peer.value in peers && peer == Some(peer.value);
      assert Reachable(VerdictOf(after, p.port, peer.value.v6, Some(peer.value)));
    } else if p.src.v6 {
      V6AfterGuard(before, after, ports, peers, p.port);
    } else {
      V4AfterGuard(before, after, ports, peers, p.port);
    }
  }

  lemma {:induction false} V6AfterGuard(before: Status, after: Status, ports: seq<int>, peers: seq<Addr>, port: int)
    requires Passes(before, after, ports, peers) && port in ports && Reachable(VerdictOf(before, port, true, None))
    ensures Reachable(VerdictOf(after, port, true, None)) <==> SkipIsSafe(before, after)
  {
    hide VerdictOf, KeepsPeer;
    var i :| 0 <= i < |ports| && ports[i] == port;
    if Asked(before, after, true) {
      assert KeepsOpen(before, after, ports[i], true);
    } else {
      UnaskedIsPolicy(before, after, port);
    }
  }

  lemma {:induction false} V4AfterGuard(before: Status, after: Status, ports: seq<int>, peers: seq<Addr>, port: int)
    requires Passes(before, after, ports, peers) && port in ports && Reachable(VerdictOf(before, port, false, None))
    ensures Reachable(VerdictOf(after, port, false, None))
  {
    hide VerdictOf, KeepsPeer;
    var i :| 0 <= i < |ports| && ports[i] == port;
    assert Asked(before, after, false) && KeepsOpen(before, after, ports[i], false);
  }

  // ---- Running a plan ----

  /** fwGen: a list by its printed rows. */
  function Generation(st: Status): seq<(Action, seq<Word>)> {
    ShownAll(st.rules)
  }

  lemma {:induction false} GenerationIs(st: Status, base: seq<(Action, seq<Word>)>)
    ensures Generation(st) == base <==>
            |st.rules| == |base| && forall i :: 0 <= i < |st.rules| ==> base[i] == (st.rules[i].action, st.rules[i].raw)
  {
    if Generation(st) == base {
      forall i | 0 <= i < |st.rules|
        ensures base[i] == (st.rules[i].action, st.rules[i].raw)
      {
        assert Generation(st)[i] == Shown(st.rules[i]);
      }
    }
  }

  /** A planned change: `after` is what it was planned to give; a restore writes a snapshot
      back instead of applying the plan. */
  datatype PlanReq = PlanReq(backend: string, plan: Plan, restore: bool, base: seq<(Action, seq<Word>)>, after: Status)

  datatype RunResult =
    | Expired
    | RulesChanged
    | SnapshotUnreadable
    | Refused(why: Refusal)
    | ApplyFails
    | Unreadable
    | ReadBackFails(why: Refusal)
    | OnTrial(foreseen: Status)

  /** The plan was made for this backend and these rules. */
  predicate Current(req: PlanReq, backend: string, now: Status) {
    backend == req.backend && Generation(now) == req.base
  }

  function Foreseen(req: PlanReq, now: Status, v6: bool): Status {
    if req.restore then req.after else Simulate(now, req.plan, v6)
  }

  /** runPlan: the stored plan (None: it expired, or ran already), the generation check, the guard on
      the simulated list, and after the change the guard on the list read back (None: it could not be
      read). The SSH ports and peers are probed afresh each time. Each answer is given exactly in its
      case. */
  method RunPlan(taken: Option<PlanReq>, backend: string, now: Status, v6: bool, snapshotLoads: bool,
                 ports: seq<int>, peers: seq<Addr>, applied: bool,
                 readBack: Option<Status>, portsAfter: seq<int>, peersAfter: seq<Addr>)
    returns (r: RunResult)
    ensures r.Expired? <==> taken.None?
    ensures r.RulesChanged? <==> taken.Some? && !Current(taken.value, backend, now)
    ensures r.RulesChanged? <==>
              taken.Some? && !(backend == taken.value.backend && |now.rules| == |taken.value.base|
                               && forall i :: 0 <= i < |now.rules| ==>
                                    taken.value.base[i] == (now.rules[i].action, now.rules[i].raw))
    ensures r.SnapshotUnreadable? <==>
              taken.Some? && Current(taken.value, backend, now) && taken.value.restore && !snapshotLoads
    ensures taken.Some? ==>
            var req := taken.value;
            var guarded := Current(req, backend, now) && (req.restore ==> snapshotLoads);
            var allowed := guarded && Passes(now, Foreseen(req, now, v6), ports, peers);
            && (r.Refused? <==> guarded && !Passes(now, Foreseen(req, now, v6), ports, peers))
            && (r.ApplyFails? <==> allowed && !applied)
            && (r.Unreadable? <==> allowed && applied && readBack.None?)
            && (r.ReadBackFails? <==> allowed && applied && readBack.Some? && !Passes(now, readBack.value, portsAfter, peersAfter))
            && (r.OnTrial? <==> allowed && applied && readBack.Some? && Passes(now, readBack.value, portsAfter, peersAfter))
    ensures r.OnTrial? ==> r.foreseen == if taken.value.restore then taken.value.after else Simulate(now, taken.value.plan, v6)
    ensures taken.Some? && !taken.value.restore && Current(taken.value, backend, now) ==>
              (r.Refused? <==> !Passes(now, Simulate(now, taken.value.plan, v6), ports, peers))
    ensures taken.Some? && taken.value.restore && Current(taken.value, backend, now) && snapshotLoads ==>
              (r.Refused? <==> !Passes(now, taken.value.after, ports, peers))
    ensures r.OnTrial? ==>
              && PeersKept(now, readBack.value, portsAfter, peersAfter)
              && forall port :: port in portsAfter ==>
                   (HostsKept(now, readBack.value, port) <==> SkipIsSafe(now, readBack.value))
  {
    hide Passes, Simulate, Generation, PeersKept, HostsKept, SkipIsSafe;
    if taken.None? {
      return Expired;
    }
    var req := taken.value;
    GenerationIs(now, req.base);
    if backend != req.backend || Generation(now) != req.base {
      return RulesChanged;
    }
    var after := req.after;
    if !req.restore {
      after := SimulateInPlace(now, req.plan, v6);
    } else if !snapshotLoads {
      return SnapshotUnreadable;
    }
    var why := SshGuard(now, after, ports, peers);
    if why.Some? {
      return Refused(why.value);
    }
    if !applied {
      return ApplyFails;
    }
    if readBack.None? {
      return Unreadable;
    }
    why := SshGuard(now, readBack.value, portsAfter, peersAfter);
    if why.Some? {
      return ReadBackFails(why.value);
    }
    GuardIsSound(now, readBack.value, portsAfter, peersAfter);
    return OnTrial(after);
  }

  /** Simulating keeps the policy, so the guard on the simulated list leaves nothing open. */
  lemma {:induction false} SimulatedPlanKeepsSsh(now: Status, plan: Plan, v6: bool, ports: seq<int>, peers: seq<Addr>, port: int)
    requires Passes(now, Simulate(now, plan, v6), ports, peers) && port in ports
    ensures PeersKept(now, Simulate(now, plan, v6), ports, peers)
    ensures HostsKept(now, Simulate(now, plan, v6), port)
  {
    hide Passes, PeersKept, HostsKept, Asked, ApplyPlan;
    GuardIsSound(now, Simulate(now, plan, v6), ports, peers);
  }
}
