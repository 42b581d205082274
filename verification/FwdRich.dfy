/** firewalld rich rules: reading them, writing them, and the firewall-cmd arguments a spec
    becomes. A rich rule is its words; a quoted value is parsed. */
module FwdRich {
  import opened RuleModel
  import opened RuleSpecs
  import opened Simulation

  datatype Val = Str(s: string) | Num(n: int) | Net(p: Prefix) | Span(r: PortRange)

  datatype RichWord = Bare(w: string) | Pair(k: string, v: Val)

  /** fwdRich: a rich rule as the rule model reads it. decides: it accepts, rejects or drops;
      plain: the agent could have written it. */
  datatype Rich = Rich(r: Rule, fam: Fam, prio: int, service: string, decides: bool, plain: bool)

  // ---- Reading ----

  datatype RichState = RichState(x: Rich, elem: string, action: string, family: string,
                                 port: Option<Val>, portProto: Val, limited: bool)

  const NO_RULE := Rule(0, Allow, In, "", [], None, None, "", "", false, [], false, false)
  const RICH_START := RichState(Rich(NO_RULE, Both, 0, "", false, true), "", "", "", None, Str(""), false)

  datatype Parse = Unreadable | Stop(x: Rich) | Go(st: RichState)

  function Odd(st: RichState): RichState {
    st.(x := st.x.(plain := false))
  }

  function Narrow(st: RichState): RichState {
    st.(x := st.x.(plain := false, r := st.x.r.(partial := true)))
  }

  function ReadBare(st: RichState, w: string): Parse {
    if w in ["source", "destination", "port", "protocol", "service"] then Go(st.(elem := w))
    else if w in ["log", "nflog", "audit"] then Go(Odd(st).(elem := w))
    else if w == "source-port" then Go(Narrow(st).(elem := w))
    else if w in ["icmp-block", "icmp-type", "masquerade", "forward-port", "tcp-mss-clamp"] then Stop(st.x)
    else if w == "not" then Go(Narrow(st))
    else if w in ["accept", "reject", "drop", "mark"] then Go(st.(elem := "action", action := w))
    else if w == "limit" then Go(Odd(st).(limited := st.limited || st.elem == "action"))
    else Go(Odd(st))
  }

  function ReadKey(st: RichState, k: string, v: Val): Parse {
    if st.elem == "" && k == "family" then Go(st.(family := if v.Str? then v.s else "?"))
    else if st.elem == "" && k == "priority" then (if v.Num? then Go(st.(x := st.x.(prio := v.n))) else Unreadable)
    else if st.elem == "source" && k == "address" then
      (if v.Net? then Go(st.(x := st.x.(r := st.x.r.(from := Some(v.p))))) else Go(Narrow(st)))
    else if st.elem == "source" || st.elem == "destination" then
      var n := Narrow(st);
      if v.Net? && st.elem == "destination" && k == "address" then
        Go(n.(x := n.x.(r := n.x.r.(dst := Some(v.p), partial := false))))
      else Go(n)
    else if st.elem == "port" && k == "port" then Go(st.(port := Some(v)))
    else if st.elem == "port" && k == "protocol" then Go(st.(portProto := v))
    else if st.elem == "protocol" && k == "value" then
      Go(Odd(st).(x := Odd(st).x.(r := st.x.r.(proto := if v.Str? then v.s else "?"))))
    else if st.elem == "service" && k == "name" then
      Go(Odd(st).(x := Odd(st).x.(service := if v.Str? then v.s else "?")))
    else if st.elem == "action" then Go(Odd(st))
    else Go(st)
  }

  function ReadWords(st: RichState, words: seq<RichWord>): Parse
    decreases |words|
  {
    if words == [] then Go(st)
    else
      match (match words[0]
             case Bare(w) => ReadBare(st, w)
             case Pair(k, v) => ReadKey(st, k, v))
      case Go(next) => ReadWords(next, words[1..])
      case done => done
  }

  predicate KnownProto(proto: Val) {
    proto.Str? && proto.s in ["tcp", "udp", "sctp", "dccp"]
  }

  /** The ports of the rule: unchanged without a port, None when it does not parse. */
  function WithPort(x: Rich, port: Option<Val>, proto: Val): Option<Rich> {
    if port.None? || port.value == Str("") then Some(x)
    else if port.value.Span? && ValidRange(port.value.r) && KnownProto(proto) then
      Some(x.(r := x.r.(ports := [port.value.r], proto := proto.s), plain := x.plain && (proto.s == "tcp" || proto.s == "udp")))
    else None
  }

  /** The family, from the family word and the source address. */
  function WithFamily(x: Rich, family: string): Option<Rich> {
    var fam := if family == "ipv4" then OnlyV4 else if family == "ipv6" then OnlyV6 else Both;
    if x.r.from.Some? then
      if fam != Both && fam != FamOf(x.r.from.value) then None else Some(x.(fam := FamOf(x.r.from.value)))
    else Some(x.(fam := fam, plain := x.plain && fam == Both))
  }

  function WithAction(x: Rich, action: string, limited: bool): Rich {
    var y := if action == "accept" then x.(r := x.r.(action := if limited then Limit else Allow), decides := true)
             else if action == "reject" then x.(r := x.r.(action := Reject), decides := true)
             else if action == "drop" then x.(r := x.r.(action := Deny), decides := true)
             else x.(plain := false);
    y.(plain := y.plain && y.prio == 0 && y.r.dst.None? && !y.r.partial)
  }

  /** parseRich */
  function ParseRich(words: seq<RichWord>): Option<Rich> {
    if words == [] || words[0] != Bare("rule") then None
    else
      match ReadWords(RICH_START, words[1..])
      case Unreadable => None
      case Stop(x) => Some(x)
      case Go(st) =>
        match WithPort(st.x, st.port, st.portProto)
        case None => None
        case Some(x) =>
          match WithFamily(x, st.family)
          case None => None
          case Some(y) => Some(WithAction(y, st.action, st.limited))
  }

  /** parseRich's loop over the words. */
  method ReadRich(words: seq<RichWord>) returns (x: Option<Rich>)
    ensures x == ParseRich(words)
  {
    hide ReadBare, ReadKey, WithPort, WithFamily, WithAction;
    if |words| == 0 || words[0] != Bare("rule") {
      return None;
    }
    var st := RICH_START;
    var rest := words[1..];
    assert rest[0..] == rest;
    for i := 0 to |rest|
      invariant ReadWords(st, rest[i..]) == ReadWords(RICH_START, rest)
    {
      assert rest[i..][0] == rest[i] && rest[i..][1..] == rest[i+1..];
      var next := if rest[i].Bare? then ReadBare(st, rest[i].w) else ReadKey(st, rest[i].k, rest[i].v);
      if next.Unreadable? {
        return None;
      }
      if next.Stop? {
        return Some(next.x);
      }
      st := next.st;
    }
    assert rest[|rest|..] == [];
    var p := WithPort(st.x, st.port, st.portProto);
    if p.None? {
      return None;
    }
    var f := WithFamily(p.value, st.family);
    if f.None? {
      return None;
    }
    return Some(WithAction(f.value, st.action, st.limited));
  }

  // ---- Writing ----

  /** fwdRich.spec: the rule in the extended form; None when the agent could not write it. */
  function SpecOf(x: Rich): Option<Spec> {
    if !x.plain || !x.decides then None
    else
      Some([ActionWord(x.r.action), Text("from"), if x.r.from.Some? then Address(x.r.from.value) else ANY]
           + (if x.r.ports == [] then []
              else [Text("to"), ANY, Text("port"), PortList(x.r.ports, ""), Text("proto"), Text(x.r.proto)]))
  }

  function ActionBare(a: Action): RichWord {
    match a
    case Allow => Bare("accept")
    case Deny => Bare("drop")
    case Reject => Bare("reject")
    case Limit => Bare("")
  }

  /** richRule: rule r for one port range (EVERY_PORT: none) and protocol. */
  function RichRule(r: Rule, p: PortRange, proto: string): seq<RichWord> {
    [Bare("rule")]
    + (if r.from.Some? then
         [Pair("family", Str(if r.from.value.v6 then "ipv6" else "ipv4")), Bare("source"), Pair("address", Net(r.from.value))]
       else [])
    + (if p.lo != 0 then [Bare("port"), Pair("port", Span(p)), Pair("protocol", Str(proto))] else [])
    + [ActionBare(r.action)]
  }

  datatype Arg =
    | ServiceArg(add: bool, name: string)
    | PortArg(add: bool, r: PortRange, proto: string)
    | RichArg(add: bool, words: seq<RichWord>)

  function ArgsForPorts(r: Rule, simple: bool, add: bool, ports: seq<PortRange>, proto: string): seq<Arg> {
    if ports == [] then []
    else [if simple && r.action.Allow? then PortArg(add, ports[0], proto) else RichArg(add, RichRule(r, ports[0], proto))]
         + ArgsForPorts(r, simple, add, ports[1..], proto)
  }

  function ArgsForProtos(r: Rule, simple: bool, add: bool, ports: seq<PortRange>, protos: seq<string>): seq<Arg> {
    if protos == [] then []
    else ArgsForPorts(r, simple, add, ports, protos[0]) + ArgsForProtos(r, simple, add, ports, protos[1..])
  }

  /** fwdArgs: the arguments that make a change, None when firewalld cannot take it. named says
      which app names firewalld prints. */
  function FwdArgs(c: Change, named: string -> bool): Option<seq<Arg>> {
    match SpecRule(c.spec)
    case None => None
    case Some(p) =>
      var r, add := p.rule, !c.op.Delete?;
      if !r.dir.In? || r.iface != "" || r.dst.Some? || r.partial || r.action.Limit? then None
      else if r.app != "" then
        if !r.action.Allow? || r.from.Some? || !named(r.app) then None else Some([ServiceArg(add, r.app)])
      else if r.proto != "" && r.ports == [] then None
      else
        var simple := Text("from") !in c.spec && Text("to") !in c.spec;
        if simple && r.action.Allow? && r.ports == [] then None
        else
          Some(ArgsForProtos(r, simple, add, if r.ports == [] then [EVERY_PORT] else r.ports,
                             if r.proto == "" && r.ports != [] then ["tcp", "udp"] else [r.proto]))
  }

  /** fwdArgs: its checks and its loops over the protocols and the ports. */
  method BuildFwdArgs(c: Change, named: string -> bool) returns (args: Option<seq<Arg>>)
    ensures args == FwdArgs(c, named)
  {
    hide SpecRule, RichRule, ArgsForProtos, ArgsForPorts;
    var p := SpecRule(c.spec);
    if p.None? {
      return None;
    }
    var r, add := p.value.rule, !c.op.Delete?;
    if !r.dir.In? || r.iface != "" || r.dst.Some? || r.partial || r.action.Limit? {
      return None;
    }
    if r.app != "" {
      if !r.action.Allow? || r.from.Some? || !named(r.app) {
        return None;
      }
      return Some([ServiceArg(add, r.app)]);
    }
    if r.proto != "" && |r.ports| == 0 {
      return None;
    }
    var simple := Text("from") !in c.spec && Text("to") !in c.spec;
    if simple && r.action.Allow? && |r.ports| == 0 {
      return None;
    }
    var protos := [r.proto];
    if r.proto == "" && |r.ports| > 0 {
      protos := ["tcp", "udp"];
    }
    var ports := r.ports;
    if |ports| == 0 {
      ports := [EVERY_PORT];
    }
    var out := ListArgs(r, simple, add, ports, protos);
    return Some(out);
  }

  /** fwdArgs's loops. */
  method ListArgs(r: Rule, simple: bool, add: bool, ports: seq<PortRange>, protos: seq<string>) returns (out: seq<Arg>)
    ensures out == ArgsForProtos(r, simple, add, ports, protos)
  {
    hide RichRule, ArgsForProtos, ArgsForPorts;
    out := [];
    assert protos[0..] == protos;
    for i := 0 to |protos|
      invariant out + ArgsForProtos(r, simple, add, ports, protos[i..]) == ArgsForProtos(r, simple, add, ports, protos)
    {
      ghost var rest := ArgsForProtos(r, simple, add, ports, protos[i+1..]);
      ProtosStep(r, simple, add, ports, protos, i);
      assert ports[0..] == ports;
      assert out + (ArgsForPorts(r, simple, add, ports, protos[i]) + rest) == out + ArgsForPorts(r, simple, add, ports, protos[i]) + rest;
      for j := 0 to |ports|
        invariant out + ArgsForPorts(r, simple, add, ports[j..], protos[i]) + rest == ArgsForProtos(r, simple, add, ports, protos)
      {
        PortsStep(r, simple, add, ports, protos[i], j, out);
        if simple && r.action.Allow? {
          out := out + [PortArg(add, ports[j], protos[i])];
        } else {
          out := out + [RichArg(add, RichRule(r, ports[j], protos[i]))];
        }
      }
      PortsEnd(r, simple, add, ports, protos[i]);
      assert out + [] + rest == out + rest;
    }
    ProtosEnd(r, simple, add, ports, protos);
    assert out + [] == out;
  }

  lemma {:induction false} ProtosStep(r: Rule, simple: bool, add: bool, ports: seq<PortRange>, protos: seq<string>, i: nat)
    requires i < |protos|
    ensures ArgsForProtos(r, simple, add, ports, protos[i..]) ==
            ArgsForPorts(r, simple, add, ports, protos[i]) + ArgsForProtos(r, simple, add, ports, protos[i+1..])
  {
    hide ArgsForPorts;
    assert protos[i..][0] == protos[i] && protos[i..][1..] == protos[i+1..];
  }

  lemma {:induction false} PortsStep(r: Rule, simple: bool, add: bool, ports: seq<PortRange>, proto: string, j: nat, out: seq<Arg>)
    requires j < |ports|
    ensures out + ArgsForPorts(r, simple, add, ports[j..], proto) ==
            out + [if simple && r.action.Allow? then PortArg(add, ports[j], proto) else RichArg(add, RichRule(r, ports[j], proto))]
            + ArgsForPorts(r, simple, add, ports[j+1..], proto)
  {
    hide RichRule;
    assert ports[j..][0] == ports[j] && ports[j..][1..] == ports[j+1..];
  }

  lemma {:induction false} PortsEnd(r: Rule, simple: bool, add: bool, ports: seq<PortRange>, proto: string)
    ensures ArgsForPorts(r, simple, add, ports[|ports|..], proto) == []
  {
  }

  lemma {:induction false} ProtosEnd(r: Rule, simple: bool, add: bool, ports: seq<PortRange>, protos: seq<string>)
    ensures ArgsForProtos(r, simple, add, ports, protos[|protos|..]) == []
  {
  }

  // ---- Printer and parser ----

  /** A rule the agent writes as one rich rule. */
  predicate Writable(action: Action, from: Option<Prefix>, p: PortRange, proto: string) {
    !action.Limit? && (if p == EVERY_PORT then proto == "" else ValidRange(p) && (proto == "tcp" || proto == "udp"))
  }

  function Written(action: Action, from: Option<Prefix>, p: PortRange, proto: string): Rule {
    NO_RULE.(action := action, from := from, ports := if p == EVERY_PORT then [] else [p], proto := proto)
  }

  lemma {:induction false} ReadOne(st: RichState, w: RichWord, rest: seq<RichWord>)
    ensures ReadWords(st, [w] + rest) ==
            match (match w case Bare(b) => ReadBare(st, b) case Pair(k, v) => ReadKey(st, k, v))
            case Go(next) => ReadWords(next, rest)
            case done => done
  {
    hide ReadBare, ReadKey;
    assert ([w] + rest)[1..] == rest;
  }

  lemma {:induction false} ReadSource(st: RichState, from: Prefix, rest: seq<RichWord>)
    requires st == RICH_START
    ensures ReadWords(st, [Pair("family", Str(if from.v6 then "ipv6" else "ipv4")), Bare("source"), Pair("address", Net(from))] + rest) ==
            ReadWords(st.(elem := "source", family := if from.v6 then "ipv6" else "ipv4",
                          x := st.x.(r := st.x.r.(from := Some(from)))), rest)
  {
    hide ReadWords;
    var f, s, a := Pair("family", Str(if from.v6 then "ipv6" else "ipv4")), Bare("source"), Pair("address", Net(from));
    assert [f, s, a] + rest == [f] + ([s] + ([a] + rest));
    ReadOne(st, f, [s] + ([a] + rest));
    var st1 := st.(family := if from.v6 then "ipv6" else "ipv4");
    ReadOne(st1, s, [a] + rest);
    ReadOne(st1.(elem := "source"), a, rest);
  }

  lemma {:induction false} ReadPort(st: RichState, p: PortRange, proto: string, rest: seq<RichWord>)
    ensures ReadWords(st, [Bare("port"), Pair("port", Span(p)), Pair("protocol", Str(proto))] + rest) ==
            ReadWords(st.(elem := "port", port := Some(Span(p)), portProto := Str(proto)), rest)
  {
    hide ReadWords;
    var b, k, v := Bare("port"), Pair("port", Span(p)), Pair("protocol", Str(proto));
    assert [b, k, v] + rest == [b] + ([k] + ([v] + rest));
    ReadOne(st, b, [k] + ([v] + rest));
    ReadOne(st.(elem := "port"), k, [v] + rest);
    ReadOne(st.(elem := "port", port := Some(Span(p))), v, rest);
  }

  function ActionText(a: Action): string {
    match a
    case Allow => "accept"
    case Deny => "drop"
    case Reject => "reject"
    case Limit => ""
  }

  lemma {:induction false} ReadAction(st: RichState, action: Action)
    requires !action.Limit?
    ensures ReadWords(st, [ActionBare(action)]) == Go(st.(elem := "action", action := ActionText(action)))
  {
    hide ReadWords;
    var end := st.(elem := "action", action := ActionText(action));
    assert ReadBare(st, ActionText(action)) == Go(end) by {
      match action
      case Allow =>
      case Deny =>
      case Reject =>
    }
    ReadEnd(end);
    assert [ActionBare(action)] + [] == [ActionBare(action)];
    hide ReadBare;
    ReadOne(st, ActionBare(action), []);
  }

  lemma {:induction false} ReadEnd(st: RichState)
    ensures ReadWords(st, []) == Go(st)
  {
  }

  /** What the reader has gathered when a rule the agent wrote ends. */
  function Gathered(action: Action, from: Option<Prefix>, p: PortRange, proto: string): RichState {
    var x := RICH_START.x.(r := NO_RULE.(from := from));
    RichState(x, "action", ActionText(action),
              if from.None? then "" else if from.value.v6 then "ipv6" else "ipv4",
              if p.lo != 0 then Some(Span(p)) else None, if p.lo != 0 then Str(proto) else Str(""), false)
  }

  lemma {:induction false} WrittenRead(action: Action, from: Option<Prefix>, p: PortRange, proto: string)
    requires Writable(action, from, p, proto)
    ensures var words := RichRule(Written(action, from, p, proto), p, proto);
            words != [] && words[0] == Bare("rule") && ReadWords(RICH_START, words[1..]) == Go(Gathered(action, from, p, proto))
  {
    hide ReadWords, ReadBare, ReadKey;
    var words := RichRule(Written(action, from, p, proto), p, proto);
    var src :=
      if from.Some? then [Pair("family", Str(if from.value.v6 then "ipv6" else "ipv4")), Bare("source"), Pair("address", Net(from.value))]
      else [];
    var port := if p.lo != 0 then [Bare("port"), Pair("port", Span(p)), Pair("protocol", Str(proto))] else [];
    var act := [ActionBare(action)];
    assert words == [Bare("rule")] + src + port + act;
    assert words[1..] == src + (port + act);
    var st := if from.Some? then RICH_START.(elem := "source", family := if from.value.v6 then "ipv6" else "ipv4",
                                             x := RICH_START.x.(r := NO_RULE.(from := from))) else RICH_START;
    assert ReadWords(RICH_START, words[1..]) == ReadWords(st, port + act) by {
      if from.Some? {
        ReadSource(RICH_START, from.value, port + act);
      } else {
        assert src + (port + act) == port + act;
      }
    }
    var st2 := if p.lo != 0 then st.(elem := "port", port := Some(Span(p)), portProto := Str(proto)) else st;
    assert ReadWords(st, port + act) == ReadWords(st2, act) by {
      if p.lo != 0 {
        ReadPort(st, p, proto, act);
      } else {
        assert port + act == act;
      }
    }
    ReadAction(st2, action);
  }

  /** parseRich reads back what richRule writes. */
  lemma {:induction false} RichRuleReadsBack(action: Action, from: Option<Prefix>, p: PortRange, proto: string)
    requires Writable(action, from, p, proto)
    ensures ParseRich(RichRule(Written(action, from, p, proto), p, proto)) ==
            Some(Rich(Written(action, from, p, proto), FamOfAddresses(from, None), 0, "", true, true))
  {
    hide ReadWords, RichRule;
    WrittenRead(action, from, p, proto);
    var st := Gathered(action, from, p, proto);
    var x := st.x.(r := st.x.r.(ports := if p == EVERY_PORT then [] else [p], proto := proto));
    assert WithPort(st.x, st.port, st.portProto) == Some(x);
    var y := x.(fam := FamOfAddresses(from, None));
    assert WithFamily(x, st.family) == Some(y);
    assert WithAction(y, st.action, false) ==
           Rich(Written(action, from, p, proto), FamOfAddresses(from, None), 0, "", true, true) by {
      match action
      case Allow =>
      case Deny =>
      case Reject =>
    }
  }

  /** The words after the action in the extended form that spec writes. */
  function SpecTail(from: Option<Prefix>, ports: seq<PortRange>, proto: string): Spec {
    [Text("from"), if from.Some? then Address(from.value) else ANY]
    + (if ports == [] then [] else [Text("to"), ANY, Text("port"), PortList(ports, ""), Text("proto"), Text(proto)])
  }

  lemma {:induction false} TailPairs(from: Option<Prefix>, ports: seq<PortRange>, proto: string)
    ensures |SpecTail(from, ports, proto)| % 2 == 0
    ensures ReadPairs(START, SpecTail(from, ports, proto)) ==
            Some(if ports == [] then START.(side := "from", from := from)
                 else START.(side := "to", from := from, port := PortList(ports, ""), proto := proto))
  {
    hide ReadPairs;
    var w := if from.Some? then Address(from.value) else ANY;
    var a := START.(side := "from", from := from);
    if ports == [] {
      assert SpecTail(from, ports, proto) == [Text("from"), w] + [];
      PairThen(START, Text("from"), w, []);
      NoMorePairs(a);
    } else {
      var three: Spec := [Text("proto"), Text(proto)] + [];
      var two := [Text("port"), PortList(ports, "")] + three;
      var one := [Text("to"), ANY] + two;
      assert SpecTail(from, ports, proto) == [Text("from"), w] + one;
      PairThen(START, Text("from"), w, one);
      PairThen(a, Text("to"), ANY, two);
      PairThen(a.(side := "to"), Text("port"), PortList(ports, ""), three);
      PairThen(a.(side := "to", port := PortList(ports, "")), Text("proto"), Text(proto), []);
      NoMorePairs(a.(side := "to", port := PortList(ports, ""), proto := proto));
    }
  }

  lemma {:induction false} TailReads(r: Rule, from: Option<Prefix>, ports: seq<PortRange>, proto: string)
    requires ports == [] ==> proto == ""
    requires ports != [] ==> IsPortSpec(PortList(ports, proto)) && proto != ""
    requires r.ports == [] && r.proto == "" && r.dst == None && !r.partial && r.app == ""
    ensures ReadTail(r, SpecTail(from, ports, proto)) == Some(r.(from := from, ports := ports, proto := proto))
  {
    hide ReadPairs, IsPortSpec;
    TailPairs(from, ports, proto);
    assert |SpecTail(from, ports, proto)| >= 2;
  }

  /** specRule reads back the extended form that spec writes. */
  lemma {:induction false} RichSpecReadsBack(action: Action, from: Option<Prefix>, p: PortRange, proto: string, x: Rich)
    requires Writable(action, from, p, proto)
    requires x == Rich(Written(action, from, p, proto), FamOfAddresses(from, None), 0, "", true, true)
    ensures SpecOf(x).Some? && SpecOf(x).value == [ActionWord(action)] + SpecTail(from, x.r.ports, proto)
    ensures SpecRule(SpecOf(x).value) == Some(Finish(Blank(action).(from := from, ports := x.r.ports, proto := proto)))
  {
    hide SpecRule, ReadTail;
    var spec := SpecOf(x).value;
    assert spec == [ActionWord(action)] + SpecTail(from, x.r.ports, proto);
    assert forall i :: 0 <= i < |spec| ==> spec[i] != Text("log") && spec[i] != Text("log-all") && spec[i] != Text("comment");
    NothingToStrip(spec);
    PlainHead(spec, action);
    assert spec[1..] == SpecTail(from, x.r.ports, proto);
    TailReads(Blank(action), from, x.r.ports, proto);
  }

  /** A rule of the extended form, with at most one port range, becomes one rich-rule argument. */
  lemma {:induction false} OneArg(c: Change, named: string -> bool, p: PortRange, proto: string)
    requires SpecRule(c.spec).Some? && Text("from") in c.spec
    requires var r := SpecRule(c.spec).value.rule;
             && r.dir.In? && r.iface == "" && r.dst.None? && !r.partial && !r.action.Limit? && r.app == ""
             && r.ports == (if p == EVERY_PORT then [] else [p]) && r.proto == proto
    requires p == EVERY_PORT <==> proto == ""
    ensures FwdArgs(c, named) == Some([RichArg(!c.op.Delete?, RichRule(SpecRule(c.spec).value.rule, p, proto))])
  {
    hide SpecRule, RichRule;
    var r, add := SpecRule(c.spec).value.rule, !c.op.Delete?;
    assert [p][1..] == [] && [proto][1..] == [];
    assert ArgsForPorts(r, false, add, [p], proto) == [RichArg(add, RichRule(r, p, proto))];
    assert ArgsForProtos(r, false, add, [p], [proto]) == [RichArg(add, RichRule(r, p, proto))];
  }

  /** Every rich rule the agent writes reads back as a spec, and that spec becomes exactly the
      one argument that adds or removes the same rich rule. */
  lemma {:induction false} RichRuleRoundTrip(action: Action, from: Option<Prefix>, p: PortRange, proto: string,
                                             op: Op, named: string -> bool)
    requires Writable(action, from, p, proto)
    ensures var words := RichRule(Written(action, from, p, proto), p, proto);
            && ParseRich(words).Some? && SpecOf(ParseRich(words).value).Some?
            && FwdArgs(Change(op, SpecOf(ParseRich(words).value).value), named) == Some([RichArg(!op.Delete?, words)])
  {
    hide SpecRule, ParseRich, FwdArgs, SpecOf;
    var words := RichRule(Written(action, from, p, proto), p, proto);
    RichRuleReadsBack(action, from, p, proto);
    var x := ParseRich(words).value;
    RichSpecReadsBack(action, from, p, proto, x);
    var c := Change(op, SpecOf(x).value);
    assert c.spec[1] == Text("from");
    OneArg(c, named, p, proto);
    assert RichRule(SpecRule(c.spec).value.rule, p, proto) == words;
  }

  // ---- The rules the bot builds ----

  /** The protocols a buildable rule is split into: firewalld names each. */
  function SplitProtos(s: FwSpec): seq<string> {
    if s.ports != EVERY_PORT && s.proto == "" then ["tcp", "udp"] else [s.proto]
  }

  /** A rule the bot builds becomes one argument for each of its protocols: the port itself when it is
      for everyone, else a rich rule that reads back as it; a limit cannot be said. */
  lemma {:induction false} BuiltRuleIsNamed(s: FwSpec, op: Op, named: string -> bool)
    requires Buildable(s)
    ensures var args, protos := FwdArgs(Change(op, Args(s)), named), SplitProtos(s);
            if s.action == Limit then args == None
            else
              && args.Some? && |args.value| == |protos|
              && forall i :: 0 <= i < |protos| ==>
                   var arg := args.value[i];
                   if s.from == None then arg == PortArg(op != Op.Delete, s.ports, protos[i])
                   else
                     && arg.RichArg? && arg.add == (op != Op.Delete)
                     && ParseRich(arg.words) ==
                        Some(Rich(NO_RULE.(action := s.action, from := s.from, proto := protos[i],
                                           ports := if s.ports == EVERY_PORT then [] else [s.ports]),
                                  FamOfAddresses(s.from, None), 0, "", true, true))
  {
    hide SpecRule, ParseRich, RichRule;
    ArgsReadBack(s);
    if s.action != Limit {
      var c, r, add := Change(op, Args(s)), Meaning(s), op != Op.Delete;
      var simple := s.from == None;
      assert simple <==> Text("from") !in c.spec && Text("to") !in c.spec by {
        if s.from.Some? {
          assert Args(s)[1] == Text("from");
        }
      }
      var protos := SplitProtos(s);
      ArgsForOne(r, simple, add, s.ports, protos);
      if !simple {
        forall i | 0 <= i < |protos|
          ensures ParseRich(RichRule(r, s.ports, protos[i])) ==
                  Some(Rich(Written(s.action, s.from, s.ports, protos[i]), FamOfAddresses(s.from, None), 0, "", true, true))
        {
          RichRuleOfMeaning(s, protos[i]);
          RichRuleReadsBack(s.action, s.from, s.ports, protos[i]);
        }
      }
    }
  }

  /** richRule looks at the action and the source only. */
  lemma {:induction false} RichRuleOfMeaning(s: FwSpec, proto: string)
    ensures RichRule(Meaning(s), s.ports, proto) == RichRule(Written(s.action, s.from, s.ports, proto), s.ports, proto)
  {
  }

  lemma {:induction false} ArgsForOne(r: Rule, simple: bool, add: bool, p: PortRange, protos: seq<string>)
    ensures var args := ArgsForProtos(r, simple, add, [p], protos);
            && |args| == |protos|
            && forall i :: 0 <= i < |protos| ==>
                 args[i] == if simple && r.action.Allow? then PortArg(add, p, protos[i]) else RichArg(add, RichRule(r, p, protos[i]))
  {
    hide RichRule;
    if protos != [] {
      ArgsForOne(r, simple, add, p, protos[1..]);
      assert [p][1..] == [];
      var one := if simple && r.action.Allow? then PortArg(add, p, protos[0]) else RichArg(add, RichRule(r, p, protos[0]));
      assert ArgsForPorts(r, simple, add, [p], protos[0]) == [one];
      var args := ArgsForProtos(r, simple, add, [p], protos);
      assert args == [one] + ArgsForProtos(r, simple, add, [p], protos[1..]);
    }
  }

  // ---- Any rule ----

  /** What firewalld can be told: an incoming rule of every interface and destination without a limit; an
      app it prints, accepted from anywhere; a port, or every protocol; and not simply "let everyone in". */
  predicate Sayable(r: Rule, simple: bool, named: string -> bool) {
    && r.dir.In? && r.iface == "" && r.dst == None && !r.partial && r.action != Limit
    && (if r.app != "" then r.action == Allow && r.from == None && named(r.app)
        else if r.ports == [] then r.proto == "" && !(simple && r.action == Allow)
        else true)
  }

  /** The argument of one port range and protocol of the rule. */
  function ArgOf(r: Rule, simple: bool, add: bool, p: PortRange, proto: string): Arg {
    if simple && r.action == Allow then PortArg(add, p, proto) else RichArg(add, RichRule(r, p, proto))
  }

  /** The arguments of every change, exactly: none when firewalld cannot be told the rule; its app; or one
      for each of its port ranges and protocols, no protocol being tcp and udp. */
  lemma {:induction false} FwdArgsExactly(c: Change, named: string -> bool)
    ensures var args, p, simple := FwdArgs(c, named), SpecRule(c.spec), Text("from") !in c.spec && Text("to") !in c.spec;
            && (args.Some? <==> p.Some? && Sayable(p.value.rule, simple, named))
            && (args.Some? ==>
                  var r, add := p.value.rule, c.op != Op.Delete;
                  if r.app != "" then args.value == [ServiceArg(add, r.app)]
                  else
                    var ports := if r.ports == [] then [EVERY_PORT] else r.ports;
                    var protos := if r.ports != [] && r.proto == "" then ["tcp", "udp"] else [r.proto];
                    forall arg :: arg in args.value <==>
                      exists i, j :: 0 <= i < |protos| && 0 <= j < |ports| && arg == ArgOf(r, simple, add, ports[j], protos[i]))
  {
    hide SpecRule, RichRule;
    var p := SpecRule(c.spec);
    if FwdArgs(c, named).Some? && p.value.rule.app == "" {
      var r, add := p.value.rule, c.op != Op.Delete;
      var simple := Text("from") !in c.spec && Text("to") !in c.spec;
      var ports := if r.ports == [] then [EVERY_PORT] else r.ports;
      var protos := if r.ports != [] && r.proto == "" then ["tcp", "udp"] else [r.proto];
      forall arg
        ensures arg in FwdArgs(c, named).value <==>
                exists i, j :: 0 <= i < |protos| && 0 <= j < |ports| && arg == ArgOf(r, simple, add, ports[j], protos[i])
      {
        ArgsForProtosHas(r, simple, add, ports, protos, arg);
      }
    }
  }

  lemma {:induction false} ArgsForPortsHas(r: Rule, simple: bool, add: bool, ports: seq<PortRange>, proto: string, arg: Arg)
    ensures arg in ArgsForPorts(r, simple, add, ports, proto) <==>
            exists j :: 0 <= j < |ports| && arg == ArgOf(r, simple, add, ports[j], proto)
  {
    hide RichRule;
    if ports != [] {
      ArgsForPortsHas(r, simple, add, ports[1..], proto, arg);
      if j :| 0 <= j < |ports| && arg == ArgOf(r, simple, add, ports[j], proto) {
        assert j == 0 || ports[1..][j-1] == ports[j];
      }
    }
  }

  lemma {:induction false} ArgsForProtosHas(r: Rule, simple: bool, add: bool, ports: seq<PortRange>, protos: seq<string>, arg: Arg)
    ensures arg in ArgsForProtos(r, simple, add, ports, protos) <==>
            exists i, j :: 0 <= i < |protos| && 0 <= j < |ports| && arg == ArgOf(r, simple, add, ports[j], protos[i])
  {
    hide ArgOf, ArgsForPorts;
    if protos != [] {
      var rest := protos[1..];
      ArgsForPortsHas(r, simple, add, ports, protos[0], arg);
      ArgsForProtosHas(r, simple, add, ports, rest, arg);
      if i, j :| 0 <= i < |protos| && 0 <= j < |ports| && arg == ArgOf(r, simple, add, ports[j], protos[i]) {
        assert i == 0 || rest[i-1] == protos[i];
      }
      if i, j :| 0 <= i < |rest| && 0 <= j < |ports| && arg == ArgOf(r, simple, add, ports[j], rest[i]) {
        assert protos[i+1] == rest[i];
      }
    }
  }

  // ---- From any listed rule ----

  /** While the rule read so far could still be one the agent wrote, it has nothing but a source. */
  predicate OnlySource(st: RichState) {
    && !st.x.decides && st.x.fam == Both
    && (st.x.plain ==> st.x.r == NO_RULE.(from := st.x.r.from) && st.x.service == "" && !st.limited)
  }

  lemma {:induction false} BareKeepsOnlySource(st: RichState, w: string)
    requires OnlySource(st)
    ensures ReadBare(st, w).Go? ==> OnlySource(ReadBare(st, w).st)
    ensures ReadBare(st, w).Stop? ==> !ReadBare(st, w).x.decides
  {
  }

  lemma {:induction false} KeyKeepsOnlySource(st: RichState, k: string, v: Val)
    requires OnlySource(st)
    ensures ReadKey(st, k, v).Go? ==> OnlySource(ReadKey(st, k, v).st)
    ensures !ReadKey(st, k, v).Stop?
  {
  }

  lemma {:induction false} ReadKeepsOnlySource(st: RichState, words: seq<RichWord>)
    requires OnlySource(st)
    ensures ReadWords(st, words).Go? ==> OnlySource(ReadWords(st, words).st)
    ensures ReadWords(st, words).Stop? ==> !ReadWords(st, words).x.decides
    decreases |words|
  {
    hide ReadBare, ReadKey, OnlySource;
    if words != [] {
      match words[0] {
        case Bare(w) =>
          BareKeepsOnlySource(st, w);
          if ReadBare(st, w).Go? {
            ReadKeepsOnlySource(ReadBare(st, w).st, words[1..]);
          }
        case Pair(k, v) =>
          KeyKeepsOnlySource(st, k, v);
          if ReadKey(st, k, v).Go? {
            ReadKeepsOnlySource(ReadKey(st, k, v).st, words[1..]);
          }
      }
    }
  }

  /** The port range and the protocol of a rule the agent could have written. */
  function RangeOf(x: Rich): PortRange {
    if x.r.ports == [] then EVERY_PORT else x.r.ports[0]
  }

  /** A listed rule that has a spec is one the agent writes. */
  lemma {:induction false} ListedIsWritable(words: seq<RichWord>)
    requires ParseRich(words).Some? && SpecOf(ParseRich(words).value).Some?
    ensures var x := ParseRich(words).value;
            && Writable(x.r.action, x.r.from, RangeOf(x), x.r.proto)
            && x == Rich(Written(x.r.action, x.r.from, RangeOf(x), x.r.proto), FamOfAddresses(x.r.from, None), 0, "", true, true)
  {
    hide ReadWords;
    ReadKeepsOnlySource(RICH_START, words[1..]);
  }

  /** The argument that deletes a listed rule by its spec names a rule that reads the same. */
  lemma {:induction false} ListedRuleIsNamed(words: seq<RichWord>, op: Op, named: string -> bool)
    requires ParseRich(words).Some? && SpecOf(ParseRich(words).value).Some?
    ensures var args := FwdArgs(Change(op, SpecOf(ParseRich(words).value).value), named);
            && args.Some? && |args.value| == 1
            && args.value[0].RichArg? && args.value[0].add == !op.Delete?
            && ParseRich(args.value[0].words) == ParseRich(words)
  {
    hide ParseRich, SpecOf, FwdArgs, Writable, Written;
    ListedIsWritable(words);
    var x := ParseRich(words).value;
    RichRuleReadsBack(x.r.action, x.r.from, RangeOf(x), x.r.proto);
    RichRuleRoundTrip(x.r.action, x.r.from, RangeOf(x), x.r.proto, op, named);
  }

  // ---- Ports and services ----

  /** A port entry's spec, in ufw's simple form, becomes the argument for that same entry. */
  lemma {:induction false} ListedPortIsNamed(p: PortRange, proto: string, op: Op, named: string -> bool)
    requires ValidRange(p) && (proto == "tcp" || proto == "udp")
    ensures FwdArgs(Change(op, [Text("allow"), PortList([p], proto)]), named) == Some([PortArg(!op.Delete?, p, proto)])
  {
    hide SpecRule;
    var spec := [Text("allow"), PortList([p], proto)];
    NothingToStrip(spec);
    PlainHead(spec, Allow);
    assert spec[1..] == [PortList([p], proto)];
    assert IsPortSpec(PortList([p], proto)) by {
      assert [p][0] == p;
    }
    assert SpecRule(spec) == Some(Finish(Blank(Allow).(ports := [p], proto := proto)));
    assert Text("from") !in spec && Text("to") !in spec;
    var r, add := SpecRule(spec).value.rule, !op.Delete?;
    assert [p][1..] == [] && [proto][1..] == [];
    assert ArgsForPorts(r, true, add, [p], proto) == [PortArg(add, p, proto)];
    assert ArgsForProtos(r, true, add, [p], [proto]) == [PortArg(add, p, proto)];
  }

  /** The names a spec of one word would take for something else. */
  const KEYWORDS := ["in", "out", "from", "to", "log", "log-all", "comment"]

  /** A service's spec becomes the argument for that service exactly when firewalld prints such a
      name and the name is not a keyword of the spec. */
  lemma {:induction false} ListedServiceIsNamed(name: string, op: Op, named: string -> bool)
    requires name != ""
    ensures FwdArgs(Change(op, [Text("allow"), Text(name)]), named) == Some([ServiceArg(!op.Delete?, name)]) <==>
            named(name) && name !in KEYWORDS
  {
    hide ReadPairs;
    var spec := [Text("allow"), Text(name)];
    StripOne(name);
    if name in ["log", "log-all", "comment"] {
      assert SpecRule(spec).None?;
    } else {
      assert spec[1..] == [Text(name)] && spec[1..][1..] == [];
    }
  }

  lemma {:induction false} StripOne(name: string)
    ensures StripNoise([Text("allow"), Text(name)]) ==
            [Text("allow")] + (if name in ["log", "log-all", "comment"] then [] else [Text(name)])
  {
    var spec := [Text("allow"), Text(name)];
    assert spec[1..] == [Text(name)] && [Text(name)][1..] == [];
    NothingLeft();
    assert StripNoise(spec) == [Text("allow")] + StripNoise([Text(name)]);
    assert StripNoise([Text(name)]) == if name in ["log", "log-all", "comment"] then [] else [Text(name)] + [];
  }

  lemma {:induction false} NothingLeft()
    ensures StripNoise([]) == []
  {
  }
}
