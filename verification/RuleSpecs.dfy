/** Rule specs: the words of `ufw show added`, how they read as a rule, when two rules match
    the same traffic, and the specs the bot's own commands write. */
module RuleSpecs {
  import opened RuleModel

  type Spec = seq<Word>

  /** The families a spec is tied to by an address; Both when it has none. */
  datatype Fam = Both | OnlyV4 | OnlyV6

  function FamOf(p: Prefix): Fam {
    if p.v6 then OnlyV6 else OnlyV4
  }

  /** A destination address outranks a source address, as the last one looked at. */
  function FamOfAddresses(from: Option<Prefix>, dst: Option<Prefix>): Fam {
    if dst.Some? then FamOf(dst.value) else if from.Some? then FamOf(from.value) else Both
  }

  /** families: the address families a rule is listed in. */
  function Families(fam: Fam, v6: bool): seq<bool> {
    match fam
    case OnlyV4 => [false]
    case OnlyV6 => [true]
    case Both => if v6 then [false, true] else [false]
  }

  predicate HasFamily(fam: Fam, v6: bool, f: bool) {
    match fam
    case OnlyV4 => !f
    case OnlyV6 => f
    case Both => f ==> v6
  }

  lemma {:induction false} FamiliesAre(fam: Fam, v6: bool, f: bool)
    ensures f in Families(fam, v6) <==> HasFamily(fam, v6, f)
  {
  }

  // ---- Same traffic ----

  /** sameMatch: two rules match the same traffic, whatever their actions. */
  predicate SameMatch(a: Rule, b: Rule) {
    if a.dir != b.dir || a.from != b.from || a.dst != b.dst || a.iface != b.iface || a.partial != b.partial then false
    else if a.app != "" || b.app != "" then a.app == b.app
    else a.proto == b.proto && a.ports == b.ports
  }

  /** What SameMatch compares, as one value: an app rule's ports are left out. */
  datatype Key = Key(dir: Dir, from: Option<Prefix>, dst: Option<Prefix>, iface: string, partial: bool,
                     app: string, proto: string, ports: seq<PortRange>)

  function KeyOf(r: Rule): Key {
    if r.app != "" then Key(r.dir, r.from, r.dst, r.iface, r.partial, r.app, "", [])
    else Key(r.dir, r.from, r.dst, r.iface, r.partial, "", r.proto, r.ports)
  }

  lemma {:induction false} SameMatchIsSameKey(a: Rule, b: Rule)
    ensures SameMatch(a, b) <==> KeyOf(a) == KeyOf(b)
  {
  }

  /** Rules over the same traffic agree on everything but the action, the family and, for apps, the ports
      they were expanded to. */
  lemma {:induction false} SameMatchSays(a: Rule, b: Rule)
    ensures SameMatch(a, b) <==>
            && a.dir == b.dir && a.from == b.from && a.dst == b.dst && a.iface == b.iface && a.partial == b.partial
            && a.app == b.app && (a.app == "" ==> a.proto == b.proto && a.ports == b.ports)
  {
  }

  /** sameRow */
  predicate SameRow(a: Rule, b: Rule) {
    a.action == b.action && a.v6 == b.v6 && SameMatch(a, b)
  }

  // ---- Reading a spec ----

  function ParseAction(w: Word): Option<Action> {
    if w == Text("allow") then Some(Allow)
    else if w == Text("deny") then Some(Deny)
    else if w == Text("reject") then Some(Reject)
    else if w == Text("limit") then Some(Limit)
    else None
  }

  function ActionWord(a: Action): Word {
    match a
    case Allow => Text("allow")
    case Deny => Text("deny")
    case Reject => Text("reject")
    case Limit => Text("limit")
  }

  predicate ValidRange(r: PortRange) {
    1 <= r.lo <= r.hi <= 65535
  }

  /** parsePortSpec accepts the word: at least one port range, and tcp, udp or no protocol. */
  predicate IsPortSpec(w: Word) {
    && w.PortList?
    && w.ports != []
    && (forall i :: 0 <= i < |w.ports| ==> ValidRange(w.ports[i]))
    && (w.proto == "" || w.proto == "tcp" || w.proto == "udp")
  }

  /** The text port + "/" + proto. A port word that has a protocol already gives no port
      word at all. */
  function JoinProto(port: Word, proto: string): Word {
    if port.PortList? && port.proto == "" then PortList(port.ports, proto) else Text("/")
  }

  /** Logging and comments do not change what a rule matches. */
  function StripNoise(spec: Spec): Spec {
    if spec == [] then []
    else if spec[0] == Text("log") || spec[0] == Text("log-all") then StripNoise(spec[1..])
    else if spec[0] == Text("comment") then (if |spec| == 1 then [] else StripNoise(spec[2..]))
    else [spec[0]] + StripNoise(spec[1..])
  }

  const NONE := Text("")
  const ANY := Text("any")

  /** What the extended form has said so far. */
  datatype Reading = Reading(side: string, port: Word, proto: string, from: Option<Prefix>, dst: Option<Prefix>,
                             partial: bool, app: string)

  const START := Reading("", NONE, "", None, None, false, "")

  /** One keyword and its value. */
  function ReadPair(a: Reading, k: Word, v: Word): Option<Reading> {
    if k == Text("from") then
      (if v == ANY then Some(a.(side := "from"))
       else if v.Address? then Some(a.(side := "from", from := Some(v.p)))
       else None)
    else if k == Text("to") then
      (if v == ANY then Some(a.(side := "to"))
       else if v.Address? then Some(a.(side := "to", dst := Some(v.p)))
       else None)
    else if k == Text("port") then
      Some(if a.side == "from" then a.(partial := true) else a.(port := v))
    else if k == Text("app") then
      (if !v.Text? then None
       else if a.side == "from" then Some(a.(partial := true))
       else Some(a.(app := v.s)))
    else if k == Text("proto") then
      (if v.Text? then Some(a.(proto := v.s)) else None)
    else None
  }

  function ReadPairs(a: Reading, words: Spec): Option<Reading>
    requires |words| % 2 == 0
    decreases |words|
  {
    if words == [] then Some(a)
    else
      match ReadPair(a, words[0], words[1])
      case None => None
      case Some(b) => ReadPairs(b, words[2..])
  }

  /** The incoming or outgoing rule before anything but its action is read. */
  function Blank(action: Action): Rule {
    Rule(0, action, In, "", [], None, None, "", "", false, [], false, false)
  }

  datatype Parsed = Parsed(rule: Rule, fam: Fam)

  function Finish(r: Rule): Parsed {
    var fam := FamOfAddresses(r.from, r.dst);
    Parsed(r.(v6 := fam == OnlyV6), fam)
  }

  /** The words after the action, the direction and the interface. */
  function ReadTail(r: Rule, words: Spec): (out: Option<Rule>)
    ensures out.Some? ==> out.value.action == r.action && out.value.dir == r.dir && out.value.iface == r.iface
  {
    if |words| == 1 && IsPortSpec(words[0]) then
      Some(r.(ports := words[0].ports, proto := words[0].proto))
    else if |words| == 1 && words[0].Text? && words[0] != Text("from") && words[0] != Text("to") then
      Some(r.(app := words[0].s))
    else if |words| % 2 != 0 || words == [] then None
    else
      match ReadPairs(START, words)
      case None => None
      case Some(a) =>
        var b := r.(from := a.from, dst := a.dst, partial := a.partial, app := a.app);
        var port := if a.port != NONE && a.proto != "" then JoinProto(a.port, a.proto) else a.port;
        if port == NONE then Some(b.(proto := a.proto))
        else if IsPortSpec(port) then Some(b.(ports := port.ports, proto := port.proto))
        else None
  }

  /** specRule: the row ufw lists for a spec, and the family it is tied to. */
  function SpecRule(spec: Spec): (p: Option<Parsed>)
    ensures p.Some? ==> p.value.fam == FamOfAddresses(p.value.rule.from, p.value.rule.dst)
  {
    var words := StripNoise(spec);
    if |words| < 2 then None
    else
      match ParseAction(words[0])
      case None => None
      case Some(action) =>
        var r := Blank(action);
        var w := words[1..];
        var (r, w) :=
          if w[0] == Text("in") then (r, w[1..])
          else if w[0] == Text("out") then (r.(dir := Out), w[1..])
          else (r, w);
        if |w| >= 2 && w[0] == Text("on") then
          (if !w[1].Text? then None
           else
             match ReadTail(r.(iface := w[1].s), w[2..])
             case None => None
             case Some(x) => Some(Finish(x)))
        else
          match ReadTail(r, w)
          case None => None
          case Some(x) => Some(Finish(x))
  }

  /** rowOf: row is one of the rows the parsed spec is listed as. */
  predicate RowOf(row: Rule, p: Parsed) {
    && row.action == p.rule.action
    && SameMatch(row, p.rule)
    && (p.fam == Both || row.v6 == (p.fam == OnlyV6))
  }

  // ---- The specs the bot's commands write ----

  /** ports (0, 0) is every port; from None is Anywhere. */
  datatype FwSpec = FwSpec(action: Action, ports: PortRange, proto: string, from: Option<Prefix>)

  const EVERY_PORT := PortRange(0, 0)

  /** What /fw_open, /fw_allow, /fw_deny and the presets can build. */
  predicate Buildable(s: FwSpec) {
    && (s.proto == "" || s.proto == "tcp" || s.proto == "udp")
    && (ValidRange(s.ports) || (s.ports == EVERY_PORT && s.proto == "" && s.from.Some?))
    && !s.action.Reject?
    && (s.action.Deny? ==> s.from.Some?)
  }

  /** fwSpec.args */
  function Args(s: FwSpec): Spec {
    if s.from.None? then
      [ActionWord(s.action), PortList([s.ports], s.proto)]
    else
      [ActionWord(s.action), Text("from"), Address(s.from.value)]
      + (if s.ports.lo != 0 then [Text("to"), ANY, Text("port"), PortList([s.ports], "")] else [])
      + (if s.proto != "" then [Text("proto"), Text(s.proto)] else [])
  }

  /** The rule a buildable spec stands for. */
  function Meaning(s: FwSpec): Rule {
    Blank(s.action).(
      proto := s.proto,
      ports := if s.ports == EVERY_PORT then [] else [s.ports],
      from := s.from,
      v6 := s.from.Some? && s.from.value.v6)
  }

  /** Reading the printed words back gives the spec's own action, ports, protocol, source
      and family. */
  lemma {:induction false} ArgsReadBack(s: FwSpec)
    requires Buildable(s)
    ensures SpecRule(Args(s)) == Some(Parsed(Meaning(s), FamOfAddresses(s.from, None)))
  {
    hide SpecRule;
    var words := Args(s);
    assert forall i :: 0 <= i < |words| ==>
        words[i] != Text("log") && words[i] != Text("log-all") && words[i] != Text("comment");
    NothingToStrip(words);
    PlainHead(words, s.action);
    if s.from.Some? {
      SourcedTail(s);
    }
  }

  /** A spec whose words after the action name no direction and no interface. */
  lemma {:induction false} PlainHead(spec: Spec, action: Action)
    requires StripNoise(spec) == spec && |spec| >= 2 && ParseAction(spec[0]) == Some(action)
    requires spec[1] != Text("in") && spec[1] != Text("out") && spec[1] != Text("on")
    ensures SpecRule(spec) ==
            match ReadTail(Blank(action), spec[1..])
            case None => None
            case Some(r) => Some(Finish(r))
  {
    hide ReadTail;
  }

  lemma {:induction false} SourcedTail(s: FwSpec)
    requires Buildable(s) && s.from.Some?
    ensures ReadTail(Blank(s.action), Args(s)[1..]) == Some(Meaning(s).(v6 := false))
  {
    hide ReadPairs;
    var ports := if s.ports.lo != 0 then [Text("to"), ANY, Text("port"), PortList([s.ports], "")] else [];
    var proto := if s.proto != "" then [Text("proto"), Text(s.proto)] else [];
    var w := Args(s)[1..];
    assert w == [Text("from"), Address(s.from.value)] + (ports + proto);
    var a := START.(side := "from", from := s.from);
    PairThen(START, Text("from"), Address(s.from.value), ports + proto);
    var b := if s.ports.lo != 0 then a.(side := "to", port := PortList([s.ports], "")) else a;
    assert ReadPairs(a, ports + proto) == ReadPairs(b, proto) by {
      if s.ports.lo != 0 {
        assert ports + proto == [Text("to"), ANY] + ([Text("port"), PortList([s.ports], "")] + proto);
        PairThen(a, Text("to"), ANY, [Text("port"), PortList([s.ports], "")] + proto);
        PairThen(a.(side := "to"), Text("port"), PortList([s.ports], ""), proto);
      } else {
        assert ports + proto == proto;
      }
    }
    var c := b.(proto := s.proto);
    assert ReadPairs(b, proto) == Some(c) by {
      NoMorePairs(c);
      if s.proto != "" {
        assert proto == [Text("proto"), Text(s.proto)] + [];
        PairThen(b, Text("proto"), Text(s.proto), []);
      }
    }
    assert ReadPairs(START, w) == Some(c);
  }

  lemma {:induction false} NoMorePairs(a: Reading)
    ensures ReadPairs(a, []) == Some(a)
  {
  }

  lemma {:induction false} PairThen(a: Reading, k: Word, v: Word, rest: Spec)
    requires |rest| % 2 == 0 && ReadPair(a, k, v).Some?
    ensures ReadPairs(a, [k, v] + rest) == ReadPairs(ReadPair(a, k, v).value, rest)
  {
    assert ([k, v] + rest)[2..] == rest;
  }

  lemma {:induction false} NothingToStrip(spec: Spec)
    requires forall i :: 0 <= i < |spec| ==>
               spec[i] != Text("log") && spec[i] != Text("log-all") && spec[i] != Text("comment")
    ensures StripNoise(spec) == spec
  {
    if spec != [] {
      NothingToStrip(spec[1..]);
    }
  }

  // ---- The narrower reader of the SSH plan ----

  /** ruleSpec; port NONE is an app or any port. plain: incoming, from and to anywhere, on
      every interface. */
  datatype RuleSpec = RuleSpec(action: Action, port: Word, app: string, plain: bool)

  datatype SpecReading = SpecReading(port: Word, proto: string, app: string, plain: bool)

  const SPEC_START := SpecReading(NONE, "", "", true)

  function ReadSpecPair(a: SpecReading, k: Word, v: Word): Option<SpecReading> {
    if k == Text("from") || k == Text("to") then Some(a.(plain := a.plain && v == ANY))
    else if k == Text("port") then Some(a.(port := v))
    else if k == Text("proto") then (if v.Text? then Some(a.(proto := v.s)) else None)
    else if k == Text("app") then (if v.Text? then Some(a.(app := v.s)) else None)
    else Some(a.(plain := false))
  }

  function ReadSpecPairs(a: SpecReading, words: Spec): Option<SpecReading>
    requires |words| % 2 == 0
    decreases |words|
  {
    if words == [] then Some(a)
    else
      match ReadSpecPair(a, words[0], words[1])
      case None => None
      case Some(b) => ReadSpecPairs(b, words[2..])
  }

  /** parseRuleSpec */
  function ParseRuleSpec(spec: Spec): Option<RuleSpec> {
    var words := StripNoise(spec);
    if |words| < 2 then None
    else
      match ParseAction(words[0])
      case None => None
      case Some(action) =>
        if words[1] == Text("out") then None
        else
          var w := if words[1] == Text("in") then words[2..] else words[1..];
          if |w| == 1 && w[0] != Text("from") && w[0] != Text("to") then
            (if IsPortSpec(w[0]) then Some(RuleSpec(action, w[0], "", true))
             else if w[0].Text? then Some(RuleSpec(action, NONE, w[0].s, true))
             else None)
          else if |w| % 2 != 0 then None
          else
            match ReadSpecPairs(SPEC_START, w)
            case None => None
            case Some(a) =>
              Some(RuleSpec(action, if a.proto != "" && a.port != NONE then JoinProto(a.port, a.proto) else a.port, a.app, a.plain))
  }

  /** The two readers of the extended form, side by side. */
  predicate Agree(a: Reading, b: SpecReading) {
    && a.proto == b.proto
    && (!a.partial ==> a.port == b.port && a.app == b.app)
    && (b.plain <==> a.from.None? && a.dst.None?)
  }

  lemma {:induction false} ReadersAgree(a: Reading, b: SpecReading, words: Spec)
    requires |words| % 2 == 0
    requires Agree(a, b)
    requires ReadPairs(a, words).Some? && ReadSpecPairs(b, words).Some?
    ensures Agree(ReadPairs(a, words).value, ReadSpecPairs(b, words).value)
    decreases |words|
  {
    if words != [] {
      ReadersAgree(ReadPair(a, words[0], words[1]).value, ReadSpecPair(b, words[0], words[1]).value, words[2..]);
    }
  }

  lemma {:induction false} SpecPairsReadable(a: Reading, b: SpecReading, words: Spec)
    requires |words| % 2 == 0
    requires ReadPairs(a, words).Some?
    ensures ReadSpecPairs(b, words).Some?
    decreases |words|
  {
    if words != [] {
      SpecPairsReadable(ReadPair(a, words[0], words[1]).value, ReadSpecPair(b, words[0], words[1]).value, words[2..]);
    }
  }
}
