/** Rules as `ufw show added` prints them, from what each part means, and what the reader of the model
    makes of them. */
module UfwListed {
  import opened RuleModel
  import opened RuleSpecs

  /** One end of a rule: an address, None for any, and a port list or an app of that end. */
  datatype End = End(addr: Option<Prefix>, ports: seq<PortRange>, app: string)

  /** The ports or the app alone, or the extended form with its ends; ports [] and app "" are none. */
  datatype Body =
    | Ports(ports: seq<PortRange>, proto: string)
    | App(name: string)
    | Ends(src: Option<End>, dst: Option<End>, proto: string)

  datatype Line = Line(action: Action, dir: Option<Dir>, iface: string, log: Option<string>, body: Body, comment: Option<Word>)

  function DirWords(dir: Option<Dir>): Spec {
    if dir == Some(In) then [Text("in")] else if dir == Some(Out) then [Text("out")] else []
  }

  function IfaceWords(iface: string): Spec {
    if iface == "" then [] else [Text("on"), Text(iface)]
  }

  function EndWords(key: string, e: Option<End>): Spec {
    if e.None? then []
    else
      [Text(key), if e.value.addr.Some? then Address(e.value.addr.value) else ANY]
      + (if e.value.ports == [] then [] else [Text("port"), PortList(e.value.ports, "")])
      + (if e.value.app == "" then [] else [Text("app"), Text(e.value.app)])
  }

  function ProtoWords(proto: string): Spec {
    if proto == "" then [] else [Text("proto"), Text(proto)]
  }

  function BodyWords(body: Body): Spec {
    match body
    case Ports(ports, proto) => [PortList(ports, proto)]
    case App(name) => [Text(name)]
    case Ends(src, dst, proto) => EndWords("from", src) + (EndWords("to", dst) + ProtoWords(proto))
  }

  function LogWords(log: Option<string>): Spec {
    if log.Some? then [Text(log.value)] else []
  }

  function CommentWords(comment: Option<Word>): Spec {
    if comment.Some? then [Text("comment"), comment.value] else []
  }

  /** The line, without its logging and its comment. */
  function CoreWords(l: Line): Spec {
    [ActionWord(l.action)] + (DirWords(l.dir) + (IfaceWords(l.iface) + BodyWords(l.body)))
  }

  /** The line as it is printed: logging is named before the ports. */
  function LineWords(l: Line): Spec {
    ([ActionWord(l.action)] + (DirWords(l.dir) + IfaceWords(l.iface))) + (LogWords(l.log) + (BodyWords(l.body) + CommentWords(l.comment)))
  }

  predicate NoNoise(s: string) {
    s != "log" && s != "log-all" && s != "comment"
  }

  predicate PortsRead(ports: seq<PortRange>, proto: string) {
    && ports != [] && (forall i :: 0 <= i < |ports| ==> 1 <= ports[i].lo <= ports[i].hi <= 65535)
    && (proto == "" || proto == "tcp" || proto == "udp")
  }

  /** What ufw's grammar asks of a line. */
  predicate Printable(l: Line) {
    && (l.dir.Some? ==> l.dir.value.In? || l.dir.value.Out?)
    && NoNoise(l.iface)
    && (l.log.Some? ==> l.log.value == "log" || l.log.value == "log-all")
    && match l.body
       case Ports(ports, proto) => PortsRead(ports, proto)
       case App(name) => name != "" && NoNoise(name) && name !in ["from", "to", "in", "out", "on"]
       case Ends(src, dst, proto) =>
         && (src.Some? || dst.Some?) && NoNoise(proto)
         && (src.Some? ==> NoNoise(src.value.app)) && (dst.Some? ==> NoNoise(dst.value.app))
  }

  // ---- What a line means ----

  function PortsOf(l: Line): seq<PortRange> {
    match l.body
    case Ports(ports, _) => ports
    case App(_) => []
    case Ends(_, dst, _) => if dst.Some? then dst.value.ports else []
  }

  function ProtoOf(l: Line): string {
    match l.body
    case Ports(_, proto) => proto
    case App(_) => ""
    case Ends(_, _, proto) => proto
  }

  function AppOf(l: Line): string {
    match l.body
    case Ports(_, _) => ""
    case App(name) => name
    case Ends(_, dst, _) => if dst.Some? then dst.value.app else ""
  }

  function FromOf(l: Line): Option<Prefix> {
    if l.body.Ends? && l.body.src.Some? then l.body.src.value.addr else None
  }

  function DstOf(l: Line): Option<Prefix> {
    if l.body.Ends? && l.body.dst.Some? then l.body.dst.value.addr else None
  }

  /** A port or an app of the source. */
  predicate FromPort(l: Line) {
    l.body.Ends? && l.body.src.Some? && (l.body.src.value.ports != [] || l.body.src.value.app != "")
  }

  function Means(l: Line): Rule {
    Rule(0, l.action, if l.dir == Some(Out) then Out else In, ProtoOf(l), PortsOf(l), FromOf(l), DstOf(l), l.iface, AppOf(l),
         if DstOf(l).Some? then DstOf(l).value.v6 else FromOf(l).Some? && FromOf(l).value.v6,
         [], false, FromPort(l))
  }

  function FamilyMeant(l: Line): Fam {
    if DstOf(l).Some? then (if DstOf(l).value.v6 then OnlyV6 else OnlyV4)
    else if FromOf(l).Some? then (if FromOf(l).value.v6 then OnlyV6 else OnlyV4)
    else Both
  }

  // ---- Logging and comments ----

  predicate Quiet(words: Spec) {
    forall i :: 0 <= i < |words| ==> words[i] != Text("log") && words[i] != Text("log-all") && words[i] != Text("comment")
  }

  lemma {:induction false} StripAfter(a: Spec, b: Spec)
    requires Quiet(a)
    ensures StripNoise(a + b) == a + StripNoise(b)
  {
    if a == [] {
      assert a + b == b;
    } else {
      assert (a + b)[0] == a[0] && (a + b)[1..] == a[1..] + b;
      StripAfter(a[1..], b);
      assert [a[0]] + (a[1..] + StripNoise(b)) == a + StripNoise(b);
    }
  }

  lemma {:induction false} StripLog(log: Option<string>, rest: Spec)
    requires log.Some? ==> log.value == "log" || log.value == "log-all"
    ensures StripNoise(LogWords(log) + rest) == StripNoise(rest)
  {
    if log.Some? {
      assert (LogWords(log) + rest)[1..] == rest;
    } else {
      assert LogWords(log) + rest == rest;
    }
  }

  lemma {:induction false} StripComment(comment: Option<Word>)
    ensures StripNoise(CommentWords(comment)) == []
  {
    if comment.Some? {
      assert CommentWords(comment)[2..] == [];
    }
  }

  lemma {:induction false} QuietConcat(a: Spec, b: Spec)
    requires Quiet(a) && Quiet(b)
    ensures Quiet(a + b)
  {
  }

  lemma {:induction false} PartsAreQuiet(l: Line)
    requires Printable(l)
    ensures Quiet([ActionWord(l.action)] + (DirWords(l.dir) + IfaceWords(l.iface))) && Quiet(BodyWords(l.body))
  {
    QuietConcat(DirWords(l.dir), IfaceWords(l.iface));
    QuietConcat([ActionWord(l.action)], DirWords(l.dir) + IfaceWords(l.iface));
    if l.body.Ends? {
      EndIsQuiet("from", l.body.src);
      EndIsQuiet("to", l.body.dst);
      QuietConcat(EndWords("to", l.body.dst), ProtoWords(l.body.proto));
      QuietConcat(EndWords("from", l.body.src), EndWords("to", l.body.dst) + ProtoWords(l.body.proto));
    }
  }

  lemma {:induction false} EndIsQuiet(key: string, e: Option<End>)
    requires (key == "from" || key == "to") && (e.Some? ==> NoNoise(e.value.app))
    ensures Quiet(EndWords(key, e))
  {
  }

  /** Logging and comments do not change what is read. */
  lemma {:induction false} NoiseIsStripped(l: Line)
    requires Printable(l)
    ensures StripNoise(LineWords(l)) == CoreWords(l)
  {
    hide BodyWords, DirWords, IfaceWords, LogWords, CommentWords, StripNoise;
    PartsAreQuiet(l);
    var head := [ActionWord(l.action)] + (DirWords(l.dir) + IfaceWords(l.iface));
    var tail := BodyWords(l.body) + CommentWords(l.comment);
    StripAfter(head, LogWords(l.log) + tail);
    StripLog(l.log, tail);
    StripAfter(BodyWords(l.body), CommentWords(l.comment));
    StripComment(l.comment);
    assert BodyWords(l.body) + [] == BodyWords(l.body);
    assert head + BodyWords(l.body) == CoreWords(l);
  }

  // ---- Direction and interface ----

  function Bare(l: Line): Rule {
    Blank(l.action).(dir := if l.dir == Some(Out) then Out else In, iface := l.iface)
  }

  lemma {:induction false} BodyIsPlain(l: Line)
    requires Printable(l)
    ensures var w := BodyWords(l.body);
            w != [] && w[0] != Text("in") && w[0] != Text("out") && w[0] != Text("on") && w[0] != Text("comment")
  {
  }

  lemma {:induction false} HeadIsRead(l: Line)
    requires Printable(l)
    ensures SpecRule(LineWords(l)) ==
            match ReadTail(Bare(l), BodyWords(l.body))
            case None => None
            case Some(x) => Some(Finish(x))
  {
    hide StripNoise, ReadTail, BodyWords, LineWords;
    NoiseIsStripped(l);
    BodyIsPlain(l);
    var words, body := CoreWords(l), BodyWords(l.body);
    var w := IfaceWords(l.iface) + body;
    ActionReads(l.action);
    assert words[1..] == DirWords(l.dir) + w;
    if l.dir.Some? {
      assert (DirWords(l.dir) + w)[1..] == w;
    } else {
      assert DirWords(l.dir) + w == w;
    }
    if l.iface != "" {
      assert w[2..] == body;
    } else {
      assert w == body;
    }
  }

  lemma {:induction false} ActionReads(a: Action)
    ensures ParseAction(ActionWord(a)) == Some(a)
  {
  }

  // ---- The body ----

  function AfterEnd(a: Reading, key: string, e: Option<End>): Reading {
    if e.None? then a
    else
      var b := if key == "from" then a.(side := "from", from := if e.value.addr.Some? then e.value.addr else a.from)
               else a.(side := "to", dst := if e.value.addr.Some? then e.value.addr else a.dst);
      if key == "from" then b.(partial := b.partial || e.value.ports != [] || e.value.app != "")
      else b.(port := if e.value.ports == [] then b.port else PortList(e.value.ports, ""),
              app := if e.value.app == "" then b.app else e.value.app)
  }

  lemma {:induction false} ReadOnePair(a: Reading, k: Word, v: Word, rest: Spec)
    requires |rest| % 2 == 0
    ensures ReadPairs(a, [k, v] + rest) == match ReadPair(a, k, v) case None => None case Some(b) => ReadPairs(b, rest)
  {
    hide ReadPair;
    assert ([k, v] + rest)[2..] == rest;
  }

  lemma {:induction false} EndIsEven(key: string, e: Option<End>)
    ensures |EndWords(key, e)| % 2 == 0
  {
  }

  lemma {:induction false} ReadPortPair(a: Reading, ports: seq<PortRange>, rest: Spec)
    requires |rest| % 2 == 0
    ensures ReadPairs(a, (if ports == [] then [] else [Text("port"), PortList(ports, "")]) + rest) ==
            ReadPairs(if ports == [] then a else if a.side == "from" then a.(partial := true) else a.(port := PortList(ports, "")), rest)
  {
    hide ReadPairs;
    if ports == [] {
      assert [] + rest == rest;
    } else {
      ReadOnePair(a, Text("port"), PortList(ports, ""), rest);
    }
  }

  lemma {:induction false} ReadAppPair(a: Reading, app: string, rest: Spec)
    requires |rest| % 2 == 0
    ensures ReadPairs(a, (if app == "" then [] else [Text("app"), Text(app)]) + rest) ==
            ReadPairs(if app == "" then a else if a.side == "from" then a.(partial := true) else a.(app := app), rest)
  {
    hide ReadPairs;
    if app == "" {
      assert [] + rest == rest;
    } else {
      ReadOnePair(a, Text("app"), Text(app), rest);
    }
  }

  lemma {:induction false} EndIsRead(a: Reading, key: string, e: Option<End>, rest: Spec)
    requires (key == "from" || key == "to") && |rest| % 2 == 0
    ensures |EndWords(key, e) + rest| % 2 == 0
    ensures ReadPairs(a, EndWords(key, e) + rest) == ReadPairs(AfterEnd(a, key, e), rest)
  {
    hide ReadPairs;
    EndIsEven(key, e);
    if e.None? {
      assert EndWords(key, e) + rest == rest;
    } else {
      var v := if e.value.addr.Some? then Address(e.value.addr.value) else ANY;
      var ports := if e.value.ports == [] then [] else [Text("port"), PortList(e.value.ports, "")];
      var app := if e.value.app == "" then [] else [Text("app"), Text(e.value.app)];
      assert EndWords(key, e) + rest == [Text(key), v] + (ports + (app + rest));
      ReadOnePair(a, Text(key), v, ports + (app + rest));
      var b := if key == "from" then a.(side := "from", from := if e.value.addr.Some? then e.value.addr else a.from)
               else a.(side := "to", dst := if e.value.addr.Some? then e.value.addr else a.dst);
      ReadPortPair(b, e.value.ports, app + rest);
      var c := if e.value.ports == [] then b else if b.side == "from" then b.(partial := true) else b.(port := PortList(e.value.ports, ""));
      ReadAppPair(c, e.value.app, rest);
    }
  }

  lemma {:induction false} EndsAreRead(l: Line)
    requires Printable(l) && l.body.Ends?
    ensures |BodyWords(l.body)| % 2 == 0
    ensures ReadPairs(START, BodyWords(l.body)) ==
            Some(AfterEnd(AfterEnd(START, "from", l.body.src), "to", l.body.dst).(proto := l.body.proto))
  {
    hide ReadPairs, EndWords;
    var src, dst, proto := l.body.src, l.body.dst, ProtoWords(l.body.proto);
    EndIsEven("from", src);
    EndIsEven("to", dst);
    var a := AfterEnd(START, "from", src);
    var b := AfterEnd(a, "to", dst);
    EndIsRead(START, "from", src, EndWords("to", dst) + proto);
    EndIsRead(a, "to", dst, proto);
    if l.body.proto == "" {
      NoMorePairs(b);
    } else {
      assert proto + [] == proto;
      ReadOnePair(b, Text("proto"), Text(l.body.proto), []);
      NoMorePairs(b.(proto := l.body.proto));
    }
  }

  /** The reader gives back exactly what every line means, and refuses one whose ports do not parse. */
  lemma {:induction false} AddedLineReadsBack(l: Line)
    requires Printable(l)
    ensures SpecRule(LineWords(l)) ==
            if PortsOf(l) != [] && !PortsRead(PortsOf(l), ProtoOf(l)) then None else Some(Parsed(Means(l), FamilyMeant(l)))
  {
    hide SpecRule, LineWords, ReadTail, BodyWords, PortsRead, PortsOf;
    HeadIsRead(l);
    BodyIsRead(l);
    FamilyIsMeant(l);
  }

  lemma {:induction false} FamilyIsMeant(l: Line)
    ensures Finish(Means(l).(v6 := false)) == Parsed(Means(l), FamilyMeant(l))
  {
  }

  lemma {:induction false} BodyIsRead(l: Line)
    requires Printable(l)
    ensures ReadTail(Bare(l), BodyWords(l.body)) ==
            if PortsOf(l) != [] && !PortsRead(PortsOf(l), ProtoOf(l)) then None else Some(Means(l).(v6 := false))
  {
    hide ReadPairs;
    if l.body.Ends? {
      hide ReadTail;
      EndsAreRead(l);
      EndsTail(l);
    } else {
      BodyIsPlain(l);
    }
  }

  lemma {:induction false} EndsTail(l: Line)
    requires Printable(l) && l.body.Ends? && |BodyWords(l.body)| % 2 == 0
    requires ReadPairs(START, BodyWords(l.body)) ==
             Some(AfterEnd(AfterEnd(START, "from", l.body.src), "to", l.body.dst).(proto := l.body.proto))
    ensures ReadTail(Bare(l), BodyWords(l.body)) ==
            if PortsOf(l) != [] && !PortsRead(PortsOf(l), ProtoOf(l)) then None else Some(Means(l).(v6 := false))
  {
    hide ReadPairs, BodyWords;
    BodyIsPlain(l);
  }
}
