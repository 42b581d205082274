/** Rich rules as an administrator means them: the words firewalld lists for each kind of rule, what the
    reader makes of them, and firewalld's staged evaluation of a zone given by such rules. */
module FwdListed {
  import opened RuleModel
  import opened RuleSpecs
  import opened FwdRich
  import opened FwdZone
  import opened FwdStages

  // ---- Rules, and their words ----

  /** FromSet: an ipset or a MAC address. */
  datatype Source = Anywhere | FromNet(inverted: bool, p: Prefix) | FromSet(inverted: bool, key: string, value: string)

  datatype Target = NoTarget | ToNet(inverted: bool, p: Prefix) | ToSet(inverted: bool, value: string)

  /** FromPort: a source port. Harmless: an ICMP, masquerade or forward-port element, with its words. */
  datatype Subject =
    | AnyTraffic
    | OnePort(r: PortRange, proto: string)
    | WholeProto(proto: string)
    | OneService(name: string)
    | FromPort(r: PortRange, proto: string)
    | Harmless(word: string, more: seq<RichWord>)

  /** A log, nflog or audit clause: its options and its own limit. */
  datatype Note = Note(word: string, options: seq<RichWord>, limit: Option<Val>)

  /** Quiet: no action at all, as in a rule that only logs. */
  datatype Verb = Accept | Refuse(kind: Option<string>) | Drop | Mark(set_: string) | Quiet

  datatype RichLine = RichLine(prio: Option<int>, family: Option<bool>, src: Source, target: Target, subject: Subject,
                               notes: seq<Note>, verb: Verb, limit: Option<Val>)

  function Inversion(inverted: bool): seq<RichWord> {
    if inverted then [Bare("not")] else []
  }

  function HeadWords(d: RichLine): seq<RichWord> {
    (if d.prio.Some? then [Pair("priority", Num(d.prio.value))] else [])
    + (if d.family.Some? then [Pair("family", Str(if d.family.value then "ipv6" else "ipv4"))] else [])
  }

  function SourceWords(src: Source): seq<RichWord> {
    match src
    case Anywhere => []
    case FromNet(inverted, p) => [Bare("source")] + Inversion(inverted) + [Pair("address", Net(p))]
    case FromSet(inverted, key, value) => [Bare("source")] + Inversion(inverted) + [Pair(key, Str(value))]
  }

  function TargetWords(target: Target): seq<RichWord> {
    match target
    case NoTarget => []
    case ToNet(inverted, p) => [Bare("destination")] + Inversion(inverted) + [Pair("address", Net(p))]
    case ToSet(inverted, value) => [Bare("destination")] + Inversion(inverted) + [Pair("ipset", Str(value))]
  }

  function SubjectWords(subject: Subject): seq<RichWord> {
    match subject
    case AnyTraffic => []
    case OnePort(r, proto) => [Bare("port"), Pair("port", Span(r)), Pair("protocol", Str(proto))]
    case WholeProto(proto) => [Bare("protocol"), Pair("value", Str(proto))]
    case OneService(name) => [Bare("service"), Pair("name", Str(name))]
    case FromPort(r, proto) => [Bare("source-port"), Pair("port", Span(r)), Pair("protocol", Str(proto))]
    case Harmless(word, more) => [Bare(word)] + more
  }

  function LimitWords(limit: Option<Val>): seq<RichWord> {
    if limit.Some? then [Bare("limit"), Pair("value", limit.value)] else []
  }

  function NoteWords(notes: seq<Note>): seq<RichWord> {
    if notes == [] then []
    else [Bare(notes[0].word)] + (notes[0].options + (LimitWords(notes[0].limit) + NoteWords(notes[1..])))
  }

  function VerbWords(d: RichLine): seq<RichWord> {
    match d.verb
    case Accept => [Bare("accept")] + LimitWords(d.limit)
    case Refuse(kind) => [Bare("reject")] + (if kind.Some? then [Pair("type", Str(kind.value))] else []) + LimitWords(d.limit)
    case Drop => [Bare("drop")] + LimitWords(d.limit)
    case Mark(set_) => [Bare("mark"), Pair("set", Str(set_))] + LimitWords(d.limit)
    case Quiet => []
  }

  /** The rule as firewalld lists it. */
  function LineWords(d: RichLine): seq<RichWord> {
    [Bare("rule")] + (HeadWords(d) + (SourceWords(d.src) + (TargetWords(d.target)
    + (SubjectWords(d.subject) + (NoteWords(d.notes) + VerbWords(d))))))
  }

  /** What firewalld's grammar asks of a rule. */
  predicate Grammatical(d: RichLine) {
    && (d.src.FromSet? ==> d.src.key == "ipset" || d.src.key == "mac")
    && (d.subject.WholeProto? ==> d.subject.proto != "")
    && (d.subject.OneService? ==> d.subject.name != "")
    && (d.subject.Harmless? ==>
          d.subject.word in ["icmp-block", "icmp-type", "masquerade", "forward-port", "tcp-mss-clamp"])
    && (forall i :: 0 <= i < |d.notes| ==>
          && d.notes[i].word in ["log", "nflog", "audit"]
          && forall j :: 0 <= j < |d.notes[i].options| ==> d.notes[i].options[j].Pair?)
  }

  // ---- What they mean to the rule model ----

  function Priority(d: RichLine): int {
    if d.prio.Some? then d.prio.value else 0
  }

  /** firewalld refuses the others itself. */
  predicate Sound(d: RichLine) {
    && (d.subject.OnePort? ==>
          1 <= d.subject.r.lo <= d.subject.r.hi <= 65535 && d.subject.proto in ["tcp", "udp", "sctp", "dccp"])
    && (d.family.Some? && d.src.FromNet? ==> d.family.value == d.src.p.v6)
  }

  /** The rule concerns less than the rule model shows: an inverted or unknown source, an ipset as its
      destination, or a source port. The reader forgets this at a destination address, which is a
      restriction of its own. */
  predicate Narrower(d: RichLine) {
    || d.subject.FromPort?
    || (if d.target.NoTarget? then d.src.FromSet? || (d.src.FromNet? && d.src.inverted) else d.target.ToSet?)
  }

  function FamilyOf(d: RichLine): Fam {
    if d.src.FromNet? then (if d.src.p.v6 then OnlyV6 else OnlyV4)
    else if d.family == Some(true) then OnlyV6
    else if d.family == Some(false) then OnlyV4
    else Both
  }

  /** No more than the agent writes itself. */
  predicate Ordinary(d: RichLine) {
    && Priority(d) == 0 && d.notes == [] && d.limit == None
    && (d.verb.Accept? || d.verb.Drop? || d.verb == Verb.Refuse(None))
    && (d.src.Anywhere? || (d.src.FromNet? && !d.src.inverted)) && d.target.NoTarget?
    && (d.family.Some? ==> d.src.FromNet?)
    && (d.subject.AnyTraffic? || (d.subject.OnePort? && d.subject.proto in ["tcp", "udp"]))
  }

  function ActionOf(d: RichLine): Action {
    match d.verb
    case Accept => if d.limit.Some? then Limit else Allow
    case Refuse(_) => Reject
    case Drop => Deny
    case _ => Allow
  }

  /** The rule in the terms of the rule model. */
  function Reading(d: RichLine): Rich {
    Rich(
      Rule(0, ActionOf(d), In,
           if d.subject.OnePort? || d.subject.WholeProto? then d.subject.proto else "",
           if d.subject.OnePort? then [d.subject.r] else [],
           if d.src.FromNet? then Some(d.src.p) else None,
           if d.target.ToNet? then Some(d.target.p) else None,
           "", "", false, [], false, Narrower(d)),
      FamilyOf(d), Priority(d),
      if d.subject.OneService? then d.subject.name else "",
      d.verb.Accept? || d.verb.Refuse? || d.verb.Drop?,
      Ordinary(d))
  }

  // ---- The reader on each part ----

  lemma {:induction false} ReadPart(st: RichState, part: seq<RichWord>, rest: seq<RichWord>)
    ensures ReadWords(st, part).Go? ==> ReadWords(st, part + rest) == ReadWords(ReadWords(st, part).st, rest)
    decreases |part|
  {
    hide ReadBare, ReadKey;
    if part == [] {
      assert part + rest == rest;
    } else {
      assert (part + rest)[0] == part[0] && (part + rest)[1..] == part[1..] + rest;
      var next := match part[0] case Bare(w) => ReadBare(st, w) case Pair(k, v) => ReadKey(st, k, v);
      if next.Go? {
        ReadPart(next.st, part[1..], rest);
      }
    }
  }

  lemma {:induction false} ReadTwo(st: RichState, a: RichWord, b: RichWord)
    ensures ReadWords(st, [a, b]) ==
            match ReadWords(st, [a])
            case Go(next) => ReadWords(next, [b])
            case done => done
  {
    hide ReadBare, ReadKey;
    assert [a, b][1..] == [b] && [a][1..] == [];
  }

  lemma {:induction false} ReadThree(st: RichState, a: RichWord, b: RichWord, c: RichWord)
    ensures ReadWords(st, [a, b, c]) ==
            match ReadWords(st, [a])
            case Go(next) => ReadWords(next, [b, c])
            case done => done
  {
    hide ReadBare, ReadKey;
    assert [a, b, c][1..] == [b, c] && [a][1..] == [];
  }

  lemma {:induction false} ReadSingle(st: RichState, a: RichWord)
    ensures ReadWords(st, [a]) == match a case Bare(w) => ReadBare(st, w) case Pair(k, v) => ReadKey(st, k, v)
  {
    hide ReadBare, ReadKey;
    assert [a][1..] == [];
  }

  /** The state after the head of a rule. */
  function AfterHead(d: RichLine): RichState {
    RICH_START.(x := RICH_START.x.(prio := Priority(d)),
                family := if d.family.Some? then (if d.family.value then "ipv6" else "ipv4") else "")
  }

  lemma {:induction false} ReadHead(d: RichLine)
    ensures ReadWords(RICH_START, HeadWords(d)) == Go(AfterHead(d))
  {
    hide ReadWords;
    if d.prio.Some? && d.family.Some? {
      var a, b := Pair("priority", Num(d.prio.value)), Pair("family", Str(if d.family.value then "ipv6" else "ipv4"));
      assert HeadWords(d) == [a, b];
      ReadTwo(RICH_START, a, b);
      ReadSingle(RICH_START, a);
      ReadSingle(RICH_START.(x := RICH_START.x.(prio := d.prio.value)), b);
    } else if d.prio.Some? {
      var a := Pair("priority", Num(d.prio.value));
      assert HeadWords(d) == [a];
      ReadSingle(RICH_START, a);
    } else if d.family.Some? {
      var b := Pair("family", Str(if d.family.value then "ipv6" else "ipv4"));
      assert HeadWords(d) == [b];
      ReadSingle(RICH_START, b);
    } else {
      assert HeadWords(d) == [];
      ReadEnd(RICH_START);
    }
  }

  function AfterSource(st: RichState, src: Source): RichState {
    match src
    case Anywhere => st
    case FromNet(inverted, p) =>
      st.(elem := "source", x := st.x.(plain := st.x.plain && !inverted,
                                       r := st.x.r.(from := Some(p), partial := st.x.r.partial || inverted)))
    case FromSet(_, _, _) => st.(elem := "source", x := st.x.(plain := false, r := st.x.r.(partial := true)))
  }

  /** An element, an inversion and its one key. */
  lemma {:induction false} ReadInverted(st: RichState, word: string, inverted: bool, key: RichWord)
    requires word == "source" || word == "destination"
    ensures ReadWords(st, [Bare(word)] + Inversion(inverted) + [key]) ==
            var named := st.(elem := word);
            ReadWords(if inverted then Narrow(named) else named, [key])
  {
    hide ReadWords;
    var named := st.(elem := word);
    ReadSingle(st, Bare(word));
    assert ReadBare(st, word) == Go(named);
    if inverted {
      assert [Bare(word)] + Inversion(inverted) + [key] == [Bare(word), Bare("not"), key];
      ReadThree(st, Bare(word), Bare("not"), key);
      ReadTwo(named, Bare("not"), key);
      ReadSingle(named, Bare("not"));
    } else {
      assert [Bare(word)] + Inversion(inverted) + [key] == [Bare(word), key];
      ReadTwo(st, Bare(word), key);
    }
  }

  lemma {:induction false} ReadSourcePart(st: RichState, src: Source)
    requires src.FromSet? ==> src.key == "ipset" || src.key == "mac"
    ensures ReadWords(st, SourceWords(src)) == Go(AfterSource(st, src))
  {
    hide ReadWords;
    if src.Anywhere? {
      ReadEnd(st);
    } else {
      var key := if src.FromNet? then Pair("address", Net(src.p)) else Pair(src.key, Str(src.value));
      var named := st.(elem := "source");
      ReadInverted(st, "source", src.inverted, key);
      ReadSingle(if src.inverted then Narrow(named) else named, key);
    }
  }

  function AfterTarget(st: RichState, target: Target): RichState {
    match target
    case NoTarget => st
    case ToNet(_, p) =>
      st.(elem := "destination", x := st.x.(plain := false, r := st.x.r.(dst := Some(p), partial := false)))
    case ToSet(_, _) => st.(elem := "destination", x := st.x.(plain := false, r := st.x.r.(partial := true)))
  }

  lemma {:induction false} ReadTargetPart(st: RichState, target: Target)
    ensures ReadWords(st, TargetWords(target)) == Go(AfterTarget(st, target))
  {
    hide ReadWords;
    if target.NoTarget? {
      ReadEnd(st);
    } else {
      var key := if target.ToNet? then Pair("address", Net(target.p)) else Pair("ipset", Str(target.value));
      var named := st.(elem := "destination");
      ReadInverted(st, "destination", target.inverted, key);
      ReadSingle(if target.inverted then Narrow(named) else named, key);
    }
  }

  function AfterSubject(st: RichState, subject: Subject): RichState {
    match subject
    case AnyTraffic => st
    case OnePort(r, proto) => st.(elem := "port", port := Some(Span(r)), portProto := Str(proto))
    case WholeProto(proto) => st.(elem := "protocol", x := st.x.(plain := false, r := st.x.r.(proto := proto)))
    case OneService(name) => st.(elem := "service", x := st.x.(plain := false, service := name))
    case FromPort(_, _) => st.(elem := "source-port", x := st.x.(plain := false, r := st.x.r.(partial := true)))
    case Harmless(_, _) => st
  }

  lemma {:induction false} ReadPortPart(st: RichState, r: PortRange, proto: string)
    ensures ReadWords(st, SubjectWords(OnePort(r, proto))) == Go(AfterSubject(st, OnePort(r, proto)))
    ensures ReadWords(st, SubjectWords(FromPort(r, proto))) == Go(AfterSubject(st, FromPort(r, proto)))
  {
    hide ReadWords;
    var port, value := Pair("port", Span(r)), Pair("protocol", Str(proto));
    ReadThree(st, Bare("port"), port, value);
    ReadSingle(st, Bare("port"));
    ReadTwo(st.(elem := "port"), port, value);
    ReadSingle(st.(elem := "port"), port);
    ReadSingle(st.(elem := "port", port := Some(Span(r))), value);
    ReadThree(st, Bare("source-port"), port, value);
    ReadSingle(st, Bare("source-port"));
    var st1 := Narrow(st).(elem := "source-port");
    ReadTwo(st1, port, value);
    ReadSingle(st1, port);
    ReadSingle(st1, value);
  }

  lemma {:induction false} ReadSubjectPart(st: RichState, subject: Subject)
    requires !subject.Harmless?
    ensures ReadWords(st, SubjectWords(subject)) == Go(AfterSubject(st, subject))
  {
    hide ReadWords;
    if subject.AnyTraffic? {
      ReadEnd(st);
    } else if subject.OnePort? || subject.FromPort? {
      ReadPortPart(st, subject.r, subject.proto);
    } else if subject.WholeProto? {
      ReadTwo(st, Bare("protocol"), Pair("value", Str(subject.proto)));
      ReadSingle(st, Bare("protocol"));
      ReadSingle(st.(elem := "protocol"), Pair("value", Str(subject.proto)));
    } else {
      ReadTwo(st, Bare("service"), Pair("name", Str(subject.name)));
      ReadSingle(st, Bare("service"));
      ReadSingle(st.(elem := "service"), Pair("name", Str(subject.name)));
    }
  }

  /** Options of a log clause say nothing to the reader. */
  lemma {:induction false} ReadOptions(st: RichState, options: seq<RichWord>)
    requires st.elem in ["log", "nflog", "audit"] && forall j :: 0 <= j < |options| ==> options[j].Pair?
    ensures ReadWords(st, options) == Go(st)
  {
    if options != [] {
      assert ReadKey(st, options[0].k, options[0].v) == Go(st);
      hide ReadKey, ReadBare;
      ReadOptions(st, options[1..]);
    }
  }

  lemma {:induction false} ReadOwnLimit(st: RichState, limit: Option<Val>)
    requires st.elem in ["log", "nflog", "audit"] && !st.x.plain
    ensures ReadWords(st, LimitWords(limit)) == Go(st)
  {
    hide ReadWords;
    if limit.Some? {
      ReadTwo(st, Bare("limit"), Pair("value", limit.value));
      ReadSingle(st, Bare("limit"));
      ReadSingle(st, Pair("value", limit.value));
    } else {
      ReadEnd(st);
    }
  }

  lemma {:induction false} ReadNote(st: RichState, note: Note, rest: seq<RichWord>)
    requires note.word in ["log", "nflog", "audit"] && forall j :: 0 <= j < |note.options| ==> note.options[j].Pair?
    ensures ReadWords(st, [Bare(note.word)] + (note.options + (LimitWords(note.limit) + rest))) ==
            ReadWords(Odd(st).(elem := note.word), rest)
  {
    hide ReadWords, LimitWords;
    var st1 := Odd(st).(elem := note.word);
    var limit := LimitWords(note.limit);
    ReadOne(st, Bare(note.word), note.options + (limit + rest));
    assert ReadBare(st, note.word) == Go(st1);
    hide ReadBare;
    ReadOptions(st1, note.options);
    ReadPart(st1, note.options, limit + rest);
    ReadOwnLimit(st1, note.limit);
    ReadPart(st1, limit, rest);
  }

  lemma {:induction false} NoteWordsAre(notes: seq<Note>, rest: seq<RichWord>)
    ensures NoteWords(notes) + rest ==
            if notes == [] then rest
            else [Bare(notes[0].word)] + (notes[0].options + (LimitWords(notes[0].limit) + (NoteWords(notes[1..]) + rest)))
  {
    hide LimitWords;
  }

  /** Notes only make a rule one the agent would not write; the words after them are the verb's. */
  lemma {:induction false} ReadNotes(st: RichState, notes: seq<Note>, rest: seq<RichWord>) returns (elem: string)
    requires forall i :: 0 <= i < |notes| ==>
               && notes[i].word in ["log", "nflog", "audit"]
               && forall j :: 0 <= j < |notes[i].options| ==> notes[i].options[j].Pair?
    ensures ReadWords(st, NoteWords(notes) + rest) ==
            ReadWords(st.(elem := elem, x := st.x.(plain := st.x.plain && notes == [])), rest)
    decreases |notes|
  {
    hide ReadWords, LimitWords, Odd, NoteWords;
    elem := st.elem;
    NoteWordsAre(notes, rest);
    if notes != [] {
      var note, later := notes[0], notes[1..];
      ReadNote(st, note, NoteWords(later) + rest);
      elem := ReadNotes(Odd(st).(elem := note.word), later, rest);
      OddIs(st);
    }
  }

  lemma {:induction false} OddIs(st: RichState)
    ensures Odd(st) == st.(x := st.x.(plain := false))
  {
  }

  function VerbWord(verb: Verb): string {
    match verb
    case Accept => "accept"
    case Refuse(_) => "reject"
    case Drop => "drop"
    case Mark(_) => "mark"
    case Quiet => ""
  }

  function AfterVerb(st: RichState, d: RichLine): RichState {
    if d.verb.Quiet? then st
    else
      var odd := d.limit.Some? || d.verb.Mark? || (d.verb.Refuse? && d.verb.kind.Some?);
      st.(elem := "action", action := VerbWord(d.verb), limited := st.limited || d.limit.Some?,
          x := st.x.(plain := st.x.plain && !odd))
  }

  lemma {:induction false} ReadLimit(st: RichState, limit: Option<Val>)
    requires st.elem == "action"
    ensures ReadWords(st, LimitWords(limit)) ==
            Go(st.(limited := st.limited || limit.Some?, x := st.x.(plain := st.x.plain && limit.None?)))
  {
    hide ReadWords;
    if limit.Some? {
      ReadTwo(st, Bare("limit"), Pair("value", limit.value));
      ReadSingle(st, Bare("limit"));
      ReadSingle(Odd(st).(limited := true), Pair("value", limit.value));
    } else {
      ReadEnd(st);
    }
  }

  lemma {:induction false} ReadVerbWord(st: RichState, verb: Verb)
    requires !verb.Quiet?
    ensures ReadBare(st, VerbWord(verb)) == Go(st.(elem := "action", action := VerbWord(verb)))
  {
  }

  /** A reject type or a mark. */
  function Extra(verb: Verb): seq<RichWord> {
    if verb.Mark? then [Pair("set", Str(verb.set_))]
    else if verb.Refuse? && verb.kind.Some? then [Pair("type", Str(verb.kind.value))]
    else []
  }

  lemma {:induction false} ReadExtra(st: RichState, verb: Verb, rest: seq<RichWord>)
    requires st.elem == "action"
    ensures ReadWords(st, Extra(verb) + rest) == ReadWords(if Extra(verb) == [] then st else Odd(st), rest)
  {
    hide ReadWords;
    if Extra(verb) == [] {
      assert Extra(verb) + rest == rest;
    } else {
      ReadOne(st, Extra(verb)[0], rest);
      assert [Extra(verb)[0]] == Extra(verb);
    }
  }

  lemma {:induction false} VerbWordsAre(d: RichLine)
    requires !d.verb.Quiet?
    ensures VerbWords(d) == [Bare(VerbWord(d.verb))] + (Extra(d.verb) + LimitWords(d.limit))
  {
    hide LimitWords;
  }

  lemma {:induction false} ReadVerb(st: RichState, d: RichLine)
    ensures ReadWords(st, VerbWords(d)) == Go(AfterVerb(st, d))
  {
    hide ReadWords, ReadBare, ReadKey, VerbWord, Extra;
    if d.verb.Quiet? {
      ReadEnd(st);
    } else {
      var st1 := st.(elem := "action", action := VerbWord(d.verb));
      VerbWordsAre(d);
      ReadOne(st, Bare(VerbWord(d.verb)), Extra(d.verb) + LimitWords(d.limit));
      ReadVerbWord(st, d.verb);
      ReadExtra(st1, d.verb, LimitWords(d.limit));
      ReadLimit(if Extra(d.verb) == [] then st1 else Odd(st1), d.limit);
      ExtraIs(d.verb);
    }
  }

  lemma {:induction false} ExtraIs(verb: Verb)
    ensures Extra(verb) == [] <==> !(verb.Mark? || (verb.Refuse? && verb.kind.Some?))
  {
  }

  /** The state before the notes. */
  function Gist(d: RichLine): RichState {
    AfterSubject(AfterTarget(AfterSource(AfterHead(d), d.src), d.target), d.subject)
  }

  lemma {:induction false} ReadGist(d: RichLine, rest: seq<RichWord>)
    requires Grammatical(d)
    ensures LineWords(d) != [] && LineWords(d)[0] == Bare("rule")
    ensures ReadWords(RICH_START, LineWords(d)[1..]) ==
            ReadWords(AfterTarget(AfterSource(AfterHead(d), d.src), d.target),
                      SubjectWords(d.subject) + (NoteWords(d.notes) + VerbWords(d)))
  {
    hide ReadWords, HeadWords, SourceWords, TargetWords, SubjectWords, NoteWords, VerbWords, AfterSource, AfterTarget, AfterHead;
    var tail := SubjectWords(d.subject) + (NoteWords(d.notes) + VerbWords(d));
    assert LineWords(d)[1..] == HeadWords(d) + (SourceWords(d.src) + (TargetWords(d.target) + tail));
    ReadHead(d);
    ReadPart(RICH_START, HeadWords(d), SourceWords(d.src) + (TargetWords(d.target) + tail));
    ReadSourcePart(AfterHead(d), d.src);
    ReadPart(AfterHead(d), SourceWords(d.src), TargetWords(d.target) + tail);
    ReadTargetPart(AfterSource(AfterHead(d), d.src), d.target);
    ReadPart(AfterSource(AfterHead(d), d.src), TargetWords(d.target), tail);
  }

  /** An ICMP, masquerade or forward-port rule decides nothing. */
  lemma {:induction false} HarmlessNeverDecides(d: RichLine)
    requires Grammatical(d) && d.subject.Harmless?
    ensures ParseRich(LineWords(d)).Some? && !ParseRich(LineWords(d)).value.decides
  {
    hide ReadWords, LineWords, NoteWords, VerbWords, AfterHead, AfterSource, AfterTarget;
    ReadGist(d, []);
    var st := AfterTarget(AfterSource(AfterHead(d), d.src), d.target);
    var tail := d.subject.more + (NoteWords(d.notes) + VerbWords(d));
    assert SubjectWords(d.subject) + (NoteWords(d.notes) + VerbWords(d)) == [Bare(d.subject.word)] + tail;
    ReadOne(st, Bare(d.subject.word), tail);
    assert ReadBare(st, d.subject.word) == Stop(st.x);
    UndecidedYet(d);
  }

  lemma {:induction false} UndecidedYet(d: RichLine)
    ensures !AfterTarget(AfterSource(AfterHead(d), d.src), d.target).x.decides
  {
  }

  /** The state after the notes, which leave their own name as the element. */
  function Noted(d: RichLine, elem: string): RichState {
    Gist(d).(elem := elem, x := Gist(d).x.(plain := Gist(d).x.plain && d.notes == []))
  }

  lemma {:induction false} ReadLine(d: RichLine) returns (elem: string)
    requires Grammatical(d) && !d.subject.Harmless?
    ensures LineWords(d) != [] && LineWords(d)[0] == Bare("rule")
    ensures ReadWords(RICH_START, LineWords(d)[1..]) == Go(AfterVerb(Noted(d, elem), d))
  {
    hide ReadWords, LineWords, NoteWords, VerbWords, SubjectWords, AfterVerb, AfterSubject, AfterSource, AfterTarget, AfterHead;
    ReadGist(d, []);
    var st0 := AfterTarget(AfterSource(AfterHead(d), d.src), d.target);
    ReadSubjectPart(st0, d.subject);
    ReadPart(st0, SubjectWords(d.subject), NoteWords(d.notes) + VerbWords(d));
    elem := ReadNotes(Gist(d), d.notes, VerbWords(d));
    ReadVerb(Noted(d, elem), d);
  }

  /** All that the words of the rule have told the reader. */
  predicate Told(d: RichLine, st: RichState) {
    && st.x == Rich(Rule(0, Allow, In, if d.subject.WholeProto? then d.subject.proto else "", [],
                         if d.src.FromNet? then Some(d.src.p) else None,
                         if d.target.ToNet? then Some(d.target.p) else None,
                         "", "", false, [], false, Narrower(d)),
                    Both, Priority(d), if d.subject.OneService? then d.subject.name else "", false, st.x.plain)
    && st.port == (if d.subject.OnePort? then Some(Span(d.subject.r)) else None)
    && (d.subject.OnePort? ==> st.portProto == Str(d.subject.proto))
    && st.family == (if d.family == Some(true) then "ipv6" else if d.family == Some(false) then "ipv4" else "")
    && st.action == VerbWord(d.verb) && (!d.verb.Quiet? ==> st.limited == d.limit.Some?)
  }

  /** Nothing so far that the agent would not write. */
  predicate StillPlain(d: RichLine) {
    && (d.src.Anywhere? || (d.src.FromNet? && !d.src.inverted)) && d.target.NoTarget?
    && (d.subject.AnyTraffic? || d.subject.OnePort?)
    && d.notes == [] && (d.verb.Quiet? || (d.limit == None && !d.verb.Mark? && (d.verb.Refuse? ==> d.verb.kind == None)))
  }

  lemma {:induction false} GistIs(d: RichLine)
    requires !d.subject.Harmless?
    ensures var st := Gist(d);
            && st.x == Rich(Rule(0, Allow, In, if d.subject.WholeProto? then d.subject.proto else "", [],
                                 if d.src.FromNet? then Some(d.src.p) else None,
                                 if d.target.ToNet? then Some(d.target.p) else None,
                                 "", "", false, [], false, Narrower(d)),
                            Both, Priority(d), if d.subject.OneService? then d.subject.name else "", false, st.x.plain)
            && st.port == (if d.subject.OnePort? then Some(Span(d.subject.r)) else None)
            && (d.subject.OnePort? ==> st.portProto == Str(d.subject.proto))
            && st.family == (if d.family == Some(true) then "ipv6" else if d.family == Some(false) then "ipv4" else "")
            && st.action == "" && !st.limited
            && (st.x.plain <==> && (d.src.Anywhere? || (d.src.FromNet? && !d.src.inverted)) && d.target.NoTarget?
                                && (d.subject.AnyTraffic? || d.subject.OnePort?))
  {
    hide Narrower;
    var a := AfterSource(AfterHead(d), d.src);
    var b := AfterTarget(a, d.target);
    assert b.x.r.partial <==>
           (if d.target.NoTarget? then d.src.FromSet? || (d.src.FromNet? && d.src.inverted) else d.target.ToSet?);
    assert AfterSubject(b, d.subject).x.r.partial <==> b.x.r.partial || d.subject.FromPort?;
    NarrowerIs(d);
  }

  lemma {:induction false} NarrowerIs(d: RichLine)
    ensures Narrower(d) <==>
            || d.subject.FromPort?
            || (if d.target.NoTarget? then d.src.FromSet? || (d.src.FromNet? && d.src.inverted) else d.target.ToSet?)
  {
  }

  lemma {:induction false} ToldAll(d: RichLine, elem: string)
    requires !d.subject.Harmless?
    ensures Told(d, AfterVerb(Noted(d, elem), d)) && (AfterVerb(Noted(d, elem), d).x.plain <==> StillPlain(d))
  {
    hide Gist, Narrower;
    GistIs(d);
  }

  lemma {:induction false} PortIs(d: RichLine, st: RichState)
    requires Told(d, st) && !d.subject.Harmless?
    ensures WithPort(st.x, st.port, st.portProto) ==
            if !d.subject.OnePort? then Some(st.x)
            else if !(1 <= d.subject.r.lo <= d.subject.r.hi <= 65535 && d.subject.proto in ["tcp", "udp", "sctp", "dccp"]) then None
            else Some(st.x.(r := st.x.r.(ports := [d.subject.r], proto := d.subject.proto),
                            plain := st.x.plain && d.subject.proto in ["tcp", "udp"]))
  {
    hide Narrower;
  }

  lemma {:induction false} FamilyIs(d: RichLine, x: Rich, family: string)
    requires x.r.from == (if d.src.FromNet? then Some(d.src.p) else None)
    requires family == (if d.family == Some(true) then "ipv6" else if d.family == Some(false) then "ipv4" else "")
    ensures WithFamily(x, family) ==
            if d.family.Some? && d.src.FromNet? && d.family.value != d.src.p.v6 then None
            else Some(x.(fam := FamilyOf(d), plain := x.plain && (d.family.Some? ==> d.src.FromNet?)))
  {
  }

  lemma {:induction false} ActionIs(d: RichLine, x: Rich, limited: bool)
    requires !d.verb.Quiet? ==> limited == d.limit.Some?
    requires x.r.action == Allow && !x.decides
    ensures WithAction(x, VerbWord(d.verb), limited) ==
            x.(r := x.r.(action := ActionOf(d)), decides := d.verb.Accept? || d.verb.Refuse? || d.verb.Drop?,
               plain := && x.plain && (d.verb.Accept? || d.verb.Refuse? || d.verb.Drop?)
                        && x.prio == 0 && x.r.dst.None? && !x.r.partial)
  {
  }

  /** The reader gives back exactly the fields of every rule of firewalld's grammar, and refuses the ones
      whose port does not parse or whose family is not its source's. */
  lemma {:induction false} ListedLineReadsBack(d: RichLine)
    requires Grammatical(d) && !d.subject.Harmless?
    ensures ParseRich(LineWords(d)) == if Sound(d) then Some(Reading(d)) else None
  {
    hide ReadWords, LineWords, AfterVerb, Noted, Told, WithPort, WithFamily, WithAction, StillPlain;
    var elem := ReadLine(d);
    var st := AfterVerb(Noted(d, elem), d);
    ToldAll(d, elem);
    FinishLine(d, st);
  }

  lemma {:induction false} FinishLine(d: RichLine, st: RichState)
    requires !d.subject.Harmless? && Told(d, st) && (st.x.plain <==> StillPlain(d))
    ensures var x := WithPort(st.x, st.port, st.portProto);
            if Sound(d) then
              x.Some? && WithFamily(x.value, st.family).Some?
              && WithAction(WithFamily(x.value, st.family).value, st.action, st.limited) == Reading(d)
            else x.None? || WithFamily(x.value, st.family).None?
  {
    hide WithPort, WithFamily, WithAction, VerbWord, FamilyOf, ActionOf;
    PortIs(d, st);
    var x := WithPort(st.x, st.port, st.portProto);
    if x.Some? {
      FamilyIs(d, x.value, st.family);
      var y := WithFamily(x.value, st.family);
      if y.Some? {
        ActionIs(d, y.value, st.limited);
      }
    }
  }

  // ---- The staged evaluation of such rules ----

  /** The rule is certain to decide the query: its action, family, source and subject fit. */
  ghost predicate Decides(z: Zone, d: RichLine, q: Query) {
    && (d.verb.Accept? || d.verb.Refuse? || d.verb.Drop?)
    && (d.family.Some? ==> d.family.value == q.v6)
    && (match d.src
        case Anywhere => true
        case FromNet(inverted, p) =>
          !inverted && p.v6 == q.v6 && q.peer.Some? && q.peer.value.v6 == p.v6 && p.lo <= q.peer.value.bits <= p.hi
        case FromSet(_, _, _) => false)
    && d.target.NoTarget?
    && (match d.subject
        case AnyTraffic => true
        case OnePort(r, proto) => proto == "tcp" && 1 <= r.lo <= q.port <= r.hi <= 65535
        case WholeProto(proto) => proto == "tcp"
        case OneService(name) => Offers(z, name, q.port)
        case FromPort(_, _) => false
        case Harmless(_, _) => false)
  }

  lemma {:induction false} ReadingHits(z: Zone, d: RichLine, q: Query)
    requires Grammatical(d) && !d.subject.Harmless? && Sound(d)
    ensures Hits(z, Reading(d), q) <==> Decides(z, d, q)
  {
    hide Offers;
    var x := Reading(d);
    assert Listed(x.fam, q.v6) && Reaches(x.r, q) <==>
           && (d.family.Some? ==> d.family.value == q.v6)
           && (d.src.Anywhere?
               || (d.src.FromNet? && !d.src.inverted && d.src.p.v6 == q.v6 && q.peer.Some? && d.src.p.Contains(q.peer.value)))
           && d.target.NoTarget? && !d.subject.FromPort?;
    if d.subject.OnePort? {
      assert x.r.ports[0] == d.subject.r;
    }
  }

  lemma {:induction false} UnsoundNeverDecides(z: Zone, d: RichLine, q: Query)
    requires !Sound(d) || d.subject.Harmless?
    ensures !Decides(z, d, q)
  {
    hide Offers;
  }

  /** The zone's rich rules are these. */
  ghost predicate Lines(z: Zone, ds: seq<RichLine>) {
    && |z.rich| == |ds|
    && forall i :: 0 <= i < |ds| ==> Grammatical(ds[i]) && z.rich[i] == LineWords(ds[i])
  }

  /** A rule of the zone that decides the query. */
  ghost predicate Applies(z: Zone, ds: seq<RichLine>, d: RichLine, q: Query) {
    d in ds && Decides(z, d, q)
  }

  /** No deciding rule of its side of zero comes before d. */
  ghost predicate Leads(z: Zone, ds: seq<RichLine>, d: RichLine, q: Query) {
    && Applies(z, ds, d, q)
    && forall e :: Applies(z, ds, e, q) && Priority(e) != 0 && (Priority(e) < 0 <==> Priority(d) < 0) ==>
         Priority(d) <= Priority(e)
  }

  function Says(d: RichLine): PortState {
    if d.verb.Accept? then Open else Closed
  }

  /** firewalld's stages, on the rules themselves. */
  ghost predicate StagedLines(z: Zone, ds: seq<RichLine>, q: Query, s: PortState) {
    if exists d :: Applies(z, ds, d, q) && Priority(d) < 0 then
      exists d :: Leads(z, ds, d, q) && Priority(d) < 0 && s == Says(d)
    else if exists d :: Applies(z, ds, d, q) && Priority(d) == 0 && !d.verb.Accept? then s == Closed
    else if Lists(z, q) || exists d :: Applies(z, ds, d, q) && Priority(d) == 0 then s == Open
    else if exists d :: Applies(z, ds, d, q) && Priority(d) > 0 then
      exists d :: Leads(z, ds, d, q) && Priority(d) > 0 && s == Says(d)
    else s == Unmanaged
  }

  lemma {:induction false} LineIsLive(z: Zone, ds: seq<RichLine>, d: RichLine, q: Query)
    requires Lines(z, ds) && Applies(z, ds, d, q)
    ensures var x := Reading(d);
            Live(z, x, q) && x.prio == Priority(d) && (x.r.action.Admits() <==> d.verb.Accept?)
            && StateOf(x.r.action) == Says(d)
  {
    hide Decides, Hits, LineWords, ParseRich, Sound;
    if !Sound(d) || d.subject.Harmless? {
      UnsoundNeverDecides(z, d, q);
    } else {
      ListedLineReadsBack(d);
      ReadingHits(z, d, q);
      var i :| 0 <= i < |ds| && ds[i] == d;
      assert ParseRich(z.rich[i]) == Some(Reading(d));
      DecidingVerb(z, d, q);
    }
  }

  lemma {:induction false} DecidingVerb(z: Zone, d: RichLine, q: Query)
    requires Decides(z, d, q)
    ensures d.verb.Accept? || d.verb.Refuse? || d.verb.Drop?
  {
    hide Offers;
  }

  lemma {:induction false} LiveIsLine(z: Zone, ds: seq<RichLine>, x: Rich, q: Query) returns (d: RichLine)
    requires Lines(z, ds) && Live(z, x, q)
    ensures Applies(z, ds, d, q) && x == Reading(d)
  {
    hide Decides, LineWords, ParseRich, Sound, Offers, Reaches;
    var i :| 0 <= i < |z.rich| && ParseRich(z.rich[i]) == Some(x);
    d := ds[i];
    if d.subject.Harmless? {
      HarmlessNeverDecides(d);
      assert false;
    } else {
      ListedLineReadsBack(d);
      ReadingHits(z, d, q);
    }
  }

  lemma {:induction false} LeadsIsForemost(z: Zone, ds: seq<RichLine>, d: RichLine, q: Query)
    requires Lines(z, ds) && Applies(z, ds, d, q)
    ensures Leads(z, ds, d, q) <==> Foremost(z, Reading(d), q)
  {
    hide Lines, Applies, Live, Reading;
    LineIsLive(z, ds, d, q);
    var x := Reading(d);
    if Leads(z, ds, d, q) {
      forall y | Live(z, y, q) && y.prio != 0 && (y.prio < 0 <==> x.prio < 0)
        ensures x.prio <= y.prio
      {
        var e := LiveIsLine(z, ds, y, q);
        LineIsLive(z, ds, e, q);
      }
    }
    if Foremost(z, x, q) {
      forall e | Applies(z, ds, e, q) && Priority(e) != 0 && (Priority(e) < 0 <==> Priority(d) < 0)
        ensures Priority(d) <= Priority(e)
      {
        LineIsLive(z, ds, e, q);
      }
    }
  }

  /** For a zone of any rules of firewalld's grammar, the verdict on the rows it is listed as is
      firewalld's staged evaluation of those rules, and what no rule decides its target does. */
  lemma {:induction false} ListedZoneIsStaged(z: Zone, ds: seq<RichLine>, q: Query)
    requires Lines(z, ds)
    ensures StagedLines(z, ds, q, VerdictOn(z, q).state)
    ensures Reachable(VerdictOn(z, q)) <==>
            VerdictOn(z, q).state == Open || (VerdictOn(z, q).state == Unmanaged && z.target == "ACCEPT")
    ensures VerdictOn(z, q).policy == "deny" <==> z.target == "DROP"
    ensures VerdictOn(z, q).policy == "reject" <==> z.target in ["default", "%%REJECT%%", "REJECT"]
  {
    hide Lines, Applies, Live, Reading, Lists, VerdictOn;
    StagedEvaluation(z, q);
    PolicyOf(z, q);
    forall d | Applies(z, ds, d, q)
      ensures Live(z, Reading(d), q) && Reading(d).prio == Priority(d)
      ensures Reading(d).r.action.Admits() <==> d.verb.Accept?
    {
      LineIsLive(z, ds, d, q);
    }
    forall x | Live(z, x, q)
      ensures exists d :: Applies(z, ds, d, q) && x == Reading(d)
    {
      var d := LiveIsLine(z, ds, x, q);
    }
    StagesAgree(z, ds, q, VerdictOn(z, q).state);
  }

  lemma {:induction false} PolicyOf(z: Zone, q: Query)
    ensures VerdictOn(z, q).policy == "allow" <==> z.target == "ACCEPT"
    ensures VerdictOn(z, q).policy == "deny" <==> z.target == "DROP"
    ensures VerdictOn(z, q).policy == "reject" <==> z.target in ["default", "%%REJECT%%", "REJECT"]
  {
    hide Entries, StableSort, RowsOf, Verdict;
    VerdictStateAndRule(ZoneStatus(z).rules, ZoneStatus(z).policy, q.port, q.v6, q.peer);
  }

  lemma {:induction false} StagesAgree(z: Zone, ds: seq<RichLine>, q: Query, s: PortState)
    requires Lines(z, ds) && Staged(z, q, s)
    requires forall d :: Applies(z, ds, d, q) ==>
               && Live(z, Reading(d), q) && Reading(d).prio == Priority(d)
               && (Reading(d).r.action.Admits() <==> d.verb.Accept?)
    requires forall x :: Live(z, x, q) ==> exists d :: Applies(z, ds, d, q) && x == Reading(d)
    ensures StagedLines(z, ds, q, s)
  {
    hide Lines, Applies, Live, Reading, Lists, Foremost, Leads;
    if exists x :: Foremost(z, x, q) && x.prio != 0 && s == StateOf(x.r.action) {
      forall x | Foremost(z, x, q) && x.prio != 0 && s == StateOf(x.r.action)
        ensures exists d :: Leads(z, ds, d, q) && Priority(d) == x.prio && s == Says(d)
      {
        ForemostLeads(z, ds, x, q);
      }
    }
  }

  lemma {:induction false} ForemostLeads(z: Zone, ds: seq<RichLine>, x: Rich, q: Query)
    requires Lines(z, ds) && Foremost(z, x, q)
    ensures exists d :: Leads(z, ds, d, q) && Priority(d) == x.prio && StateOf(x.r.action) == Says(d)
  {
    hide Lines, Applies, Live, Reading, Leads;
    var d := LiveIsLine(z, ds, x, q);
    LineIsLive(z, ds, d, q);
    LeadsIsForemost(z, ds, d, q);
  }

  /** Every rule that decides at all, and is not about a service, is shown in its families with exactly its
      own fields, those that only narrow it included. */
  lemma {:induction false} ListedLineIsShown(z: Zone, ds: seq<RichLine>, d: RichLine, six: bool)
    requires Lines(z, ds) && d in ds && Sound(d) && !d.subject.Harmless? && !d.subject.OneService?
    requires (d.verb.Accept? || d.verb.Refuse? || d.verb.Drop?) && Listed(FamilyOf(d), six)
    ensures HasRow(z, Reading(d).r, six)
  {
    hide LineWords, ParseRich, HasRow, Sound, FamilyOf, Listed, Narrower, Ordinary;
    var i :| 0 <= i < |ds| && ds[i] == d;
    ListedLineReadsBack(d);
    var x := Reading(d);
    var e := RichEntries(z, z.rich[i])[0];
    assert e.r == x.r && e.fam == x.fam;
    RichEntryIn(z, i, e);
    EntryHasRow(z, e, six);
  }

  lemma {:induction false} RichEntryIn(z: Zone, i: nat, e: Entry)
    requires i < |z.rich| && e in RichEntries(z, z.rich[i])
    ensures e in Entries(z)
  {
    hide Flat, RichEntries;
    FlatHas(w => RichEntries(z, w), z.rich, e);
  }
}
