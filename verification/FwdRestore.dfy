/** Taking a firewalld zone back to a snapshot: one runtime operation for each difference, a hash
    check, and a reload when that was not enough. */
module FwdRestore {
  import opened RuleModel

  datatype Kind = Port | SourcePort | Service | Protocol | RichRule

  const KINDS := [Port, SourcePort, Service, Protocol, RichRule]

  /** A zone as its listing prints it, entries as text. */
  datatype Listing = Listing(name: string, target: string, services: seq<string>, ports: seq<string>,
                             protocols: seq<string>, sourcePorts: seq<string>, rich: seq<string>, other: seq<string>) {
    function Get(k: Kind): seq<string> {
      match k
      case Port => ports
      case SourcePort => sourcePorts
      case Service => services
      case Protocol => protocols
      case RichRule => rich
    }

    function Set(k: Kind, list: seq<string>): Listing {
      match k
      case Port => this.(ports := list)
      case SourcePort => this.(sourcePorts := list)
      case Service => this.(services := list)
      case Protocol => this.(protocols := list)
      case RichRule => this.(rich := list)
    }
  }

  /** What sha fingerprints: the name, the target and each list, order aside. The digest of two
      zones is the same exactly when these are. */
  datatype Digest = Digest(name: string, target: string, services: multiset<string>, ports: multiset<string>,
                           protocols: multiset<string>, sourcePorts: multiset<string>, rich: multiset<string>,
                           other: multiset<string>)

  function Sha(z: Listing): Digest {
    Digest(z.name, z.target, multiset(z.services), multiset(z.ports), multiset(z.protocols), multiset(z.sourcePorts),
           multiset(z.rich), multiset(z.other))
  }

  // ---- The listed forms ----

  predicate Digit(c: char) {
    '0' <= c <= '9'
  }

  predicate NameStart(c: char) {
    Digit(c) || 'a' <= c <= 'z' || 'A' <= c <= 'Z'
  }

  predicate NameChar(c: char) {
    NameStart(c) || c in "_.+-"
  }

  /** fwdNamePattern */
  predicate IsName(s: string) {
    1 <= |s| <= 64 && NameStart(s[0]) && forall i :: 0 <= i < |s| ==> NameChar(s[i])
  }

  /** Where c first stands in s, |s| when it does not. */
  function Find(s: string, c: char): (i: nat)
    ensures i <= |s| && (i < |s| ==> s[i] == c) && c !in s[..i]
  {
    if s == [] || s[0] == c then 0 else 1 + Find(s[1..], c)
  }

  predicate IsNumber(s: string) {
    1 <= |s| <= 5 && forall i :: 0 <= i < |s| ==> Digit(s[i])
  }

  /** fwdPortPattern */
  predicate IsPort(s: string) {
    var slash := Find(s, '/');
    slash < |s| && s[slash+1..] in ["tcp", "udp", "sctp", "dccp"] &&
    var ports := s[..slash];
    var dash := Find(ports, '-');
    IsNumber(ports[..dash]) && (dash == |ports| || IsNumber(ports[dash+1..]))
  }

  /** The transport protocols of a port entry. */
  const TRANSPORTS := ["tcp", "udp", "sctp", "dccp"]

  lemma {:induction false} FindsAt(a: string, c: char, b: string)
    requires c !in a
    ensures Find(a + [c] + b, c) == |a|
  {
    var s := a + [c] + b;
    assert s[|a|] == c && forall i :: 0 <= i < |a| ==> s[i] == a[i];
  }

  lemma {:induction false} NumberHas(s: string)
    requires IsNumber(s)
    ensures '/' !in s && '-' !in s
  {
  }

  /** The port entries in form are exactly one number, or two with a dash, of one to five digits, then a
      slash and a transport protocol. */
  lemma {:induction false} PortFormIs(s: string)
    ensures IsPort(s) <==>
            || (exists a, p :: IsNumber(a) && p in TRANSPORTS && s == a + "/" + p)
            || (exists a, b, p :: IsNumber(a) && IsNumber(b) && p in TRANSPORTS && s == a + "-" + b + "/" + p)
  {
    hide IsNumber;
    if IsPort(s) {
      var slash := Find(s, '/');
      var ports, p := s[..slash], s[slash+1..];
      var dash := Find(ports, '-');
      assert s == ports + "/" + p;
      if dash < |ports| {
        var a, b := ports[..dash], ports[dash+1..];
        assert ports == a + "-" + b;
      } else {
        assert ports[..dash] == ports;
      }
    }
    forall a, p | IsNumber(a) && p in TRANSPORTS && s == a + "/" + p
      ensures IsPort(s)
    {
      OnePortForm(a, p);
    }
    forall a, b, p | IsNumber(a) && IsNumber(b) && p in TRANSPORTS && s == a + "-" + b + "/" + p
      ensures IsPort(s)
    {
      TwoPortForm(a, b, p);
    }
  }

  lemma {:induction false} OnePortForm(a: string, p: string)
    requires IsNumber(a) && p in TRANSPORTS
    ensures IsPort(a + "/" + p)
  {
    hide IsNumber;
    NumberHas(a);
    FindsAt(a, '/', p);
    var s := a + "/" + p;
    assert s == a + ['/'] + p && s[..|a|] == a && s[|a|+1..] == p;
    assert a[..Find(a, '-')] == a;
  }

  lemma {:induction false} TwoPortForm(a: string, b: string, p: string)
    requires IsNumber(a) && IsNumber(b) && p in TRANSPORTS
    ensures IsPort(a + "-" + b + "/" + p)
  {
    hide IsNumber;
    NumberHas(a);
    NumberHas(b);
    var ports := a + "-" + b;
    assert '/' !in ports;
    FindsAt(ports, '/', p);
    FindsAt(a, '-', b);
    var s := ports + "/" + p;
    assert s == ports + ['/'] + p && s[..|ports|] == ports && s[|ports|+1..] == p;
    assert ports == a + ['-'] + b && ports[..|a|] == a && ports[|a|+1..] == b;
  }

  predicate IsRule(s: string) {
    "rule " <= s && forall i :: 0 <= i < |s| ==> s[i] >= ' '
  }

  /** The entry is in the form firewalld lists it in. */
  predicate InForm(k: Kind, s: string) {
    match k
    case Port => IsPort(s)
    case SourcePort => IsPort(s)
    case Service => IsName(s)
    case Protocol => IsName(s)
    case RichRule => IsRule(s)
  }

  /** The forms firewalld prints, kind by kind: nothing else reaches a command. */
  lemma {:induction false} FormsAre(k: Kind, s: string)
    ensures k.Port? || k.SourcePort? ==> (InForm(k, s) <==> IsPort(s))
    ensures k.Service? || k.Protocol? ==>
              (InForm(k, s) <==>
                 && 0 < |s| < 65 && s[0] !in "_.+-"
                 && forall i :: 0 <= i < |s| ==>
                      '0' <= s[i] <= '9' || 'a' <= s[i] <= 'z' || 'A' <= s[i] <= 'Z' || s[i] in "_.+-")
    ensures k.RichRule? ==>
              (InForm(k, s) <==> |s| >= 5 && s[..5] == "rule " && forall i :: 0 <= i < |s| ==> s[i] as int >= 0x20)
  {
    hide IsPort;
    if k.Service? || k.Protocol? {
      if IsName(s) {
        assert NameStart(s[0]);
        forall i | 0 <= i < |s|
          ensures '0' <= s[i] <= '9' || 'a' <= s[i] <= 'z' || 'A' <= s[i] <= 'Z' || s[i] in "_.+-"
        {
          assert NameChar(s[i]);
        }
      }
    } else if k.RichRule? {
      assert "rule " <= s <==> |s| >= 5 && s[..5] == "rule ";
    }
  }

  // ---- The difference ----

  datatype Command = Command(add: bool, kind: Kind, s: string)

  /** The entries of `from` that are not in `without`, in their listed form, as commands. */
  function Missing(add: bool, k: Kind, from: seq<string>, without: seq<string>): seq<Command> {
    if from == [] then [] else MissingOne(add, k, from[0], without) + Missing(add, k, from[1..], without)
  }

  function MissingOne(add: bool, k: Kind, s: string, without: seq<string>): seq<Command> {
    if s !in without && InForm(k, s) then [Command(add, k, s)] else []
  }

  function Removals(cur: Listing, want: Listing, kinds: seq<Kind>): seq<Command> {
    if kinds == [] then []
    else Missing(false, kinds[0], cur.Get(kinds[0]), want.Get(kinds[0])) + Removals(cur, want, kinds[1..])
  }

  function Additions(cur: Listing, want: Listing, kinds: seq<Kind>): seq<Command> {
    if kinds == [] then []
    else Missing(true, kinds[0], want.Get(kinds[0]), cur.Get(kinds[0])) + Additions(cur, want, kinds[1..])
  }

  function ZoneDiff(cur: Listing, want: Listing): seq<Command> {
    Removals(cur, want, KINDS) + Additions(cur, want, KINDS)
  }

  lemma {:induction false} MissingSnoc(add: bool, k: Kind, from: seq<string>, without: seq<string>, i: nat)
    requires i < |from|
    ensures Missing(add, k, from[..i+1], without) == Missing(add, k, from[..i], without) + MissingOne(add, k, from[i], without)
    decreases i
  {
    hide MissingOne;
    if i == 0 {
      assert from[..1][1..] == [] && from[..0] == [];
    } else {
      MissingSnoc(add, k, from[1..], without, i - 1);
      assert from[..i+1][1..] == from[1..][..i] && from[..i][1..] == from[1..][..i-1];
      assert from[..i+1][0] == from[0] && from[..i][0] == from[0] && from[1..][i-1] == from[i];
    }
  }

  lemma {:induction false} KindsSnoc(cur: Listing, want: Listing, kinds: seq<Kind>, i: nat)
    requires i < |kinds|
    ensures Removals(cur, want, kinds[..i+1]) ==
            Removals(cur, want, kinds[..i]) + Missing(false, kinds[i], cur.Get(kinds[i]), want.Get(kinds[i]))
    ensures Additions(cur, want, kinds[..i+1]) ==
            Additions(cur, want, kinds[..i]) + Missing(true, kinds[i], want.Get(kinds[i]), cur.Get(kinds[i]))
    decreases i
  {
    hide Missing;
    if i == 0 {
      assert kinds[..1][1..] == [] && kinds[..0] == [];
    } else {
      KindsSnoc(cur, want, kinds[1..], i - 1);
      assert kinds[..i+1][1..] == kinds[1..][..i] && kinds[..i][1..] == kinds[1..][..i-1];
    }
  }

  lemma {:induction false} NothingYet(cur: Listing, want: Listing)
    ensures Removals(cur, want, KINDS[..0]) == [] && Additions(cur, want, KINDS[..0]) == []
  {
  }

  lemma {:induction false} NoneMissing(add: bool, k: Kind, from: seq<string>, without: seq<string>)
    ensures Missing(add, k, from[..0], without) == []
  {
  }

  /** zoneDiff: the loops over the kinds and their entries. */
  method BuildZoneDiff(cur: Listing, want: Listing) returns (args: seq<Command>)
    ensures args == ZoneDiff(cur, want)
  {
    hide InForm, Missing, Removals, Additions;
    var remove: seq<Command>, add: seq<Command> := [], [];
    NothingYet(cur, want);
    for i := 0 to |KINDS|
      invariant remove == Removals(cur, want, KINDS[..i])
      invariant add == Additions(cur, want, KINDS[..i])
    {
      var k := KINDS[i];
      KindsSnoc(cur, want, KINDS, i);
      var c, w := cur.Get(k), want.Get(k);
      NoneMissing(false, k, c, w);
      NoneMissing(true, k, w, c);
      for j := 0 to |c|
        invariant remove == Removals(cur, want, KINDS[..i]) + Missing(false, k, c[..j], w)
      {
        MissingSnoc(false, k, c, w, j);
        if c[j] !in w && InForm(k, c[j]) {
          remove := remove + [Command(false, k, c[j])];
        }
      }
      assert c[..|c|] == c;
      for j := 0 to |w|
        invariant add == Additions(cur, want, KINDS[..i]) + Missing(true, k, w[..j], c)
      {
        MissingSnoc(true, k, w, c, j);
        if w[j] !in c && InForm(k, w[j]) {
          add := add + [Command(true, k, w[j])];
        }
      }
      assert w[..|w|] == w;
    }
    assert KINDS[..|KINDS|] == KINDS;
    args := remove + add;
  }

  // ---- Running it ----

  function Without(list: seq<string>, s: string): seq<string> {
    if list == [] then [] else (if list[0] == s then [] else [list[0]]) + Without(list[1..], s)
  }

  /** One runtime command: adding what is there and removing what is not change nothing. */
  function RunOne(z: Listing, c: Command): Listing {
    if c.add then (if c.s in z.Get(c.kind) then z else z.Set(c.kind, z.Get(c.kind) + [c.s]))
    else z.Set(c.kind, Without(z.Get(c.kind), c.s))
  }

  function RunAll(z: Listing, cs: seq<Command>): Listing
    decreases |cs|
  {
    if cs == [] then z else RunAll(RunOne(z, cs[0]), cs[1..])
  }

  ghost predicate NoTwice(list: seq<string>) {
    forall i, j :: 0 <= i < j < |list| ==> list[i] != list[j]
  }

  /** Each list names an entry once, as firewalld prints it. */
  ghost predicate Proper(z: Listing) {
    forall k: Kind :: NoTwice(z.Get(k))
  }

  lemma {:induction false} WithoutHas(list: seq<string>, s: string)
    ensures forall t :: t in Without(list, s) <==> t in list && t != s
    ensures NoTwice(list) ==> NoTwice(Without(list, s))
  {
    if list != [] {
      var rest := list[1..];
      WithoutHas(rest, s);
      assert forall t :: t in list <==> t == list[0] || t in rest;
      if NoTwice(list) {
        assert NoTwice(rest);
        forall i | 0 <= i < |Without(rest, s)|
          ensures Without(rest, s)[i] != list[0]
        {
          assert Without(rest, s)[i] in rest;
        }
      }
    }
  }

  /** What one command does to each list. */
  lemma {:induction false} RunOneHas(z: Listing, c: Command, k: Kind, s: string)
    requires Proper(z)
    ensures Proper(RunOne(z, c))
    ensures s in RunOne(z, c).Get(k) <==> if c.kind == k && c.s == s then c.add else s in z.Get(k)
    ensures RunOne(z, c).name == z.name && RunOne(z, c).target == z.target && RunOne(z, c).other == z.other
  {
    hide Without, NoTwice;
    var list := z.Get(c.kind);
    assert NoTwice(list);
    WithoutHas(list, c.s);
    if c.add && c.s !in list {
      SnocNoTwice(list, c.s);
    }
    GetSet(z, c.kind, list + [c.s]);
    GetSet(z, c.kind, Without(list, c.s));
  }

  lemma {:induction false} SnocNoTwice(list: seq<string>, s: string)
    requires NoTwice(list) && s !in list
    ensures NoTwice(list + [s])
  {
  }

  lemma {:induction false} GetSet(z: Listing, k: Kind, list: seq<string>)
    ensures forall o: Kind :: z.Set(k, list).Get(o) == if o == k then list else z.Get(o)
  {
  }

  /** The commands set an entry to what they all say about it. */
  ghost predicate OneVoice(cs: seq<Command>) {
    forall i, j :: 0 <= i < |cs| && 0 <= j < |cs| && cs[i].kind == cs[j].kind && cs[i].s == cs[j].s ==> cs[i].add == cs[j].add
  }

  lemma {:induction false} RunAllHas(z: Listing, cs: seq<Command>, k: Kind, s: string)
    requires Proper(z) && OneVoice(cs)
    ensures Proper(RunAll(z, cs))
    ensures s in RunAll(z, cs).Get(k) <==> Command(true, k, s) in cs || (s in z.Get(k) && Command(false, k, s) !in cs)
    ensures RunAll(z, cs).name == z.name && RunAll(z, cs).target == z.target && RunAll(z, cs).other == z.other
    decreases |cs|
  {
    hide RunOne, Proper;
    if cs != [] {
      var rest := cs[1..];
      RunOneHas(z, cs[0], k, s);
      assert OneVoice(rest);
      RunAllHas(RunOne(z, cs[0]), rest, k, s);
      assert forall c :: c in cs <==> c == cs[0] || c in rest;
      forall c | c in rest && c.kind == cs[0].kind && c.s == cs[0].s
        ensures c.add == cs[0].add
      {
        var i :| 0 <= i < |rest| && rest[i] == c;
        assert cs[i + 1] == c;
      }
    }
  }

  lemma {:induction false} MissingHas(add: bool, k: Kind, from: seq<string>, without: seq<string>, c: Command)
    ensures c in Missing(add, k, from, without) <==> c.add == add && c.kind == k && c.s in from && c.s !in without && InForm(k, c.s)
  {
    hide InForm;
    if from != [] {
      MissingHas(add, k, from[1..], without, c);
      assert c.s in from <==> c.s == from[0] || c.s in from[1..];
    }
  }

  /** A command of the difference: an entry in its listed form that only one side has. */
  predicate Differs(cur: Listing, want: Listing, c: Command) {
    && InForm(c.kind, c.s)
    && (if c.add then c.s in want.Get(c.kind) && c.s !in cur.Get(c.kind) else c.s in cur.Get(c.kind) && c.s !in want.Get(c.kind))
  }

  lemma {:induction false} DiffHas(cur: Listing, want: Listing, kinds: seq<Kind>, c: Command)
    ensures c in Removals(cur, want, kinds) <==> !c.add && c.kind in kinds && Differs(cur, want, c)
    ensures c in Additions(cur, want, kinds) <==> c.add && c.kind in kinds && Differs(cur, want, c)
  {
    hide InForm, Missing;
    if kinds != [] {
      var k := kinds[0];
      DiffHas(cur, want, kinds[1..], c);
      MissingHas(false, k, cur.Get(k), want.Get(k), c);
      MissingHas(true, k, want.Get(k), cur.Get(k), c);
      assert c.kind in kinds <==> c.kind == k || c.kind in kinds[1..];
    }
  }

  lemma {:induction false} ZoneDiffHas(cur: Listing, want: Listing, c: Command)
    ensures c in ZoneDiff(cur, want) <==> Differs(cur, want, c)
  {
    hide Removals, Additions, Differs;
    DiffHas(cur, want, KINDS, c);
    assert KINDS[0] == Port && KINDS[1] == SourcePort && KINDS[2] == Service && KINDS[3] == Protocol && KINDS[4] == RichRule;
    assert c.kind in KINDS by {
      match c.kind
      case Port =>
      case SourcePort =>
      case Service =>
      case Protocol =>
      case RichRule =>
    }
  }

  /** Whatever goes, goes before anything comes. */
  lemma {:induction false} RemovalsComeFirst(cur: Listing, want: Listing, i: nat, j: nat)
    requires i < j < |ZoneDiff(cur, want)|
    ensures ZoneDiff(cur, want)[i].add ==> ZoneDiff(cur, want)[j].add
  {
    hide Removals, Additions, Differs;
    var gone, come := Removals(cur, want, KINDS), Additions(cur, want, KINDS);
    if i < |gone| {
      assert gone[i] in gone;
      DiffHas(cur, want, KINDS, gone[i]);
    } else {
      assert come[j-|gone|] in come;
      DiffHas(cur, want, KINDS, come[j-|gone|]);
    }
  }

  // ---- The main results ----

  /** Every entry the two zones do not share is in its listed form. */
  ghost predicate Undoable(cur: Listing, want: Listing) {
    forall k: Kind, s :: (s in cur.Get(k)) != (s in want.Get(k)) ==> InForm(k, s)
  }

  /** What an entry is after the difference has run. */
  lemma {:induction false} AfterDiff(cur: Listing, want: Listing, k: Kind, s: string)
    requires Proper(cur)
    ensures var out := RunAll(cur, ZoneDiff(cur, want));
            && Proper(out)
            && (s in out.Get(k) <==> if InForm(k, s) then s in want.Get(k) else s in cur.Get(k))
            && out.name == cur.name && out.target == cur.target && out.other == cur.other
  {
    hide InForm, RunAll, ZoneDiff, Proper;
    var cs := ZoneDiff(cur, want);
    forall i, j | 0 <= i < |cs| && 0 <= j < |cs| && cs[i].kind == cs[j].kind && cs[i].s == cs[j].s
      ensures cs[i].add == cs[j].add
    {
      assert cs[i] in cs && cs[j] in cs;
      ZoneDiffHas(cur, want, cs[i]);
      ZoneDiffHas(cur, want, cs[j]);
    }
    RunAllHas(cur, cs, k, s);
    ZoneDiffHas(cur, want, Command(true, k, s));
    ZoneDiffHas(cur, want, Command(false, k, s));
  }

  /** Lists that name each entry once are the same multiset exactly when they hold the same. */
  lemma {:induction false} SameSetSameMultiset(a: seq<string>, b: seq<string>)
    requires NoTwice(a) && NoTwice(b)
    ensures multiset(a) == multiset(b) <==> forall s :: s in a <==> s in b
  {
    if forall s :: s in a <==> s in b {
      forall s
        ensures multiset(a)[s] == multiset(b)[s]
      {
        CountOf(a, s);
        CountOf(b, s);
      }
    } else {
      var s :| (s in a) != (s in b);
      assert s in multiset(a) <==> s in a;
      assert s in multiset(b) <==> s in b;
    }
  }

  lemma {:induction false} CountOf(list: seq<string>, s: string)
    requires NoTwice(list)
    ensures multiset(list)[s] == if s in list then 1 else 0
  {
    if list != [] {
      assert list == [list[0]] + list[1..];
      assert NoTwice(list[1..]);
      CountOf(list[1..], s);
    }
  }

  lemma {:induction false} SameSha(a: Listing, b: Listing)
    requires Proper(a) && Proper(b)
    requires a.name == b.name && a.target == b.target && multiset(a.other) == multiset(b.other)
    ensures Sha(a) == Sha(b) <==> forall k: Kind, s :: s in a.Get(k) <==> s in b.Get(k)
  {
    hide NoTwice;
    forall k: Kind
      ensures multiset(a.Get(k)) == multiset(b.Get(k)) <==> forall s :: s in a.Get(k) <==> s in b.Get(k)
    {
      assert NoTwice(a.Get(k)) && NoTwice(b.Get(k));
      SameSetSameMultiset(a.Get(k), b.Get(k));
    }
    assert Sha(a) == Sha(b) <==> forall k: Kind :: multiset(a.Get(k)) == multiset(b.Get(k)) by {
      if forall k: Kind :: multiset(a.Get(k)) == multiset(b.Get(k)) {
        assert multiset(a.Get(Port)) == multiset(b.Get(Port)) && multiset(a.Get(SourcePort)) == multiset(b.Get(SourcePort));
        assert multiset(a.Get(Service)) == multiset(b.Get(Service)) && multiset(a.Get(Protocol)) == multiset(b.Get(Protocol));
        assert multiset(a.Get(RichRule)) == multiset(b.Get(RichRule));
      }
    }
  }

  /** Running the difference on a zone gives the wanted zone's hash exactly when the settings it
      has no commands for agree and every entry the two zones do not share is in its listed form. */
  lemma {:induction false} DiffRestores(cur: Listing, want: Listing)
    requires Proper(cur) && Proper(want)
    ensures Sha(RunAll(cur, ZoneDiff(cur, want))) == Sha(want) <==>
            cur.name == want.name && cur.target == want.target && multiset(cur.other) == multiset(want.other) && Undoable(cur, want)
  {
    hide InForm, RunAll, ZoneDiff, Proper;
    var out := RunAll(cur, ZoneDiff(cur, want));
    AfterDiff(cur, want, Port, "");
    if cur.name == want.name && cur.target == want.target && multiset(cur.other) == multiset(want.other) {
      hide Sha;
      forall k: Kind, s
        ensures s in out.Get(k) <==> if InForm(k, s) then s in want.Get(k) else s in cur.Get(k)
      {
        AfterDiff(cur, want, k, s);
      }
      SameSha(out, want);
    }
  }

  // ---- The backend ----

  datatype Snapshot = Snapshot(zone: Option<Listing>, sha: Digest)

  /** What firewalld itself does: the commands that fail, whether the zone can be read before and
      after them, whether the reload works. */
  datatype Outside = Outside(broken: set<nat>, readable: bool, hashable: bool, reloads: bool)

  /** The commands from number i on, those that fail changing nothing. */
  function RunSome(z: Listing, cs: seq<Command>, broken: set<nat>, i: nat): Listing
    requires i <= |cs|
    decreases |cs| - i
  {
    if i == |cs| then z else RunSome(if i in broken then z else RunOne(z, cs[i]), cs, broken, i + 1)
  }

  lemma {:induction false} NoneBroken(z: Listing, cs: seq<Command>, i: nat)
    requires i <= |cs|
    ensures RunSome(z, cs, {}, i) == RunAll(z, cs[i..])
    decreases |cs| - i
  {
    hide RunOne;
    if i < |cs| {
      assert cs[i..][0] == cs[i] && cs[i..][1..] == cs[i+1..];
      NoneBroken(RunOne(z, cs[i]), cs, i + 1);
    }
  }

  /** The zone after the one-by-one undo. A changed target cannot be undone so. */
  function Tried(cur: Listing, want: Listing, o: Outside): Listing {
    if o.readable && cur.target == want.target then RunSome(cur, ZoneDiff(cur, want), o.broken, 0) else cur
  }

  /** The one-by-one undo is seen to have worked. */
  predicate Worked(cur: Listing, want: Listing, sha: Digest, o: Outside) {
    o.readable && cur.target == want.target && o.hashable && Sha(Tried(cur, want, o)) == sha
  }

  // ---- Keeping, and taking back a Keep that failed ----

  /** fwdInverse */
  function Opposite(c: Command): Command {
    c.(add := !c.add)
  }

  /** The opposites of the first j commands, last first; those in lost fail and change nothing. */
  function RunBack(z: Listing, cs: seq<Command>, j: nat, lost: set<nat>): Listing
    requires j <= |cs|
    decreases j
  {
    if j == 0 then z
    else RunBack(if j - 1 in lost then z else RunOne(z, Opposite(cs[j-1])), cs, j - 1, lost)
  }

  /** What is left of the permanent zone when the commands ran and were then taken back. */
  function TakenBack(z: Listing, cs: seq<Command>): Listing
    decreases |cs|
  {
    if cs == [] then z else RunOne(TakenBack(RunOne(z, cs[0]), cs[1..]), Opposite(cs[0]))
  }

  lemma {:induction false} RunAllConcat(z: Listing, a: seq<Command>, b: seq<Command>)
    ensures RunAll(z, a + b) == RunAll(RunAll(z, a), b)
    decreases |a|
  {
    hide RunOne;
    if a == [] {
      assert a + b == b;
    } else {
      assert (a + b)[0] == a[0] && (a + b)[1..] == a[1..] + b;
      RunAllConcat(RunOne(z, a[0]), a[1..], b);
    }
  }

  lemma {:induction false} RunAllOne(z: Listing, c: Command)
    ensures RunAll(z, [c]) == RunOne(z, c)
  {
    assert [c][1..] == [];
  }

  lemma {:induction false} RunBackFirst(z: Listing, cs: seq<Command>, j: nat)
    requires 0 < j <= |cs|
    ensures RunBack(z, cs, j, {}) == RunOne(RunBack(z, cs[1..], j - 1, {}), Opposite(cs[0]))
    decreases j
  {
    hide RunOne, Opposite;
    if j > 1 {
      assert cs[1..][j-2] == cs[j-1];
      RunBackFirst(RunOne(z, Opposite(cs[j-1])), cs, j - 1);
    }
  }

  /** When no opposite fails, taking back is the commands one inside the other. */
  lemma {:induction false} TakenBackIsRun(z: Listing, cs: seq<Command>)
    ensures RunBack(RunAll(z, cs), cs, |cs|, {}) == TakenBack(z, cs)
    decreases |cs|
  {
    hide RunOne, Opposite;
    if cs != [] {
      TakenBackIsRun(RunOne(z, cs[0]), cs[1..]);
      RunBackFirst(RunAll(z, cs), cs, |cs|);
    }
  }

  /** The first command about an entry. */
  function FirstAbout(cs: seq<Command>, k: Kind, s: string): Option<Command> {
    if cs == [] then None
    else if cs[0].kind == k && cs[0].s == s then Some(cs[0])
    else FirstAbout(cs[1..], k, s)
  }

  /** Taking the commands back leaves an entry as its first command found it, if that command
      changed something. */
  lemma {:induction false} TakenBackHas(z: Listing, cs: seq<Command>, k: Kind, s: string)
    requires Proper(z)
    ensures Proper(TakenBack(z, cs))
    ensures s in TakenBack(z, cs).Get(k) <==>
            match FirstAbout(cs, k, s)
            case Some(c) => !c.add
            case None => s in z.Get(k)
    decreases |cs|
  {
    hide RunOne, Proper;
    if cs != [] {
      RunOneHas(z, cs[0], k, s);
      TakenBackHas(RunOne(z, cs[0]), cs[1..], k, s);
      RunOneHas(TakenBack(RunOne(z, cs[0]), cs[1..]), Opposite(cs[0]), k, s);
    }
  }

  /** Every entry's first command changed something. */
  ghost predicate FirstsCount(z: Listing, cs: seq<Command>) {
    forall k: Kind, s :: FirstAbout(cs, k, s).Some? ==> FirstAbout(cs, k, s).value.add == (s !in z.Get(k))
  }

  /** A Keep that fails, every opposite going through, puts the permanent zone back exactly when
      the first command about each entry changed something; a rule that was permanent already is
      lost otherwise. */
  lemma {:induction false} FailedKeepIsTakenBack(z: Listing, cs: seq<Command>)
    requires Proper(z)
    ensures (forall k: Kind, s :: s in RunBack(RunAll(z, cs), cs, |cs|, {}).Get(k) <==> s in z.Get(k)) <==> FirstsCount(z, cs)
  {
    hide TakenBack, RunBack, RunAll, Proper, FirstAbout;
    TakenBackIsRun(z, cs);
    forall k: Kind, s
      ensures s in TakenBack(z, cs).Get(k) <==>
              match FirstAbout(cs, k, s)
              case Some(c) => !c.add
              case None => s in z.Get(k)
    {
      TakenBackHas(z, cs, k, s);
    }
  }

  lemma {:induction false} RunNone(z: Listing, cs: seq<Command>)
    ensures RunAll(z, cs[..0]) == z
  {
  }

  // ---- The backend ----

  class Backend {
    var note: bool
    var runtime: Listing
    var permanent: Listing

    constructor (runtime: Listing, permanent: Listing)
      ensures this.runtime == runtime && this.permanent == permanent && !note
    {
      note := false;
      this.runtime := runtime;
      this.permanent := permanent;
    }

    /** firewalldBackend.Commit: the commands on the permanent zone. The first to fail has those
        before it taken back, as far as their opposites go through. */
    method Commit(args: seq<Command>, broken: set<nat>, lost: set<nat>) returns (ok: bool)
      modifies this`permanent
      ensures ok <==> forall i :: 0 <= i < |args| ==> i !in broken
      ensures ok ==> permanent == RunAll(old(permanent), args)
      ensures !ok ==> exists i :: 0 <= i < |args| && i in broken && (forall j :: 0 <= j < i ==> j !in broken)
                                  && permanent == RunBack(RunAll(old(permanent), args[..i]), args, i, lost)
    {
      hide RunOne, RunAll, Opposite;
      RunNone(permanent, args);
      for i := 0 to |args|
        invariant forall j :: 0 <= j < i ==> j !in broken
        invariant permanent == RunAll(old(permanent), args[..i])
      {
        if i in broken {
          var reached := permanent;
          var j := i;
          while j > 0
            invariant 0 <= j <= i
            invariant RunBack(permanent, args, j, lost) == RunBack(reached, args, i, lost)
          {
            j := j - 1;
            if j !in lost {
              permanent := RunOne(permanent, Opposite(args[j]));
            }
          }
          return false;
        }
        assert args[..i+1] == args[..i] + [args[i]];
        RunAllConcat(old(permanent), args[..i], [args[i]]);
        RunAllOne(permanent, args[i]);
        permanent := RunOne(permanent, args[i]);
      }
      assert args[..|args|] == args;
      return true;
    }

    /** firewalldBackend.Restore, on the zone the snapshot names. */
    method Restore(s: Snapshot, o: Outside) returns (ok: bool)
      requires s.zone.Some? ==> runtime.name == s.zone.value.name
      modifies this`runtime, this`note
      ensures s.zone.None? ==> !ok && runtime == old(runtime) && note == old(note)
      ensures s.zone.Some? ==>
                if Worked(old(runtime), s.zone.value, s.sha, o)
                then ok && note == old(note) && runtime == Tried(old(runtime), s.zone.value, o)
                else ok == o.reloads && note == (old(note) || o.reloads)
                     && runtime == (if o.reloads then permanent else Tried(old(runtime), s.zone.value, o))
      ensures ok ==> (Sha(runtime) == s.sha && note == old(note)) || (note && runtime == permanent)
    {
      hide ZoneDiff, RunOne, Sha;
      if s.zone.None? {
        return false;
      }
      var want, cur := s.zone.value, runtime;
      if o.readable && cur.target == want.target {
        var args := BuildZoneDiff(cur, want);
        for i := 0 to |args|
          invariant note == old(note)
          invariant RunSome(runtime, args, o.broken, i) == RunSome(cur, args, o.broken, 0)
        {
          if i !in o.broken {
            runtime := RunOne(runtime, args[i]);
          }
        }
        if o.hashable && Sha(runtime) == s.sha {
          return true;
        }
      }
      if !o.reloads {
        return false;
      }
      runtime := permanent;
      note := true;
      return true;
    }
  }

  /** When no command fails, the one-by-one undo is enough exactly when the settings it has no
      commands for agree and every differing entry is in its listed form. */
  lemma {:induction false} UndoIsEnough(cur: Listing, want: Listing, o: Outside)
    requires Proper(cur) && Proper(want) && cur.name == want.name
    requires o.readable && o.hashable && o.broken == {}
    ensures Worked(cur, want, Sha(want), o) <==>
            cur.target == want.target && multiset(cur.other) == multiset(want.other) && Undoable(cur, want)
  {
    hide Sha, RunAll, RunSome, ZoneDiff, Proper, Undoable;
    var cs := ZoneDiff(cur, want);
    NoneBroken(cur, cs, 0);
    assert cs[0..] == cs;
    DiffRestores(cur, want);
  }
}
