/** Splitting an HTML message into chunks that fit a limit, closing the open tags at each cut and
    reopening them in the next chunk. A string is its bytes, one character each. */
module SplitMessage {

  // ---- Tags ----

  type Tags = seq<string>

  const SPLIT_TAGS := ["b", "code", "pre", "blockquote"]

  /** Where c first stands in s, |s| when it does not. */
  function Find(s: string, c: char): (i: nat)
    ensures i <= |s| && (i < |s| ==> s[i] == c) && forall k :: 0 <= k < i ==> s[k] != c
  {
    if s == "" || s[0] == c then 0 else 1 + Find(s[1..], c)
  }

  /** Lower case, as far as it can give an ASCII letter of a tag: of the runes outside ASCII only the
      Kelvin sign does, a k. */
  function Lower(s: string): string {
    if s == "" then ""
    else if s[0] as int == 0xE2 && ByteIn(s, 1, 0x84, 0x84) && ByteIn(s, 2, 0xAA, 0xAA) then "k" + Lower(s[3..])
    else [if 'A' <= s[0] <= 'Z' then ((s[0] as int) + 32) as char else s[0]] + Lower(s[1..])
  }

  /** The part before the first blank. */
  function Word(s: string): string {
    if s == "" || s[0] in " \t\n\r" then "" else [s[0]] + Word(s[1..])
  }

  /** out without its last name. */
  function DropLast(out: Tags, name: string): Tags {
    if out == [] then []
    else if out[|out|-1] == name then out[..|out|-1]
    else DropLast(out[..|out|-1], name) + [out[|out|-1]]
  }

  /** What a tag, given by what stands between < and >, does to the open tags. */
  function ApplyTag(open: Tags, tag: string): Tags {
    var closing := tag != "" && tag[0] == '/';
    var name := Lower(Word(if closing then tag[1..] else tag));
    if name !in SPLIT_TAGS then open
    else if closing then DropLast(open, name)
    else open + [name]
  }

  /** The open tags after s; an unfinished tag at its end is text. */
  function Scan(open: Tags, s: string): Tags
    decreases |s|
  {
    if s == "" then open
    else if s[0] != '<' then Scan(open, s[1..])
    else
      var end := Find(s, '>');
      if end == |s| then open else Scan(ApplyTag(open, s[1..end]), s[end+1..])
  }

  function OpenTags(tags: Tags): string {
    if tags == [] then "" else "<" + tags[0] + ">" + OpenTags(tags[1..])
  }

  function CloseTags(tags: Tags): string {
    if tags == [] then "" else CloseTags(tags[1..]) + "</" + tags[0] + ">"
  }

  lemma {:induction false} OpenSnoc(tags: Tags, i: nat)
    requires i < |tags|
    ensures OpenTags(tags[..i+1]) == OpenTags(tags[..i]) + "<" + tags[i] + ">"
    decreases i
  {
    if i == 0 {
      assert tags[..1][1..] == [] && tags[..0] == [];
    } else {
      OpenSnoc(tags[1..], i - 1);
      assert tags[..i+1][1..] == tags[1..][..i] && tags[..i][1..] == tags[1..][..i-1];
    }
  }

  /** openHTML */
  method OpenHtml(tags: Tags) returns (s: string)
    ensures s == OpenTags(tags)
  {
    s := "";
    for i := 0 to |tags|
      invariant s == OpenTags(tags[..i])
    {
      OpenSnoc(tags, i);
      s := s + "<";
      s := s + tags[i];
      s := s + ">";
    }
    assert tags[..|tags|] == tags;
  }

  /** closeHTML */
  method CloseHtml(tags: Tags) returns (s: string)
    ensures s == CloseTags(tags)
  {
    s := "";
    var i := |tags|;
    assert tags[|tags|..] == [];
    while i > 0
      invariant 0 <= i <= |tags|
      invariant s == CloseTags(tags[i..])
    {
      i := i - 1;
      assert tags[i..][1..] == tags[i+1..];
      s := s + "</";
      s := s + tags[i];
      s := s + ">";
    }
    assert tags[0..] == tags;
  }

  lemma {:induction false} DropLastAt(out: Tags, name: string, k: nat)
    requires k < |out| && out[k] == name && name !in out[k+1..]
    ensures DropLast(out, name) == out[..k] + out[k+1..]
  {
    if k < |out| - 1 {
      var last, init := out[|out|-1], out[..|out|-1];
      assert last in out[k+1..];
      assert init[k+1..] == out[k+1..][..|out|-k-2];
      DropLastAt(init, name, k);
      assert init[..k] + init[k+1..] + [last] == out[..k] + out[k+1..];
    }
  }

  lemma {:induction false} DropAbsent(out: Tags, name: string)
    requires name !in out
    ensures DropLast(out, name) == out
  {
    if out != [] {
      DropAbsent(out[..|out|-1], name);
    }
  }

  /** One tag: the stack edited in place. */
  method ApplyOne(open: Tags, tag: string) returns (out: Tags)
    ensures out == ApplyTag(open, tag)
  {
    hide Word, Lower;
    out := open;
    var name := tag;
    var closing := false;
    if |name| > 0 && name[0] == '/' {
      closing := true;
      name := name[1..];
    }
    name := Lower(Word(name));
    if name in SPLIT_TAGS {
      if closing {
        var k := |out|;
        while k > 0
          invariant 0 <= k <= |out|
          invariant name !in out[k..]
        {
          if out[k-1] == name {
            break;
          }
          k := k - 1;
          assert out[k..] == [out[k]] + out[k+1..];
        }
        if k > 0 {
          DropLastAt(out, name, k - 1);
          out := out[..k-1] + out[k..];
        } else {
          assert out[0..] == out;
          DropAbsent(out, name);
        }
      } else {
        out := out + [name];
      }
    }
  }

  /** applyHTMLTags: the scan of s. */
  method ApplyHtmlTags(open: Tags, s: string) returns (out: Tags)
    ensures out == Scan(open, s)
  {
    out := open;
    var i := 0;
    assert s[0..] == s;
    while i < |s|
      invariant 0 <= i <= |s|
      invariant Scan(out, s[i..]) == Scan(open, s)
    {
      if s[i] != '<' {
        assert s[i..][1..] == s[i+1..];
        i := i + 1;
        continue;
      }
      var end := Find(s[i..], '>');
      if end == |s[i..]| {
        break;
      }
      var tag := s[i..][1..end];
      assert s[i..][end+1..] == s[i+end+1..];
      out := ApplyOne(out, tag);
      i := i + end + 1;
    }
  }

  // ---- Where to cut ----

  /** The last c in s before position `before`, -1 when there is none. */
  function LastBefore(s: string, c: char, before: nat): (i: int)
    requires before <= |s|
    ensures -1 <= i < before && (i >= 0 ==> s[i] == c) && forall k :: i < k < before ==> s[k] != c
  {
    if before == 0 then -1 else if s[before-1] == c then before - 1 else LastBefore(s, c, before - 1)
  }

  /** avoidMidTag, and avoidMidEntity: just before the last `from` that `to` does not follow. */
  function Avoid(s: string, cut: nat, from: char, to: char): (c: nat)
    requires cut <= |s|
    ensures c <= cut && (cut > 0 ==> c > 0)
  {
    if cut == 0 then cut
    else
      var at := LastBefore(s, from, cut);
      if at < 0 || to in s[at..cut] || at == 0 then cut else at
  }

  predicate RuneStart(c: char) {
    !(0x80 <= c as int < 0xC0)
  }

  /** Back to the start of a rune. */
  function RuneBack(s: string, cut: nat): (c: nat)
    requires cut <= |s|
    ensures c <= cut && (0 < c < |s| ==> RuneStart(s[c]))
    ensures forall k :: c < k <= cut && k < |s| ==> !RuneStart(s[k])
  {
    if 0 < cut < |s| && !RuneStart(s[cut]) then RuneBack(s, cut - 1) else cut
  }

  function SafeCutAt(s: string, cut: nat): (c: nat)
    requires cut <= |s|
    ensures c <= cut
  {
    RuneBack(s, Avoid(s, Avoid(s, cut, '<', '>'), '&', ';'))
  }

  /** safeCut: its loop. */
  method SafeCut(s: string, cut0: nat) returns (cut: nat)
    requires cut0 <= |s|
    ensures cut == SafeCutAt(s, cut0)
  {
    if cut0 == 0 {
      return cut0;
    }
    cut := Avoid(s, cut0, '<', '>');
    cut := Avoid(s, cut, '&', ';');
    ghost var was := cut;
    while cut > 0 && cut < |s| && !RuneStart(s[cut])
      invariant 0 <= cut <= |s|
      invariant RuneBack(s, cut) == RuneBack(s, was)
    {
      cut := cut - 1;
    }
  }

  /** lastIndexByteBefore */
  method LastIndexByteBefore(s: string, b: char, before: nat) returns (at: int)
    requires before <= |s|
    ensures at == LastBefore(s, b, before)
  {
    var i := before;
    while i > 0
      invariant 0 <= i <= before
      invariant LastBefore(s, b, i) == LastBefore(s, b, before)
    {
      if s[i-1] == b {
        return i - 1;
      }
      i := i - 1;
    }
    return -1;
  }

  predicate ByteIn(s: string, i: nat, lo: int, hi: int) {
    i < |s| && lo <= s[i] as int <= hi
  }

  /** The length of the first rune of s, 1 when its bytes are not one (UTF-8). */
  function RuneSize(s: string): (n: nat)
    requires s != ""
    ensures 1 <= n <= |s|
  {
    var c := s[0] as int;
    var lo := if c == 0xE0 then 0xA0 else if c == 0xF0 then 0x90 else 0x80;
    var hi := if c == 0xED then 0x9F else if c == 0xF4 then 0x8F else 0xBF;
    if 0xC2 <= c <= 0xDF && ByteIn(s, 1, 0x80, 0xBF) then 2
    else if 0xE0 <= c <= 0xEF && ByteIn(s, 1, lo, hi) && ByteIn(s, 2, 0x80, 0xBF) then 3
    else if 0xF0 <= c <= 0xF4 && ByteIn(s, 1, lo, hi) && ByteIn(s, 2, 0x80, 0xBF) && ByteIn(s, 3, 0x80, 0xBF) then 4
    else 1
  }

  /** The newline before the cut, unless it is the first byte. */
  function AtNewline(s: string, cut: nat): (c: nat)
    requires cut <= |s|
    ensures c <= cut && (cut > 0 ==> c > 0)
  {
    var i := LastBefore(s, '\n', cut);
    if i > 0 then i else cut
  }

  function FirstCut(open: Tags, s: string, limit: int): (c: nat)
    requires s != ""
    ensures 1 <= c <= |s|
  {
    var room := limit - (|OpenTags(open)| + |CloseTags(open)|);
    var budget := if room < 1 then 1 else if room > |s| then |s| else room;
    var cut := SafeCutAt(s, AtNewline(s, budget));
    if cut < 1 then RuneSize(s) else cut
  }

  /** The chunk cut here, with the tags it reopens and closes, is within the limit. */
  predicate Fits(open: Tags, s: string, limit: int, cut: nat)
    requires cut <= |s|
  {
    |OpenTags(open)| + cut + |CloseTags(Scan(open, s[..cut]))| <= limit
  }

  function Shrink(open: Tags, s: string, limit: int, cut: nat): (c: nat)
    requires 1 <= cut <= |s|
    ensures 1 <= c <= |s|
    decreases cut
  {
    if Fits(open, s, limit, cut) || cut <= 1 then cut
    else
      var next := SafeCutAt(s, AtNewline(s, cut - 1));
      if next < 1 then RuneSize(s) else Shrink(open, s, limit, next)
  }

  function CutAt(open: Tags, s: string, limit: int): (c: nat)
    requires s != ""
    ensures 1 <= c <= |s|
  {
    Shrink(open, s, limit, FirstCut(open, s, limit))
  }

  // ---- The pieces and their chunks ----

  /** A piece of the text, the tags open before it, and whether its chunk closes what it leaves open. */
  datatype Piece = Piece(open: Tags, text: string, closed: bool)

  function Chunk(p: Piece): string {
    OpenTags(p.open) + p.text + (if p.closed then CloseTags(Scan(p.open, p.text)) else "")
  }

  function Split(open: Tags, s: string, limit: int): seq<Piece>
    decreases |s|
  {
    if s == "" then []
    else if |OpenTags(open)| + |s| <= limit then [Piece(open, s, false)]
    else
      var cut := CutAt(open, s, limit);
      [Piece(open, s[..cut], true)] + Split(Scan(open, s[..cut]), s[cut..], limit)
  }

  /** The text of s that is not in a tag; an unfinished tag is text. */
  function VisibleText(s: string): string
    decreases |s|
  {
    if s == "" then ""
    else if s[0] != '<' then [s[0]] + VisibleText(s[1..])
    else
      var end := Find(s, '>');
      if end == |s| then s else VisibleText(s[end+1..])
  }

  /** The length of the white space rune s begins with, 0 when it begins with none. */
  function SpaceSize(s: string): (n: nat)
    ensures n <= |s|
  {
    if s == "" then 0
    else if s[0] in " \t\n\r" || s[0] as int in {0x0B, 0x0C} then 1
    else if s[0] as int == 0xC2 && (ByteIn(s, 1, 0x85, 0x85) || ByteIn(s, 1, 0xA0, 0xA0)) then 2
    else if s[0] as int == 0xE1 && ByteIn(s, 1, 0x9A, 0x9A) && ByteIn(s, 2, 0x80, 0x80) then 3
    else if s[0] as int == 0xE2 && ByteIn(s, 1, 0x80, 0x80)
            && (ByteIn(s, 2, 0x80, 0x8A) || ByteIn(s, 2, 0xA8, 0xA9) || ByteIn(s, 2, 0xAF, 0xAF)) then 3
    else if s[0] as int == 0xE2 && ByteIn(s, 1, 0x81, 0x81) && ByteIn(s, 2, 0x9F, 0x9F) then 3
    else if s[0] as int == 0xE3 && ByteIn(s, 1, 0x80, 0x80) && ByteIn(s, 2, 0x80, 0x80) then 3
    else 0
  }

  predicate Blank(s: string)
    decreases |s|
  {
    s == "" || (SpaceSize(s) > 0 && Blank(s[SpaceSize(s)..]))
  }

  // ---- White space and tags, by code points and by positions ----

  /** The code points that are white space. */
  predicate SpacePoint(cp: int) {
    0x09 <= cp <= 0x0D || cp == 0x20 || cp == 0x85 || cp == 0xA0 || cp == 0x1680 || 0x2000 <= cp <= 0x200A
    || cp == 0x2028 || cp == 0x2029 || cp == 0x202F || cp == 0x205F || cp == 0x3000
  }

  /** The UTF-8 bytes of a code point of at most three. */
  function Utf8(cp: int): (s: string)
    requires 0 <= cp < 0x10000
    ensures s != ""
  {
    if cp < 0x80 then [cp as char]
    else if cp < 0x800 then [(0xC0 + cp / 64) as char, (0x80 + cp % 64) as char]
    else [(0xE0 + cp / 4096) as char, (0x80 + cp / 64 % 64) as char, (0x80 + cp % 64) as char]
  }

  function Encoded(points: seq<int>): string
    requires forall i :: 0 <= i < |points| ==> SpacePoint(points[i])
  {
    if points == [] then "" else assert SpacePoint(points[0]); Utf8(points[0]) + Encoded(points[1..])
  }

  /** s is nothing but white space. */
  ghost predicate White(s: string) {
    exists points: seq<int> :: (forall i :: 0 <= i < |points| ==> SpacePoint(points[i])) && s == Encoded(points)
  }

  lemma {:induction false} SpaceIs(s: string) returns (cp: int)
    requires SpaceSize(s) > 0
    ensures SpacePoint(cp) && s == Utf8(cp) + s[SpaceSize(s)..] && |Utf8(cp)| == SpaceSize(s)
  {
    var n := SpaceSize(s);
    var a := s[0] as int;
    if n == 1 {
      cp := a;
    } else if n == 2 {
      cp := s[1] as int;
    } else {
      cp := (a - 0xE0) * 4096 + (s[1] as int - 0x80) * 64 + (s[2] as int - 0x80);
    }
    assert Utf8(cp) == s[..n];
  }

  lemma {:induction false} SpaceBegins(cp: int, rest: string)
    requires SpacePoint(cp)
    ensures SpaceSize(Utf8(cp) + rest) == |Utf8(cp)| && (Utf8(cp) + rest)[|Utf8(cp)|..] == rest
  {
    var s := Utf8(cp) + rest;
    assert s[0] == Utf8(cp)[0];
    assert |Utf8(cp)| > 1 ==> s[1] == Utf8(cp)[1];
    assert |Utf8(cp)| > 2 ==> s[2] == Utf8(cp)[2];
  }

  lemma {:induction false} EncodedIsBlank(points: seq<int>)
    requires forall i :: 0 <= i < |points| ==> SpacePoint(points[i])
    ensures Blank(Encoded(points))
  {
    hide SpaceSize, Utf8;
    if points != [] {
      SpaceBegins(points[0], Encoded(points[1..]));
      EncodedIsBlank(points[1..]);
    }
  }

  lemma {:induction false} BlankPoints(s: string) returns (points: seq<int>)
    requires Blank(s)
    ensures (forall i :: 0 <= i < |points| ==> SpacePoint(points[i])) && s == Encoded(points)
    decreases |s|
  {
    hide SpacePoint, SpaceSize, Utf8;
    points := [];
    if s != "" {
      var cp := SpaceIs(s);
      var rest := BlankPoints(s[SpaceSize(s)..]);
      points := [cp] + rest;
      assert points[1..] == rest;
    }
  }

  /** Trimming leaves nothing exactly of white space. */
  lemma {:induction false} BlankIsWhite(s: string)
    ensures Blank(s) <==> White(s)
  {
    hide SpacePoint, Encoded;
    if Blank(s) {
      var points := BlankPoints(s);
    }
    if White(s) {
      var points: seq<int> :| (forall i :: 0 <= i < |points| ==> SpacePoint(points[i])) && s == Encoded(points);
      EncodedIsBlank(points);
    }
  }

  /** Position i is in a tag: after a '<' that no '>' has ended yet and one will. */
  ghost predicate InTag(s: string, i: nat)
    requires i < |s|
  {
    (exists p :: 0 <= p <= i && s[p] == '<' && '>' !in s[p..i]) && '>' in s[i..]
  }

  /** The bytes outside the tags, from position i on. */
  ghost function OutsideFrom(s: string, i: nat): string
    requires i <= |s|
    decreases |s| - i
  {
    if i == |s| then "" else (if InTag(s, i) then "" else [s[i]]) + OutsideFrom(s, i + 1)
  }

  ghost function Outside(s: string): string {
    OutsideFrom(s, 0)
  }

  lemma {:induction false} InsideIsSkipped(s: string, i: nat, e: nat)
    requires i <= e < |s| && s[e] == '>'
    requires forall k :: i <= k <= e ==> InTag(s, k)
    ensures OutsideFrom(s, i) == OutsideFrom(s, e + 1)
    decreases e - i
  {
    hide InTag;
    if i < e {
      InsideIsSkipped(s, i + 1, e);
    }
  }

  lemma {:induction false} UnfinishedShows(s: string, i: nat)
    requires i <= |s| && Find(s[i..], '>') == |s| - i
    ensures OutsideFrom(s, i) == s[i..]
    decreases |s| - i
  {
    assert '>' !in s[i..];
    if i < |s| {
      assert s[i..] == [s[i]] + s[i+1..] && s[i..][1..] == s[i+1..];
      UnfinishedShows(s, i + 1);
    }
  }

  /** Every tag begun before i is finished before i. */
  predicate Between(s: string, i: nat)
    requires i <= |s|
  {
    forall p :: 0 <= p < i && s[p] == '<' ==> '>' in s[p..i]
  }

  /** Where no tag is under way, scanning on gives the bytes outside the tags. */
  lemma {:induction false} OutsideIsVisible(s: string, i: nat)
    requires i <= |s| && Between(s, i)
    ensures OutsideFrom(s, i) == VisibleText(s[i..])
    decreases |s| - i
  {
    hide InTag, Between, OutsideFrom;
    VisibleStep(s, i);
    if i == |s| {
      NothingOutside(s);
    } else if s[i] != '<' {
      TextIsOutside(s, i);
      OutsideIsVisible(s, i + 1);
    } else if Find(s[i..], '>') == |s| - i {
      UnfinishedShows(s, i);
    } else {
      TagIsSkipped(s, i);
      OutsideIsVisible(s, i + Find(s[i..], '>') + 1);
    }
  }

  lemma {:induction false} NothingOutside(s: string)
    ensures OutsideFrom(s, |s|) == ""
  {
  }

  lemma {:induction false} VisibleStep(s: string, i: nat)
    requires i <= |s|
    ensures VisibleText(s[i..]) ==
            if i == |s| then ""
            else if s[i] != '<' then [s[i]] + VisibleText(s[i+1..])
            else if Find(s[i..], '>') == |s| - i then s[i..]
            else VisibleText(s[i + Find(s[i..], '>') + 1..])
  {
    hide Find;
    if i < |s| {
      var t := s[i..];
      DropTwice(s, i, 1);
      if Find(t, '>') < |t| {
        DropTwice(s, i, Find(t, '>') + 1);
      }
    }
  }

  lemma {:induction false} DropTwice(s: string, i: nat, n: nat)
    requires i + n <= |s|
    ensures s[i..][n..] == s[i + n..]
  {
  }

  lemma {:induction false} BetweenText(s: string, i: nat)
    requires i < |s| && s[i] != '<' && Between(s, i)
    ensures Between(s, i + 1)
  {
    forall p | 0 <= p < i + 1 && s[p] == '<'
      ensures '>' in s[p..i+1]
    {
      assert '>' in s[p..i];
      assert s[p..i+1] == s[p..i] + [s[i]];
    }
  }

  lemma {:induction false} NotInTag(s: string, i: nat)
    requires i < |s| && s[i] != '<' && Between(s, i)
    ensures !InTag(s, i)
  {
    forall p | 0 <= p <= i && s[p] == '<'
      ensures '>' in s[p..i]
    {
    }
  }

  lemma {:induction false} TextIsOutside(s: string, i: nat)
    requires i < |s| && s[i] != '<' && Between(s, i)
    ensures OutsideFrom(s, i) == [s[i]] + OutsideFrom(s, i + 1) && Between(s, i + 1)
  {
    BetweenText(s, i);
    NotInTag(s, i);
    hide InTag, Between;
  }

  lemma {:induction false} TagIsInside(s: string, i: nat, e: nat, k: nat)
    requires i <= k <= e < |s| && s[i] == '<' && s[e] == '>' && forall j :: i <= j < e ==> s[j] != '>'
    ensures InTag(s, k)
  {
    assert '>' !in s[i..k];
    assert s[k..][e-k] == '>';
  }

  lemma {:induction false} BetweenAfter(s: string, e: nat)
    requires e < |s| && s[e] == '>'
    ensures Between(s, e + 1)
  {
    forall p | 0 <= p < e + 1 && s[p] == '<'
      ensures '>' in s[p..e+1]
    {
      assert s[p..e+1][e-p] == s[e] == '>';
    }
  }

  lemma {:induction false} TagIsSkipped(s: string, i: nat)
    requires i < |s| && s[i] == '<' && Find(s[i..], '>') < |s| - i
    ensures var e := i + Find(s[i..], '>'); OutsideFrom(s, i) == OutsideFrom(s, e + 1) && Between(s, e + 1)
  {
    hide InTag, Between, OutsideFrom, Find;
    var t := s[i..];
    var e := i + Find(t, '>');
    assert s[e] == t[Find(t, '>')] == '>';
    assert forall j :: i <= j < e ==> s[j] == t[j-i];
    forall k | i <= k <= e
      ensures InTag(s, k)
    {
      TagIsInside(s, i, e, k);
    }
    InsideIsSkipped(s, i, e);
    BetweenAfter(s, e);
  }

  lemma {:induction false} OutsideIs(s: string)
    ensures Outside(s) == VisibleText(s)
  {
    OutsideIsVisible(s, 0);
    assert s[0..] == s;
  }

  /** htmlVisibleEmpty: its loop. */
  method HtmlVisibleEmpty(s: string) returns (empty: bool)
    ensures empty == Blank(VisibleText(s))
    ensures empty <==> White(Outside(s))
  {
    hide Blank, White, Outside, Find;
    var b := "";
    var i := 0;
    assert s[0..] == s;
    while i < |s|
      invariant 0 <= i <= |s|
      invariant b + VisibleText(s[i..]) == VisibleText(s)
    {
      if s[i] == '<' {
        var end := Find(s[i..], '>');
        if end == |s[i..]| {
          b := b + s[i..];
          break;
        }
        assert s[i..][end+1..] == s[i+end+1..];
        i := i + end + 1;
        continue;
      }
      assert s[i..][1..] == s[i+1..];
      assert b + ([s[i]] + VisibleText(s[i+1..])) == (b + [s[i]]) + VisibleText(s[i+1..]);
      b := b + [s[i]];
      i := i + 1;
    }
    assert b == VisibleText(s);
    empty := Blank(b);
    OutsideIs(s);
    BlankIsWhite(b);
  }

  /** The chunks that show something. */
  function Shown(ps: seq<Piece>): seq<string> {
    if ps == [] then []
    else (if Blank(VisibleText(Chunk(ps[0]))) then [] else [Chunk(ps[0])]) + Shown(ps[1..])
  }

  /** splitMessage */
  function Message(s: string, limit: int): seq<string> {
    if limit <= 0 || |s| <= limit then [s]
    else
      var chunks := Shown(Split([], s, limit));
      if chunks == [] then [""] else chunks
  }

  lemma {:induction false} ShownStep(p: Piece, rest: seq<Piece>, chunks: seq<string>)
    ensures chunks + Shown([p] + rest) == (if Blank(VisibleText(Chunk(p))) then chunks else chunks + [Chunk(p)]) + Shown(rest)
  {
    hide Blank, Chunk;
    assert ([p] + rest)[1..] == rest;
  }

  /** splitMessage's loops. */
  method SplitIntoChunks(text: string, limit: int) returns (chunks: seq<string>)
    ensures chunks == Message(text, limit)
  {
    hide Scan, Shown, Blank, VisibleText, Shrink, Chunk, SafeCutAt, AtNewline, RuneSize;
    if limit <= 0 {
      return [text];
    }
    if |text| <= limit {
      return [text];
    }
    chunks := [];
    var open: Tags, s := [], text;
    while |s| > 0
      invariant chunks + Shown(Split(open, s, limit)) == Shown(Split([], text, limit))
      decreases |s|
    {
      var prefix := OpenHtml(open);
      if |prefix| + |s| <= limit {
        ghost var p := Piece(open, s, false);
        var chunk := prefix + s;
        BareChunk(p);
        ShownStep(p, [], chunks);
        assert [p] + [] == Split(open, s, limit);
        var empty := HtmlVisibleEmpty(chunk);
        if !empty {
          chunks := chunks + [chunk];
        }
        ShownNone(chunks);
        assert chunks == Shown(Split([], text, limit));
        break;
      }
      var cut, closers := ChooseCut(open, prefix, s, limit);
      var newOpen := ApplyHtmlTags(open, s[..cut]);
      var chunk := prefix + s[..cut] + closers;
      ghost var p := Piece(open, s[..cut], true);
      ClosedChunk(p);
      ShownStep(p, Split(newOpen, s[cut..], limit), chunks);
      var empty := HtmlVisibleEmpty(chunk);
      if !empty {
        chunks := chunks + [chunk];
      }
      open := newOpen;
      s := s[cut..];
    }
    ShownNone(chunks);
    assert chunks == Shown(Split([], text, limit));
    if |chunks| == 0 {
      return [""];
    }
  }

  lemma {:induction false} ShownNone(chunks: seq<string>)
    ensures chunks + Shown([]) == chunks
  {
  }

  lemma {:induction false} BareChunk(p: Piece)
    requires !p.closed
    ensures Chunk(p) == OpenTags(p.open) + p.text
  {
  }

  lemma {:induction false} ClosedChunk(p: Piece)
    requires p.closed
    ensures Chunk(p) == OpenTags(p.open) + p.text + CloseTags(Scan(p.open, p.text))
  {
  }

  /** The cut and the closing tags: the loop that backs the cut off until the chunk fits. */
  method ChooseCut(open: Tags, prefix: string, s: string, limit: int) returns (cut: nat, closers: string)
    requires s != "" && prefix == OpenTags(open) && limit > 0
    ensures cut == CutAt(open, s, limit) && closers == CloseTags(Scan(open, s[..cut]))
  {
    hide Scan, SafeCutAt, AtNewline, RuneSize;
    var c := CloseHtml(open);
    var reserve := |prefix| + |c|;
    var budget := limit - reserve;
    if budget < 1 {
      budget := 1;
    }
    if budget > |s| {
      budget := |s|;
    }
    cut := BackOff(s, budget);
    if cut < 1 {
      cut := RuneSize(s);
    }
    assert cut == FirstCut(open, s, limit);
    hide FirstCut;
    var newOpen := ApplyHtmlTags(open, s[..cut]);
    closers := CloseHtml(newOpen);
    while |prefix| + cut + |closers| > limit && cut > 1
      invariant 1 <= cut <= |s|
      invariant newOpen == Scan(open, s[..cut]) && closers == CloseTags(newOpen)
      invariant Shrink(open, s, limit, cut) == CutAt(open, s, limit)
      decreases cut
    {
      var prev := cut;
      cut := BackOff(s, cut - 1);
      if cut < 1 || cut >= prev {
        cut := RuneSize(s);
        newOpen := ApplyHtmlTags(open, s[..cut]);
        closers := CloseHtml(newOpen);
        return;
      }
      newOpen := ApplyHtmlTags(open, s[..cut]);
      closers := CloseHtml(newOpen);
    }
  }

  /** To the last newline, and off the middle of a tag, an entity or a rune. */
  method BackOff(s: string, before: nat) returns (cut: nat)
    requires before <= |s|
    ensures cut == SafeCutAt(s, AtNewline(s, before))
  {
    hide SafeCutAt;
    cut := before;
    var i := LastIndexByteBefore(s, '\n', cut);
    if i > 0 {
      cut := i;
    }
    cut := SafeCut(s, cut);
  }
}
