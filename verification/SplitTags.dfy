/** The tags closed and reopened at each cut: when they are right, exactly, that clean messages give
    balanced chunks, and how a tag is lost. */
module SplitTags {
  import opened SplitMessage
  import opened SplitProperties

  // ---- The tags carried over a cut ----

  /** The unfinished tag s ends with. */
  function Tail(s: string): string
    decreases |s|
  {
    if s == "" then ""
    else if s[0] != '<' then Tail(s[1..])
    else
      var end := Find(s, '>');
      if end == |s| then s else Tail(s[end+1..])
  }

  lemma {:induction false} WholeThroughEnd(s: string)
    requires Find(s, '>') < |s|
    ensures Whole(s[..Find(s, '>')+1])
    decreases |s|
  {
    var end := Find(s, '>');
    var t := s[..end+1];
    FindAt(t, '>', end);
    if s[0] == '<' {
      assert t[end+1..] == "";
    } else if s[0] == '>' {
      assert t[1..] == "";
    } else {
      assert t[1..] == s[1..][..end];
      WholeThroughEnd(s[1..]);
    }
  }

  lemma {:induction false} TailEnds(s: string) returns (head: string)
    ensures s == head + Tail(s) && Whole(head) && '>' !in Tail(s) && (Tail(s) != "" ==> Tail(s)[0] == '<')
    ensures Whole(s) <==> Tail(s) == ""
    decreases |s|
  {
    hide Tail;
    if s == "" || (s[0] == '<' && Find(s, '>') == |s|) {
      head := "";
      AllTail(s);
    } else {
      hide Whole;
      var n := Head(s);
      var first, rest := s[..n], s[n..];
      assert s == first + rest;
      TailAfter(s);
      FirstIsWhole(s);
      var h := TailEnds(rest);
      WholeConcat(first, h);
      WholeConcat(first, rest);
      head := first + h;
      Regroup(first, h, Tail(rest));
    }
  }

  lemma {:induction false} AllTail(s: string)
    requires s == "" || (s[0] == '<' && Find(s, '>') == |s|)
    ensures Tail(s) == s && '>' !in s && (Whole(s) <==> s == "")
  {
  }

  lemma {:induction false} Regroup(a: string, b: string, c: string)
    ensures (a + b) + c == a + (b + c)
  {
  }

  lemma {:induction false} TailAfter(s: string)
    requires s != "" && (s[0] == '<' ==> Find(s, '>') < |s|)
    ensures Tail(s) == Tail(s[Head(s)..])
  {
  }

  lemma {:induction false} FirstIsWhole(s: string)
    requires s != "" && (s[0] == '<' ==> Find(s, '>') < |s|)
    ensures Whole(s[..Head(s)])
  {
    if s[0] == '<' {
      WholeThroughEnd(s);
    } else {
      assert s[..1][1..] == "";
    }
  }

  lemma {:induction false} UnfinishedIsText(open: Tags, s: string)
    requires '>' !in s
    ensures Scan(open, s) == open
    decreases |s|
  {
    if s != "" && s[0] != '<' {
      UnfinishedIsText(open, s[1..]);
    }
  }

  /** Scanning on is scanning the unfinished tag again. */
  lemma {:induction false} ScanOn(open: Tags, before: string, s: string)
    ensures Scan(open, before + s) == Scan(Scan(open, before), Tail(before) + s)
  {
    hide Scan;
    var head := TailEnds(before);
    UnfinishedIsText(Scan(open, head), Tail(before));
    ScanConcat(open, head, Tail(before));
    ScanConcat(open, head, Tail(before) + s);
    assert before + s == head + (Tail(before) + s);
  }

  /** Cutting between the two loses no tag: if the cut is inside a tag that s finishes, the whole
      tag does to the open tags what the scan of its second part alone does. */
  predicate Harmless(open: Tags, before: string, s: string) {
    var end := Find(s, '>');
    Tail(before) != "" && end < |s| ==>
      ApplyTag(Scan(open, before), Tail(before)[1..] + s[..end]) == Scan(Scan(open, before), s[..end+1])
  }

  /** From `carried`, scanning s gives at every position what scanning everything gives. */
  ghost predicate Tracks(open: Tags, before: string, carried: Tags, s: string) {
    forall n :: 0 <= n <= |s| ==> Scan(carried, s[..n]) == Scan(open, before + s[..n])
  }

  /** Past the end of the cut tag. */
  lemma {:induction false} AfterTheTag(o: Tags, tail: string, s: string, n: nat)
    requires tail != "" && tail[0] == '<' && '>' !in tail && Find(s, '>') < n <= |s|
    ensures var end := Find(s, '>');
            && Scan(o, tail + s[..n]) == Scan(ApplyTag(o, tail[1..] + s[..end]), s[end+1..n])
            && Scan(o, s[..n]) == Scan(Scan(o, s[..end+1]), s[end+1..n])
  {
    hide ApplyTag;
    var end := Find(s, '>');
    var all := tail + s[..n];
    FindAt(all, '>', |tail| + end);
    assert all[1..|tail| + end] == tail[1..] + s[..end];
    assert all[|tail| + end + 1..] == s[end+1..n];
    hide Scan;
    WholeThroughEnd(s);
    assert s[..n] == s[..end+1] + s[end+1..n];
    ScanConcat(o, s[..end+1], s[end+1..n]);
  }

  /** One cut: the carried tags are right at every position after it exactly when it is harmless. */
  lemma {:induction false} CutTracks(open: Tags, before: string, s: string)
    ensures Tracks(open, before, Scan(open, before), s) <==> Harmless(open, before, s)
  {
    hide Scan, ApplyTag, Tail;
    var o, tail, end := Scan(open, before), Tail(before), Find(s, '>');
    var head := TailEnds(before);
    if tail == "" {
      forall n | 0 <= n <= |s|
        ensures Scan(o, s[..n]) == Scan(open, before + s[..n])
      {
        ScanConcat(open, before, s[..n]);
      }
    } else {
      forall n | 0 <= n <= |s| && n <= end
        ensures Scan(o, s[..n]) == Scan(open, before + s[..n])
      {
        ScanOn(open, before, s[..n]);
        UnfinishedIsText(o, s[..n]);
        UnfinishedIsText(o, tail + s[..n]);
      }
      forall n | end < n <= |s|
        ensures Scan(open, before + s[..n]) == Scan(ApplyTag(o, tail[1..] + s[..end]), s[end+1..n])
        ensures Scan(o, s[..n]) == Scan(Scan(o, s[..end+1]), s[end+1..n])
      {
        ScanOn(open, before, s[..n]);
        AfterTheTag(o, tail, s, n);
      }
      if end < |s| && Tracks(open, before, o, s) {
        assert s[end+1..end+1] == "";
        ScanNothing(ApplyTag(o, tail[1..] + s[..end]));
        assert Scan(o, s[..end+1]) == Scan(open, before + s[..end+1]);
      }
    }
  }

  /** What a tag does to the open tags, by its name. */
  datatype Deed = Nothing | Opens(name: string) | Closes(name: string)

  function DeedOf(open: Tags, tag: string): Deed {
    var closing := tag != "" && tag[0] == '/';
    var name := Lower(Word(if closing then tag[1..] else tag));
    if name !in SPLIT_TAGS || (closing && name !in open) then Nothing
    else if closing then Closes(name)
    else Opens(name)
  }

  /** Two tags leave the same tags open exactly when they do the same. */
  lemma {:induction false} SameDeed(open: Tags, a: string, b: string)
    ensures ApplyTag(open, a) == ApplyTag(open, b) <==> DeedOf(open, a) == DeedOf(open, b)
  {
    hide DeedOf, ApplyTag, DropLast;
    DeedIs(open, a);
    DeedIs(open, b);
    var x, y := DeedOf(open, a), DeedOf(open, b);
    if x.Closes? && y.Closes? && x != y {
      assert multiset(ApplyTag(open, a))[x.name] == multiset(open)[x.name] - 1;
      assert multiset(ApplyTag(open, b))[x.name] == multiset(open)[x.name];
    } else if x.Opens? && y.Opens? && x != y {
      assert ApplyTag(open, a)[|open|] == x.name && ApplyTag(open, b)[|open|] == y.name;
    }
  }

  lemma {:induction false} DeedIs(open: Tags, tag: string)
    ensures match DeedOf(open, tag)
            case Nothing => ApplyTag(open, tag) == open
            case Opens(name) => ApplyTag(open, tag) == open + [name]
            case Closes(name) =>
              && ApplyTag(open, tag) == DropLast(open, name) && name in open
              && |DropLast(open, name)| == |open| - 1 && multiset(DropLast(open, name)) == multiset(open) - multiset{name}
  {
    hide Word, Lower;
    var closing := tag != "" && tag[0] == '/';
    var name := Lower(Word(if closing then tag[1..] else tag));
    DropChanges(open, name);
  }

  /** What the text of a tag does when it is scanned up to the tag's end by itself. */
  function OwnDeed(open: Tags, rest: string): Deed {
    var k := Find(rest, '<');
    if k == |rest| then Nothing else DeedOf(open, rest[k+1..])
  }

  /** In words, and by the names of the tags: a cut inside a tag is harmless exactly when the whole tag
      does what the part after the cut does when it is read by itself, which is nothing unless that part
      holds a further '<'. */
  lemma {:induction false} HarmlessIs(open: Tags, before: string, s: string)
    ensures var o, tail, end := Scan(open, before), Tail(before), Find(s, '>');
            Harmless(open, before, s) <==>
            tail == "" || end == |s| || DeedOf(o, tail[1..] + s[..end]) == OwnDeed(o, s[..end])
  {
    hide Tail, DeedOf, ApplyTag, Scan;
    var o, tail, end := Scan(open, before), Tail(before), Find(s, '>');
    if tail != "" && end < |s| {
      SecondPart(o, s);
      var whole, rest := tail[1..] + s[..end], s[..end];
      var k := Find(rest, '<');
      if k < |rest| {
        SameDeed(o, whole, rest[k+1..]);
      } else {
        SameDeed(o, whole, "");
        NoName(o);
      }
    }
  }

  lemma {:induction false} NoName(open: Tags)
    ensures DeedOf(open, "") == Nothing && ApplyTag(open, "") == open
  {
  }

  lemma {:induction false} SkipText(open: Tags, s: string, k: nat)
    requires k <= |s| && forall i :: 0 <= i < k ==> s[i] != '<'
    ensures Scan(open, s) == Scan(open, s[k..])
  {
    if k == 0 {
      assert s[0..] == s;
    } else {
      SkipText(open, s[1..], k - 1);
      assert s[1..][k-1..] == s[k..];
    }
  }

  lemma {:induction false} SecondPart(o: Tags, s: string)
    requires Find(s, '>') < |s|
    ensures var end := Find(s, '>'); var k := Find(s[..end], '<');
            Scan(o, s[..end+1]) == if k == end then o else ApplyTag(o, s[..end][k+1..])
  {
    hide ApplyTag, Scan, Find;
    var end := Find(s, '>');
    var rest, all := s[..end], s[..end+1];
    var k := Find(rest, '<');
    forall i | 0 <= i < k
      ensures all[i] != '<'
    {
      assert rest[i] == all[i];
    }
    if k < end {
      SkipText(o, all, k);
      assert all[k] == rest[k] == '<';
      assert all[k..] == "<" + rest[k+1..] + ">";
      ScanOneTag(o, rest[k+1..]);
    } else {
      SkipText(o, all, end + 1);
      assert all[end+1..] == "";
      ScanNothing(o);
    }
  }

  lemma {:induction false} DropChanges(out: Tags, name: string)
    ensures |DropLast(out, name)| == if name in out then |out| - 1 else |out|
    ensures name !in out ==> DropLast(out, name) == out
    ensures multiset(DropLast(out, name)) == multiset(out) - multiset{name}
  {
    if out != [] {
      DropChanges(out[..|out|-1], name);
      assert out == out[..|out|-1] + [out[|out|-1]];
      assert name in out <==> name == out[|out|-1] || name in out[..|out|-1];
    }
  }

  lemma {:induction false} NothingOpens(open: Tags, s: string)
    requires forall k :: 0 <= k < |s| ==> s[k] != '<'
    ensures Scan(open, s) == open
  {
    if s != "" {
      NothingOpens(open, s[1..]);
    }
  }

  /** Each piece's tags are those of the piece before it and its text. */
  lemma {:induction false} NextOpen(open: Tags, s: string, limit: int, i: nat)
    requires i < |Split(open, s, limit)|
    ensures var ps := Split(open, s, limit);
            ps[i].open == if i == 0 then open else Scan(ps[i-1].open, ps[i-1].text)
    decreases |s|
  {
    hide Scan, CutAt, OpenTags;
    if i > 0 {
      var cut := CutAt(open, s, limit);
      NextOpen(Scan(open, s[..cut]), s[cut..], limit, i - 1);
    }
  }

  lemma {:induction false} TextsSnoc(ps: seq<Piece>, i: nat)
    requires i < |ps|
    ensures Texts(ps[..i+1]) == Texts(ps[..i]) + ps[i].text
    decreases i
  {
    if i == 0 {
      assert ps[..1][1..] == [] && ps[..0] == [];
    } else {
      TextsSnoc(ps[1..], i - 1);
      assert ps[..i+1][1..] == ps[1..][..i] && ps[..i][1..] == ps[1..][..i-1];
    }
  }

  /** A chunk reopens exactly the tags left open by the text before it, if the cuts before it are
      harmless. */
  lemma {:induction false} ReopensAfter(open: Tags, s: string, limit: int, i: nat)
    requires i < |Split(open, s, limit)|
    requires forall k :: 0 <= k < i ==> Harmless(open, Texts(Split(open, s, limit)[..k]), Split(open, s, limit)[k].text)
    ensures var ps := Split(open, s, limit); ps[i].open == Scan(open, Texts(ps[..i]))
    decreases i
  {
    hide Scan, Harmless, Split;
    var ps := Split(open, s, limit);
    NextOpen(open, s, limit, i);
    if i == 0 {
      assert ps[..0] == [];
      ScanNothing(open);
    } else {
      ReopensAfter(open, s, limit, i - 1);
      var before, text := Texts(ps[..i-1]), ps[i-1].text;
      CutTracks(open, before, text);
      TextsSnoc(ps, i - 1);
      assert text[..|text|] == text;
    }
  }

  /** At every position of the text the splitter holds exactly the tags that are open there. */
  ghost predicate TracksOpen(open: Tags, s: string, limit: int) {
    var ps := Split(open, s, limit);
    forall i :: 0 <= i < |ps| ==> Tracks(open, Texts(ps[..i]), ps[i].open, ps[i].text)
  }

  /** No cut is inside a tag it loses. */
  ghost predicate CutsHarmless(open: Tags, s: string, limit: int) {
    var ps := Split(open, s, limit);
    forall i :: 0 <= i < |ps| ==> Harmless(open, Texts(ps[..i]), ps[i].text)
  }

  /** For every text and limit: the tags closed and reopened are right throughout if and only if
      every cut is harmless. */
  lemma {:induction false} ReopensWhatIsOpen(open: Tags, s: string, limit: int)
    ensures TracksOpen(open, s, limit) <==> CutsHarmless(open, s, limit)
  {
    hide Scan, Harmless, Split, Tracks;
    var ps := Split(open, s, limit);
    forall i | 0 <= i < |ps|
      ensures CutsHarmless(open, s, limit) ==> ps[i].open == Scan(open, Texts(ps[..i]))
      ensures Tracks(open, Texts(ps[..i]), ps[i].open, ps[i].text) ==> ps[i].open == Scan(open, Texts(ps[..i]))
      ensures Tracks(open, Texts(ps[..i]), Scan(open, Texts(ps[..i])), ps[i].text) <==> Harmless(open, Texts(ps[..i]), ps[i].text)
    {
      if CutsHarmless(open, s, limit) {
        ReopensAfter(open, s, limit, i);
      }
      TracksAtStart(open, Texts(ps[..i]), ps[i].open, ps[i].text);
      CutTracks(open, Texts(ps[..i]), ps[i].text);
    }
  }

  lemma {:induction false} TracksAtStart(open: Tags, before: string, carried: Tags, s: string)
    ensures Tracks(open, before, carried, s) ==> carried == Scan(open, before)
  {
    hide Scan;
    if Tracks(open, before, carried, s) {
      assert Scan(carried, s[..0]) == Scan(open, before + s[..0]);
      ScanNothing(carried);
      assert s[..0] == "" && before + s[..0] == before;
    }
  }

  // ---- Clean text ----

  lemma {:induction false} WholeIsHarmless(open: Tags, before: string, s: string)
    requires Whole(before)
    ensures Harmless(open, before, s)
  {
    hide Whole, Scan, ApplyTag, Tail;
    var head := TailEnds(before);
  }

  /** In clean text, with room for the deepest nesting twice and the longest tag, each chunk reopens
      exactly the tags left open by the text before it. */
  lemma {:induction false} CleanTextReopens(s: string, limit: int, longest: nat, deepest: nat, i: nat)
    requires Clean(s, longest) && longest >= 1 && Shallow([], s, deepest) && limit >= 2 * deepest + longest
    requires i < |Split([], s, limit)|
    ensures var ps := Split([], s, limit); ps[i].open == Scan([], Texts(ps[..i]))
  {
    hide Split, Scan, Whole, Clean, Shallow, Harmless;
    PiecesAreWhole([], s, limit, longest, deepest);
    var ps := Split([], s, limit);
    forall k | 0 <= k < i
      ensures Harmless([], Texts(ps[..k]), ps[k].text)
    {
      WholeTexts(ps, k);
      WholeIsHarmless([], Texts(ps[..k]), ps[k].text);
    }
    ReopensAfter([], s, limit, i);
  }

  // ---- Balanced chunks ----

  ghost predicate Known(tags: Tags) {
    forall i :: 0 <= i < |tags| ==> tags[i] in SPLIT_TAGS
  }

  predicate PlainByte(c: char) {
    'a' <= c <= 'z'
  }

  lemma {:induction false} PlainName(s: string)
    requires forall i :: 0 <= i < |s| ==> PlainByte(s[i])
    ensures Word(s) == s && Lower(s) == s
  {
    if s != "" {
      PlainName(s[1..]);
      assert PlainByte(s[0]);
    }
  }

  lemma {:induction false} FindAt(s: string, c: char, i: nat)
    requires i < |s| && s[i] == c && forall k :: 0 <= k < i ==> s[k] != c
    ensures Find(s, c) == i
  {
  }

  lemma {:induction false} ScanOneTag(open: Tags, body: string)
    requires forall i :: 0 <= i < |body| ==> body[i] != '>'
    ensures Scan(open, "<" + body + ">") == ApplyTag(open, body) && Whole("<" + body + ">")
  {
    hide ApplyTag;
    var s := "<" + body + ">";
    FindAt(s, '>', |body| + 1);
    assert s[1..|body|+1] == body && s[|body|+2..] == "";
  }

  lemma {:induction false} OpeningTag(open: Tags, name: string)
    requires name in SPLIT_TAGS
    ensures Scan(open, "<" + name + ">") == open + [name] && Whole("<" + name + ">")
  {
    hide Scan, Whole, Word, Lower;
    PlainName(name);
    ScanOneTag(open, name);
    assert PlainByte(name[0]);
  }

  lemma {:induction false} ClosingTag(open: Tags, name: string)
    requires name in SPLIT_TAGS
    ensures Scan(open, "</" + name + ">") == DropLast(open, name) && Whole("</" + name + ">")
  {
    hide Scan, Whole, Word, Lower, DropLast;
    PlainName(name);
    var body := "/" + name;
    assert "</" + name + ">" == "<" + body + ">";
    forall i | 0 <= i < |body|
      ensures body[i] != '>'
    {
      assert i > 0 ==> PlainByte(name[i-1]);
    }
    ScanOneTag(open, body);
    assert body[1..] == name;
  }

  /** The same letter, in either case. */
  predicate SameLetter(c: char, d: char) {
    c == d || ('a' <= d <= 'z' && c as int + 32 == d as int)
  }

  lemma {:induction false} AnyCase(s: string, name: string)
    requires |s| == |name| && forall i :: 0 <= i < |name| ==> PlainByte(name[i]) && SameLetter(s[i], name[i])
    ensures Word(s) == s && Lower(s) == name
  {
    if s != "" {
      assert PlainByte(name[0]) && SameLetter(s[0], name[0]);
      AnyCase(s[1..], name[1..]);
      assert name == [name[0]] + name[1..];
    }
  }

  /** A tag is known by its name in any case, opening or closing, and nothing else is a tag of it. */
  lemma {:induction false} CaseIsIgnored(open: Tags, s: string, name: string)
    requires name in SPLIT_TAGS && |s| == |name| && forall i :: 0 <= i < |name| ==> SameLetter(s[i], name[i])
    ensures ApplyTag(open, s) == open + [name] && ApplyTag(open, "/" + s) == DropLast(open, name)
  {
    hide Word, Lower, DropLast;
    assert forall i :: 0 <= i < |name| ==> PlainByte(name[i]);
    AnyCase(s, name);
    assert ("/" + s)[1..] == s;
    assert SameLetter(s[0], name[0]) && PlainByte(name[0]);
  }

  /** The reopened tags open what was open. */
  lemma {:induction false} OpenedAgain(base: Tags, tags: Tags)
    requires Known(tags)
    ensures Scan(base, OpenTags(tags)) == base + tags && Whole(OpenTags(tags))
    decreases |tags|
  {
    hide Scan, Whole;
    if tags == [] {
      ScanNothing(base);
      NoneBegun("");
    } else {
      var first, rest := "<" + tags[0] + ">", OpenTags(tags[1..]);
      OpeningTag(base, tags[0]);
      OpenedAgain(base + [tags[0]], tags[1..]);
      ScanConcat(base, first, rest);
      WholeConcat(first, rest);
      assert base + [tags[0]] + tags[1..] == base + tags;
    }
  }

  /** The closing tags close them, and nothing else. */
  lemma {:induction false} ClosedAll(base: Tags, tags: Tags)
    requires Known(tags)
    ensures Scan(base + tags, CloseTags(tags)) == base && Whole(CloseTags(tags))
    decreases |tags|
  {
    hide Scan, Whole;
    if tags == [] {
      assert base + tags == base;
      ScanNothing(base);
      NoneBegun("");
    } else {
      var inner, last := CloseTags(tags[1..]), "</" + tags[0] + ">";
      assert base + [tags[0]] + tags[1..] == base + tags;
      ClosedAll(base + [tags[0]], tags[1..]);
      assert CloseTags(tags) == inner + last;
      ClosingTag(base + [tags[0]], tags[0]);
      DropLastAt(base + [tags[0]], tags[0], |base|);
      ScanConcat(base + tags, inner, last);
      WholeConcat(inner, last);
    }
  }

  lemma {:induction false} DropKeepsKnown(out: Tags, name: string)
    requires Known(out)
    ensures Known(DropLast(out, name))
  {
    if out != [] {
      DropKeepsKnown(out[..|out|-1], name);
    }
  }

  lemma {:induction false} ScanKeepsKnown(open: Tags, s: string)
    requires Known(open)
    ensures Known(Scan(open, s))
    decreases |s|
  {
    hide Word, Lower;
    if s != "" {
      if s[0] != '<' {
        ScanKeepsKnown(open, s[1..]);
      } else {
        var end := Find(s, '>');
        if end < |s| {
          var tag := s[1..end];
          DropKeepsKnown(open, Lower(Word(if tag != "" && tag[0] == '/' then tag[1..] else tag)));
          ScanKeepsKnown(ApplyTag(open, tag), s[end+1..]);
        }
      }
    }
  }

  lemma {:induction false} PiecesOpenKnown(open: Tags, s: string, limit: int)
    requires Known(open)
    ensures forall i :: 0 <= i < |Split(open, s, limit)| ==> Known(Split(open, s, limit)[i].open)
    decreases |s|
  {
    hide Scan, CutAt, OpenTags, Known;
    if s != "" && |OpenTags(open)| + |s| > limit {
      var cut := CutAt(open, s, limit);
      ScanKeepsKnown(open, s[..cut]);
      PiecesOpenKnown(Scan(open, s[..cut]), s[cut..], limit);
    }
  }

  /** What a chunk leaves open. */
  lemma {:induction false} ChunkLeavesOpen(p: Piece)
    requires Known(p.open) && Whole(p.text)
    ensures Scan([], Chunk(p)) == if p.closed then [] else Scan(p.open, p.text)
  {
    hide Scan, Whole, Known, OpenTags, CloseTags;
    OpenedAgain([], p.open);
    ScanKeepsKnown(p.open, p.text);
    var after := Scan(p.open, p.text);
    ClosedAll([], after);
    assert [] + p.open == p.open && [] + after == after;
    ScanConcat([], OpenTags(p.open), p.text);
    WholeConcat(OpenTags(p.open), p.text);
    if p.closed {
      ScanConcat([], OpenTags(p.open) + p.text, CloseTags(after));
    } else {
      assert Chunk(p) == OpenTags(p.open) + p.text;
    }
  }

  /** Only the last piece can go without closing tags. */
  lemma {:induction false} OnlyLastIsBare(open: Tags, s: string, limit: int, i: nat)
    requires i < |Split(open, s, limit)| && !Split(open, s, limit)[i].closed
    ensures i == |Split(open, s, limit)| - 1
    decreases |s|
  {
    hide Scan, CutAt, OpenTags;
    if i > 0 {
      var cut := CutAt(open, s, limit);
      OnlyLastIsBare(Scan(open, s[..cut]), s[cut..], limit, i - 1);
    }
  }

  lemma {:induction false} TextsOfLast(ps: seq<Piece>, i: nat)
    requires i == |ps| - 1
    ensures Texts(ps) == Texts(ps[..i]) + ps[i].text
  {
    if i > 0 {
      TextsOfLast(ps[1..], i - 1);
      assert ps[..i][1..] == ps[1..][..i-1];
    } else {
      assert ps[1..] == [] && ps[..0] == [];
    }
  }

  lemma {:induction false} WholeTexts(ps: seq<Piece>, i: nat)
    requires i <= |ps| && forall k :: 0 <= k < i ==> Whole(ps[k].text)
    ensures Whole(Texts(ps[..i]))
  {
    hide Whole;
    if i > 0 {
      WholeTexts(ps[1..], i - 1);
      assert ps[..i][1..] == ps[1..][..i-1];
      WholeConcat(ps[0].text, Texts(ps[..i][1..]));
    } else {
      NoneBegun("");
    }
  }

  /** A clean message that closes all it opens is split into chunks that each close all they
      open. */
  lemma {:induction false} ChunksAreBalanced(s: string, limit: int, longest: nat, deepest: nat, i: nat)
    requires Clean(s, longest) && longest >= 1 && Shallow([], s, deepest) && limit >= 2 * deepest + longest
    requires Scan([], s) == []
    requires i < |Split([], s, limit)|
    ensures Scan([], Chunk(Split([], s, limit)[i])) == []
  {
    hide Split, Scan, Whole, Clean, Shallow, Chunk;
    var ps := Split([], s, limit);
    PiecesAreWhole([], s, limit, longest, deepest);
    PiecesOpenKnown([], s, limit);
    ChunkLeavesOpen(ps[i]);
    if !ps[i].closed {
      OnlyLastIsBare([], s, limit, i);
      TextIsKept([], s, limit);
      TextsOfLast(ps, i);
      CleanTextReopens(s, limit, longest, deepest, i);
      WholeTexts(ps, i);
      ScanConcat([], Texts(ps[..i]), ps[i].text);
    }
  }

  // ---- Tags that are lost ----

  function Repeat(c: char, n: nat): string {
    seq(n, _ => c)
  }

  /** A cut at the limit itself. */
  lemma {:induction false} PlainCut(s: string, limit: int)
    requires 1 <= limit < |s| && RuneStart(s[limit]) && Scan([], s[..limit]) == []
    requires forall k :: 1 <= k < limit ==> s[k] != '<' && s[k] != '&' && s[k] != '\n'
    ensures Split([], s, limit) == [Piece([], s[..limit], true)] + Split([], s[limit..], limit)
  {
    hide Scan, RuneSize;
    assert AtNewline(s, limit) == limit;
    assert Avoid(s, limit, '<', '>') == limit;
    assert Avoid(s, limit, '&', ';') == limit;
    assert SafeCutAt(s, limit) == limit;
    assert FirstCut([], s, limit) == limit;
    assert Fits([], s, limit, limit);
    assert CutAt([], s, limit) == limit;
  }

  /** A cut at a newline that is inside the tag the text begins with. */
  lemma {:induction false} CutInsideTag(s: string, limit: int)
    requires 3 <= limit < |s| && s[..3] == "<b\n"
    requires forall k :: 3 <= k < limit ==> s[k] != '\n'
    ensures Split([], s, limit) == [Piece([], "<b", true)] + Split([], s[2..], limit)
  {
    hide RuneSize, Scan;
    assert s[0] == s[..3][0] && s[1] == s[..3][1] && s[2] == s[..3][2];
    assert LastBefore(s, '\n', limit) == 2;
    assert Avoid(s, 2, '<', '>') == 2;
    assert Avoid(s, 2, '&', ';') == 2;
    assert SafeCutAt(s, 2) == 2;
    assert FirstCut([], s, limit) == 2;
    assert s[..2] == "<b";
    UnfinishedIsText([], "<b");
    assert Fits([], s, limit, 2);
    assert CutAt([], s, limit) == 2;
  }

  lemma {:induction false} RestFits(s: string, limit: int)
    requires 0 < |s| <= limit
    ensures Split([], s, limit) == [Piece([], s, false)]
  {
  }

  /** A text of one opening b tag with blanks after its name. */
  lemma {:induction false} OneTagOpens(blanks: string, after: string)
    requires blanks != "" && (forall k :: 0 <= k < |blanks| ==> blanks[k] in " \t\n\r")
    requires forall k :: 0 <= k < |after| ==> after[k] != '<'
    ensures Scan([], "<b" + blanks + ">" + after) == ["b"]
  {
    hide Scan;
    var body := "b" + blanks;
    assert body[1..] == blanks;
    assert Word(body) == "b";
    PlainName("b");
    assert forall k :: 0 <= k < |blanks| ==> blanks[k] != '>';
    var none: Tags := [];
    ScanOneTag(none, body);
    assert "<b" + blanks + ">" == "<" + body + ">";
    assert none + ["b"] == ["b"];
    ScanConcat(none, "<" + body + ">", after);
    NothingOpens(["b"], after);
  }

  lemma {:induction false} TextsOfTwo(a: Piece, b: Piece, c: Piece)
    ensures Texts([a, b, c][..2]) == a.text + b.text
  {
    assert [a, b, c][..2] == [a, b] && [a, b][1..] == [b] && [b][1..] == [];
    assert Texts([b]) == b.text;
  }

  /** At every limit, the one the bot uses included, a newline inside a tag can lose the tag although
      it fits: the first cut falls on the newline, and a later chunk does not reopen the tag. */
  lemma {:induction false} NewlineInATagLosesIt(limit: int, c: char)
    requires limit >= 3 && RuneStart(c) && c != '<' && c != '&' && c != '\n'
    ensures var ps := Split([], "<b\n>" + Repeat(c, limit), limit);
            |ps| == 3 && ps[2].open == [] && Scan([], Texts(ps[..2])) == ["b"]
  {
    hide Scan, Split;
    var s := "<b\n>" + Repeat(c, limit);
    var t := "\n>" + Repeat(c, limit);
    CutInsideTag(s, limit);
    assert s[2..] == t;
    NothingOpens([], t[..limit]);
    PlainCut(t, limit);
    RestFits(t[limit..], limit);
    var p, q, r := Piece([], "<b", true), Piece([], t[..limit], true), Piece([], t[limit..], false);
    assert Split([], s, limit) == [p, q, r];
    TextsOfTwo(p, q, r);
    assert p.text + q.text == "<b" + "\n" + ">" + Repeat(c, limit - 2);
    OneTagOpens("\n", Repeat(c, limit - 2));
  }

  /** So does, at every limit, a tag longer than the limit. */
  lemma {:induction false} TooSmallALimitLosesTags(limit: int, c: char)
    requires limit >= 3 && RuneStart(c) && c != '<' && c != '&' && c != '\n'
    ensures var ps := Split([], "<b" + Repeat(' ', limit) + ">" + Repeat(c, limit), limit);
            |ps| == 3 && ps[2].open == [] && Scan([], Texts(ps[..2])) == ["b"]
  {
    hide Scan, Split;
    var s := "<b" + Repeat(' ', limit) + ">" + Repeat(c, limit);
    var t := Repeat(' ', 2) + ">" + Repeat(c, limit);
    UnfinishedIsText([], s[..limit]);
    PlainCut(s, limit);
    assert s[limit..] == t;
    NothingOpens([], t[..limit]);
    PlainCut(t, limit);
    RestFits(t[limit..], limit);
    var p, q, r := Piece([], s[..limit], true), Piece([], t[..limit], true), Piece([], t[limit..], false);
    assert Split([], s, limit) == [p, q, r];
    TextsOfTwo(p, q, r);
    assert p.text + q.text == "<b" + Repeat(' ', limit) + ">" + Repeat(c, limit - 3);
    OneTagOpens(Repeat(' ', limit), Repeat(c, limit - 3));
  }
}
