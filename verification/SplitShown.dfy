/** What the chunks of a message show: which pieces are left out, exactly, and that nothing but white
    space is lost. */
module SplitShown {
  import opened SplitMessage
  import opened SplitProperties
  import opened SplitTags

  /** The chunk of piece i shows something. */
  ghost predicate Shows(ps: seq<Piece>, i: nat)
    requires i < |ps|
  {
    !White(Outside(Chunk(ps[i])))
  }

  predicate Increasing(at: seq<nat>) {
    forall j, k :: 0 <= j < k < |at| ==> at[j] < at[k]
  }

  /** The pieces of ps at the positions `at` are those that show something, in order. */
  ghost predicate Picks(ps: seq<Piece>, at: seq<nat>) {
    && Increasing(at) && (forall k :: 0 <= k < |at| ==> at[k] < |ps|)
    && forall i :: 0 <= i < |ps| ==> (i in at <==> Shows(ps, i))
  }

  function Later(at: seq<nat>): (later: seq<nat>)
    ensures |later| == |at| && forall k :: 0 <= k < |at| ==> later[k] == at[k] + 1
  {
    seq(|at|, k requires 0 <= k < |at| => at[k] + 1)
  }

  lemma {:induction false} InLater(at: seq<nat>, i: nat)
    ensures i + 1 in Later(at) <==> i in at
    ensures 0 !in Later(at)
  {
    if k :| 0 <= k < |at| && at[k] == i {
      assert Later(at)[k] == i + 1;
    }
  }

  lemma {:induction false} PicksCons(p: Piece, rest: seq<Piece>, at: seq<nat>)
    requires Picks(rest, at)
    ensures Picks([p] + rest, (if White(Outside(Chunk(p))) then [] else [0]) + Later(at))
  {
    hide White, Outside, Chunk, Later;
    var ps := [p] + rest;
    var more := (if White(Outside(Chunk(p))) then [] else [0]) + Later(at);
    InLater(at, 0);
    forall i | 0 <= i < |ps|
      ensures i in more <==> Shows(ps, i)
    {
      if i > 0 {
        assert ps[i] == rest[i-1];
        InLater(at, i - 1);
        assert i in more <==> i in Later(at);
      }
    }
  }

  /** Which pieces are shown. */
  lemma {:induction false} ShownIs(ps: seq<Piece>) returns (at: seq<nat>)
    ensures Picks(ps, at) && |Shown(ps)| == |at|
    ensures forall k :: 0 <= k < |at| ==> Shown(ps)[k] == Chunk(ps[at[k]])
  {
    hide Chunk, Blank, VisibleText, White, Outside;
    if ps == [] {
      at := [];
    } else {
      var rest := ps[1..];
      var t := ShownIs(rest);
      at := (if White(Outside(Chunk(ps[0]))) then [] else [0]) + Later(t);
      PicksCons(ps[0], rest, t);
      assert [ps[0]] + rest == ps;
      OutsideIs(Chunk(ps[0]));
      BlankIsWhite(VisibleText(Chunk(ps[0])));
      forall k | 0 <= k < |at|
        ensures Shown(ps)[k] == Chunk(ps[at[k]])
      {
        var d := |at| - |t|;
        if k >= d {
          assert at[k] == t[k-d] + 1;
        }
      }
    }
  }

  /** The chunks of a message over the limit are those of its pieces, in order, but for the pieces whose
      chunk has nothing but white space outside its tags; one empty chunk stands for none. */
  lemma {:induction false} MessageIs(s: string, limit: int) returns (at: seq<nat>)
    requires 0 < limit < |s|
    ensures var ps, chunks := Split([], s, limit), Message(s, limit);
            && Picks(ps, at)
            && (at == [] <==> chunks == [""])
            && (at != [] ==> |chunks| == |at| && forall k :: 0 <= k < |at| ==> chunks[k] == Chunk(ps[at[k]]))
  {
    hide Split, Chunk, Shown, White, Outside;
    var ps := Split([], s, limit);
    at := ShownIs(ps);
    if at != [] && Message(s, limit) == [""] {
      assert at[0] in at;
      assert Chunk(ps[at[0]]) == "";
      EmptyIsWhite();
      assert false;
    }
  }

  lemma {:induction false} EmptyIsWhite()
    ensures White(Outside(""))
  {
    OutsideIs("");
    BlankIsWhite("");
  }

  // ---- Nothing but white space is lost ----

  /** s without its white space. */
  ghost function Ink(s: string): string
    decreases |s|
  {
    if s == "" then ""
    else if cp :| SpacePoint(cp) && Utf8(cp) <= s then Ink(s[|Utf8(cp)|..])
    else [s[0]] + Ink(s[1..])
  }

  lemma {:induction false} InkIs(s: string)
    requires s != ""
    ensures Ink(s) == if SpaceSize(s) > 0 then Ink(s[SpaceSize(s)..]) else [s[0]] + Ink(s[1..])
  {
    hide SpaceSize, Utf8;
    if SpaceSize(s) > 0 {
      var cp := SpaceIs(s);
      assert Utf8(cp) <= s;
    }
    forall cp | SpacePoint(cp) && Utf8(cp) <= s
      ensures SpaceSize(s) == |Utf8(cp)|
    {
      SpaceBegins(cp, s[|Utf8(cp)|..]);
      assert s == Utf8(cp) + s[|Utf8(cp)|..];
    }
  }

  /** Only white space has no ink. */
  lemma {:induction false} BlankHasNoInk(s: string)
    requires Blank(s)
    ensures Ink(s) == ""
    decreases |s|
  {
    hide SpaceSize;
    if s != "" {
      InkIs(s);
      BlankHasNoInk(s[SpaceSize(s)..]);
    }
  }

  predicate InRune(c: char) {
    0x80 <= c as int < 0xC0
  }

  lemma {:induction false} NoSpaceInRune(s: string)
    requires s != "" && InRune(s[0])
    ensures SpaceSize(s) == 0
  {
  }

  /** Where white space begins, a rune does. */
  lemma {:induction false} SpaceIsRune(s: string)
    requires SpaceSize(s) > 0
    ensures SpaceSize(s) == RuneSize(s)
  {
  }

  lemma {:induction false} RuneOfConcat(a: string, b: string)
    requires a != "" && WellFormed(a)
    ensures RuneSize(a + b) == RuneSize(a) && SpaceSize(a + b) == SpaceSize(a)
    ensures WellFormed(a[RuneSize(a)..]) && forall k :: 0 < k < RuneSize(a) ==> InRune(a[k])
  {
    hide WellFormed;
    RuneOrAscii(a);
    var s := a + b;
    assert s[0] == a[0];
    assert |a| > 1 ==> s[1] == a[1];
    assert |a| > 2 ==> s[2] == a[2];
    assert |a| > 3 ==> s[3] == a[3];
  }

  lemma {:induction false} RuneOrAscii(s: string)
    requires s != "" && WellFormed(s)
    ensures (RuneSize(s) == 1 ==> s[0] as int < 0x80) && WellFormed(s[RuneSize(s)..])
  {
    hide RuneSize;
  }

  /** Behind whole runes the rest can be stripped by itself; a begins inside a rune, with `left` bytes
      of it to go. */
  lemma {:induction false} InkConcat(a: string, b: string, left: nat)
    requires left <= |a| && (forall k :: 0 <= k < left ==> InRune(a[k])) && WellFormed(a[left..])
    ensures Ink(a + b) == Ink(a) + Ink(b)
    decreases |a|
  {
    hide Ink, SpaceSize, RuneSize, WellFormed, InRune;
    if a == "" {
      assert a + b == b;
      NoInk();
    } else {
      InkIs(a);
      InkIs(a + b);
      assert (a + b)[0] == a[0] && (a + b)[1..] == a[1..] + b;
      if left > 0 {
        NoSpaceInRune(a);
        NoSpaceInRune(a + b);
        assert a[1..][left-1..] == a[left..];
        InkConcat(a[1..], b, left - 1);
      } else {
        assert a[0..] == a;
        RuneOfConcat(a, b);
        var n := RuneSize(a);
        assert a[1..][n-1..] == a[n..];
        if SpaceSize(a) > 0 {
          SpaceIsRune(a);
          assert (a + b)[n..] == a[n..] + b;
          assert a[n..][0..] == a[n..];
          InkConcat(a[n..], b, 0);
        } else {
          InkConcat(a[1..], b, n - 1);
        }
      }
    }
  }

  lemma {:induction false} NoInk()
    ensures Ink("") == ""
  {
  }

  lemma {:induction false} VisibleConcat(a: string, b: string)
    requires Whole(a)
    ensures VisibleText(a + b) == VisibleText(a) + VisibleText(b)
    decreases |a|
  {
    if a == "" {
      assert a + b == b;
    } else if a[0] != '<' {
      assert (a + b)[1..] == a[1..] + b;
      VisibleConcat(a[1..], b);
    } else {
      FindIn(a, b, '>');
      var end := Find(a, '>');
      assert (a + b)[end+1..] == a[end+1..] + b;
      VisibleConcat(a[end+1..], b);
    }
  }

  lemma {:induction false} TagIsInvisible(body: string)
    requires '>' !in body
    ensures VisibleText("<" + body + ">") == "" && Whole("<" + body + ">")
  {
    var s := "<" + body + ">";
    FindAt(s, '>', |body| + 1);
    assert s[|body|+2..] == "";
  }

  lemma {:induction false} NamesHaveNoEnd(name: string)
    requires name in SPLIT_TAGS
    ensures '>' !in name && '>' !in "/" + name
  {
  }

  lemma {:induction false} OpenTagsAreInvisible(tags: Tags)
    requires Known(tags)
    ensures VisibleText(OpenTags(tags)) == "" && Whole(OpenTags(tags))
  {
    hide VisibleText, Whole;
    if tags == [] {
      NothingVisible();
    } else {
      NamesHaveNoEnd(tags[0]);
      TagIsInvisible(tags[0]);
      OpenTagsAreInvisible(tags[1..]);
      VisibleConcat("<" + tags[0] + ">", OpenTags(tags[1..]));
      WholeConcat("<" + tags[0] + ">", OpenTags(tags[1..]));
    }
  }

  lemma {:induction false} CloseTagsAreInvisible(tags: Tags)
    requires Known(tags)
    ensures VisibleText(CloseTags(tags)) == "" && Whole(CloseTags(tags))
  {
    hide VisibleText, Whole;
    if tags == [] {
      NothingVisible();
    } else {
      NamesHaveNoEnd(tags[0]);
      TagIsInvisible("/" + tags[0]);
      assert "</" + tags[0] + ">" == "<" + ("/" + tags[0]) + ">";
      CloseTagsAreInvisible(tags[1..]);
      VisibleConcat(CloseTags(tags[1..]), "</" + tags[0] + ">");
      WholeConcat(CloseTags(tags[1..]), "</" + tags[0] + ">");
      assert CloseTags(tags) == CloseTags(tags[1..]) + ("</" + tags[0] + ">");
    }
  }

  lemma {:induction false} NothingVisible()
    ensures VisibleText("") == "" && Whole("")
  {
  }

  /** The reopened and the closing tags show nothing. */
  lemma {:induction false} ChunkShowsText(p: Piece)
    requires Known(p.open) && (p.closed ==> Whole(p.text))
    ensures VisibleText(Chunk(p)) == VisibleText(p.text)
  {
    hide VisibleText, Whole, Scan, OpenTags, CloseTags;
    OpenTagsAreInvisible(p.open);
    VisibleConcat(OpenTags(p.open), p.text);
    if p.closed {
      ScanKeepsKnown(p.open, p.text);
      CloseTagsAreInvisible(Scan(p.open, p.text));
      WholeConcat(OpenTags(p.open), p.text);
      VisibleConcat(OpenTags(p.open) + p.text, CloseTags(Scan(p.open, p.text)));
    } else {
      assert Chunk(p) == OpenTags(p.open) + p.text;
    }
  }

  lemma {:induction false} AfterAscii(s: string, i: nat)
    requires WellFormed(s) && i < |s| && s[i] as int < 0x80
    ensures WellFormed(s[i+1..])
    decreases |s|
  {
    hide RuneSize, WellFormed;
    assert s + "" == s;
    RuneOfConcat(s, "");
    var n := RuneSize(s);
    if i < n {
      if i == 0 {
        AsciiIsRune(s);
      } else {
        assert false;
      }
    } else {
      assert s[n..][i-n] == s[i] && s[n..][i-n+1..] == s[i+1..];
      AfterAscii(s[n..], i - n);
    }
  }

  lemma {:induction false} AsciiIsRune(s: string)
    requires s != "" && s[0] as int < 0x80
    ensures RuneSize(s) == 1
  {
  }

  lemma {:induction false} RuneIsVisible(s: string, n: nat)
    requires n <= |s| && forall k :: 0 <= k < n ==> s[k] != '<'
    ensures VisibleText(s) == s[..n] + VisibleText(s[n..])
  {
    if n == 0 {
      assert s[0..] == s;
    } else {
      RuneIsVisible(s[1..], n - 1);
      assert s[1..][n-1..] == s[n..] && [s[0]] + s[1..][..n-1] == s[..n];
    }
  }

  lemma {:induction false} WellFormedCons(r: string, rest: string)
    requires r != "" && RuneSize(r) == |r| && (|r| == 1 ==> r[0] as int < 0x80) && WellFormed(rest)
    ensures WellFormed(r + rest)
  {
    hide WellFormed;
    var s := r + rest;
    assert s[0] == r[0];
    assert |r| > 1 ==> s[1] == r[1];
    assert |r| > 2 ==> s[2] == r[2];
    assert |r| > 3 ==> s[3] == r[3];
    assert |r| == 1 ==> RuneSize(s) == 1 by {
      if |r| == 1 {
        AsciiIsRune(s);
      }
    }
    assert RuneSize(s) == |r| && s[|r|..] == rest;
    WellFormedStep(s);
  }

  lemma {:induction false} WellFormedStep(s: string)
    requires s != "" && (RuneSize(s) == 1 ==> s[0] as int < 0x80) && WellFormed(s[RuneSize(s)..])
    ensures WellFormed(s)
  {
    hide RuneSize;
  }

  /** The text outside the tags of UTF-8 text is UTF-8 text. */
  lemma {:induction false} VisibleIsWellFormed(s: string)
    requires WellFormed(s)
    ensures WellFormed(VisibleText(s))
    decreases |s|
  {
    hide RuneSize, WellFormed;
    if s == "" {
    } else if s[0] != '<' {
      assert s + "" == s;
      RuneOfConcat(s, "");
      RuneOrAscii(s);
      var n := RuneSize(s);
      hide VisibleText;
      RuneIsVisible(s, n);
      VisibleIsWellFormed(s[n..]);
      RuneOfPrefix(s, n);
      WellFormedCons(s[..n], VisibleText(s[n..]));
    } else if Find(s, '>') < |s| {
      AfterAscii(s, Find(s, '>'));
      VisibleIsWellFormed(s[Find(s, '>')+1..]);
    }
  }

  // ---- The chunks together ----

  ghost function InkOf(chunks: seq<string>): string {
    if chunks == [] then "" else Ink(Outside(chunks[0])) + InkOf(chunks[1..])
  }

  /** No piece but the last is cut inside a tag. */
  ghost predicate Uncut(ps: seq<Piece>) {
    forall i :: 0 <= i < |ps| && (ps[i].closed || i < |ps| - 1) ==> Whole(ps[i].text)
  }

  lemma {:induction false} PiecesKeepInk(ps: seq<Piece>)
    requires Uncut(ps) && forall i :: 0 <= i < |ps| ==> WellFormed(ps[i].text) && Known(ps[i].open)
    ensures InkOf(Shown(ps)) == Ink(VisibleText(Texts(ps)))
  {
    hide Ink, VisibleText, WellFormed, Whole, Known, Chunk, Blank, Outside;
    if ps == [] {
      NothingVisible();
      NoInk();
    } else {
      var p, rest := ps[0], ps[1..];
      assert forall i :: 0 <= i < |rest| ==> rest[i] == ps[i+1];
      PiecesKeepInk(rest);
      ChunkShowsText(p);
      OutsideIs(Chunk(p));
      if rest == [] {
        assert Texts(rest) == "" && p.text + "" == p.text;
        NothingVisible();
        NoInk();
        assert Ink(VisibleText(p.text)) + "" == Ink(VisibleText(p.text));
      } else {
        assert Whole(p.text);
        VisibleConcat(p.text, Texts(rest));
        VisibleIsWellFormed(p.text);
        assert VisibleText(p.text)[0..] == VisibleText(p.text);
        InkConcat(VisibleText(p.text), VisibleText(Texts(rest)), 0);
      }
      if Blank(VisibleText(Chunk(p))) {
        BlankHasNoInk(VisibleText(Chunk(p)));
        assert Shown(ps) == Shown(rest);
      } else {
        assert Shown(ps)[0] == Chunk(p) && Shown(ps)[1..] == Shown(rest);
      }
    }
  }

  /** Nothing but white space is lost: when no cut is inside a tag, the chunks stripped of tags and white
      space are together the text so stripped. */
  lemma {:induction false} InkIsKept(s: string, limit: int)
    requires WellFormed(s) && Uncut(Split([], s, limit))
    ensures InkOf(Message(s, limit)) == Ink(Outside(s))
  {
    hide Ink, Outside, Split, Shown, WellFormed, Uncut, VisibleText;
    OutsideIs(s);
    assert [s][1..] == [] && [""][1..] == [];
    assert InkOf([]) == "";
    if 0 < limit < |s| {
      var ps := Split([], s, limit);
      RunesStayWhole([], s, limit);
      PiecesOpenKnown([], s, limit);
      PiecesKeepInk(ps);
      TextIsKept([], s, limit);
      if Shown(ps) == [] {
        OutsideIs("");
        NothingVisible();
        NoInk();
      }
    }
  }

  /** So it is for every clean message with room. */
  lemma {:induction false} CleanInkIsKept(s: string, limit: int, longest: nat, deepest: nat)
    requires Clean(s, longest) && longest >= 1 && Shallow([], s, deepest) && limit >= 2 * deepest + longest
    requires WellFormed(s)
    ensures InkOf(Message(s, limit)) == Ink(Outside(s))
  {
    hide Ink, Outside, Split, Message, WellFormed, Clean, Shallow, Whole;
    PiecesAreWhole([], s, limit, longest, deepest);
    InkIsKept(s, limit);
  }
}
