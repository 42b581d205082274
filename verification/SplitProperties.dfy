/** What splitting a message keeps: the text, the limit, whole runes, and the tags. */
module SplitProperties {
  import opened SplitMessage

  function Texts(ps: seq<Piece>): string {
    if ps == [] then "" else ps[0].text + Texts(ps[1..])
  }

  /** The pieces are the text, in order, and none is empty. */
  lemma {:induction false} TextIsKept(open: Tags, s: string, limit: int)
    ensures Texts(Split(open, s, limit)) == s
    ensures forall i :: 0 <= i < |Split(open, s, limit)| ==> Split(open, s, limit)[i].text != ""
    decreases |s|
  {
    hide Scan, CutAt, OpenTags;
    if s != "" && |OpenTags(open)| + |s| > limit {
      var cut := CutAt(open, s, limit);
      TextIsKept(Scan(open, s[..cut]), s[cut..], limit);
    }
  }

  // ---- The limit ----

  lemma {:induction false} RuneOfOne(s: string)
    requires s != "" && (|s| > 1 ==> RuneStart(s[1]))
    ensures RuneSize(s) == 1
  {
  }

  lemma {:induction false} SafeCutStartsRune(s: string, cut: nat)
    requires cut <= |s|
    ensures var c := SafeCutAt(s, cut); 0 < c < |s| ==> RuneStart(s[c])
  {
    hide Avoid;
  }

  /** A cut before a rune, at the end, or after the first rune. */
  predicate RuneCut(s: string, cut: nat) {
    1 <= cut <= |s| && (cut == RuneSize(s) || cut == |s| || RuneStart(s[cut]))
  }

  lemma {:induction false} ShrinkFits(open: Tags, s: string, limit: int, cut: nat)
    requires RuneCut(s, cut)
    ensures var c := Shrink(open, s, limit, cut); RuneCut(s, c) && (Fits(open, s, limit, c) || c == RuneSize(s))
    decreases cut
  {
    hide RuneSize, SafeCutAt, AtNewline, Fits, RuneStart;
    if Fits(open, s, limit, cut) {
    } else if cut == 1 {
      if RuneSize(s) != 1 {
        RuneOfOne(s);
      }
    } else {
      SafeCutStartsRune(s, AtNewline(s, cut - 1));
      var next := SafeCutAt(s, AtNewline(s, cut - 1));
      if next >= 1 {
        ShrinkFits(open, s, limit, next);
      }
    }
  }

  lemma {:induction false} CutFits(open: Tags, s: string, limit: int)
    requires s != ""
    ensures var c := CutAt(open, s, limit); RuneCut(s, c) && (Fits(open, s, limit, c) || c == RuneSize(s))
  {
    hide RuneSize, SafeCutAt, AtNewline, Fits, Shrink, RuneStart;
    var room := limit - (|OpenTags(open)| + |CloseTags(open)|);
    var budget := if room < 1 then 1 else if room > |s| then |s| else room;
    SafeCutStartsRune(s, AtNewline(s, budget));
    ShrinkFits(open, s, limit, FirstCut(open, s, limit));
  }

  /** Every chunk, reopened and closing tags included, is within the limit, unless it carries no
      more than the first rune of the text that was left. */
  lemma {:induction false} ChunksFit(open: Tags, s: string, limit: int, i: nat)
    requires i < |Split(open, s, limit)|
    ensures var ps := Split(open, s, limit);
            Texts(ps[i..]) != "" && (|Chunk(ps[i])| <= limit || |ps[i].text| == RuneSize(Texts(ps[i..])))
    decreases |s|
  {
    hide Scan, CutAt, OpenTags, CloseTags, RuneSize;
    var ps := Split(open, s, limit);
    if i == 0 {
      TextIsKept(open, s, limit);
      assert ps[0..] == ps;
      if |OpenTags(open)| + |s| > limit {
        CutFits(open, s, limit);
      }
    } else {
      var cut := CutAt(open, s, limit);
      var rest := Split(Scan(open, s[..cut]), s[cut..], limit);
      ChunksFit(Scan(open, s[..cut]), s[cut..], limit, i - 1);
      assert ps[i..] == rest[i-1..];
    }
  }

  // ---- Runes ----

  /** UTF-8 text. */
  predicate WellFormed(s: string)
    decreases |s|
  {
    s == "" || ((RuneSize(s) == 1 ==> s[0] as int < 0x80) && WellFormed(s[RuneSize(s)..]))
  }

  lemma {:induction false} RuneInside(s: string, k: nat)
    requires s != "" && 0 < k < RuneSize(s)
    ensures !RuneStart(s[k])
  {
  }

  lemma {:induction false} RuneOfPrefix(s: string, c: nat)
    requires s != "" && RuneSize(s) <= c <= |s|
    ensures RuneSize(s[..c]) == RuneSize(s)
  {
  }

  lemma {:induction false} CutKeepsRunes(s: string, c: nat)
    requires WellFormed(s) && RuneCut(s, c)
    ensures WellFormed(s[..c]) && WellFormed(s[c..])
    decreases |s|
  {
    hide RuneSize, RuneStart;
    var n := RuneSize(s);
    if c == |s| {
      assert s[..c] == s;
    } else if c < n {
      RuneInside(s, c);
      assert false;
    } else {
      RuneOfPrefix(s, c);
      var rest := s[n..];
      assert s[..c][n..] == rest[..c-n];
      if c > n {
        assert rest[c-n] == s[c];
        CutKeepsRunes(rest, c - n);
        assert rest[c-n..] == s[c..];
      } else {
        assert rest[..0] == "";
      }
    }
  }

  /** No rune of UTF-8 text is cut in two. */
  lemma {:induction false} RunesStayWhole(open: Tags, s: string, limit: int)
    requires WellFormed(s)
    ensures forall i :: 0 <= i < |Split(open, s, limit)| ==> WellFormed(Split(open, s, limit)[i].text)
    decreases |s|
  {
    hide Scan, CutAt, OpenTags, WellFormed, RuneCut, Fits;
    if s != "" && |OpenTags(open)| + |s| > limit {
      var cut := CutAt(open, s, limit);
      CutFits(open, s, limit);
      CutKeepsRunes(s, cut);
      RunesStayWhole(Scan(open, s[..cut]), s[cut..], limit);
    }
  }

  // ---- The tags open before a piece ----

  /** No tag of s is unfinished. */
  predicate Whole(s: string)
    decreases |s|
  {
    if s == "" then true
    else if s[0] != '<' then Whole(s[1..])
    else
      var end := Find(s, '>');
      end < |s| && Whole(s[end+1..])
  }

  lemma {:induction false} FindIn(a: string, b: string, c: char)
    ensures Find(a + b, c) == if Find(a, c) < |a| then Find(a, c) else |a| + Find(b, c)
  {
    if a == "" {
      assert a + b == b;
    } else {
      assert (a + b)[1..] == a[1..] + b;
      if a[0] != c {
        FindIn(a[1..], b, c);
      }
    }
  }

  /** Scanning a text whose tags are finished and going on is scanning the whole. */
  lemma {:induction false} ScanConcat(open: Tags, a: string, b: string)
    requires Whole(a)
    ensures Scan(open, a + b) == Scan(Scan(open, a), b)
    decreases |a|
  {
    hide ApplyTag;
    if a == "" {
      assert a + b == b;
    } else if a[0] != '<' {
      assert (a + b)[1..] == a[1..] + b;
      ScanConcat(open, a[1..], b);
    } else {
      FindIn(a, b, '>');
      var end := Find(a, '>');
      assert (a + b)[1..end] == a[1..end] && (a + b)[end+1..] == a[end+1..] + b;
      ScanConcat(ApplyTag(open, a[1..end]), a[end+1..], b);
    }
  }

  lemma {:induction false} WholeConcat(a: string, b: string)
    requires Whole(a)
    ensures Whole(a + b) <==> Whole(b)
    decreases |a|
  {
    if a == "" {
      assert a + b == b;
    } else if a[0] != '<' {
      assert (a + b)[1..] == a[1..] + b;
      WholeConcat(a[1..], b);
    } else {
      FindIn(a, b, '>');
      var end := Find(a, '>');
      assert (a + b)[end+1..] == a[end+1..] + b;
      WholeConcat(a[end+1..], b);
    }
  }

  lemma {:induction false} ScanNothing(open: Tags)
    ensures Scan(open, "") == open
  {
  }

  // ---- Text whose tags are never cut ----

  /** Every tag is finished, no longer than longest, holds no '<', no '&' and no newline, and ends
      where a rune ends. */
  predicate Clean(s: string, longest: nat)
    decreases |s|
  {
    if s == "" then true
    else if s[0] != '<' then Clean(s[1..], longest)
    else
      var end := Find(s, '>');
      && end < |s| && end + 1 <= longest
      && (forall k :: 0 < k < end ==> s[k] != '<' && s[k] != '&' && s[k] != '\n')
      && (end + 1 < |s| ==> RuneStart(s[end+1]))
      && Clean(s[end+1..], longest)
  }

  /** Wherever no tag is unfinished, closing what is open takes at most deepest bytes. */
  ghost predicate Shallow(open: Tags, s: string, deepest: nat) {
    forall c :: 0 <= c <= |s| && Whole(s[..c]) ==> |CloseTags(Scan(open, s[..c]))| <= deepest
  }

  /** The tag that a position is inside of: where it starts and where it ends. */
  predicate Inside(s: string, c: nat, p: nat, e: nat) {
    && p < c <= e < |s|
    && s[p] == '<' && s[e] == '>'
    && (forall k :: p < k < e ==> s[k] != '<' && s[k] != '>' && s[k] != '&' && s[k] != '\n')
    && (e + 1 < |s| ==> RuneStart(s[e+1]))
  }

  /** The length of the tag that s begins with, 1 when it begins with none. */
  function Head(s: string): nat
    requires s != ""
  {
    if s[0] == '<' then Find(s, '>') + 1 else 1
  }

  lemma {:induction false} CleanHead(s: string, longest: nat)
    requires s != "" && Clean(s, longest)
    ensures 1 <= Head(s) <= |s| && Clean(s[Head(s)..], longest)
    ensures forall k :: 0 < k < Head(s) ==> s[k] != '<' && Inside(s, k, 0, Head(s) - 1)
    ensures s[0] == '<' ==> s[Head(s)-1] == '>' && Head(s) > 1
  {
    if s[0] == '<' {
      var end := Find(s, '>');
      assert s[end] == '>' && end > 0;
      forall k | 0 < k < end + 1
        ensures s[k] != '<' && Inside(s, k, 0, end)
      {
      }
    }
  }

  lemma {:induction false} WholePastHead(s: string, c: nat)
    requires s != "" && Head(s) <= c <= |s|
    ensures Whole(s[..c]) <==> Whole(s[Head(s)..][..c-Head(s)])
  {
    assert s[..c][Head(s)..] == s[Head(s)..][..c-Head(s)];
  }

  lemma {:induction false} InsideRest(s: string, n: nat, c: nat, p: nat, e: nat)
    requires n <= |s| && Inside(s[n..], c, p, e)
    ensures Inside(s, c + n, p + n, e + n)
  {
    assert forall k :: n <= k < |s| ==> s[k] == s[n..][k-n];
  }

  /** Every tag begun before c is finished before c. */
  predicate Finished(s: string, c: nat)
    requires c <= |s|
  {
    forall q :: 0 <= q < c && s[q] == '<' ==> '>' in s[q..c]
  }

  lemma {:induction false} FinishedRest(s: string, n: nat, c: nat)
    requires 1 <= n <= c <= |s| && Finished(s[n..], c - n)
    requires forall k :: 0 < k < n ==> s[k] != '<'
    requires s[0] == '<' ==> s[n-1] == '>'
    ensures Finished(s, c)
  {
    forall q | 0 <= q < c && s[q] == '<'
      ensures '>' in s[q..c]
    {
      if q == 0 {
        assert s[q..c][n-1] == '>';
      } else {
        assert s[n..][q-n] == '<' && s[n..][q-n..c-n] == s[q..c];
      }
    }
  }

  /** In clean text a position is outside the tags, all those before it being finished, or
      inside of one that starts outside. */
  lemma {:induction false} WhereItIs(s: string, longest: nat, c: nat) returns (p: nat, e: nat)
    requires Clean(s, longest) && c <= |s|
    ensures if Whole(s[..c]) then Finished(s, c) else Inside(s, c, p, e) && Whole(s[..p])
    decreases |s|
  {
    hide Clean, Inside, Finished, Head;
    p, e := 0, 0;
    if c == 0 {
      NoneBegun(s);
    } else {
      CleanHead(s, longest);
      var n := Head(s);
      if c < n {
        e := n - 1;
        NoneBegun(s);
        assert s[c] != '<';
        assert Inside(s, c, p, e);
        if Whole(s[..c]) {
          PastHead(s, c);
          assert false;
        }
      } else {
        hide Whole;
        p, e := WhereItIs(s[n..], longest, c - n);
        WholePastHead(s, c);
        if Whole(s[..c]) {
          FinishedRest(s, n, c);
        } else {
          InsideRest(s, n, c - n, p, e);
          p, e := p + n, e + n;
          WholePastHead(s, p);
        }
      }
    }
  }

  lemma {:induction false} NoneBegun(s: string)
    ensures Finished(s, 0) && Whole(s[..0])
  {
  }

  lemma {:induction false} PastHead(s: string, c: nat)
    requires s != "" && 0 < c <= |s| && Whole(s[..c])
    ensures Head(s) <= c
  {
  }

  /** A byte that no tag holds is outside the tags. */
  lemma {:induction false} OutsideByte(s: string, longest: nat, c: nat)
    requires Clean(s, longest) && c < |s| && (s[c] == '&' || s[c] == '\n' || s[c] == '<')
    ensures Whole(s[..c])
  {
    hide Clean, Whole;
    var p, e := WhereItIs(s, longest, c);
  }

  lemma {:induction false} AvoidTagLands(s: string, longest: nat, cut: nat)
    requires s != "" && Clean(s, longest) && Head(s) <= cut <= |s|
    ensures var c := Avoid(s, cut, '<', '>'); Whole(s[..c]) && Head(s) <= c
  {
    hide Clean, Whole;
    var p, e := WhereItIs(s, longest, cut);
    if !Whole(s[..cut]) {
      assert LastBefore(s, '<', cut) == p;
      assert '>' !in s[p..cut];
      assert p != 0;
      PastHead(s, p);
    }
  }

  lemma {:induction false} AvoidEntityLands(s: string, longest: nat, cut: nat)
    requires s != "" && Clean(s, longest) && Head(s) <= cut <= |s| && Whole(s[..cut])
    ensures var c := Avoid(s, cut, '&', ';'); Whole(s[..c]) && Head(s) <= c
  {
    hide Clean, Whole, Head;
    var c := Avoid(s, cut, '&', ';');
    if c != cut {
      OutsideByte(s, longest, c);
      PastHead(s, c);
    }
  }

  lemma {:induction false} RuneBackLands(s: string, longest: nat, cut: nat)
    requires s != "" && Clean(s, longest) && Head(s) <= cut <= |s| && Whole(s[..cut])
    ensures var c := RuneBack(s, cut); Whole(s[..c]) && (s[0] == '<' ==> Head(s) <= c)
  {
    hide Clean, Whole, RuneBack;
    var c := RuneBack(s, cut);
    if c < cut {
      RuneBackMoved(s, cut);
      var p, e := WhereItIs(s, longest, c);
      var p2, e2 := WhereItIs(s, longest, cut);
      if !Whole(s[..c]) {
        assert false;
      }
    }
  }

  lemma {:induction false} RuneBackMoved(s: string, cut: nat)
    requires cut <= |s| && RuneBack(s, cut) < cut
    ensures cut < |s|
  {
  }

  lemma {:induction false} NewlineLands(s: string, longest: nat, cut: nat)
    requires s != "" && Clean(s, longest) && Head(s) <= cut <= |s|
    ensures Head(s) <= AtNewline(s, cut) <= |s|
  {
    hide Clean, Whole, Head;
    var c := AtNewline(s, cut);
    if c != cut {
      OutsideByte(s, longest, c);
      PastHead(s, c);
    }
  }

  /** Backing off from any place past the first tag lands outside the tags. */
  lemma {:induction false} BackOffLands(s: string, longest: nat, cut: nat)
    requires s != "" && Clean(s, longest) && Head(s) <= cut <= |s|
    ensures var c := SafeCutAt(s, AtNewline(s, cut)); Whole(s[..c]) && (s[0] == '<' ==> Head(s) <= c)
  {
    hide Clean, Whole, Head, Avoid, RuneBack, AtNewline;
    NewlineLands(s, longest, cut);
    var a := AtNewline(s, cut);
    AvoidTagLands(s, longest, a);
    var b := Avoid(s, a, '<', '>');
    AvoidEntityLands(s, longest, b);
    RuneBackLands(s, longest, Avoid(s, b, '&', ';'));
  }

  lemma {:induction false} FirstRuneIsWhole(s: string, n: nat)
    requires s != "" && s[0] != '<' && n <= RuneSize(s)
    ensures Whole(s[..n])
    decreases n
  {
    hide RuneSize;
    if n > 0 {
      FirstRuneIsWhole(s, n - 1);
      if n > 1 {
        RuneInside(s, n - 1);
      }
      assert s[..n] == s[..n-1] + [s[n-1]];
      WholeConcat(s[..n-1], [s[n-1]]);
    } else {
      assert s[..0] == "";
    }
  }

  lemma {:induction false} OpenIsShorter(tags: Tags)
    ensures |OpenTags(tags)| <= |CloseTags(tags)|
  {
    if tags != [] {
      OpenIsShorter(tags[1..]);
    }
  }

  lemma {:induction false} HeadIsShort(s: string, longest: nat)
    requires s != "" && Clean(s, longest) && longest >= 1
    ensures Head(s) <= longest && Head(s) <= |s|
  {
  }

  /** A cut outside the tags, past the tag the text begins with. */
  predicate GoodCut(s: string, c: nat)
    requires s != ""
  {
    c <= |s| && Whole(s[..c]) && Head(s) <= c
  }

  lemma {:induction false} GoodFits(open: Tags, s: string, limit: int, longest: nat, deepest: nat, c: nat)
    requires s != "" && GoodCut(s, c) && c <= longest
    requires Shallow(open, s, deepest) && limit >= 2 * deepest + longest
    ensures Fits(open, s, limit, c)
  {
    hide Whole, Scan, CloseTags, OpenTags;
    ShallowStart(open, s, deepest);
  }

  lemma {:induction false} ShallowStart(open: Tags, s: string, deepest: nat)
    requires Shallow(open, s, deepest)
    ensures |OpenTags(open)| <= |CloseTags(open)| <= deepest
  {
    hide CloseTags, OpenTags;
    assert s[..0] == "";
    assert Whole(s[..0]);
    OpenIsShorter(open);
    assert Scan(open, s[..0]) == open;
  }

  lemma {:induction false} BackOffIsGood(s: string, longest: nat, cut: nat)
    requires s != "" && Clean(s, longest) && longest >= 1 && Head(s) <= cut <= |s|
    ensures var c := SafeCutAt(s, AtNewline(s, cut)); GoodCut(s, if c < 1 then RuneSize(s) else c)
  {
    hide Clean, Whole, SafeCutAt, AtNewline, RuneSize;
    BackOffLands(s, longest, cut);
    if SafeCutAt(s, AtNewline(s, cut)) < 1 {
      FirstRuneIsWhole(s, RuneSize(s));
    }
  }

  lemma {:induction false} ShrinkIsGood(open: Tags, s: string, limit: int, longest: nat, deepest: nat, cut: nat)
    requires s != "" && Clean(s, longest) && longest >= 1 && GoodCut(s, cut)
    requires Shallow(open, s, deepest) && limit >= 2 * deepest + longest
    ensures GoodCut(s, Shrink(open, s, limit, cut))
    decreases cut
  {
    hide Clean, Whole, Shallow, Fits, SafeCutAt, AtNewline, RuneSize, Head;
    HeadIsShort(s, longest);
    if !Fits(open, s, limit, cut) && cut > 1 {
      if cut <= Head(s) {
        GoodFits(open, s, limit, longest, deepest, cut);
      }
      BackOffIsGood(s, longest, cut - 1);
      var next := SafeCutAt(s, AtNewline(s, cut - 1));
      if next >= 1 {
        ShrinkIsGood(open, s, limit, longest, deepest, next);
      }
    }
  }

  /** With room for the deepest nesting twice and one tag, no tag is cut. */
  lemma {:induction false} CutIsGood(open: Tags, s: string, limit: int, longest: nat, deepest: nat)
    requires s != "" && Clean(s, longest) && longest >= 1
    requires Shallow(open, s, deepest) && limit >= 2 * deepest + longest
    ensures GoodCut(s, CutAt(open, s, limit))
  {
    hide Clean, Whole, Shallow, Fits, SafeCutAt, AtNewline, RuneSize, Head, Shrink;
    HeadIsShort(s, longest);
    ShallowStart(open, s, deepest);
    var room := limit - (|OpenTags(open)| + |CloseTags(open)|);
    var budget := if room < 1 then 1 else if room > |s| then |s| else room;
    BackOffIsGood(s, longest, budget);
    ShrinkIsGood(open, s, limit, longest, deepest, FirstCut(open, s, limit));
  }

  lemma {:induction false} CleanAfter(a: string, b: string, longest: nat)
    requires Clean(a + b, longest) && Whole(a)
    ensures Clean(b, longest)
    decreases |a|
  {
    if a == "" {
      assert a + b == b;
    } else if a[0] != '<' {
      assert (a + b)[1..] == a[1..] + b;
      CleanAfter(a[1..], b, longest);
    } else {
      FindIn(a, b, '>');
      var end := Find(a, '>');
      assert (a + b)[end+1..] == a[end+1..] + b;
      CleanAfter(a[end+1..], b, longest);
    }
  }

  lemma {:induction false} ShallowAfter(open: Tags, a: string, b: string, deepest: nat)
    requires Shallow(open, a + b, deepest) && Whole(a)
    ensures Shallow(Scan(open, a), b, deepest)
  {
    hide Scan, Whole, CloseTags;
    forall c | 0 <= c <= |b| && Whole(b[..c])
      ensures |CloseTags(Scan(Scan(open, a), b[..c]))| <= deepest
    {
      assert (a + b)[..|a| + c] == a + b[..c];
      WholeConcat(a, b[..c]);
      ScanConcat(open, a, b[..c]);
    }
  }

  lemma {:induction false} CleanIsWhole(s: string, longest: nat)
    requires Clean(s, longest)
    ensures Whole(s)
    decreases |s|
  {
    if s != "" {
      CleanIsWhole(if s[0] != '<' then s[1..] else s[Find(s, '>')+1..], longest);
    }
  }

  /** Then no piece ends inside a tag, and every chunk fits. */
  lemma {:induction false} PiecesAreWhole(open: Tags, s: string, limit: int, longest: nat, deepest: nat)
    requires Clean(s, longest) && longest >= 1
    requires Shallow(open, s, deepest) && limit >= 2 * deepest + longest
    ensures forall i :: 0 <= i < |Split(open, s, limit)| ==> Whole(Split(open, s, limit)[i].text)
    ensures longest >= 4 ==> forall i :: 0 <= i < |Split(open, s, limit)| ==> |Chunk(Split(open, s, limit)[i])| <= limit
    decreases |s|
  {
    hide Scan, CutAt, OpenTags, CloseTags, Whole, Clean, Shallow, RuneSize;
    var ps := Split(open, s, limit);
    if s != "" {
      if |OpenTags(open)| + |s| <= limit {
        CleanIsWhole(s, longest);
      } else {
        var cut := CutAt(open, s, limit);
        CutIsGood(open, s, limit, longest, deepest);
        assert s == s[..cut] + s[cut..];
        CleanAfter(s[..cut], s[cut..], longest);
        ShallowAfter(open, s[..cut], s[cut..], deepest);
        PiecesAreWhole(Scan(open, s[..cut]), s[cut..], limit, longest, deepest);
        if longest >= 4 {
          CutFits(open, s, limit);
          RuneIsShort(s);
          if cut <= longest {
            GoodFits(open, s, limit, longest, deepest, cut);
          }
          assert |Chunk(ps[0])| <= limit;
        }
      }
    }
  }

  lemma {:induction false} RuneIsShort(s: string)
    requires s != ""
    ensures RuneSize(s) <= 4
  {
  }
}
