/** Where a message is cut: at the last newline that leaves room, in an entity only when nothing else
    is left, and elsewhere as late as the limit and the runes allow. */
module SplitCuts {
  import opened SplitMessage
  import opened SplitProperties
  import opened SplitTags

  /** An entity, from its '&' to its ';'. */
  predicate Entity(s: string, p: nat, e: nat) {
    && p < e < |s| && s[p] == '&' && s[e] == ';'
    && (forall k :: p < k < e ==> s[k] !in "&;<\n" && RuneStart(s[k]))
    && (e + 1 < |s| ==> RuneStart(s[e+1]))
  }

  lemma {:induction false} LastIsBefore(s: string, c: char, before: nat, p: nat)
    requires p < before <= |s| && s[p] == c && forall k :: p < k < before ==> s[k] != c
    ensures LastBefore(s, c, before) == p
  {
  }

  /** Backing off never stops inside an entity, unless the text begins with it. */
  lemma {:induction false} BackOffSparesEntity(s: string, cut: nat, p: nat, e: nat)
    requires cut <= |s| && Entity(s, p, e)
    ensures p < SafeCutAt(s, cut) <= e ==> p == 0
  {
    var a := Avoid(s, cut, '<', '>');
    var b := Avoid(s, a, '&', ';');
    if p < a <= e {
      assert ';' !in s[p..a];
      LastIsBefore(s, '&', a, p);
      assert b == p || p == 0;
    }
  }

  lemma {:induction false} HardCutSparesEntity(s: string, p: nat, e: nat)
    requires s != "" && Entity(s, p, e)
    ensures p < RuneSize(s) <= e ==> p == 0
  {
    hide RuneSize;
    if 0 < p < RuneSize(s) {
      RuneInside(s, p);
    }
  }

  lemma {:induction false} ShrinkSparesEntity(open: Tags, s: string, limit: int, cut: nat, p: nat, e: nat)
    requires 1 <= cut <= |s| && Entity(s, p, e) && (p < cut <= e ==> p == 0)
    ensures p < Shrink(open, s, limit, cut) <= e ==> p == 0
    decreases cut
  {
    hide Fits, RuneSize, SafeCutAt, AtNewline, Entity;
    if !Fits(open, s, limit, cut) && cut > 1 {
      var at := AtNewline(s, cut - 1);
      BackOffSparesEntity(s, at, p, e);
      HardCutSparesEntity(s, p, e);
      if SafeCutAt(s, at) >= 1 {
        ShrinkSparesEntity(open, s, limit, SafeCutAt(s, at), p, e);
      }
    }
  }

  // ---- An entity the text begins with ----

  lemma {:induction false} BackOffPastEntity(s: string, cut: nat, e: nat)
    requires e < cut <= |s| && Entity(s, 0, e)
    ensures SafeCutAt(s, AtNewline(s, cut)) > e
  {
    var n := AtNewline(s, cut);
    assert n > e;
    var a := Avoid(s, n, '<', '>');
    assert a > e by {
      var at := LastBefore(s, '<', n);
      assert at < 0 || at > e;
    }
    var b := Avoid(s, a, '&', ';');
    assert b > e by {
      var at := LastBefore(s, '&', a);
      assert at == 0 || at > e;
    }
    assert RuneBack(s, b) > e;
  }

  lemma {:induction false} ShrinkPastEntity(open: Tags, s: string, limit: int, cut: nat, e: nat)
    requires e < cut <= |s| && Entity(s, 0, e) && Fits(open, s, limit, e + 1)
    ensures Shrink(open, s, limit, cut) > e
    decreases cut
  {
    hide Fits, RuneSize, SafeCutAt, AtNewline, Entity;
    if !Fits(open, s, limit, cut) && cut > 1 {
      assert cut != e + 1;
      BackOffPastEntity(s, cut - 1, e);
      ShrinkPastEntity(open, s, limit, SafeCutAt(s, AtNewline(s, cut - 1)), e);
    }
  }

  lemma {:induction false} EntityOpensNothing(open: Tags, s: string, e: nat)
    requires Entity(s, 0, e)
    ensures Scan(open, s[..e+1]) == open
  {
    NothingOpens(open, s[..e+1]);
  }

  /** A cut falls inside an entity only when the text left begins with that entity and a chunk with it
      would not fit. */
  lemma {:induction false} EntitiesStayWhole(open: Tags, s: string, limit: int, p: nat, e: nat)
    requires s != "" && Entity(s, p, e) && p < CutAt(open, s, limit) <= e
    ensures p == 0 && e + 1 <= |s| && !Fits(open, s, limit, e + 1)
  {
    hide RuneSize, SafeCutAt, AtNewline, Entity, Shrink, Scan;
    var room := limit - (|OpenTags(open)| + |CloseTags(open)|);
    var budget := if room < 1 then 1 else if room > |s| then |s| else room;
    EntityFits(s, p, e);
    BackOffSparesEntity(s, AtNewline(s, budget), p, e);
    HardCutSparesEntity(s, p, e);
    ShrinkSparesEntity(open, s, limit, FirstCut(open, s, limit), p, e);
    if p == 0 && Fits(open, s, limit, e + 1) {
      EntityOpensNothing(open, s, e);
      BackOffPastEntity(s, budget, e);
      ShrinkPastEntity(open, s, limit, FirstCut(open, s, limit), e);
    }
  }

  lemma {:induction false} EntityFits(s: string, p: nat, e: nat)
    requires Entity(s, p, e)
    ensures e + 1 <= |s|
  {
  }

  // ---- Newlines, and text without any ----

  /** Every '<' and every '&' before i is finished before i. */
  predicate Settled(s: string, i: nat)
    requires i <= |s|
  {
    && (forall q :: 0 <= q < i && s[q] == '<' ==> '>' in s[q..i])
    && (forall q :: 0 <= q < i && s[q] == '&' ==> ';' in s[q..i])
  }

  lemma {:induction false} SettledStays(s: string, i: nat)
    requires i <= |s| && Settled(s, i) && (0 < i < |s| ==> RuneStart(s[i]))
    ensures SafeCutAt(s, i) == i
  {
    assert Avoid(s, i, '<', '>') == i;
    assert Avoid(s, i, '&', ';') == i;
  }

  /** Room for text in a chunk, if it opens and closes nothing more. */
  function Room(open: Tags, limit: int): int {
    limit - |OpenTags(open)| - |CloseTags(open)|
  }

  /** The last newline that leaves room is where the text is cut, when it is outside the tags and the
      entities and the tags opened before it can be closed in time. */
  lemma {:induction false} NewlineIsPreferred(open: Tags, s: string, limit: int, i: nat)
    requires 0 < i < |s| && i < Room(open, limit) && s[i] == '\n' && Settled(s, i) && Fits(open, s, limit, i)
    requires forall k :: i < k < |s| && k < Room(open, limit) ==> s[k] != '\n'
    ensures CutAt(open, s, limit) == i
  {
    hide RuneSize, Settled, SafeCutAt, Fits, OpenTags, CloseTags;
    var room := limit - (|OpenTags(open)| + |CloseTags(open)|);
    var budget := if room < 1 then 1 else if room > |s| then |s| else room;
    LastIsBefore(s, '\n', budget, i);
    SettledStays(s, i);
    assert FirstCut(open, s, limit) == i;
  }

  /** Without one, text outside the tags and the entities is cut as late as its runes allow. */
  lemma {:induction false} TextFillsTheRoom(open: Tags, s: string, limit: int)
    requires 0 < Room(open, limit) < |s|
    requires forall k :: 0 <= k < Room(open, limit) ==> s[k] !in "<&\n"
    ensures var c := CutAt(open, s, limit);
            if c <= Room(open, limit) then forall k :: c < k <= Room(open, limit) ==> !RuneStart(s[k])
            else c == RuneSize(s)
  {
    hide RuneSize, OpenTags, CloseTags, Shrink;
    var room := Room(open, limit);
    TextIsNotBackedOff(s, room);
    var c := FirstCut(open, s, limit);
    if c <= room {
      forall k | 0 <= k < |s[..c]|
        ensures s[..c][k] != '<'
      {
        assert s[..c][k] == s[k];
      }
      NothingOpens(open, s[..c]);
      ShrinkStops(open, s, limit, c);
      if RuneBack(s, room) < 1 {
        FirstRuneEnds(s, room);
      }
    } else {
      HardCutStays(open, s, limit);
    }
  }

  lemma {:induction false} TextIsNotBackedOff(s: string, cut: nat)
    requires cut <= |s| && forall k :: 0 <= k < cut ==> s[k] !in "<&\n"
    ensures AtNewline(s, cut) == cut && SafeCutAt(s, cut) == RuneBack(s, cut)
  {
    assert Avoid(s, cut, '<', '>') == cut;
    assert Avoid(s, cut, '&', ';') == cut;
  }

  lemma {:induction false} ShrinkStops(open: Tags, s: string, limit: int, cut: nat)
    requires 1 <= cut <= |s| && Fits(open, s, limit, cut)
    ensures Shrink(open, s, limit, cut) == cut
  {
  }

  lemma {:induction false} HardCutStays(open: Tags, s: string, limit: int)
    requires s != "" && s[0] !in "<&\n"
    ensures Shrink(open, s, limit, RuneSize(s)) == RuneSize(s)
  {
    hide RuneSize, Fits;
    var c := RuneSize(s);
    if !Fits(open, s, limit, c) && c > 1 {
      forall k | 0 < k < c
        ensures !RuneStart(s[k])
      {
        RuneInside(s, k);
      }
      TextIsNotBackedOff(s, c - 1);
      RuneBackToStart(s, c - 1);
    }
  }

  lemma {:induction false} RuneBackToStart(s: string, cut: nat)
    requires cut < |s| && forall k :: 0 < k <= cut ==> !RuneStart(s[k])
    ensures RuneBack(s, cut) == 0
  {
    if cut > 0 {
      RuneBackToStart(s, cut - 1);
    }
  }

  lemma {:induction false} FirstRuneEnds(s: string, room: nat)
    requires 0 < room < |s| && RuneBack(s, room) < 1 && RuneSize(s) <= room
    ensures forall k :: RuneSize(s) < k <= room ==> !RuneStart(s[k])
  {
    hide RuneSize;
  }
}
