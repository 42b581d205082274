/** restorePlan: what takes a snapshot restore back by spec. */
module Restoring {
  import opened RuleModel
  import opened RuleSpecs
  import opened Simulation
  import opened Planning
  import opened Effects

  /** The specs of a that b does not have, in order. */
  function Missing(a: seq<Spec>, b: seq<Spec>): seq<Spec> {
    if a == [] then []
    else (if a[0] in b then [] else [a[0]]) + Missing(a[1..], b)
  }

  /** The rules only the current list has are deleted, the ones only the snapshot has are
      added. */
  function RestorePlan(cur: seq<Spec>, snap: seq<Spec>): Plan {
    Deletes(Missing(cur, snap)) + Adds(Missing(snap, cur))
  }

  /** restorePlan: the two loops. */
  method BuildRestorePlan(cur: seq<Spec>, snap: seq<Spec>) returns (plan: Plan)
    ensures plan == RestorePlan(cur, snap)
  {
    hide Deletes, Adds, Missing;
    ghost var gone: seq<Spec> := [];
    plan := [];
    MissingEnds(cur, snap);
    MissingEnds(snap, cur);
    for i := 0 to |cur|
      invariant gone + Missing(cur[i..], snap) == Missing(cur, snap)
      invariant plan == Deletes(gone)
    {
      MissingStep(cur, i, snap, gone);
      if cur[i] !in snap {
        plan := plan + [Change(Delete, cur[i])];
        gone := gone + [cur[i]];
      }
    }
    ghost var back: seq<Spec> := [];
    for i := 0 to |snap|
      invariant back + Missing(snap[i..], cur) == Missing(snap, cur)
      invariant plan == Deletes(Missing(cur, snap)) + Adds(back)
    {
      MissingStep(snap, i, cur, back);
      if snap[i] !in cur {
        plan := plan + [Change(Add, snap[i])];
        back := back + [snap[i]];
      }
    }
  }

  lemma {:induction false} MissingEnds(a: seq<Spec>, b: seq<Spec>)
    ensures a[0..] == a && Missing(a[|a|..], b) == [] && Deletes([]) == [] && Adds([]) == []
  {
  }

  lemma {:induction false} MissingStep(a: seq<Spec>, i: nat, b: seq<Spec>, done: seq<Spec>)
    requires i < |a|
    ensures done + Missing(a[i..], b) == (if a[i] in b then done else done + [a[i]]) + Missing(a[i+1..], b)
  {
    assert a[i..][0] == a[i] && a[i..][1..] == a[i+1..];
  }

  lemma {:induction false} MissingIs(a: seq<Spec>, b: seq<Spec>)
    ensures forall s :: s in Missing(a, b) <==> s in a && s !in b
  {
    if a != [] {
      MissingIs(a[1..], b);
    }
  }

  lemma {:induction false} MissingKeysOnce(a: seq<Spec>, b: seq<Spec>)
    requires KeysOnce(a)
    ensures KeysOnce(Missing(a, b))
  {
    hide SpecRule, KeyOf;
    if a != [] {
      KeysOnceTail(a);
      MissingKeysOnce(a[1..], b);
      MissingIs(a[1..], b);
      var rest := Missing(a[1..], b);
      assert [] + rest == rest;
      if a[0] !in b {
        forall s | s in rest
          ensures KeyOf(Read(s).rule) != KeyOf(Read(a[0]).rule)
        {
          HeadKeyAlone(a, s);
        }
        KeysOnceCons(a[0], rest);
      }
    }
  }

  /** Keys in a list of specs with one spec per key name one spec. */
  lemma {:induction false} OneSpecOfKey(specs: seq<Spec>, a: Spec, b: Spec)
    requires KeysOnce(specs) && a in specs && b in specs
    requires KeyOf(Read(a).rule) == KeyOf(Read(b).rule)
    ensures a == b
  {
    hide SpecRule, KeyOf;
    var i :| 0 <= i < |specs| && specs[i] == a;
    var j :| 0 <= j < |specs| && specs[j] == b;
    assert KeyAt(specs, i) == KeyAt(specs, j);
  }

  lemma {:induction false} SpecInTable(specs: seq<Spec>, s: Spec)
    requires KeysOnce(specs) && s in specs
    ensures var k := KeyOf(Read(s).rule); k in TableOfAdded(specs) && TableOfAdded(specs)[k] == Read(s).rule.action
  {
    hide SpecRule, KeyOf;
    var i :| 0 <= i < |specs| && specs[i] == s;
    assert OnePerKey(ReadAll(specs)) by {
      assert forall j :: 0 <= j < |specs| ==> KeyAt(specs, j) == KeyOf(ReadAll(specs)[j].rule);
    }
    TableHasSpec(ReadAll(specs), i);
  }

  lemma {:induction false} KeyHasSpec(specs: seq<Spec>, k: Key) returns (s: Spec)
    requires Readable(specs) && k in TableOfAdded(specs)
    ensures s in specs && KeyOf(Read(s).rule) == k
  {
    hide SpecRule, KeyOf;
    var j := TableKeyHasSpec(ReadAll(specs), k);
    s := specs[j];
  }

  lemma {:induction false} NamesIsSpec(specs: seq<Spec>, k: Key)
    requires Readable(specs)
    ensures Names(specs, k) <==> exists s :: s in specs && KeyOf(Read(s).rule) == k
  {
    hide SpecRule, KeyOf;
    if s :| s in specs && KeyOf(Read(s).rule) == k {
      var i :| 0 <= i < |specs| && specs[i] == s;
      assert KeyAt(specs, i) == k;
    }
    if i: nat :| i < |specs| && KeyAt(specs, i) == k {
      assert specs[i] in specs;
    }
  }

  /** The plan turns the current rules into the snapshot's, by changes that can be taken back. */
  lemma {:induction false} RestorePlanReaches(cur: seq<Spec>, snap: seq<Spec>)
    requires KeysOnce(cur) && KeysOnce(snap)
    ensures ExactAll(TableOfAdded(cur), RestorePlan(cur, snap))
    ensures EditAll(TableOfAdded(cur), RestorePlan(cur, snap)) == TableOfAdded(snap)
  {
    hide SpecRule, KeyOf, TableOfAdded, Deletes, Adds, Missing, Names, ExactAll, EditAll;
    var t, u := TableOfAdded(cur), TableOfAdded(snap);
    var out, back := Missing(cur, snap), Missing(snap, cur);
    MissingIs(cur, snap);
    MissingIs(snap, cur);
    MissingKeysOnce(cur, snap);
    MissingKeysOnce(snap, cur);
    forall i | 0 <= i < |out|
      ensures KeyAt(out, i) in t && t[KeyAt(out, i)] == ActionAt(out, i)
    {
      assert out[i] in out;
      SpecInTable(cur, out[i]);
    }
    DeletesExact(t, out);
    var mid := EditAll(t, Deletes(out));
    forall k | k in mid
      ensures k in u && u[k] == mid[k] && !Names(back, k)
    {
      KeptKey(cur, snap, k);
    }
    forall i | 0 <= i < |back|
      ensures KeyAt(back, i) !in mid && KeyAt(back, i) in u && u[KeyAt(back, i)] == ActionAt(back, i)
    {
      assert back[i] in back;
      SpecInTable(snap, back[i]);
      NamedAt(back, i);
    }
    AddsExact(mid, back);
    var end := EditAll(mid, Adds(back));
    forall k | k in u
      ensures k in end
    {
      var s := KeyHasSpec(snap, k);
      if s in cur {
        KeptSpec(cur, snap, s);
      } else {
        NamesIsSpec(back, k);
      }
    }
    forall k | k in end
      ensures k in u && u[k] == end[k]
    {
      if k !in mid {
        NamedIndex(back, k);
      }
    }
    assert end == u;
    EditAllConcat(t, Deletes(out), Adds(back));
  }

  lemma {:induction false} NamedIndex(specs: seq<Spec>, k: Key)
    requires Readable(specs) && Names(specs, k)
    ensures exists i :: 0 <= i < |specs| && KeyAt(specs, i) == k
  {
  }

  /** A key the deletions keep belongs to a spec both lists have. */
  lemma {:induction false} KeptKey(cur: seq<Spec>, snap: seq<Spec>, k: Key)
    requires KeysOnce(cur) && KeysOnce(snap) && Readable(Missing(cur, snap)) && Readable(Missing(snap, cur))
    requires k in TableOfAdded(cur) && !Names(Missing(cur, snap), k)
    ensures k in TableOfAdded(snap) && TableOfAdded(snap)[k] == TableOfAdded(cur)[k]
    ensures !Names(Missing(snap, cur), k)
  {
    hide SpecRule, KeyOf, TableOfAdded, Missing, Names;
    MissingIs(cur, snap);
    MissingIs(snap, cur);
    var s := KeyHasSpec(cur, k);
    NamesIsSpec(Missing(cur, snap), k);
    SpecInTable(cur, s);
    SpecInTable(snap, s);
    NamesIsSpec(Missing(snap, cur), k);
    if Names(Missing(snap, cur), k) {
      var r :| r in Missing(snap, cur) && KeyOf(Read(r).rule) == k;
      OneSpecOfKey(snap, r, s);
      assert false;
    }
  }

  lemma {:induction false} KeptSpec(cur: seq<Spec>, snap: seq<Spec>, s: Spec)
    requires KeysOnce(cur) && Readable(Missing(cur, snap)) && s in cur && s in snap
    ensures KeyOf(Read(s).rule) in TableOfAdded(cur) && !Names(Missing(cur, snap), KeyOf(Read(s).rule))
  {
    hide SpecRule, KeyOf, TableOfAdded, Missing, Names;
    MissingIs(cur, snap);
    SpecInTable(cur, s);
    NamesIsSpec(Missing(cur, snap), KeyOf(Read(s).rule));
    if Names(Missing(cur, snap), KeyOf(Read(s).rule)) {
      var r :| r in Missing(cur, snap) && KeyOf(Read(r).rule) == KeyOf(Read(s).rule);
      OneSpecOfKey(cur, r, s);
      assert false;
    }
  }

  /** Undoing a restore by spec: from the snapshot's rows, the inverse of restorePlan gives
      back the rows there were before the restore, up to their order. */
  lemma {:induction false} RestoreUndone(before: Status, cur: seq<Spec>, restored: Status, snap: seq<Spec>, v6: bool)
    requires Consistent(before, cur, v6) && Consistent(restored, snap, v6)
    ensures Ids(Simulate(restored, Inverse(RestorePlan(cur, snap)), v6).rules) == Ids(before.rules)
  {
    hide SpecRule, KeyOf, TableOfAdded, RestorePlan, Simulate, ExactAll, EditAll;
    ConsistentRows(before, cur, v6);
    ConsistentRows(restored, snap, v6);
    AddedKeysOnce(before, cur, v6);
    AddedKeysOnce(restored, snap, v6);
    RestorePlanReaches(cur, snap);
    var plan := RestorePlan(cur, snap);
    InverseRestores(TableOfAdded(cur), plan);
    SimulateEdits(restored, TableOfAdded(snap), Inverse(plan), v6);
  }
}
