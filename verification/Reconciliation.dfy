/** The main results about reconciling a subtree with a snapshot. */
module Reconciliation {
  import opened Basics
  import opened TreeModel
  import opened PatchPlan
  import opened PlanFacts
  import opened PatchEffect
  import opened EffectFacts
  import opened Pointers
  import opened FinalTree
  import opened Convergence

  /** Computing the patch for a snapshot and applying it at once. */
  ghost function Reconciled(t: Tree, s: Snapshot, id: Ref): (v: Tree)
    requires WellFormed(t) && id in t.insts && Applicable(t, PatchFor(t, Some(s), id))
  {
    ApplyPatch(t, PatchFor(t, Some(s), id))
  }

  /** Where reconciling sends the ids of the snapshot. */
  ghost function Destinations(t: Tree, s: Snapshot, id: Ref): (r: map<Ref, Ref>)
    requires WellFormed(t) && id in t.insts
  {
    Table(PlanNode(t, s, id), t.next)
  }

  /** Does every visited instance get what its snapshot asks? */
  ghost predicate AllHonoured(t: Tree, s: Snapshot, id: Ref)
    requires WellFormed(t) && id in t.insts
  {
    forall x :: x in PlanNode(t, s, id).pairs && x.0 in t.insts ==> Honoured(t.insts[x.0].props, x.1)
  }

  /** The snapshots the theorems are about: their ids are not references that the
      tree uses for anything, and no null reference takes the place of attributes. */
  ghost predicate Clean(t: Tree, s: Snapshot) {
    AttributesStated(s) && FreshIds(t, s)
  }

  lemma Settles(t: Tree, s: Snapshot, id: Ref)
    requires WellFormed(t) && id in t.insts && Clean(t, s)
    ensures Applicable(t, PatchFor(t, Some(s), id))
    ensures Settling(t, Reconciled(t, s, id), PlanNode(t, s, id), s)
    ensures (id, s) in PlanNode(t, s, id).pairs
  {
    ReconcileDone(t, s, id);
    PlanNodeLocal(t, s, id);
    PlanNodeFacts(t, s, id);
  }

  /** A child of a visited node is a visited pair itself, or stands as a new instance. */
  lemma ChildEnd(t: Tree, v: Tree, p: Plan, root: Snapshot, x: Ref, s: Snapshot, i: nat) returns (c: Ref)
    requires Settling(t, v, p, root) && (x, s) in p.pairs && i < |s.children|
    ensures Linked(t, v, p, x, s) && s.children[i] in s.children
    ensures var kids := t.insts[x].children;
      c == Targets(t, kids, s.children, NonePaired(|kids|), NewKids(p.patch.added, x, t.next))[i]
    ensures (c, s.children[i]) in p.pairs || Standing(v, c, x, s.children[i], Table(p, t.next))
  {
    PairedChildren(t, v, p, root, x, s);
    var kids := t.insts[x].children;
    var none, news := NonePaired(|kids|), NewKids(p.patch.added, x, t.next);
    assert Local(t, p, (x, s).0, (x, s).1);
    c := Targets(t, kids, s.children, none, news)[i];
    var q := TargetOf(t, kids, s.children, none, news, i);
    var j := Pairing(t, kids, s.children, none)[i];
    if j.Some? { assert (kids[j.value], s.children[i]) in p.pairs; }
  }

  lemma {:induction false} PairShaped(t: Tree, v: Tree, p: Plan, root: Snapshot, x: Ref, s: Snapshot)
    requires Settling(t, v, p, root) && (x, s) in p.pairs
    ensures Shaped(v, x, s)
    decreases s
  {
    PairedChildren(t, v, p, root, x, s);
    forall i | 0 <= i < |s.children|
      ensures var kids := t.insts[x].children;
        Shaped(v, Targets(t, kids, s.children, NonePaired(|kids|), NewKids(p.patch.added, x, t.next))[i], s.children[i])
    {
      var c := ChildEnd(t, v, p, root, x, s, i);
      if (c, s.children[i]) in p.pairs {
        PairShaped(t, v, p, root, c, s.children[i]);
      } else {
        StandingMirrors(v, c, x, s.children[i], Table(p, t.next));
      }
    }
  }

  /** One visited instance: it ends as its snapshot wants exactly when honoured. */
  lemma PairSettles(t: Tree, v: Tree, p: Plan, root: Snapshot, x: Ref, s: Snapshot)
    requires Settling(t, v, p, root) && FreshIds(t, root) && (x, s) in p.pairs
    ensures x in t.insts && (Settled(v, x, s, Table(p, t.next)) <==> Honoured(t.insts[x].props, s))
  {
    assert (x, s).0 in t.insts && PairDone(t, v, p, (x, s).0, (x, s).1);
    PlanComposable(t, root, p);
    forall i | i in p.ids ensures p.ids[i] != NO_REF {
      assert p.ids[i] in Visited(p);
      LiveRange(t, p.ids[i]);
    }
    SettlesExactlyWhenHonoured(t.insts[x].props, v.insts[x].props, s, p.ids, AddedIds(t.next, p.patch.added));
  }

  lemma {:induction false} PairMirrors(t: Tree, v: Tree, p: Plan, root: Snapshot, x: Ref, s: Snapshot)
    requires Settling(t, v, p, root) && FreshIds(t, root) && (x, s) in p.pairs
    requires forall y :: y in p.pairs && y.0 in t.insts ==> Honoured(t.insts[y.0].props, y.1)
    ensures Mirrors(v, x, s, Table(p, t.next))
    decreases s
  {
    PairShaped(t, v, p, root, x, s);
    PairSettles(t, v, p, root, x, s);
    assert (x, s).0 in t.insts && Honoured(t.insts[(x, s).0].props, (x, s).1);
    PairedChildren(t, v, p, root, x, s);
    var kids := t.insts[x].children;
    var targets := Targets(t, kids, s.children, NonePaired(|kids|), NewKids(p.patch.added, x, t.next));
    forall i | 0 <= i < |s.children| ensures Mirrors(v, targets[i], s.children[i], Table(p, t.next)) {
      var c := ChildEnd(t, v, p, root, x, s, i);
      if (c, s.children[i]) in p.pairs {
        PairMirrors(t, v, p, root, c, s.children[i]);
      } else {
        StandingMirrors(v, c, x, s.children[i], Table(p, t.next));
      }
    }
    MirrorsByTargets(v, x, s, targets, Table(p, t.next));
  }

  lemma MirrorsByTargets(v: Tree, x: Ref, s: Snapshot, targets: seq<Ref>, ids: map<Ref, Ref>)
    requires Shaped(v, x, s) && Settled(v, x, s, ids) && |targets| == |s.children|
    requires PairsAll(v, v.insts[x].children, s.children, targets)
    requires forall i :: 0 <= i < |s.children| ==> Mirrors(v, targets[i], s.children[i], ids)
    ensures Mirrors(v, x, s, ids)
  {
    var kids := v.insts[x].children;
    forall i | 0 <= i < |s.children|
      ensures Mirrors(v, kids[Pairing(v, kids, s.children, NonePaired(|kids|))[i].value], s.children[i], ids)
    {
      assert kids[Pairing(v, kids, s.children, NonePaired(|kids|))[i].value] == targets[i];
    }
  }

  /** The children of `x` after reconciling are the targets of the first pairing. */
  ghost predicate Linked(t: Tree, v: Tree, p: Plan, x: Ref, s: Snapshot) {
    && x in t.insts && x in v.insts
    && (var kids := t.insts[x].children;
        var news := NewKids(p.patch.added, x, t.next);
        && |news| == |Unmatched(t, kids, s.children, NonePaired(|kids|))|
        && PairsAll(v, v.insts[x].children, s.children, Targets(t, kids, s.children, NonePaired(|kids|), news)))
  }

  ghost predicate AllLinked(t: Tree, v: Tree, p: Plan) {
    forall y :: y in p.pairs ==> Linked(t, v, p, y.0, y.1)
  }

  lemma PairsLinked(t: Tree, v: Tree, p: Plan, root: Snapshot)
    requires Settling(t, v, p, root)
    ensures AllLinked(t, v, p)
  {
    forall y | y in p.pairs ensures Linked(t, v, p, y.0, y.1) {
      PairedChildren(t, v, p, root, y.0, y.1);
    }
  }

  /** The children of a mirroring instance mirror their snapshots. */
  lemma ChildrenMirror(t: Tree, v: Tree, p: Plan, x: Ref, s: Snapshot, ids: map<Ref, Ref>)
    requires Linked(t, v, p, x, s) && Mirrors(v, x, s, ids)
    ensures var kids := t.insts[x].children;
      var targets := Targets(t, kids, s.children, NonePaired(|kids|), NewKids(p.patch.added, x, t.next));
      forall i :: 0 <= i < |s.children| ==> Mirrors(v, targets[i], s.children[i], ids)
  {
  }

  /** A subtree that mirrors its snapshot is settled at every visited instance. */
  lemma {:induction false} MirrorsSettled(t: Tree, v: Tree, p: Plan, x: Ref, s: Snapshot, ids: map<Ref, Ref>)
    requires WellFormed(t) && AllLinked(t, v, p) && x in t.insts
    requires forall y :: y in PlanNode(t, s, x).pairs ==> y in p.pairs
    requires Mirrors(v, x, s, ids)
    ensures forall y :: y in PlanNode(t, s, x).pairs ==> Settled(v, y.0, y.1, ids)
    decreases s, 1
  {
    var none := NonePaired(|t.insts[x].children|);
    var rest := PlanChildren(t, x, s.children, none);
    assert PlanNode(t, s, x).pairs == [(x, s)] + rest.pairs;
    assert (x, s) in PlanNode(t, s, x).pairs;
    assert Linked(t, v, p, (x, s).0, (x, s).1);
    ChildrenMirror(t, v, p, x, s, ids);
    assert forall y :: y in rest.pairs ==> y in PlanNode(t, s, x).pairs;
    MirrorsSettledChildren(t, v, p, x, s.children, none, NewKids(p.patch.added, x, t.next), ids);
  }

  lemma {:induction false} MirrorsSettledChildren(t: Tree, v: Tree, p: Plan, x: Ref, ss: seq<Snapshot>,
                                                  paired: seq<bool>, news: seq<Ref>, ids: map<Ref, Ref>)
    requires WellFormed(t) && AllLinked(t, v, p) && x in t.insts && |paired| == |t.insts[x].children|
    requires |news| == |Unmatched(t, t.insts[x].children, ss, paired)|
    requires forall y :: y in PlanChildren(t, x, ss, paired).pairs ==> y in p.pairs
    requires var targets := Targets(t, t.insts[x].children, ss, paired, news);
      forall i :: 0 <= i < |ss| ==> Mirrors(v, targets[i], ss[i], ids)
    ensures forall y :: y in PlanChildren(t, x, ss, paired).pairs ==> Settled(v, y.0, y.1, ids)
    decreases ss, 0
  {
    if ss != [] {
      var kids := t.insts[x].children;
      assert NodeOk(t, x);
      var j := FirstFit(t, kids, paired, ss[0], 0);
      var rest := if j.Some? then news else news[1..];
      var targets := Targets(t, kids, ss, paired, news);
      assert targets == [if j.Some? then kids[j.value] else news[0]] + Targets(t, kids, ss[1..], Mark(paired, j), rest);
      var a, b := PlanChild(t, x, ss[0], j), PlanChildren(t, x, ss[1..], Mark(paired, j));
      assert PlanChildren(t, x, ss, paired).pairs == a.pairs + b.pairs;
      forall i | 0 <= i < |ss[1..]|
        ensures Mirrors(v, Targets(t, kids, ss[1..], Mark(paired, j), rest)[i], ss[1..][i], ids)
      {
        assert targets[i + 1] == Targets(t, kids, ss[1..], Mark(paired, j), rest)[i];
        assert ss[1..][i] == ss[i + 1];
      }
      MirrorsSettledChildren(t, v, p, x, ss[1..], Mark(paired, j), rest, ids);
      if j.Some? {
        assert targets[0] == kids[j.value];
        assert Mirrors(v, targets[0], ss[0], ids);
        MirrorsSettled(t, v, p, kids[j.value], ss[0], ids);
      }
    }
  }

  // ----- convergence -----

  /** Convergence. After computing a patch for any snapshot and applying it, the
      subtree mirrors the snapshot if and only if every visited instance is honoured;
      and its shape, names, classes and pairing are right in any case. */
  lemma ReconcileConverges(t: Tree, s: Snapshot, id: Ref)
    requires WellFormed(t) && id in t.insts && Clean(t, s)
    ensures Applicable(t, PatchFor(t, Some(s), id))
    ensures WellFormed(Reconciled(t, s, id)) && Shaped(Reconciled(t, s, id), id, s)
    ensures Mirrors(Reconciled(t, s, id), id, s, Destinations(t, s, id)) <==> AllHonoured(t, s, id)
  {
    Settles(t, s, id);
    var v, p := Reconciled(t, s, id), PlanNode(t, s, id);
    PairShaped(t, v, p, s, id, s);
    if AllHonoured(t, s, id) {
      PairMirrors(t, v, p, s, id, s);
    }
    if Mirrors(v, id, s, Destinations(t, s, id)) {
      PairsLinked(t, v, p, s);
      MirrorsSettled(t, v, p, id, s, Destinations(t, s, id));
      forall x | x in p.pairs && x.0 in t.insts ensures Honoured(t.insts[x.0].props, x.1) {
        PairSettles(t, v, p, s, x.0, x.1);
      }
    }
  }

  /** For every snapshot, whatever its ids and attributes: the patch applies, the
      tree stays well formed, and everything outside the subtree is untouched. */
  lemma ReconcileKeepsOutside(t: Tree, s: Snapshot, id: Ref, x: Ref)
    requires WellFormed(t) && id in t.insts
    ensures Applicable(t, PatchFor(t, Some(s), id)) && WellFormed(Reconciled(t, s, id))
    ensures x in t.insts && !Under(t, x, id) ==> Kept(t, Reconciled(t, s, id), x)
  {
    ReconcileMembers(t, s, id);
    PlanNodeFacts(t, s, id);
    var p := PlanNode(t, s, id);
    if x in t.insts && Dead(t, x, p.patch.removed) {
      var r :| r in p.patch.removed && Under(t, x, r);
      if !Under(t, x, id) { UnderTransitive(t, x, r, id); }
    }
  }

  // ----- an independent reading of "the subtree is the snapshot" -----

  /** The instance is settled and its children are, as a multiset, instances that
      match the snapshot's children one by one. */
  ghost predicate Same(t: Tree, x: Ref, s: Snapshot, ids: map<Ref, Ref>)
    decreases s
  {
    && Settled(t, x, s, ids)
    && exists kids: seq<Ref> ::
         && |kids| == |s.children|
         && multiset(kids) == multiset(t.insts[x].children)
         && forall i :: 0 <= i < |kids| ==> Same(t, kids[i], s.children[i], ids)
  }

  function Chosen(kids: seq<Ref>, paired: seq<bool>): (r: multiset<Ref>)
    requires |paired| == |kids|
  {
    if kids == [] then multiset{}
    else (if paired[0] then multiset{kids[0]} else multiset{}) + Chosen(kids[1..], paired[1..])
  }

  lemma {:induction false} ChooseOne(kids: seq<Ref>, paired: seq<bool>, j: nat)
    requires |paired| == |kids| && j < |kids| && !paired[j]
    ensures Chosen(kids, paired[j := true]) == Chosen(kids, paired) + multiset{kids[j]}
    decreases |kids|
  {
    if j > 0 {
      ChooseOne(kids[1..], paired[1..], j - 1);
      assert paired[j := true][1..] == paired[1..][j - 1 := true];
    } else {
      assert paired[j := true][1..] == paired[1..];
    }
  }

  lemma {:induction false} ChooseAll(kids: seq<Ref>, paired: seq<bool>)
    requires |paired| == |kids| && forall j :: 0 <= j < |kids| ==> paired[j]
    ensures Chosen(kids, paired) == multiset(kids)
    decreases |kids|
  {
    if kids != [] {
      ChooseAll(kids[1..], paired[1..]);
      assert kids == [kids[0]] + kids[1..];
    }
  }

  lemma {:induction false} ChooseNone(kids: seq<Ref>, paired: seq<bool>)
    requires |paired| == |kids| && forall j :: 0 <= j < |kids| ==> !paired[j]
    ensures Chosen(kids, paired) == multiset{}
    decreases |kids|
  {
    if kids != [] { ChooseNone(kids[1..], paired[1..]); }
  }

  /** The children that a pairing picks. */
  function Picked(kids: seq<Ref>, pairing: seq<Option<nat>>): (r: seq<Ref>)
    requires forall i :: 0 <= i < |pairing| && pairing[i].Some? ==> pairing[i].value < |kids|
  {
    if pairing == [] then []
    else if pairing[0].None? then Picked(kids, pairing[1..])
    else [kids[pairing[0].value]] + Picked(kids, pairing[1..])
  }

  lemma {:induction false} AllPicked(kids: seq<Ref>, pairing: seq<Option<nat>>)
    requires forall i :: 0 <= i < |pairing| ==> pairing[i].Some? && pairing[i].value < |kids|
    ensures |Picked(kids, pairing)| == |pairing|
    ensures forall i :: 0 <= i < |pairing| ==> Picked(kids, pairing)[i] == kids[pairing[i].value]
  {
    if pairing != [] { AllPicked(kids, pairing[1..]); }
  }

  lemma PickOne(kids: seq<Ref>, j: Option<nat>, tail: seq<Option<nat>>)
    requires j.Some? ==> j.value < |kids|
    requires forall i :: 0 <= i < |tail| && tail[i].Some? ==> tail[i].value < |kids|
    ensures multiset(Picked(kids, [j] + tail)) ==
      (if j.Some? then multiset{kids[j.value]} else multiset{}) + multiset(Picked(kids, tail))
  {
    assert ([j] + tail)[1..] == tail;
  }

  /** A pairing picks each child at most once. */
  lemma {:induction false} PickedOnce(t: Tree, kids: seq<Ref>, ss: seq<Snapshot>, paired: seq<bool>)
    requires |paired| == |kids|
    ensures Chosen(kids, Final(t, kids, ss, paired)) ==
      Chosen(kids, paired) + multiset(Picked(kids, Pairing(t, kids, ss, paired)))
    decreases |ss|
  {
    if ss != [] {
      var j := FirstFit(t, kids, paired, ss[0], 0);
      PickedOnce(t, kids, ss[1..], Mark(paired, j));
      PickOne(kids, j, Pairing(t, kids, ss[1..], Mark(paired, j)));
      if j.Some? { ChooseOne(kids, paired, j.value); }
    }
  }

  lemma {:induction false} MirrorsSame(t: Tree, x: Ref, s: Snapshot, ids: map<Ref, Ref>)
    requires Mirrors(t, x, s, ids)
    ensures Same(t, x, s, ids)
    decreases s
  {
    var kids := t.insts[x].children;
    var none := NonePaired(|kids|);
    var pairing := Pairing(t, kids, s.children, none);
    var partners := Picked(kids, pairing);
    AllPicked(kids, pairing);
    PickedOnce(t, kids, s.children, none);
    ChooseNone(kids, none);
    ChooseAll(kids, Final(t, kids, s.children, none));
    forall i | 0 <= i < |partners| ensures Same(t, partners[i], s.children[i], ids) {
      MirrorsSame(t, partners[i], s.children[i], ids);
    }
    assert multiset(partners) == multiset(kids);
  }

  /** Convergence, in words that do not mention the pairing. */
  lemma ReconcileGivesTheSnapshot(t: Tree, s: Snapshot, id: Ref)
    requires WellFormed(t) && id in t.insts && Clean(t, s) && AllHonoured(t, s, id)
    ensures Applicable(t, PatchFor(t, Some(s), id))
    ensures Same(Reconciled(t, s, id), id, s, Destinations(t, s, id))
  {
    ReconcileConverges(t, s, id);
    MirrorsSame(Reconciled(t, s, id), id, s, Destinations(t, s, id));
  }
}
