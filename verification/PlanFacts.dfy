/** What a computed plan looks like as a whole: where it acts, that it never
    removes what it visits, and what it does at every visited node. */
module PlanFacts {
  import opened Basics
  import opened TreeModel
  import opened PatchPlan

  // ----- the pairing made at one node -----

  /** For each snapshot child, the index of the tree child it is paired with. */
  function Pairing(t: Tree, kids: seq<Ref>, ss: seq<Snapshot>, paired: seq<bool>): (r: seq<Option<nat>>)
    requires |paired| == |kids|
    ensures |r| == |ss|
    ensures forall i :: 0 <= i < |r| && r[i].Some? ==> r[i].value < |kids| && SameKey(t, kids[r[i].value], ss[i])
  {
    if ss == [] then []
    else
      var j := FirstFit(t, kids, paired, ss[0], 0);
      [j] + Pairing(t, kids, ss[1..], Mark(paired, j))
  }

  /** Which tree children end up paired. */
  function Final(t: Tree, kids: seq<Ref>, ss: seq<Snapshot>, paired: seq<bool>): (r: seq<bool>)
    requires |paired| == |kids|
    ensures |r| == |kids|
    ensures forall j :: 0 <= j < |kids| && paired[j] ==> r[j]
  {
    if ss == [] then paired
    else Final(t, kids, ss[1..], Mark(paired, FirstFit(t, kids, paired, ss[0], 0)))
  }

  /** The snapshot children that find no partner, in order. */
  function Unmatched(t: Tree, kids: seq<Ref>, ss: seq<Snapshot>, paired: seq<bool>): (r: seq<Snapshot>)
    requires |paired| == |kids|
  {
    if ss == [] then []
    else
      var j := FirstFit(t, kids, paired, ss[0], 0);
      (if j.None? then [ss[0]] else []) + Unmatched(t, kids, ss[1..], Mark(paired, j))
  }

  /** The snapshots a patch adds below one parent, in order. */
  function AddsFor(added: seq<Add>, p: Ref): (r: seq<Snapshot>)
    ensures (forall a :: a in added ==> a.parent != p) ==> r == []
  {
    if added == [] then []
    else (if added[0].parent == p then [added[0].snap] else []) + AddsFor(added[1..], p)
  }

  lemma {:induction false} AddsForAppend(a: seq<Add>, b: seq<Add>, p: Ref)
    ensures AddsFor(a + b, p) == AddsFor(a, p) + AddsFor(b, p)
  {
    if a == [] {
      assert a + b == b;
    } else {
      var head := if a[0].parent == p then [a[0].snap] else [];
      assert (a + b)[1..] == a[1..] + b && (a + b)[0] == a[0];
      AddsForAppend(a[1..], b, p);
      assert head + (AddsFor(a[1..], p) + AddsFor(b, p)) == (head + AddsFor(a[1..], p)) + AddsFor(b, p);
    }
  }

  ghost function Visited(p: Plan): (r: set<Ref>)
  {
    set x | x in p.pairs :: x.0
  }

  /** At the visited instance `id`, the plan `p` adds exactly the snapshots of `ss`
      that find no partner, removes exactly the children nobody wants, and visits
      every pair. Children already in `paired` are out of consideration. */
  ghost predicate LocalFrom(t: Tree, p: Plan, id: Ref, ss: seq<Snapshot>, paired: seq<bool>)
    requires id in t.insts && |paired| == |t.insts[id].children|
  {
    var kids := t.insts[id].children;
    && AddsFor(p.patch.added, id) == Unmatched(t, kids, ss, paired)
    && (forall j :: 0 <= j < |kids| && !paired[j] ==>
          (kids[j] in p.patch.removed <==> !Final(t, kids, ss, paired)[j]))
    && (forall i :: 0 <= i < |ss| && Pairing(t, kids, ss, paired)[i].Some? ==>
          (kids[Pairing(t, kids, ss, paired)[i].value], ss[i]) in p.pairs)
  }

  ghost predicate Local(t: Tree, p: Plan, id: Ref, s: Snapshot)
    requires id in t.insts
  {
    LocalFrom(t, p, id, s.children, NonePaired(|t.insts[id].children|))
  }

  // ----- where a plan acts -----

  /** The instances at or below an unpaired child of `id`. */
  ghost predicate InZone(t: Tree, id: Ref, paired: seq<bool>, x: Ref)
    requires id in t.insts && |paired| == |t.insts[id].children|
  {
    exists j :: 0 <= j < |paired| && !paired[j] && Under(t, x, t.insts[id].children[j])
  }

  /** Everything a plan touches hangs on a visited instance, or on `extra`. */
  ghost predicate Anchored(t: Tree, p: Plan, extra: Ref) {
    && (forall x :: x in p.pairs ==> x.0 in t.insts)
    && (forall a :: a in p.patch.added ==> a.parent in Visited(p) + {extra})
    && (forall r :: r in p.patch.removed ==>
          r in t.insts && r != t.root && t.insts[r].parent in Visited(p) + {extra})
    && (forall u :: u in p.patch.updated ==> u.id in Visited(p))
  }

  /** Visited and removed instances lie at or below `id`; none removed is `id`. */
  ghost predicate InSubtree(t: Tree, p: Plan, id: Ref) {
    && (forall v :: v in Visited(p) ==> Under(t, v, id))
    && (forall r :: r in p.patch.removed ==> Under(t, r, id) && r != id)
  }

  ghost predicate InUnpaired(t: Tree, p: Plan, id: Ref, paired: seq<bool>)
    requires id in t.insts && |paired| == |t.insts[id].children|
  {
    && (forall v :: v in Visited(p) ==> InZone(t, id, paired, v))
    && (forall r :: r in p.patch.removed ==> InZone(t, id, paired, r))
  }

  /** No visited instance lies at or below a removed one. */
  ghost predicate Spares(t: Tree, p: Plan) {
    forall v, r :: v in Visited(p) && r in p.patch.removed ==> !Under(t, v, r)
  }

  ghost predicate Distinct(p: Plan) {
    && (forall i, j :: 0 <= i < j < |p.pairs| ==> p.pairs[i].0 != p.pairs[j].0)
    && NoDup(p.patch.removed)
  }

  lemma VisitedThen(a: Plan, b: Plan)
    ensures Visited(Then(a, b)) == Visited(a) + Visited(b)
  {
    var u := Visited(Then(a, b));
    forall v | v in Visited(a) + Visited(b) ensures v in u {
      if v in Visited(a) {
        var x :| x in a.pairs && x.0 == v;
        assert x in Then(a, b).pairs;
      } else {
        var x :| x in b.pairs && x.0 == v;
        assert x in Then(a, b).pairs;
      }
    }
  }

  lemma ZoneShrinks(t: Tree, id: Ref, paired: seq<bool>, j: Option<nat>, x: Ref)
    requires id in t.insts && |paired| == |t.insts[id].children|
    requires j.Some? ==> j.value < |paired|
    requires InZone(t, id, Mark(paired, j), x)
    ensures InZone(t, id, paired, x)
  {
    var i :| 0 <= i < |paired| && !Mark(paired, j)[i] && Under(t, x, t.insts[id].children[i]);
    assert !paired[i];
  }

  lemma ZoneBelow(t: Tree, id: Ref, paired: seq<bool>, x: Ref)
    requires WellFormed(t) && id in t.insts && |paired| == |t.insts[id].children|
    requires InZone(t, id, paired, x)
    ensures Under(t, x, id) && x != id && x != t.root && !Under(t, id, x)
  {
    var kids := t.insts[id].children;
    var i :| 0 <= i < |paired| && !paired[i] && Under(t, x, kids[i]);
    ChildUnder(t, id, kids[i]);
    UnderTransitive(t, x, kids[i], id);
    UnderOrder(t, x, kids[i]);
    UnderRoot(t, id);
    UnderOrder(t, id, t.root);
    if Under(t, id, x) { UnderOrder(t, id, x); }
  }

  /** An instance below a paired child is outside the zone. */
  lemma ZoneExcludes(t: Tree, id: Ref, paired: seq<bool>, j: nat, x: Ref)
    requires WellFormed(t) && id in t.insts && |paired| == |t.insts[id].children|
    requires j < |paired| && paired[j] && Under(t, x, t.insts[id].children[j])
    ensures !InZone(t, id, paired, x)
  {
    var kids := t.insts[id].children;
    assert NodeOk(t, id);
    forall i | 0 <= i < |paired| && !paired[i] ensures !Under(t, x, kids[i]) {
      if Under(t, x, kids[i]) { SiblingsDisjoint(t, id, kids[i], kids[j], x); }
    }
  }

  // ----- the facts, by induction along the computation -----

  ghost predicate NodeFacts(t: Tree, p: Plan, id: Ref) {
    id in Visited(p) && Anchored(t, p, id) && InSubtree(t, p, id) && Spares(t, p) && Distinct(p)
  }

  ghost predicate ChildrenFacts(t: Tree, p: Plan, id: Ref, paired: seq<bool>)
    requires id in t.insts && |paired| == |t.insts[id].children|
  {
    Anchored(t, p, id) && InUnpaired(t, p, id, paired) && Spares(t, p) && Distinct(p)
  }

  lemma {:induction false} PlanNodeFacts(t: Tree, s: Snapshot, id: Ref)
    requires WellFormed(t) && id in t.insts
    ensures NodeFacts(t, PlanNode(t, s, id), id)
    ensures |PlanNode(t, s, id).pairs| > 0 && PlanNode(t, s, id).pairs[0] == (id, s)
    decreases s, 1
  {
    var paired := NonePaired(|t.insts[id].children|);
    var b := PlanChildren(t, id, s.children, paired);
    PlanChildrenFacts(t, id, s.children, paired);
    NodeBeforeChildren(t, s, id, paired, NodePlan(t, s, id), b);
  }

  lemma NodeBeforeChildren(t: Tree, s: Snapshot, id: Ref, paired: seq<bool>, a: Plan, b: Plan)
    requires WellFormed(t) && id in t.insts && a == NodePlan(t, s, id)
    requires |paired| == |t.insts[id].children| && ChildrenFacts(t, b, id, paired)
    ensures NodeFacts(t, Then(a, b), id) && Then(a, b).pairs == [(id, s)] + b.pairs
  {
    VisitedThen(a, b);
    assert Visited(a) == {id} by { assert (id, s) in a.pairs; }
    assert a.patch.removed + b.patch.removed == b.patch.removed;
    assert a.patch.added + b.patch.added == b.patch.added;
    forall x | InZone(t, id, paired, x) ensures Under(t, x, id) && x != id && !Under(t, id, x) {
      ZoneBelow(t, id, paired, x);
    }
    NodeAnchored(t, id, a, b);
    NodeDistinct(id, s, a, b);
  }

  lemma NodeAnchored(t: Tree, id: Ref, a: Plan, b: Plan)
    requires id in t.insts && Anchored(t, b, id) && Visited(a) == {id} && Visited(Then(a, b)) == Visited(a) + Visited(b)
    requires a.patch.removed == [] && a.patch.added == [] && forall u :: u in a.patch.updated ==> u.id == id
    ensures Anchored(t, Then(a, b), id)
  {
    forall x | x in Then(a, b).pairs ensures x.0 in t.insts {
      if x in a.pairs { assert x.0 in Visited(a); }
    }
  }

  lemma NodeDistinct(id: Ref, s: Snapshot, a: Plan, b: Plan)
    requires a.pairs == [(id, s)] && a.patch.removed == [] && Distinct(b) && id !in Visited(b)
    ensures Distinct(Then(a, b))
  {
    forall j | 0 <= j < |b.pairs| ensures b.pairs[j].0 != id { assert b.pairs[j] in b.pairs; }
    assert Then(a, b).pairs == [(id, s)] + b.pairs && Then(a, b).patch.removed == b.patch.removed;
  }

  lemma {:induction false} PlanChildrenFacts(t: Tree, id: Ref, ss: seq<Snapshot>, paired: seq<bool>)
    requires WellFormed(t) && id in t.insts && |paired| == |t.insts[id].children|
    ensures ChildrenFacts(t, PlanChildren(t, id, ss, paired), id, paired)
    decreases ss, 0
  {
    var kids := t.insts[id].children;
    assert NodeOk(t, id);
    if ss == [] {
      UnpairedNoDup(kids, paired);
      var p := PlanChildren(t, id, ss, paired);
      forall r | r in p.patch.removed
        ensures r in t.insts && r != t.root && t.insts[r].parent == id && InZone(t, id, paired, r)
      {
        var j :| 0 <= j < |kids| && !paired[j] && kids[j] == r;
        assert Under(t, r, kids[j]);
        ZoneBelow(t, id, paired, r);
      }
    } else {
      var j := FirstFit(t, kids, paired, ss[0], 0);
      var a, b := PlanChild(t, id, ss[0], j), PlanChildren(t, id, ss[1..], Mark(paired, j));
      PlanChildrenFacts(t, id, ss[1..], Mark(paired, j));
      if j.Some? {
        PlanNodeFacts(t, ss[0], kids[j.value]);
        PlanBesideRest(t, id, paired, j.value, a, b);
      } else {
        assert Visited(a) == {};
        VisitedThen(a, b);
        assert a.patch.removed + b.patch.removed == b.patch.removed;
        assert a.pairs + b.pairs == b.pairs;
      }
    }
  }

  /** Putting the plan below one paired child before the plan for the others. */
  lemma PlanBesideRest(t: Tree, id: Ref, paired: seq<bool>, j: nat, a: Plan, b: Plan)
    requires WellFormed(t) && id in t.insts && |paired| == |t.insts[id].children|
    requires j < |paired| && !paired[j]
    requires NodeFacts(t, a, t.insts[id].children[j])
    requires ChildrenFacts(t, b, id, paired[j := true])
    ensures ChildrenFacts(t, Then(a, b), id, paired)
  {
    var marked := Mark(paired, Some(j));
    var kid := t.insts[id].children[j];
    VisitedThen(a, b);
    forall x | InZone(t, id, marked, x) ensures InZone(t, id, paired, x) && !Under(t, x, kid) {
      ZoneShrinks(t, id, paired, Some(j), x);
      if Under(t, x, kid) { ZoneExcludes(t, id, marked, j, x); }
    }
    forall v, r | v in Visited(Then(a, b)) && r in Then(a, b).patch.removed ensures !Under(t, v, r) {
      if v in Visited(a) && r in b.patch.removed && Under(t, v, r) {
        UnderInZone(t, id, marked, v, r);
      }
      if v in Visited(b) && r in a.patch.removed && Under(t, v, r) {
        UnderTransitive(t, v, r, kid);
      }
    }
    forall x, y | x in a.pairs && y in b.pairs ensures x.0 != y.0 {
      assert x.0 in Visited(a) && y.0 in Visited(b);
    }
    NoDupAppend(a.patch.removed, b.patch.removed);
  }

  lemma UnderInZone(t: Tree, id: Ref, paired: seq<bool>, x: Ref, y: Ref)
    requires id in t.insts && |paired| == |t.insts[id].children|
    requires InZone(t, id, paired, y) && Under(t, x, y)
    ensures InZone(t, id, paired, x)
  {
    var j :| 0 <= j < |paired| && !paired[j] && Under(t, y, t.insts[id].children[j]);
    UnderTransitive(t, x, y, t.insts[id].children[j]);
  }

  // ----- what happens at each visited node -----

  /** A plan that neither adds nor removes children of `x`. */
  ghost predicate Avoids(t: Tree, p: Plan, x: Ref) {
    && (forall a :: a in p.patch.added ==> a.parent != x)
    && (forall r :: r in p.patch.removed ==> r in t.insts && t.insts[r].parent != x)
  }

  lemma LocalBeside(t: Tree, a: Plan, b: Plan, x: Ref, ss: seq<Snapshot>, paired: seq<bool>)
    requires WellFormed(t) && x in t.insts && |paired| == |t.insts[x].children|
    ensures LocalFrom(t, a, x, ss, paired) && Avoids(t, b, x) ==> LocalFrom(t, Then(a, b), x, ss, paired)
    ensures Avoids(t, a, x) && LocalFrom(t, b, x, ss, paired) ==> LocalFrom(t, Then(a, b), x, ss, paired)
  {
    AddsForAppend(a.patch.added, b.patch.added, x);
    assert NodeOk(t, x);
  }

  ghost predicate AllLocal(t: Tree, p: Plan) {
    forall x :: x in p.pairs ==> x.0 in t.insts && Local(t, p, x.0, x.1)
  }

  lemma {:induction false} PlanNodeLocal(t: Tree, s: Snapshot, id: Ref)
    requires WellFormed(t) && id in t.insts
    ensures AllLocal(t, PlanNode(t, s, id))
    decreases s, 1
  {
    var paired := NonePaired(|t.insts[id].children|);
    var a, b := NodePlan(t, s, id), PlanChildren(t, id, s.children, paired);
    PlanChildrenLocal(t, id, s.children, paired);
    PlanChildrenFacts(t, id, s.children, paired);
    forall x | x in Then(a, b).pairs ensures x.0 in t.insts && Local(t, Then(a, b), x.0, x.1) {
      if x in a.pairs {
        LocalBeside(t, a, b, id, s.children, paired);
      } else {
        LocalBeside(t, a, b, x.0, x.1.children, NonePaired(|t.insts[x.0].children|));
      }
    }
  }

  lemma {:induction false} PlanChildrenLocal(t: Tree, id: Ref, ss: seq<Snapshot>, paired: seq<bool>)
    requires WellFormed(t) && id in t.insts && |paired| == |t.insts[id].children|
    ensures LocalFrom(t, PlanChildren(t, id, ss, paired), id, ss, paired)
    ensures AllLocal(t, PlanChildren(t, id, ss, paired))
    decreases ss, 0
  {
    var kids := t.insts[id].children;
    assert NodeOk(t, id);
    if ss != [] {
      var j := FirstFit(t, kids, paired, ss[0], 0);
      var marked := Mark(paired, j);
      var a, b := PlanChild(t, id, ss[0], j), PlanChildren(t, id, ss[1..], marked);
      PlanChildrenLocal(t, id, ss[1..], marked);
      PlanChildrenFacts(t, id, ss[1..], marked);
      if j.Some? {
        PlanNodeLocal(t, ss[0], kids[j.value]);
        PlanNodeFacts(t, ss[0], kids[j.value]);
        ChildStep(t, id, ss, paired, j.value, a, b);
        OthersStep(t, id, paired, j.value, a, b);
      } else {
        AddStep(t, id, ss, paired, a, b);
      }
    }
  }

  /** Facts about the place of `a`, below a paired child, and `b`, elsewhere. */
  lemma Apart(t: Tree, id: Ref, paired: seq<bool>, j: nat, a: Plan, b: Plan)
    requires WellFormed(t) && id in t.insts && |paired| == |t.insts[id].children|
    requires j < |paired| && !paired[j]
    requires NodeFacts(t, a, t.insts[id].children[j])
    requires ChildrenFacts(t, b, id, paired[j := true])
    ensures Avoids(t, a, id)
    ensures t.insts[id].children[j] !in b.patch.removed
    ensures forall v :: v in Visited(a) ==> Avoids(t, b, v)
    ensures forall v :: v in Visited(b) ==> Avoids(t, a, v)
  {
    var marked := paired[j := true];
    var kid := t.insts[id].children[j];
    assert NodeOk(t, id);
    ChildUnder(t, id, kid);
    forall v | v in Visited(a) ensures v != id && !InZone(t, id, marked, v) {
      ZoneExcludes(t, id, marked, j, v);
    }
    if kid in b.patch.removed {
      ZoneExcludes(t, id, marked, j, kid);
    }
  }

  lemma FirstListed(kids: seq<Ref>, ss: seq<Snapshot>, j: nat, tail: seq<Option<nat>>, a: seq<(Ref, Snapshot)>,
      b: seq<(Ref, Snapshot)>)
    requires ss != [] && |tail| == |ss[1..]| && j < |kids| && (kids[j], ss[0]) in a
    requires forall i :: 0 <= i < |tail| && tail[i].Some? ==>
      tail[i].value < |kids| && (kids[tail[i].value], ss[1..][i]) in b
    ensures var all := [Some(j)] + tail;
      forall i :: 0 <= i < |ss| && all[i].Some? ==> all[i].value < |kids| && (kids[all[i].value], ss[i]) in a + b
  {
    var all := [Some(j)] + tail;
    forall i | 0 <= i < |ss| && all[i].Some?
      ensures all[i].value < |kids| && (kids[all[i].value], ss[i]) in a + b
    {
      if i > 0 { assert (kids[tail[i - 1].value], ss[1..][i - 1]) in b; }
    }
  }

  lemma ChildStep(t: Tree, id: Ref, ss: seq<Snapshot>, paired: seq<bool>, j: nat, a: Plan, b: Plan)
    requires WellFormed(t) && id in t.insts && |paired| == |t.insts[id].children|
    requires ss != [] && FirstFit(t, t.insts[id].children, paired, ss[0], 0) == Some(j)
    requires NodeFacts(t, a, t.insts[id].children[j])
    requires |a.pairs| > 0 && a.pairs[0] == (t.insts[id].children[j], ss[0])
    requires ChildrenFacts(t, b, id, paired[j := true])
    requires LocalFrom(t, b, id, ss[1..], paired[j := true])
    ensures LocalFrom(t, Then(a, b), id, ss, paired)
  {
    var kids := t.insts[id].children;
    var p := Then(a, b);
    Apart(t, id, paired, j, a, b);
    AddsForAppend(a.patch.added, b.patch.added, id);
    assert NodeOk(t, id);
    var tail := Pairing(t, kids, ss[1..], paired[j := true]);
    assert Pairing(t, kids, ss, paired) == [Some(j)] + tail;
    FirstListed(kids, ss, j, tail, a.pairs, b.pairs);
  }

  lemma OthersStep(t: Tree, id: Ref, paired: seq<bool>, j: nat, a: Plan, b: Plan)
    requires WellFormed(t) && id in t.insts && |paired| == |t.insts[id].children|
    requires j < |paired| && !paired[j]
    requires NodeFacts(t, a, t.insts[id].children[j]) && AllLocal(t, a)
    requires ChildrenFacts(t, b, id, paired[j := true]) && AllLocal(t, b)
    ensures AllLocal(t, Then(a, b))
  {
    Apart(t, id, paired, j, a, b);
    forall x | x in Then(a, b).pairs ensures x.0 in t.insts && Local(t, Then(a, b), x.0, x.1) {
      assert x.0 in Visited(a) || x.0 in Visited(b);
      LocalBeside(t, a, b, x.0, x.1.children, NonePaired(|t.insts[x.0].children|));
      if x in a.pairs { assert x.0 in Visited(a); } else { assert x.0 in Visited(b); }
    }
  }

  lemma AddStep(t: Tree, id: Ref, ss: seq<Snapshot>, paired: seq<bool>, a: Plan, b: Plan)
    requires WellFormed(t) && id in t.insts && |paired| == |t.insts[id].children|
    requires ss != [] && FirstFit(t, t.insts[id].children, paired, ss[0], 0) == None
    requires a == PlanChild(t, id, ss[0], None)
    requires ChildrenFacts(t, b, id, paired)
    requires LocalFrom(t, b, id, ss[1..], paired) && AllLocal(t, b)
    ensures LocalFrom(t, Then(a, b), id, ss, paired)
    ensures AllLocal(t, Then(a, b))
  {
    var kids := t.insts[id].children;
    var p := Then(a, b);
    AddsForAppend(a.patch.added, b.patch.added, id);
    assert p.pairs == b.pairs && p.patch.removed == b.patch.removed;
    forall i | 0 <= i < |ss| && Pairing(t, kids, ss, paired)[i].Some?
      ensures (kids[Pairing(t, kids, ss, paired)[i].value], ss[i]) in p.pairs
    {
      assert Pairing(t, kids, ss, paired)[i] == Pairing(t, kids, ss[1..], paired)[i - 1];
      assert (kids[Pairing(t, kids, ss, paired)[i].value], ss[1..][i - 1]) in b.pairs;
    }
    forall x | x in p.pairs ensures x.0 in t.insts && Local(t, p, x.0, x.1) {
      assert x.0 in Visited(b);
      ZoneBelow(t, id, paired, x.0);
      LocalBeside(t, a, b, x.0, x.1.children, NonePaired(|t.insts[x.0].children|));
    }
  }
}
