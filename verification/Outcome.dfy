/** The tree after a computed patch has been applied, instance by instance: the
    meeting point of the two halves of the reconciler. */
module Outcome {
  import opened Basics
  import opened Values
  import opened TreeModel
  import opened PatchPlan
  import opened PlanFacts
  import opened PatchEffect
  import opened EffectFacts
  import opened Pointers

  // ----- parts of a snapshot -----

  /** Is `p` the snapshot `s` or one of its descendants? */
  ghost predicate Part(p: Snapshot, s: Snapshot)
    decreases s
  {
    p == s || exists c :: c in s.children && Part(p, c)
  }

  function IdsIn(s: Snapshot): (r: set<Ref>)
    decreases s, 1
  {
    (if s.id == NO_REF then {} else {s.id}) + IdsAmong(s.children)
  }

  function IdsAmong(ss: seq<Snapshot>): (r: set<Ref>)
    decreases ss, 0
  {
    if ss == [] then {} else IdsIn(ss[0]) + IdsAmong(ss[1..])
  }

  lemma {:induction false} PartPointerFree(p: Snapshot, s: Snapshot)
    requires Part(p, s)
    ensures PointerFree(s) ==> PointerFree(p)
    ensures AttributesStated(s) ==> AttributesStated(p)
    decreases s
  {
    if p != s {
      var c :| c in s.children && Part(p, c);
      PartPointerFree(p, c);
    }
  }

  lemma {:induction false} PartIds(p: Snapshot, s: Snapshot)
    requires Part(p, s)
    ensures IdsIn(p) <= IdsIn(s) && NO_REF !in IdsIn(s)
    decreases s
  {
    NoNullIds(s);
    if p != s {
      var c :| c in s.children && Part(p, c);
      PartIds(p, c);
      AmongContains(c, s.children);
    }
  }

  lemma {:induction false} NoNullIds(s: Snapshot)
    ensures NO_REF !in IdsIn(s)
    decreases s, 1
  {
    NoNullAmong(s.children);
  }

  lemma {:induction false} NoNullAmong(ss: seq<Snapshot>)
    ensures NO_REF !in IdsAmong(ss)
    decreases ss, 0
  {
    if ss != [] {
      NoNullIds(ss[0]);
      NoNullAmong(ss[1..]);
    }
  }

  lemma {:induction false} AmongContains(c: Snapshot, ss: seq<Snapshot>)
    requires c in ss
    ensures IdsIn(c) <= IdsAmong(ss)
  {
    if c != ss[0] {
      AmongContains(c, ss[1..]);
    }
  }

  /** Everything a plan mentions comes from the snapshot it was computed from. */
  ghost predicate From(p: Plan, s: Snapshot) {
    && (forall x :: x in p.pairs ==> Part(x.1, s))
    && (forall a :: a in p.patch.added ==> Part(a.snap, s))
    && p.ids.Keys <= IdsIn(s)
    && (forall i :: i in p.ids ==> p.ids[i] in Visited(p))
  }

  ghost predicate FromSome(p: Plan, ss: seq<Snapshot>) {
    && (forall x :: x in p.pairs ==> PartOfSome(x.1, ss))
    && (forall a :: a in p.patch.added ==> PartOfSome(a.snap, ss))
    && p.ids.Keys <= IdsAmong(ss)
    && (forall i :: i in p.ids ==> p.ids[i] in Visited(p))
  }

  ghost predicate PartOfSome(q: Snapshot, ss: seq<Snapshot>) {
    exists c :: c in ss && Part(q, c)
  }

  lemma PartOfMore(q: Snapshot, ss: seq<Snapshot>)
    requires ss != []
    ensures Part(q, ss[0]) || PartOfSome(q, ss[1..]) ==> PartOfSome(q, ss)
  {
    assert ss[0] in ss;
    assert forall c :: c in ss[1..] ==> c in ss;
  }

  lemma {:induction false} PlanNodeFrom(t: Tree, s: Snapshot, id: Ref)
    requires WellFormed(t) && id in t.insts
    ensures From(PlanNode(t, s, id), s)
    decreases s, 1
  {
    var paired := NonePaired(|t.insts[id].children|);
    var a, b := NodePlan(t, s, id), PlanChildren(t, id, s.children, paired);
    PlanChildrenFrom(t, id, s.children, paired);
    VisitedThen(a, b);
    assert id in Visited(a) by { assert (id, s) in a.pairs; }
  }

  lemma {:induction false} PlanChildrenFrom(t: Tree, id: Ref, ss: seq<Snapshot>, paired: seq<bool>)
    requires WellFormed(t) && id in t.insts && |paired| == |t.insts[id].children|
    ensures FromSome(PlanChildren(t, id, ss, paired), ss)
    decreases ss, 0
  {
    if ss != [] {
      var kids := t.insts[id].children;
      assert NodeOk(t, id);
      var j := FirstFit(t, kids, paired, ss[0], 0);
      var a, b := PlanChild(t, id, ss[0], j), PlanChildren(t, id, ss[1..], Mark(paired, j));
      PlanChildrenFrom(t, id, ss[1..], Mark(paired, j));
      if j.Some? {
        PlanNodeFrom(t, ss[0], kids[j.value]);
      }
      FromThen(a, b, ss);
    }
  }

  lemma FromThen(a: Plan, b: Plan, ss: seq<Snapshot>)
    requires ss != [] && From(a, ss[0]) && FromSome(b, ss[1..])
    ensures FromSome(Then(a, b), ss)
  {
    VisitedThen(a, b);
    forall q ensures Part(q, ss[0]) || PartOfSome(q, ss[1..]) ==> PartOfSome(q, ss) { PartOfMore(q, ss); }
  }

  /** The updates are those of the visited pairs, in order. */
  ghost function UpdatesOf(t: Tree, pairs: seq<(Ref, Snapshot)>): (r: seq<Update>)
    requires t.meta.Keys == t.insts.Keys
    requires forall x :: x in pairs ==> x.0 in t.insts
  {
    if pairs == [] then []
    else
      var u := NodeUpdate(t, pairs[0].1, pairs[0].0);
      (if ChangesNothing(u) then [] else [u]) + UpdatesOf(t, pairs[1..])
  }

  lemma {:induction false} UpdatesOfAppend(t: Tree, a: seq<(Ref, Snapshot)>, b: seq<(Ref, Snapshot)>)
    requires t.meta.Keys == t.insts.Keys
    requires forall x :: x in a + b ==> x.0 in t.insts
    ensures (forall x :: x in a ==> x.0 in t.insts) && (forall x :: x in b ==> x.0 in t.insts)
    ensures UpdatesOf(t, a + b) == UpdatesOf(t, a) + UpdatesOf(t, b)
  {
    assert forall x :: x in a || x in b ==> x in a + b;
    if a == [] {
      assert a + b == b;
    } else {
      var u := NodeUpdate(t, a[0].1, a[0].0);
      var head := if ChangesNothing(u) then [] else [u];
      assert (a + b)[1..] == a[1..] + b && (a + b)[0] == a[0];
      UpdatesOfAppend(t, a[1..], b);
      assert head + (UpdatesOf(t, a[1..]) + UpdatesOf(t, b)) == (head + UpdatesOf(t, a[1..])) + UpdatesOf(t, b);
    }
  }

  lemma {:induction false} PlanNodeUpdates(t: Tree, s: Snapshot, id: Ref)
    requires WellFormed(t) && id in t.insts
    ensures var p := PlanNode(t, s, id);
      (forall x :: x in p.pairs ==> x.0 in t.insts) && p.patch.updated == UpdatesOf(t, p.pairs)
    decreases s, 1
  {
    var paired := NonePaired(|t.insts[id].children|);
    var a, b := NodePlan(t, s, id), PlanChildren(t, id, s.children, paired);
    PlanChildrenUpdates(t, id, s.children, paired);
    UpdatesOfAppend(t, a.pairs, b.pairs);
  }

  lemma {:induction false} PlanChildrenUpdates(t: Tree, id: Ref, ss: seq<Snapshot>, paired: seq<bool>)
    requires WellFormed(t) && id in t.insts && |paired| == |t.insts[id].children|
    ensures var p := PlanChildren(t, id, ss, paired);
      (forall x :: x in p.pairs ==> x.0 in t.insts) && p.patch.updated == UpdatesOf(t, p.pairs)
    decreases ss, 0
  {
    if ss != [] {
      var kids := t.insts[id].children;
      assert NodeOk(t, id);
      var j := FirstFit(t, kids, paired, ss[0], 0);
      PlanChildrenUpdates(t, id, ss[1..], Mark(paired, j));
      if j.Some? { PlanNodeUpdates(t, ss[0], kids[j.value]); }
      UpdatesOfAppend(t, PlanChild(t, id, ss[0], j).pairs, PlanChildren(t, id, ss[1..], Mark(paired, j)).pairs);
    }
  }

  lemma {:induction false} UpdatesOfIds(t: Tree, pairs: seq<(Ref, Snapshot)>)
    requires t.meta.Keys == t.insts.Keys
    requires forall x :: x in pairs ==> x.0 in t.insts
    requires forall i, j :: 0 <= i < j < |pairs| ==> pairs[i].0 != pairs[j].0
    ensures forall u :: u in UpdatesOf(t, pairs) ==>
      exists x :: x in pairs && u == NodeUpdate(t, x.1, x.0) && !ChangesNothing(u)
    ensures forall x :: x in pairs && !ChangesNothing(NodeUpdate(t, x.1, x.0)) ==>
      NodeUpdate(t, x.1, x.0) in UpdatesOf(t, pairs)
    ensures DistinctIds(UpdatesOf(t, pairs))
  {
    if pairs != [] {
      UpdatesOfIds(t, pairs[1..]);
      assert pairs == [pairs[0]] + pairs[1..];
      var rest := UpdatesOf(t, pairs[1..]);
      forall i | 0 <= i < |rest| ensures rest[i].id != pairs[0].0 {
        assert rest[i] in rest;
        var x :| x in pairs[1..] && rest[i] == NodeUpdate(t, x.1, x.0);
        var k :| 0 <= k < |pairs[1..]| && pairs[1..][k] == x;
        assert pairs[k + 1] == x;
      }
      var u := NodeUpdate(t, pairs[0].1, pairs[0].0);
      assert UpdatesOf(t, pairs) == if ChangesNothing(u) then rest else [u] + rest;
    }
  }

  /** What every computed plan satisfies, gathered. */
  ghost predicate GoodPlan(t: Tree, s: Snapshot, p: Plan) {
    && (forall x :: x in p.pairs ==> x.0 in t.insts)
    && (forall a :: a in p.patch.added ==> a.parent in Visited(p))
    && (forall r :: r in p.patch.removed ==> r in t.insts && r != t.root && t.insts[r].parent in Visited(p))
    && Spares(t, p) && Distinct(p) && From(p, s)
    && t.meta.Keys == t.insts.Keys && p.patch.updated == UpdatesOf(t, p.pairs)
  }

  lemma PlanIsGood(t: Tree, s: Snapshot, id: Ref)
    requires WellFormed(t) && id in t.insts
    ensures GoodPlan(t, s, PlanNode(t, s, id))
  {
    PlanNodeFacts(t, s, id);
    PlanNodeFrom(t, s, id);
    PlanNodeUpdates(t, s, id);
  }

  lemma RemovedUnnested(t: Tree, s: Snapshot, p: Plan)
    requires WellFormed(t) && GoodPlan(t, s, p)
    ensures forall i, j :: 0 <= i < |p.patch.removed| && 0 <= j < |p.patch.removed| && i != j ==>
      !Under(t, p.patch.removed[i], p.patch.removed[j])
  {
    var removed := p.patch.removed;
    forall i, j | 0 <= i < |removed| && 0 <= j < |removed| && i != j ensures !Under(t, removed[i], removed[j]) {
      var r := removed[i];
      assert r in removed && removed[j] in removed;
      assert removed[i] != removed[j];
      assert t.insts[r].parent in Visited(p);
    }
  }

  lemma VisitedSurvive(t: Tree, s: Snapshot, p: Plan)
    requires WellFormed(t) && GoodPlan(t, s, p)
    ensures Removable(t, p.patch.removed)
    ensures forall v :: v in Visited(p) ==> v in RemoveAll(t, p.patch.removed).insts
  {
    RemovedUnnested(t, s, p);
    RemovableWhenUnnested(t, p.patch.removed);
    RemoveAllEffect(t, p.patch.removed);
  }

  lemma RewrittenIn(p: Plan)
    ensures forall a :: a in RewritePlan(p).added ==>
      exists b :: b in p.patch.added && a == Add(b.parent, RewriteSnapshot(p.ids, b.snap))
    ensures forall u :: u in RewritePlan(p).updated ==>
      exists w :: w in p.patch.updated && u == RewriteUpdate(p.ids, w)
    ensures forall w :: w in p.patch.updated ==> RewriteUpdate(p.ids, w) in RewritePlan(p).updated
  {
    var q := RewritePlan(p);
    forall a | a in q.added
      ensures exists b :: b in p.patch.added && a == Add(b.parent, RewriteSnapshot(p.ids, b.snap))
    {
      var i :| 0 <= i < |q.added| && q.added[i] == a;
      assert p.patch.added[i] in p.patch.added;
    }
    forall u | u in q.updated ensures exists w :: w in p.patch.updated && u == RewriteUpdate(p.ids, w) {
      var i :| 0 <= i < |q.updated| && q.updated[i] == u;
      assert p.patch.updated[i] in p.patch.updated;
    }
    forall w | w in p.patch.updated ensures RewriteUpdate(p.ids, w) in q.updated {
      var i :| 0 <= i < |p.patch.updated| && p.patch.updated[i] == w;
      assert q.updated[i] in q.updated;
    }
  }

  /** The emitted updates are exactly the non-trivial ones of the pairs, one each. */
  ghost predicate UpdatesMatch(t: Tree, p: Plan, updated: seq<Update>)
    requires t.meta.Keys == t.insts.Keys && forall x :: x in p.pairs ==> x.0 in t.insts
  {
    && DistinctIds(updated)
    && (forall u :: u in updated ==>
          exists x :: (x in p.pairs && !ChangesNothing(NodeUpdate(t, x.1, x.0))
                       && u == RewriteUpdate(p.ids, NodeUpdate(t, x.1, x.0))))
    && (forall x :: x in p.pairs && !ChangesNothing(NodeUpdate(t, x.1, x.0)) ==>
          RewriteUpdate(p.ids, NodeUpdate(t, x.1, x.0)) in updated)
  }

  lemma ComputedUpdates(t: Tree, s: Snapshot, p: Plan)
    requires GoodPlan(t, s, p)
    ensures UpdatesMatch(t, p, RewritePlan(p).updated)
    ensures forall u :: u in RewritePlan(p).updated ==> u.id in Visited(p)
  {
    UpdatesOfIds(t, p.pairs);
    RewrittenIn(p);
    var updated := RewritePlan(p).updated;
    forall u | u in updated
      ensures u.id in Visited(p)
      ensures exists x :: (x in p.pairs && !ChangesNothing(NodeUpdate(t, x.1, x.0))
                           && u == RewriteUpdate(p.ids, NodeUpdate(t, x.1, x.0)))
    {
      var w :| w in p.patch.updated && u == RewriteUpdate(p.ids, w);
      var x :| x in p.pairs && w == NodeUpdate(t, x.1, x.0) && !ChangesNothing(w);
    }
  }

  // ----- applicability -----

  /** A computed patch can always be applied to the tree it was computed from:
      removed ids are live, not the root and pairwise unnested, and all parents of
      additions and all updated ids survive the removals. */
  lemma ComputedPatchApplicable(t: Tree, s: Snapshot, id: Ref)
    requires WellFormed(t) && id in t.insts
    ensures var q := PatchFor(t, Some(s), id);
      && Applicable(t, q)
      && (forall r :: r in q.removed ==> r in t.insts && r != t.root)
      && (forall i, j :: 0 <= i < |q.removed| && 0 <= j < |q.removed| && i != j ==>
            !Under(t, q.removed[i], q.removed[j]))
      && (forall u :: u in q.updated ==> u.id in RemoveAll(t, q.removed).insts)
  {
    var p := PlanNode(t, s, id);
    PlanIsGood(t, s, id);
    PlanApplicable(t, s, p);
    RemovedUnnested(t, s, p);
  }

  lemma PlanApplicable(t: Tree, s: Snapshot, p: Plan)
    requires WellFormed(t) && GoodPlan(t, s, p)
    ensures Applicable(t, RewritePlan(p))
    ensures forall u :: u in RewritePlan(p).updated ==> u.id in RemoveAll(t, p.patch.removed).insts
    ensures forall v :: v in Visited(p) ==> v in RemoveAll(t, p.patch.removed).insts
  {
    VisitedSurvive(t, s, p);
    RewrittenIn(p);
    ComputedUpdates(t, s, p);
  }

  // ----- one visited instance -----

  predicate SameChange(c: Changes, d: Changes, k: string) {
    (k in c <==> k in d) && (k in c ==> c[k] == d[k])
  }

  /** The pivot rule looks at one property only. */
  lemma PivotRuleAt(c: Changes, d: Changes, className: string, actual: Props, k: string)
    requires SameChange(c, d, k)
    ensures SameChange(PivotRule(c, className, actual), PivotRule(d, className, actual), k)
  {
    if k != PIVOT {
      PivotElsewhere(c, className, actual, k);
      PivotElsewhere(d, className, actual, k);
    }
  }

  /** Away from the pointed properties, the changes are those of the values alone. */
  lemma NodeChange(t: Tree, s: Snapshot, id: Ref, k: string)
    requires id in t.insts && id in t.meta && k !in PointedBy(s.props)
    ensures SameChange(NodeUpdate(t, s, id).props,
                       PivotRule(BaseChanges(s.props, t.insts[id].props), s.className, t.insts[id].props), k)
  {
    var n := t.insts[id];
    var base := BaseChanges(s.props, n.props);
    assert AttributeRefs(t, s.props).Keys == PointedBy(s.props);
    PivotRuleAt(OverlayRefs(base, AttributeRefs(t, s.props), n.props), base, s.className, n.props, k);
  }

  /** The properties of a visited instance once its update has been applied, away
      from those that pointers decide. */
  function PropsAfter(actual: Props, s: Snapshot, planIds: map<Ref, Ref>, addIds: map<Ref, Ref>): (r: Props) {
    ChangedProps(actual, RewriteChanges(planIds, PivotRule(BaseChanges(s.props, actual), s.className, actual)), addIds)
  }

  lemma PivotElsewhere(changes: Changes, className: string, actual: Props, k: string)
    requires k != PIVOT
    ensures var r := PivotRule(changes, className, actual);
      (k in r <==> k in changes) && (k in changes ==> r[k] == changes[k])
  {
  }

  /** What the update of a visited instance makes of its properties. */
  ghost function AppliedProps(t: Tree, s: Snapshot, x: Ref, planIds: map<Ref, Ref>, addIds: map<Ref, Ref>): (r: Props)
    requires x in t.insts && x in t.meta
  {
    ChangedProps(t.insts[x].props, RewriteUpdate(planIds, NodeUpdate(t, s, x)).props, addIds)
  }

  lemma AppliedOff(t: Tree, s: Snapshot, x: Ref, planIds: map<Ref, Ref>, addIds: map<Ref, Ref>)
    requires x in t.insts && x in t.meta
    ensures AgreeOff(AppliedProps(t, s, x, planIds, addIds), PropsAfter(t.insts[x].props, s, planIds, addIds),
                     PointedBy(s.props))
  {
    var actual := t.insts[x].props;
    var c := RewriteUpdate(planIds, NodeUpdate(t, s, x)).props;
    var d := RewriteChanges(planIds, PivotRule(BaseChanges(s.props, actual), s.className, actual));
    forall k | k !in PointedBy(s.props)
      ensures AgreeAt(ChangedProps(actual, c, addIds), ChangedProps(actual, d, addIds), k)
    {
      NodeChange(t, s, x, k);
      assert ChangedProp(actual, c, addIds, k) == ChangedProp(actual, d, addIds, k);
    }
  }

  /** The attributes of a visited instance say what those of the snapshot say. */
  ghost predicate SameAttributes(r: Props, s: Snapshot) {
    && PointedBy(r) <= PointedBy(s.props)
    && AdoptedMeta(r, s.meta) == if ATTRIBUTES in PointedBy(s.props) then s.meta else PlantedMeta(s)
  }

  /** Attributes that compare equal hold the same texts. */
  lemma EqualAttributes(a: map<string, Scalar>, b: map<string, Scalar>)
    requires VariantEq(Attributes(a), Attributes(b))
    ensures PointerProps(a) == PointerProps(b) && AttributeId(a) == AttributeId(b)
  {
    forall k | k in a ensures k in b && TextOf(a[k]) == TextOf(b[k]) { assert ScalarEq(a[k], b[k]); }
    assert forall p :: p in PointerProps(a) <==> p in PointerProps(b);
  }

  lemma AppliedAttributes(t: Tree, s: Snapshot, x: Ref, planIds: map<Ref, Ref>, addIds: map<Ref, Ref>)
    requires x in t.insts && x in t.meta && NO_REF !in t.meta && NoNullAttributes(s.props)
    requires forall i :: i in planIds ==> planIds[i] != NO_REF
    ensures SameAttributes(AppliedProps(t, s, x, planIds, addIds), s)
  {
    var actual, r := t.insts[x].props, AppliedProps(t, s, x, planIds, addIds);
    if ATTRIBUTES in PointedBy(s.props) {
      PointedAttributes(t, s, x, planIds, addIds);
    } else {
      AppliedOff(t, s, x, planIds, addIds);
      assert AgreeAt(r, PropsAfter(actual, s, planIds, addIds), ATTRIBUTES);
      AttributesAfter(actual, s, planIds, addIds);
      if AttributesOf(r).Some? { EqualAttributes(AttributesOf(s.props).value, AttributesOf(r).value); }
    }
  }

  /** A pointer that names the attributes themselves takes their place. */
  lemma PointedAttributes(t: Tree, s: Snapshot, x: Ref, planIds: map<Ref, Ref>, addIds: map<Ref, Ref>)
    requires x in t.insts && x in t.meta && NO_REF !in t.meta && ATTRIBUTES in PointedBy(s.props)
    requires forall i :: i in planIds ==> planIds[i] != NO_REF
    ensures AttributesOf(AppliedProps(t, s, x, planIds, addIds)).None?
  {
    var actual := t.insts[x].props;
    var refs := AttributeRefs(t, s.props);
    var overlay := OverlayRefs(BaseChanges(s.props, actual), refs, actual);
    assert ATTRIBUTES in refs && ATTRIBUTES != PIVOT;
    PivotElsewhere(overlay, s.className, actual, ATTRIBUTES);
    var c := RewriteUpdate(planIds, NodeUpdate(t, s, x)).props;
    assert refs[ATTRIBUTES].Some? ==> refs[ATTRIBUTES].value.RefValue? && refs[ATTRIBUTES].value.ref in t.meta;
    assert ATTRIBUTES in c ==> !IsNullRef(c[ATTRIBUTES]);
    assert var found := ChangedProp(actual, c, addIds, ATTRIBUTES); found.Some? ==> found.value.RefValue?;
  }

  /** Otherwise the snapshot's attributes are there, or some that compare equal. */
  lemma AttributesAfter(actual: Props, s: Snapshot, planIds: map<Ref, Ref>, addIds: map<Ref, Ref>)
    requires NoNullAttributes(s.props) && forall i :: i in planIds ==> planIds[i] != NO_REF
    ensures var r := PropsAfter(actual, s, planIds, addIds);
      && (AttributesOf(r).Some? <==> AttributesOf(s.props).Some?)
      && (AttributesOf(r).Some? ==>
            VariantEq(Attributes(AttributesOf(s.props).value), Attributes(AttributesOf(r).value)))
  {
    var base := BaseChanges(s.props, actual);
    var k := ATTRIBUTES;
    assert ATTRIBUTES != PIVOT;
    PivotElsewhere(base, s.className, actual, k);
    var c := RewriteChanges(planIds, PivotRule(base, s.className, actual));
    var r := ChangedProps(actual, c, addIds);
    assert k in r ==> r[k] == ChangedProp(actual, c, addIds, k).value;
    assert k in r <==> ChangedProp(actual, c, addIds, k).Some?;
    if k in s.props {
      VariantEqReflexive(s.props[k]);
      assert k in c ==> !IsNullRef(c[k]);
    }
  }

  lemma {:induction false} RewriteSize(ids: map<Ref, Ref>, s: Snapshot)
    ensures Size(RewriteSnapshot(ids, s)) == Size(s)
    decreases s, 1
  {
    RewriteSizes(ids, s.children);
  }

  lemma {:induction false} RewriteSizes(ids: map<Ref, Ref>, ss: seq<Snapshot>)
    ensures Sizes(RewriteSnapshots(ids, ss)) == Sizes(ss)
    decreases ss, 0
  {
    if ss != [] {
      RewriteSize(ids, ss[0]);
      RewriteSizes(ids, ss[1..]);
      assert RewriteSnapshots(ids, ss)[1..] == RewriteSnapshots(ids, ss[1..]);
    }
  }

  lemma {:induction false} RewriteBases(ids: map<Ref, Ref>, ss: seq<Snapshot>, n: Ref)
    ensures Bases(n, RewriteSnapshots(ids, ss)) == Bases(n, ss)
    decreases ss
  {
    if ss != [] {
      RewriteSize(ids, ss[0]);
      RewriteBases(ids, ss[1..], n + Size(ss[0]));
      assert RewriteSnapshots(ids, ss)[1..] == RewriteSnapshots(ids, ss[1..]);
    }
  }

  lemma {:induction false} RewriteIds(ids: map<Ref, Ref>, s: Snapshot, n: Ref)
    ensures SnapshotIds(n, RewriteSnapshot(ids, s)) == SnapshotIds(n, s)
    decreases s, 1
  {
    RewriteIdsAll(ids, s.children, n + 1);
  }

  lemma {:induction false} RewriteIdsAll(ids: map<Ref, Ref>, ss: seq<Snapshot>, n: Ref)
    ensures SnapshotsIds(n, RewriteSnapshots(ids, ss)) == SnapshotsIds(n, ss)
    decreases ss, 0
  {
    if ss != [] {
      RewriteSize(ids, ss[0]);
      RewriteIds(ids, ss[0], n);
      RewriteIdsAll(ids, ss[1..], n + Size(ss[0]));
      IdsStep(n, RewriteSnapshot(ids, ss[0]), ss[0], RewriteSnapshots(ids, ss[1..]), ss[1..]);
      assert [ss[0]] + ss[1..] == ss;
    }
  }

  lemma IdsStep(n: Ref, a: Snapshot, b: Snapshot, later: seq<Snapshot>, rest: seq<Snapshot>)
    requires SnapshotIds(n, a) == SnapshotIds(n, b) && Size(a) == Size(b)
    requires SnapshotsIds(n + Size(b), later) == SnapshotsIds(n + Size(b), rest)
    ensures SnapshotsIds(n, [a] + later) == SnapshotsIds(n, [b] + rest)
  {
    IdsFirst(n, a, later);
    IdsFirst(n, b, rest);
  }

  lemma IdsFirst(n: Ref, a: Snapshot, later: seq<Snapshot>)
    ensures SnapshotsIds(n, [a] + later) == SnapshotIds(n, a) + SnapshotsIds(n + Size(a), later)
  {
    assert ([a] + later)[0] == a && ([a] + later)[1..] == later;
  }

  lemma {:induction false} RewriteRow(ids: map<Ref, Ref>, added: seq<Add>, n: Ref)
    ensures Total(RewriteAdds(ids, added)) == Total(added)
    ensures AddedIds(n, RewriteAdds(ids, added)) == AddedIds(n, added)
    decreases |added|
  {
    if added != [] {
      RewriteSize(ids, added[0].snap);
      RewriteIds(ids, added[0].snap, n);
      RewriteRow(ids, added[1..], n + Size(added[0].snap));
      var r := RewriteAdds(ids, added);
      assert r[0].snap == RewriteSnapshot(ids, added[0].snap) && r[1..] == RewriteAdds(ids, added[1..]);
    }
  }

  lemma FirstKid(a: Add, rest: seq<Add>, p: Ref, n: Ref)
    ensures NewKids([a] + rest, p, n) == (if a.parent == p then [n] else []) + NewKids(rest, p, n + Size(a.snap))
  {
  }

  lemma {:induction false} RewriteKids(ids: map<Ref, Ref>, added: seq<Add>, p: Ref, n: Ref)
    ensures NewKids(RewriteAdds(ids, added), p, n) == NewKids(added, p, n)
    decreases |added|
  {
    if added != [] {
      var a := Add(added[0].parent, RewriteSnapshot(ids, added[0].snap));
      RewriteSize(ids, added[0].snap);
      RewriteKids(ids, added[1..], p, n + Size(added[0].snap));
      assert RewriteAdds(ids, added) == [a] + RewriteAdds(ids, added[1..]);
      FirstKid(a, RewriteAdds(ids, added[1..]), p, n);
      FirstKid(added[0], added[1..], p, n);
      assert [added[0]] + added[1..] == added;
    }
  }
}
