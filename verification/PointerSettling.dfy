/** Properties that pointer attributes decide, at the instances that a reconciliation
    visits or adds (src/snapshot/patch_compute.rs, src/snapshot/patch_apply.rs). */
module PointerSettling {
  import opened Basics
  import opened Values
  import opened TreeModel
  import opened PatchPlan
  import opened PlanFacts
  import opened PatchEffect
  import opened EffectFacts
  import opened Pointers
  import opened Outcome
  import opened FinalTree
  import opened RefTranslation
  import opened CarrierFacts

  /** The snapshot points, under `k`, to whatever carries the id `u`. */
  predicate Points(s: Snapshot, k: string, u: string) {
    && AttributesOf(s.props).Some?
    && PointerName(k) in AttributesOf(s.props).value
    && TextOf(AttributesOf(s.props).value[PointerName(k)]) == Some(u)
  }

  /** A pointer that names neither the forced pivot property nor the attributes, which
      would take all pointers with them. */
  predicate PointsTo(s: Snapshot, k: string, u: string) {
    ATTRIBUTES !in PointedBy(s.props) && !(ModelLike(s.className) && k == PIVOT) && Points(s, k, u)
  }

  /** The attributes of the updated instance point just like those of the snapshot. */
  lemma AppliedPoints(t: Tree, s: Snapshot, x: Ref, planIds: map<Ref, Ref>, addIds: map<Ref, Ref>, k: string, u: string)
    requires x in t.insts && x in t.meta && NoNullAttributes(s.props) && Points(s, k, u)
    requires ATTRIBUTES !in PointedBy(s.props) && forall i :: i in planIds ==> planIds[i] != NO_REF
    ensures var list := PointersIn(AppliedProps(t, s, x, planIds, addIds));
      (k, u) in list && forall w :: w in list && w.0 == k ==> w.1 == u
  {
    var actual, r := t.insts[x].props, AppliedProps(t, s, x, planIds, addIds);
    AppliedOff(t, s, x, planIds, addIds);
    assert AgreeAt(r, PropsAfter(actual, s, planIds, addIds), ATTRIBUTES);
    AttributesAfter(actual, s, planIds, addIds);
    var a, b := AttributesOf(s.props).value, AttributesOf(r).value;
    assert ScalarEq(a[PointerName(k)], b[PointerName(k)]);
    forall w: string ensures (k, w) in PointersIn(r) <==> w == u { PointerListContents(b, k, w); }
  }

  /** An instance that needs no update has, under `k`, what pointed there before. */
  lemma UnchangedPoints(t: Tree, s: Snapshot, x: Ref, k: string, u: string)
    requires x in t.insts && x in t.meta && Points(s, k, u) && ChangesNothing(NodeUpdate(t, s, x))
    requires !(ModelLike(s.className) && k == PIVOT)
    ensures AlreadySo(PointedValue(t, u), t.insts[x].props, k)
  {
    var actual := t.insts[x].props;
    var refs := AttributeRefs(t, s.props);
    var overlay := OverlayRefs(BaseChanges(s.props, actual), refs, actual);
    assert k in refs && refs[k] == PointedValue(t, u);
    if k != PIVOT { PivotElsewhere(overlay, s.className, actual, k); }
    assert k !in overlay;
  }

  /** The update itself has the pointer resolved in the old tree. */
  lemma AppliedPointed(t: Tree, s: Snapshot, x: Ref, planIds: map<Ref, Ref>, addIds: map<Ref, Ref>, k: string,
      u: string)
    requires x in t.insts && x in t.meta && Points(s, k, u) && !(ModelLike(s.className) && k == PIVOT)
    requires var c := SpecifiedRef(t, u); c.Some? ==> c.value != NO_REF && c.value !in planIds && c.value !in addIds
    ensures AlreadySo(PointedValue(t, u), AppliedProps(t, s, x, planIds, addIds), k)
  {
    var actual := t.insts[x].props;
    var refs := AttributeRefs(t, s.props);
    var overlay := OverlayRefs(BaseChanges(s.props, actual), refs, actual);
    assert k in refs && refs[k] == PointedValue(t, u);
    if k != PIVOT { PivotElsewhere(overlay, s.className, actual, k); }
    var c := RewriteUpdate(planIds, NodeUpdate(t, s, x)).props;
    assert k in c <==> k in overlay;
    assert AppliedProps(t, s, x, planIds, addIds) == ChangedProps(actual, c, addIds);
    assert ChangedProp(actual, c, addIds, k)
      == if AlreadySo(refs[k], actual, k) then (if k in actual then Some(actual[k]) else None) else refs[k];
  }

  /** A pointer to the forced pivot property loses to the pivot rule, which leaves an
      existing value alone only when the pointer leads nowhere. */
  lemma AppliedPivot(t: Tree, s: Snapshot, x: Ref, planIds: map<Ref, Ref>, addIds: map<Ref, Ref>, u: string)
    requires x in t.insts && x in t.meta && Points(s, PIVOT, u) && ModelLike(s.className)
    ensures var actual, r := t.insts[x].props, AppliedProps(t, s, x, planIds, addIds);
      && PIVOT in r
      && r[PIVOT] == if PIVOT in actual && SpecifiedRef(t, u).None? then actual[PIVOT] else PIVOT_OFF
    ensures ChangesNothing(NodeUpdate(t, s, x)) ==> PIVOT in t.insts[x].props && SpecifiedRef(t, u).None?
  {
    var actual := t.insts[x].props;
    var refs := AttributeRefs(t, s.props);
    var overlay := OverlayRefs(BaseChanges(s.props, actual), refs, actual);
    assert PIVOT in refs && refs[PIVOT] == PointedValue(t, u);
    var c := RewriteUpdate(planIds, NodeUpdate(t, s, x)).props;
    assert PIVOT in c <==> PIVOT in NodeUpdate(t, s, x).props;
    assert PIVOT in c ==> c[PIVOT] == Some(PIVOT_OFF);
    assert AppliedProps(t, s, x, planIds, addIds) == ChangedProps(actual, c, addIds);
    assert ChangedProp(actual, c, addIds, PIVOT)
      == if PIVOT in c then Some(PIVOT_OFF) else if PIVOT in actual then Some(actual[PIVOT]) else None;
  }

  /** Without attributes an instance has nothing noted, and stays as it is. */
  lemma UnnotedStays(st: State, x: Ref)
    requires PointersFit(st) && x in st.tree.insts && AttributesOf(st.tree.insts[x].props).None?
    ensures x in Finalized(st).insts && Finalized(st).insts[x] == Translated(st).insts[x]
  {
    assert x in st.ctx.pointers ==> FitsAt(st, x);
    NothingFits(st, x);
  }

  lemma NothingFits(st: State, x: Ref)
    requires x in st.tree.insts && AttributesOf(st.tree.insts[x].props).None?
    ensures !FitsAt(st, x)
  {
    var list := if x in st.ctx.pointers then st.ctx.pointers[x] else [];
    assert list != [] ==> list[0] in list;
  }

  /** The last two phases, at an updated instance. */
  lemma ResolvedAtTheEnd(st: State, x: Ref, k: string, u: string)
    requires PointersFit(st) && NotedAt(st, x)
    requires (k, u) in PointersIn(st.tree.insts[x].props)
    requires forall w :: w in PointersIn(st.tree.insts[x].props) && w.0 == k ==> w.1 == u
    ensures var v := Finalized(st);
      && x in v.insts
      && if SpecifiedRef(v, u).Some?
         then k in v.insts[x].props && v.insts[x].props[k] == RefValue(SpecifiedRef(v, u).value)
         else AgreeAt(v.insts[x].props, Translated(st).insts[x].props, k)
  {
    var m := Translated(st);
    assert FitsAt(st, x);
    ResolvedAt(m, m.insts[x].props, st.ctx.pointers[x], k, u);
    SameCarriers(m, Finalized(st), u);
  }

  ghost function Translated(st: State): (m: Tree)
    ensures m.insts.Keys == st.tree.insts.Keys
  {
    TranslateAdded(st.tree, st.ctx.hasRefs, st.ctx.ids)
  }

  /** Where a visited instance stands before finalization. */
  lemma PairState(t: Tree, s: Snapshot, id: Ref, x: Ref, q: Snapshot)
    requires WellFormed(t) && id in t.insts && AttributesStated(s) && (x, q) in PlanNode(t, s, id).pairs
    ensures Applicable(t, PatchFor(t, Some(s), id)) && x in t.insts && x in t.meta && NoNullAttributes(q.props)
    ensures NO_REF !in t.meta
    ensures forall i :: i in PlanNode(t, s, id).ids ==> PlanNode(t, s, id).ids[i] != NO_REF
    ensures var patch := PatchFor(t, Some(s), id); var st := Applying(t, patch); var v := ApplyPatch(t, patch);
      && PointersFit(st) && x in st.tree.insts && x in v.insts && Translated(st).insts[x] == st.tree.insts[x]
      && (ChangesNothing(NodeUpdate(t, q, x)) ==> v.insts[x].props == t.insts[x].props)
      && (!ChangesNothing(NodeUpdate(t, q, x)) ==>
            NotedAt(st, x) && st.tree.insts[x].props == AppliedProps(t, q, x, PlanNode(t, s, id).ids, st.ctx.ids))
  {
    var p, patch := PlanNode(t, s, id), PatchFor(t, Some(s), id);
    var t1, t2 := ReconcilePhases(t, s, id);
    var st := Applying(t, patch);
    assert (x, q).0 in Visited(p);
    LiveIds(t, s, p);
    LiveRange(t, x);
    ComputedUpdates(t, s, p);
    PairUpdateKnown(t, s, p, (x, q));
    UpdatesInPlace(t, s, p);
    ApplyingFits(t, patch);
    assert t2.insts[x].props == t.insts[x].props;
    if !ChangesNothing(NodeUpdate(t, q, x)) {
      var u := RewriteUpdate(p.ids, NodeUpdate(t, q, x));
      assert u.id in UpdatedIds(patch.updated);
      ApplyingNotes(t, patch, x);
      assert UpdateDone(t2, st.tree, u, st.ctx.ids);
    }
  }

  lemma UpdatesInPlace(t: Tree, s: Snapshot, p: Plan)
    requires WellFormed(t) && GoodPlan(t, s, p)
    ensures DistinctIds(RewritePlan(p).updated)
    ensures forall u :: u in RewritePlan(p).updated ==> u.id in RemoveAll(t, RewritePlan(p).removed).insts
  {
    ComputedUpdates(t, s, p);
    PlanApplicable(t, s, p);
  }

  lemma ApplyingIds(t: Tree, s: Snapshot, id: Ref)
    requires WellFormed(t) && id in t.insts
    ensures Applicable(t, PatchFor(t, Some(s), id))
    ensures var patch := PatchFor(t, Some(s), id); Applying(t, patch).ctx.ids == AddedIds(t.next, patch.added)
  {
    PlanIsGood(t, s, id);
    UpdatesInPlace(t, s, PlanNode(t, s, id));
    PlanApplicable(t, s, PlanNode(t, s, id));
    var _, _ := ApplyingPhases(t, PatchFor(t, Some(s), id));
  }

  lemma CarrierKnown(t: Tree, s: Snapshot, p: Plan, u: string)
    requires WellFormed(t) && GoodPlan(t, s, p) && FreshIds(t, s)
    ensures var c := SpecifiedRef(t, u);
      c.Some? ==> c.value != NO_REF && c.value !in p.ids && c.value !in AddedIds(t.next, RewritePlan(p).added)
  {
    TablesGood(t, p, s);
    RewriteRow(p.ids, p.patch.added, t.next);
    assert Table(p, t.next).Keys == AddedIds(t.next, p.patch.added).Keys + p.ids.Keys;
    if SpecifiedRef(t, u).Some? {
      assert SpecifiedRef(t, u).value in t.meta;
      LiveRange(t, SpecifiedRef(t, u).value);
    }
  }

  function RefTo(target: Option<Ref>): (r: Option<Value>) {
    if target.Some? then Some(RefValue(target.value)) else None
  }

  /** The pointers of a visited instance are resolved in the end when it is updated, and
      when none of them names the attributes themselves. */
  ghost predicate WillResolve(t: Tree, x: Ref, q: Snapshot) {
    x in t.insts && x in t.meta && !ChangesNothing(NodeUpdate(t, q, x)) && ATTRIBUTES !in PointedBy(q.props)
  }

  /** What a visited instance has in the end where its snapshot points: when its pointers
      are resolved, the one instance that will carry the id; otherwise, or when no single
      instance will, what the pointer stood for before, unless the pivot rule decides. */
  lemma PointersSettle(t: Tree, s: Snapshot, id: Ref, x: Ref, q: Snapshot, k: string, u: string)
    requires WellFormed(t) && id in t.insts && AttributesStated(s) && FreshIds(t, s)
    requires (x, q) in PlanNode(t, s, id).pairs && Points(q, k, u)
    ensures Applicable(t, PatchFor(t, Some(s), id)) && x in t.insts && x in t.meta
    ensures var v := ApplyPatch(t, PatchFor(t, Some(s), id)); var z := CarrierAfter(t, PlanNode(t, s, id), u);
      && x in v.insts
      && var before, after := t.insts[x].props, v.insts[x].props;
         if WillResolve(t, x, q) && z.Some? then AlreadySo(RefTo(z), after, k)
         else if ModelLike(q.className) && k == PIVOT then
           PIVOT in after
           && after[PIVOT] == if PIVOT in before && SpecifiedRef(t, u).None? then before[PIVOT] else PIVOT_OFF
         else AlreadySo(RefTo(SpecifiedRef(t, u)), after, k)
  {
    CarrierExactly(t, s, id, u);
    PairState(t, s, id, x, q);
    var p, patch := PlanNode(t, s, id), PatchFor(t, Some(s), id);
    var st := Applying(t, patch);
    if ModelLike(q.className) && k == PIVOT { AppliedPivot(t, q, x, p.ids, st.ctx.ids, u); }
    if ChangesNothing(NodeUpdate(t, q, x)) {
      if !(ModelLike(q.className) && k == PIVOT) { UnchangedPoints(t, q, x, k, u); }
    } else {
      PlanIsGood(t, s, id);
      CarrierKnown(t, s, p, u);
      ApplyingIds(t, s, id);
      if !(ModelLike(q.className) && k == PIVOT) { AppliedPointed(t, q, x, p.ids, st.ctx.ids, k, u); }
      UpdatedEnds(t, st, q, x, p.ids, k, u);
    }
  }

  /** The last phases at an updated instance, whatever its pointers name. */
  lemma UpdatedEnds(t: Tree, st: State, q: Snapshot, x: Ref, planIds: map<Ref, Ref>, k: string, u: string)
    requires x in t.insts && x in t.meta && NO_REF !in t.meta && NoNullAttributes(q.props) && Points(q, k, u)
    requires forall i :: i in planIds ==> planIds[i] != NO_REF
    requires PointersFit(st) && NotedAt(st, x) && st.tree.insts[x].props == AppliedProps(t, q, x, planIds, st.ctx.ids)
    ensures var v := Finalized(st);
      && x in v.insts
      && if ATTRIBUTES !in PointedBy(q.props) && SpecifiedRef(v, u).Some?
         then k in v.insts[x].props && v.insts[x].props[k] == RefValue(SpecifiedRef(v, u).value)
         else AgreeAt(v.insts[x].props, Translated(st).insts[x].props, k)
  {
    if ATTRIBUTES in PointedBy(q.props) {
      PointedAttributes(t, q, x, planIds, st.ctx.ids);
      UnnotedStays(st, x);
    } else {
      AppliedPoints(t, q, x, planIds, st.ctx.ids, k, u);
      ResolvedAtTheEnd(st, x, k, u);
    }
  }

  /** A pointed property of a visited instance holds, in the end, the one instance
      that then carries the id, if and only if the instance is updated or that carrier
      is the one from before: an update resolves the pointer in the new tree, and
      without one the old resolution stays. The plan tells beforehand which it is. */
  lemma PointersSettleExactly(t: Tree, s: Snapshot, id: Ref, x: Ref, q: Snapshot, k: string, u: string)
    requires WellFormed(t) && id in t.insts && AttributesStated(s)
    requires (x, q) in PlanNode(t, s, id).pairs && PointsTo(q, k, u)
    ensures Applicable(t, PatchFor(t, Some(s), id)) && x in t.insts && x in t.meta
    ensures var v := ApplyPatch(t, PatchFor(t, Some(s), id)); var z := CarrierAfter(t, PlanNode(t, s, id), u);
      && SpecifiedRef(v, u) == z
      && x in v.insts && (z.Some? ==>
        (k in v.insts[x].props && v.insts[x].props[k] == RefValue(z.value)
         <==> !ChangesNothing(NodeUpdate(t, q, x)) || SpecifiedRef(t, u) == z))
  {
    CarrierExactly(t, s, id, u);
    PairState(t, s, id, x, q);
    var patch := PatchFor(t, Some(s), id);
    if ChangesNothing(NodeUpdate(t, q, x)) {
      UnchangedPoints(t, q, x, k, u);
    } else {
      AppliedPoints(t, q, x, PlanNode(t, s, id).ids, Applying(t, patch).ctx.ids, k, u);
      ResolvedAtTheEnd(Applying(t, patch), x, k, u);
    }
  }

  // ----- added instances -----

  /** The new instance of one node, before pointers are resolved. */
  ghost predicate NodeStands(t: Tree, marked: set<Ref>, a: map<Ref, Ref>, b: map<Ref, Ref>, y: (Ref, Snapshot)) {
    && y.0 in t.insts && AttributesOf(t.insts[y.0].props) == AttributesOf(y.1.props)
    && TranslateAdded(t, marked, b).insts[y.0].props == TranslateProps(b + a, InsertedProps(y.1.className, y.1.props))
  }

  lemma RootNode(t: Tree, marked: set<Ref>, n: Ref, parent: Ref, s: Snapshot, a: map<Ref, Ref>, b: map<Ref, Ref>)
    requires n in t.insts && t.insts[n] == PlantedInstance(n, parent, RewriteSnapshot(a, s))
    requires HasRefs(RewriteSnapshot(a, s).props) ==> n in marked
    requires Composable(a, b)
    ensures NodeStands(t, marked, a, b, (n, s))
  {
    RootStands(t, marked, n, parent, s, a, b);
    TranslatedPointers(a, s.props);
    assert ATTRIBUTES != PIVOT;
  }

  lemma {:induction false} PlantedNodes(t: Tree, marked: set<Ref>, n: Ref, parent: Ref, s: Snapshot,
                                        a: map<Ref, Ref>, b: map<Ref, Ref>)
    requires Planted(t, n, parent, RewriteSnapshot(a, s)) && RefsNoted(marked, n, RewriteSnapshot(a, s))
    requires Composable(a, b)
    ensures forall y :: y in PlantList(n, s) ==> NodeStands(t, marked, a, b, y) && n <= y.0 < n + Size(s)
    decreases s, 1
  {
    RootNode(t, marked, n, parent, s, a, b);
    PlantedAllNodes(t, marked, n + 1, n, s.children, a, b);
  }

  lemma {:induction false} PlantedAllNodes(t: Tree, marked: set<Ref>, n: Ref, parent: Ref, ss: seq<Snapshot>,
                                           a: map<Ref, Ref>, b: map<Ref, Ref>)
    requires PlantedAll(t, n, parent, RewriteSnapshots(a, ss)) && RefsNotedAll(marked, n, RewriteSnapshots(a, ss))
    requires Composable(a, b)
    ensures forall y :: y in PlantLists(n, ss) ==> NodeStands(t, marked, a, b, y) && n <= y.0 < n + Sizes(ss)
    decreases ss, 0
  {
    if ss != [] {
      assert RewriteSnapshots(a, ss)[1..] == RewriteSnapshots(a, ss[1..]);
      RewriteSize(a, ss[0]);
      PlantedNodes(t, marked, n, parent, ss[0], a, b);
      PlantedAllNodes(t, marked, n + Size(ss[0]), parent, ss[1..], a, b);
    }
  }

  lemma {:induction false} RowNodes(t: Tree, marked: set<Ref>, n: Ref, added: seq<Add>, a: map<Ref, Ref>,
      b: map<Ref, Ref>)
    requires RowPlanted(t, n, RewriteAdds(a, added)) && RefsNotedRow(marked, n, RewriteAdds(a, added))
    requires Composable(a, b)
    ensures forall y :: y in PlantRow(n, added) ==> NodeStands(t, marked, a, b, y) && n <= y.0 < n + Total(added)
    decreases |added|
  {
    if added != [] {
      assert RewriteAdds(a, added)[1..] == RewriteAdds(a, added[1..]);
      RewriteSize(a, added[0].snap);
      PlantedNodes(t, marked, n, added[0].parent, added[0].snap, a, b);
      RowNodes(t, marked, n + Size(added[0].snap), added[1..], a, b);
    }
  }

  /** Where the added instances stand before finalization. */
  lemma AddedStand(t: Tree, s: Snapshot, id: Ref)
    requires WellFormed(t) && id in t.insts && FreshIds(t, s)
    ensures Applicable(t, PatchFor(t, Some(s), id))
    ensures var st := Applying(t, PatchFor(t, Some(s), id)); var p := PlanNode(t, s, id);
      forall y :: y in PlantRow(t.next, p.patch.added) ==>
        NodeStands(st.tree, st.ctx.hasRefs, p.ids, st.ctx.ids, y) && t.next <= y.0 < t.next + Total(p.patch.added)
  {
    var p, patch := PlanNode(t, s, id), PatchFor(t, Some(s), id);
    PlanIsGood(t, s, id);
    UpdatesInPlace(t, s, p);
    PlanApplicable(t, s, p);
    var t1, t2 := ApplyingPhases(t, patch);
    RowStand(t, s, p, t1, t2, Applying(t, patch));
  }

  lemma RowStand(t: Tree, s: Snapshot, p: Plan, t1: Tree, t2: Tree, st: State)
    requires WellFormed(t) && GoodPlan(t, s, p) && FreshIds(t, s) && Phases(t, RewritePlan(p), t1, t2, st)
    ensures forall y :: y in PlantRow(t.next, p.patch.added) ==>
      NodeStands(st.tree, st.ctx.hasRefs, p.ids, st.ctx.ids, y) && t.next <= y.0 < t.next + Total(p.patch.added)
  {
    PlanComposable(t, s, p);
    ComputedUpdates(t, s, p);
    LateKept(t, RewritePlan(p), t1, t2, st);
    RewriteRow(p.ids, p.patch.added, t.next);
    RowNodes(st.tree, st.ctx.hasRefs, t.next, p.patch.added, p.ids, st.ctx.ids);
  }

  lemma AddedNoted(t: Tree, s: Snapshot, id: Ref, y: Ref)
    requires WellFormed(t) && id in t.insts && t.next <= y < t.next + Total(PlanNode(t, s, id).patch.added)
    ensures Applicable(t, PatchFor(t, Some(s), id))
    ensures var st := Applying(t, PatchFor(t, Some(s), id)); PointersFit(st) && NotedAt(st, y)
  {
    var p, patch := PlanNode(t, s, id), PatchFor(t, Some(s), id);
    PlanIsGood(t, s, id);
    UpdatesInPlace(t, s, p);
    PlanApplicable(t, s, p);
    ApplyingFits(t, patch);
    RewriteRow(p.ids, p.patch.added, t.next);
    ApplyingNotesAdded(t, patch, y);
  }

  /** One name gives one pointer. */
  lemma OnePointer(props: Props, q: Snapshot, k: string, u: string)
    requires AttributesOf(props) == AttributesOf(q.props) && Points(q, k, u)
    ensures (k, u) in PointersIn(props) && forall w :: w in PointersIn(props) && w.0 == k ==> w.1 == u
  {
    forall w: string ensures (k, w) in PointersIn(props) <==> w == u {
      PointerListContents(AttributesOf(q.props).value, k, w);
    }
  }

  /** An added instance has, where its snapshot points, the one instance that carries
      the id in the end, or else what the snapshot itself says. */
  lemma AddedPointersSettle(t: Tree, s: Snapshot, id: Ref, y: Ref, q: Snapshot, k: string, u: string)
    requires WellFormed(t) && id in t.insts && AttributesStated(s) && FreshIds(t, s)
    requires (y, q) in PlantRow(t.next, PlanNode(t, s, id).patch.added) && Points(q, k, u)
    ensures Applicable(t, PatchFor(t, Some(s), id))
    ensures var v := ApplyPatch(t, PatchFor(t, Some(s), id)); var z := CarrierAfter(t, PlanNode(t, s, id), u);
      && y in v.insts
      && if z.Some? then k in v.insts[y].props && v.insts[y].props[k] == RefValue(z.value)
         else AgreeAt(v.insts[y].props, TranslateProps(Table(PlanNode(t, s, id), t.next),
                                                       InsertedProps(q.className, q.props)), k)
  {
    var p, patch := PlanNode(t, s, id), PatchFor(t, Some(s), id);
    CarrierExactly(t, s, id, u);
    AddedStand(t, s, id);
    AddedNoted(t, s, id, y);
    ApplyingIds(t, s, id);
    RewriteRow(p.ids, p.patch.added, t.next);
    var st := Applying(t, patch);
    assert NodeStands(st.tree, st.ctx.hasRefs, p.ids, st.ctx.ids, (y, q));
    OnePointer(st.tree.insts[y].props, q, k, u);
    ResolvedAtTheEnd(st, y, k, u);
  }
}
