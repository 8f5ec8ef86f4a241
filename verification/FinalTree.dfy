/** The final tree of a reconciliation: what computing a patch and applying it
    leaves at every instance (src/snapshot/patch_compute.rs, patch_apply.rs). */
module FinalTree {
  import opened Basics
  import opened Values
  import opened TreeModel
  import opened PatchPlan
  import opened PlanFacts
  import opened PatchEffect
  import opened EffectFacts
  import opened Pointers
  import opened Outcome

  /** Where every snapshot id ends up: known pairs first, added instances second. */
  function Table(p: Plan, n: Ref): (r: map<Ref, Ref>) {
    AddedIds(n, p.patch.added) + p.ids
  }

  /** An added snapshot stands in the tree with its references translated, but for
      the properties that pointers decide. */
  ghost predicate Standing(t: Tree, n: Ref, parent: Ref, s: Snapshot, ids: map<Ref, Ref>)
    decreases s, 1
  {
    && StandsOne(t, n, parent, s, ids)
    && StandingAll(t, n + 1, n, s.children, ids)
  }

  ghost predicate StandsOne(t: Tree, n: Ref, parent: Ref, s: Snapshot, ids: map<Ref, Ref>) {
    && n in t.insts && n in t.meta && t.meta[n] == PlantedMeta(s)
    && t.insts[n] == StandingInstance(n, parent, s, ids).(props := t.insts[n].props)
    && AgreeOff(t.insts[n].props, StandingInstance(n, parent, s, ids).props, PointedBy(s.props))
  }

  ghost predicate StandingAll(t: Tree, n: Ref, parent: Ref, ss: seq<Snapshot>, ids: map<Ref, Ref>)
    decreases ss, 0
  {
    ss == [] || (Standing(t, n, parent, ss[0], ids) && StandingAll(t, n + Size(ss[0]), parent, ss[1..], ids))
  }

  function StandingInstance(n: Ref, parent: Ref, s: Snapshot, ids: map<Ref, Ref>): (r: Instance) {
    PlantedInstance(n, parent, s).(props := TranslateProps(ids, InsertedProps(s.className, s.props)))
  }

  ghost predicate RowStanding(t: Tree, n: Ref, added: seq<Add>, ids: map<Ref, Ref>)
    decreases |added|
  {
    added == [] ||
    (Standing(t, n, added[0].parent, added[0].snap, ids) && RowStanding(t, n + Size(added[0].snap), added[1..], ids))
  }

  /** Translating with `a` while computing and with `b` while applying. */
  ghost predicate Composable(a: map<Ref, Ref>, b: map<Ref, Ref>) {
    NO_REF !in b && forall i :: i in a ==> a[i] !in b
  }

  lemma TranslateTwice(a: map<Ref, Ref>, b: map<Ref, Ref>, v: Value)
    requires Composable(a, b)
    ensures Translate(b, Translate(a, v)) == Translate(b + a, v)
  {
  }

  /** Rewriting while computing, inserting, and translating at the end amount to
      one translation through the whole table. */
  lemma PropsStand(a: map<Ref, Ref>, b: map<Ref, Ref>, className: string, props: Props)
    requires Composable(a, b)
    ensures TranslateProps(b, InsertedProps(className, TranslateProps(a, props)))
         == TranslateProps(b + a, InsertedProps(className, props))
  {
    forall k | k in props ensures Translate(b, Translate(a, props[k])) == Translate(b + a, props[k]) {
      TranslateTwice(a, b, props[k]);
    }
  }

  /** An instance that holds no reference is left alone by translation. */
  lemma TranslateIdle(b: map<Ref, Ref>, props: Props)
    requires NO_REF !in b && !HasRefs(props)
    ensures TranslateProps(b, props) == props
  {
    forall k | k in props ensures Translate(b, props[k]) == props[k] {
    }
  }

  lemma InsertedRefs(className: string, props: Props)
    ensures HasRefs(InsertedProps(className, props)) <==> HasRefs(props)
  {
    var r := InsertedProps(className, props);
    if HasRefs(r) {
      var k :| k in r && r[k].RefValue? && r[k].ref != NO_REF;
      assert k in props;
    }
    if HasRefs(props) {
      var k :| k in props && props[k].RefValue? && props[k].ref != NO_REF;
      assert r[k] == props[k];
    }
  }

  lemma {:induction false} PlantedStands(t: Tree, marked: set<Ref>, v: Tree, n: Ref, parent: Ref, s: Snapshot,
                                         a: map<Ref, Ref>, b: map<Ref, Ref>)
    requires Planted(t, n, parent, RewriteSnapshot(a, s))
    requires RefsNoted(marked, n, RewriteSnapshot(a, s))
    requires Composable(a, b) && Resolving(TranslateAdded(t, marked, b), v)
    ensures Standing(v, n, parent, s, b + a)
    decreases s, 1
  {
    PlantedAllStand(t, marked, v, n + 1, n, s.children, a, b);
    RootStands(t, marked, n, parent, s, a, b);
    RootResolves(TranslateAdded(t, marked, b), v, n, parent, s, b + a);
  }

  /** The root of an added subtree, before pointers are resolved. */
  lemma RootStands(t: Tree, marked: set<Ref>, n: Ref, parent: Ref, s: Snapshot, a: map<Ref, Ref>, b: map<Ref, Ref>)
    requires n in t.insts && t.insts[n] == PlantedInstance(n, parent, RewriteSnapshot(a, s))
    requires HasRefs(RewriteSnapshot(a, s).props) ==> n in marked
    requires Composable(a, b)
    ensures TranslateAdded(t, marked, b).insts[n] == StandingInstance(n, parent, s, b + a)
    ensures PlantedMeta(RewriteSnapshot(a, s)) == PlantedMeta(s)
  {
    var r := RewriteSnapshot(a, s);
    RewriteBases(a, s.children, n + 1);
    PropsStand(a, b, s.className, s.props);
    InsertedRefs(r.className, r.props);
    if n !in marked { TranslateIdle(b, InsertedProps(r.className, r.props)); }
    TranslatedPointers(a, s.props);
  }

  lemma RootResolves(m: Tree, v: Tree, n: Ref, parent: Ref, s: Snapshot, ids: map<Ref, Ref>)
    requires Resolving(m, v) && n in m.insts && n in m.meta
    requires m.insts[n] == StandingInstance(n, parent, s, ids) && m.meta[n] == PlantedMeta(s)
    ensures StandsOne(v, n, parent, s, ids)
  {
    assert ResolvesAt(m, v, n);
    var inserted := InsertedProps(s.className, s.props);
    TranslatedPointers(ids, inserted);
    assert AttributesOf(inserted) == AttributesOf(s.props);
  }

  lemma {:induction false} PlantedAllStand(t: Tree, marked: set<Ref>, v: Tree, n: Ref, parent: Ref, ss: seq<Snapshot>,
                                           a: map<Ref, Ref>, b: map<Ref, Ref>)
    requires PlantedAll(t, n, parent, RewriteSnapshots(a, ss))
    requires RefsNotedAll(marked, n, RewriteSnapshots(a, ss))
    requires Composable(a, b) && Resolving(TranslateAdded(t, marked, b), v)
    ensures StandingAll(v, n, parent, ss, b + a)
    decreases ss, 0
  {
    if ss != [] {
      assert RewriteSnapshots(a, ss)[1..] == RewriteSnapshots(a, ss[1..]);
      RewriteSize(a, ss[0]);
      PlantedStands(t, marked, v, n, parent, ss[0], a, b);
      PlantedAllStand(t, marked, v, n + Size(ss[0]), parent, ss[1..], a, b);
    }
  }

  lemma {:induction false} RowStands(t: Tree, marked: set<Ref>, v: Tree, n: Ref, added: seq<Add>,
                                     a: map<Ref, Ref>, b: map<Ref, Ref>)
    requires RowPlanted(t, n, RewriteAdds(a, added))
    requires RefsNotedRow(marked, n, RewriteAdds(a, added))
    requires Composable(a, b) && Resolving(TranslateAdded(t, marked, b), v)
    ensures RowStanding(v, n, added, b + a)
    decreases |added|
  {
    if added != [] {
      assert RewriteAdds(a, added)[1..] == RewriteAdds(a, added[1..]);
      RewriteSize(a, added[0].snap);
      PlantedStands(t, marked, v, n, added[0].parent, added[0].snap, a, b);
      RowStands(t, marked, v, n + Size(added[0].snap), added[1..], a, b);
    }
  }

  lemma {:induction false} RowPlantedFrame(t: Tree, u: Tree, n: Ref, added: seq<Add>)
    requires RowPlanted(t, n, added) && SameOn(t, u, n, n + Total(added))
    ensures RowPlanted(u, n, added)
    decreases |added|
  {
    if added != [] {
      PlantedFrame(t, u, n, added[0].parent, added[0].snap);
      RowPlantedFrame(t, u, n + Size(added[0].snap), added[1..]);
    }
  }

  // ----- the ids that translation knows -----

  lemma {:induction false} SnapshotIdsKeys(n: Ref, s: Snapshot)
    ensures SnapshotIds(n, s).Keys == IdsIn(s)
    ensures forall i :: i in SnapshotIds(n, s) ==> n <= SnapshotIds(n, s)[i] < n + Size(s)
    decreases s, 1
  {
    SnapshotsIdsKeys(n + 1, s.children);
  }

  lemma {:induction false} SnapshotsIdsKeys(n: Ref, ss: seq<Snapshot>)
    ensures SnapshotsIds(n, ss).Keys == IdsAmong(ss)
    ensures forall i :: i in SnapshotsIds(n, ss) ==> n <= SnapshotsIds(n, ss)[i] < n + Sizes(ss)
    decreases ss, 0
  {
    if ss != [] {
      SnapshotIdsKeys(n, ss[0]);
      SnapshotsIdsKeys(n + Size(ss[0]), ss[1..]);
    }
  }

  lemma {:induction false} AddedIdsKeys(n: Ref, added: seq<Add>, s: Snapshot)
    requires forall a :: a in added ==> Part(a.snap, s)
    ensures AddedIds(n, added).Keys <= IdsIn(s)
    decreases |added|
  {
    if added != [] {
      PartIds(added[0].snap, s);
      SnapshotIdsKeys(n, added[0].snap);
      AddedIdsKeys(n + Size(added[0].snap), added[1..], s);
    }
  }

  // ----- the final tree -----

  /** The metadata of a snapshot, where a readable `Rojo_Id` may have taken the place
      of the id. */
  predicate MetaSettled(m: Metadata, s: Snapshot) {
    m == s.meta || m == PlantedMeta(s)
  }

  /** What reconciling makes of the instance `x` paired with the snapshot `s`, but for
      the properties that pointers decide. */
  ghost predicate PairDone(t: Tree, v: Tree, p: Plan, x: Ref, s: Snapshot)
    requires x in t.insts
  {
    var n := t.insts[x];
    && x in v.insts && x in v.meta
    && v.insts[x] == Instance(s.name, s.className, v.insts[x].props, n.parent,
                              Keep(n.children, Elements(p.patch.removed)) + NewKids(p.patch.added, x, t.next))
    && AgreeOff(v.insts[x].props, PropsAfter(n.props, s, p.ids, AddedIds(t.next, p.patch.added)), PointedBy(s.props))
    && x in t.meta && v.meta[x] == MetaAfter(t, x, s)
  }

  /** A pair that changes nothing has the snapshot's metadata already; an update
      adopts a readable `Rojo_Id` as well. */
  ghost function MetaAfter(t: Tree, x: Ref, s: Snapshot): (r: Metadata)
    requires x in t.insts && x in t.meta
    ensures MetaSettled(r, s)
  {
    if ChangesNothing(NodeUpdate(t, s, x)) || ATTRIBUTES in PointedBy(s.props) then s.meta else PlantedMeta(s)
  }

  /** The final tree, described completely: removed subtrees are gone, visited
      instances are as `PairDone` says, all others are untouched, and the added
      snapshots stand where the fresh ids begin. */
  ghost predicate Done(t: Tree, v: Tree, p: Plan)
    requires forall x :: x in p.pairs ==> x.0 in t.insts
  {
    && Members(t, v, p)
    && (forall x :: x in p.pairs ==> PairDone(t, v, p, x.0, x.1))
    && (forall x :: x in t.insts && x in v.insts && x !in Visited(p) ==> Kept(t, v, x))
    && RowStanding(v, t.next, p.patch.added, Table(p, t.next))
  }

  ghost predicate Members(t: Tree, v: Tree, p: Plan) {
    && WellFormed(v) && v.root == t.root
    && v.next == t.next + Total(p.patch.added)
    && (forall x :: x in t.insts ==> (x in v.insts <==> !Dead(t, x, p.patch.removed)))
    && (forall x :: x in v.insts ==> x in t.insts || x >= t.next)
  }

  ghost predicate Kept(t: Tree, v: Tree, x: Ref) {
    && x in t.insts && x in v.insts && v.insts[x] == t.insts[x]
    && x in t.meta && x in v.meta && v.meta[x] == t.meta[x]
  }

  /** No snapshot id is a reference the tree already knows. */
  ghost predicate FreshIds(t: Tree, s: Snapshot) {
    && (forall x :: x in t.insts ==> x !in IdsIn(s))
    && (forall x, k :: x in t.insts && k in t.insts[x].props && t.insts[x].props[k].RefValue? ==>
          t.insts[x].props[k].ref !in IdsIn(s))
  }

  lemma PlanComposable(t: Tree, s: Snapshot, p: Plan)
    requires GoodPlan(t, s, p) && FreshIds(t, s)
    ensures Composable(p.ids, AddedIds(t.next, p.patch.added))
    ensures Table(p, t.next).Keys <= IdsIn(s)
    ensures NO_REF !in p.ids
  {
    AddedIdsKeys(t.next, p.patch.added, s);
    NoNullIds(s);
    forall i | i in p.ids ensures p.ids[i] !in IdsIn(s) {
      assert p.ids[i] in Visited(p);
    }
  }

  /** The update emitted for a pair turns the instance into what the snapshot wants. */
  lemma PairUpdate(t: Tree, b: Instance, s: Snapshot, x: Ref, planIds: map<Ref, Ref>, addIds: map<Ref, Ref>)
    requires x in t.insts && x in t.meta && NO_REF !in t.meta && NoNullAttributes(s.props)
    requires forall i :: i in planIds ==> planIds[i] != NO_REF
    requires b.name == t.insts[x].name && b.className == t.insts[x].className && b.props == t.insts[x].props
    ensures var u := RewriteUpdate(planIds, NodeUpdate(t, s, x)); var r := AppliedProps(t, s, x, planIds, addIds);
      && ChangedInstance(b, u, addIds) == Instance(s.name, s.className, r, b.parent, b.children)
      && AgreeOff(r, PropsAfter(b.props, s, planIds, addIds), PointedBy(s.props)) && PointedBy(r) <= PointedBy(s.props)
      && AdoptedMeta(r, NewMeta(t.meta[x], u)) == if ATTRIBUTES in PointedBy(s.props) then s.meta else PlantedMeta(s)
  {
    AppliedOff(t, s, x, planIds, addIds);
    AppliedAttributes(t, s, x, planIds, addIds);
  }

  /** A pair whose update is trivial already is what the snapshot wants. */
  lemma TrivialPair(t: Tree, s: Snapshot, x: Ref, planIds: map<Ref, Ref>, addIds: map<Ref, Ref>)
    requires x in t.insts && x in t.meta && ChangesNothing(NodeUpdate(t, s, x))
    ensures t.insts[x].name == s.name && t.insts[x].className == s.className && t.meta[x] == s.meta
    ensures AgreeOff(t.insts[x].props, PropsAfter(t.insts[x].props, s, planIds, addIds), PointedBy(s.props))
  {
    AppliedOff(t, s, x, planIds, addIds);
    assert RewriteChanges(planIds, map[]) == map[];
    assert ChangedProps(t.insts[x].props, map[], addIds) == t.insts[x].props;
  }

  /** The three trees between the phases. */
  ghost predicate Phases(t: Tree, q: Patch, t1: Tree, t2: Tree, st: State) {
    && Thinned(t, t1, q.removed)
    && WellFormed(t2) && Populated(t1, t2, q.added)
    && WellFormed(st.tree) && Updated(t2, st.tree, q.updated, st.ctx.ids)
    && FullContext(t, q, st.ctx)
  }

  /** Between `t` and `u`, the removed subtrees have gone and nothing else. */
  ghost predicate Thinned(t: Tree, u: Tree, removed: seq<Ref>) {
    && WellFormed(u) && u.next == t.next && u.root == t.root
    && (forall x :: x in u.insts <==> x in t.insts && !Dead(t, x, removed))
    && (forall x :: x in u.insts ==>
          && x in t.meta && x in u.meta
          && u.insts[x] == t.insts[x].(children := Keep(t.insts[x].children, Elements(removed)))
          && u.meta[x] == t.meta[x])
  }

  ghost predicate FullContext(t: Tree, q: Patch, c: Context) {
    && c.ids == AddedIds(t.next, q.added)
    && RefsNotedRow(c.hasRefs, t.next, q.added)
    && (forall x :: x in c.hasRefs ==> t.next <= x)
    && c.applied == Applied(q.removed, Range(t.next, Total(q.added)), DescribedAll(q.updated))
  }

  lemma ContextFills(t: Tree, q: Patch, c: Context, d: Context, e: Context)
    requires c == EMPTY_CONTEXT.(applied := Applied(q.removed, [], []))
    requires Noted(c, d, t.next, Total(q.added), AddedIds(t.next, q.added))
    requires RefsNotedRow(d.hasRefs, t.next, q.added)
    requires UpdatesNoted(d, e, q.updated)
    ensures FullContext(t, q, e)
  {
    assert map[] + AddedIds(t.next, q.added) == AddedIds(t.next, q.added);
    assert [] + Range(t.next, Total(q.added)) == Range(t.next, Total(q.added));
    assert [] + DescribedAll(q.updated) == DescribedAll(q.updated);
  }

  lemma RemovalsThin(t: Tree, removed: seq<Ref>)
    requires WellFormed(t) && Removable(t, removed)
    ensures Thinned(t, RemoveAll(t, removed), removed)
  {
    RemoveAllEffect(t, removed);
  }

  /** Any applicable patch with distinct live updates goes through these phases. */
  lemma ApplyingPhases(t: Tree, q: Patch) returns (t1: Tree, t2: Tree)
    requires WellFormed(t) && Applicable(t, q)
    requires DistinctIds(q.updated) && forall u :: u in q.updated ==> u.id in RemoveAll(t, q.removed).insts
    ensures t1 == RemoveAll(t, q.removed)
    ensures Phases(t, q, t1, t2, Applying(t, q))
  {
    t1 := RemoveAll(t, q.removed);
    RemovalsThin(t, q.removed);
    var st1 := State(t1, EMPTY_CONTEXT.(applied := Applied(q.removed, [], [])));
    var st2 := AddAll(st1, q.added);
    t2 := st2.tree;
    AddAllEffect(st1, q.added);
    AddAllNotes(st1, q.added);
    UpdateAllEffect(st2, q.updated);
    UpdateAllNotes(st2, q.updated);
    ContextFills(t, q, st1.ctx, st2.ctx, UpdateAll(st2, q.updated).ctx);
  }

  /** The table made while computing leads to live instances. */
  lemma LiveIds(t: Tree, s: Snapshot, p: Plan)
    requires WellFormed(t) && GoodPlan(t, s, p)
    ensures NO_REF !in t.meta && forall i :: i in p.ids ==> p.ids[i] != NO_REF
  {
    LiveRange(t, NO_REF);
    forall i | i in p.ids ensures p.ids[i] != NO_REF {
      assert p.ids[i] in Visited(p);
      LiveRange(t, p.ids[i]);
    }
  }

  lemma TranslateAddedWellFormed(t: Tree, marked: set<Ref>, ids: map<Ref, Ref>)
    requires WellFormed(t)
    ensures WellFormed(TranslateAdded(t, marked, ids))
  {
    var u := TranslateAdded(t, marked, ids);
    forall x | x in u.insts ensures NodeOk(u, x) {
      assert NodeOk(t, x);
    }
  }

  /** The last phase: pointers are resolved at added and updated instances alone. */
  ghost predicate Finishing(t: Tree, q: Patch, st: State, v: Tree) {
    var m := TranslateAdded(st.tree, st.ctx.hasRefs, st.ctx.ids);
    && Resolving(m, v)
    && forall x :: x in m.insts && x < t.next && x !in UpdatedIds(q.updated) ==> v.insts[x] == m.insts[x]
  }

  lemma ApplyingFinishes(t: Tree, q: Patch)
    requires WellFormed(t) && Applicable(t, q) && DistinctIds(q.updated)
    requires forall u :: u in q.updated ==> u.id in RemoveAll(t, q.removed).insts
    ensures Finishing(t, q, Applying(t, q), ApplyPatch(t, q))
  {
    ApplyingFits(t, q);
    FinalizedResolves(Applying(t, q));
  }

  /** The instance behind one pair, through all phases. */
  lemma PairThrough(t: Tree, p: Plan, q: Patch, t1: Tree, t2: Tree, st: State, v: Tree, x: Ref, s: Snapshot)
    requires q == RewritePlan(p) && Phases(t, q, t1, t2, st) && Finishing(t, q, st, v) && WellFormed(t)
    requires x in t.insts && x in t1.insts && NO_REF !in t.meta && NoNullAttributes(s.props)
    requires forall i :: i in p.ids ==> p.ids[i] != NO_REF
    requires if ChangesNothing(NodeUpdate(t, s, x)) then x !in UpdatedIds(q.updated)
             else RewriteUpdate(p.ids, NodeUpdate(t, s, x)) in q.updated
    ensures PairDone(t, v, p, x, s)
  {
    var b := t2.insts[x];
    RewriteRow(p.ids, p.patch.added, t.next);
    RewriteKids(p.ids, p.patch.added, x, t.next);
    LiveRange(t, x);
    assert t.meta.Keys == t.insts.Keys && t1.meta.Keys == t1.insts.Keys;
    assert b == t.insts[x].(children := Keep(t.insts[x].children, Elements(q.removed)) + NewKids(q.added, x, t.next));
    assert t2.meta[x] == t.meta[x];
    var m := TranslateAdded(st.tree, st.ctx.hasRefs, st.ctx.ids);
    assert m.insts[x] == st.tree.insts[x];
    if ChangesNothing(NodeUpdate(t, s, x)) {
      TrivialPair(t, s, x, p.ids, st.ctx.ids);
      assert st.tree.insts[x] == b;
    } else {
      var u := RewriteUpdate(p.ids, NodeUpdate(t, s, x));
      PairUpdate(t, b, s, x, p.ids, st.ctx.ids);
      assert UpdateDone(t2, st.tree, u, st.ctx.ids);
      assert ResolvesAt(m, v, x);
    }
  }

  lemma PairsThrough(t: Tree, s: Snapshot, p: Plan, t1: Tree, t2: Tree, st: State, v: Tree)
    requires WellFormed(t) && GoodPlan(t, s, p) && AttributesStated(s)
    requires Phases(t, RewritePlan(p), t1, t2, st) && Finishing(t, RewritePlan(p), st, v)
    requires forall y :: y in Visited(p) ==> y in t1.insts
    ensures forall x :: x in p.pairs ==> PairDone(t, v, p, x.0, x.1)
  {
    LiveIds(t, s, p);
    forall x | x in p.pairs ensures PairDone(t, v, p, x.0, x.1) {
      assert x.0 in Visited(p);
      PairUpdateKnown(t, s, p, x);
      PairThrough(t, p, RewritePlan(p), t1, t2, st, v, x.0, x.1);
    }
  }

  lemma PairUpdateKnown(t: Tree, s: Snapshot, p: Plan, x: (Ref, Snapshot))
    requires GoodPlan(t, s, p) && AttributesStated(s) && x in p.pairs
    ensures NoNullAttributes(x.1.props)
    ensures if ChangesNothing(NodeUpdate(t, x.1, x.0)) then x.0 !in UpdatedIds(RewritePlan(p).updated)
            else RewriteUpdate(p.ids, NodeUpdate(t, x.1, x.0)) in RewritePlan(p).updated
  {
    ComputedUpdates(t, s, p);
    PartPointerFree(x.1, s);
    if ChangesNothing(NodeUpdate(t, x.1, x.0)) { NoUpdateFor(t, p, RewritePlan(p).updated, x); }
  }

  lemma PairsApart(p: Plan, x: (Ref, Snapshot), y: (Ref, Snapshot))
    requires Distinct(p) && x in p.pairs && y in p.pairs && x.0 == y.0
    ensures x == y
  {
  }

  lemma NoUpdateFor(t: Tree, p: Plan, updated: seq<Update>, x: (Ref, Snapshot))
    requires t.meta.Keys == t.insts.Keys && forall y :: y in p.pairs ==> y.0 in t.insts
    requires Distinct(p) && UpdatesMatch(t, p, updated)
    requires x in p.pairs && ChangesNothing(NodeUpdate(t, x.1, x.0))
    ensures x.0 !in UpdatedIds(updated)
  {
    forall u | u in updated ensures u.id != x.0 {
      var y :| y in p.pairs && !ChangesNothing(NodeUpdate(t, y.1, y.0))
        && u == RewriteUpdate(p.ids, NodeUpdate(t, y.1, y.0));
      if u.id == x.0 { PairsApart(p, x, y); }
    }
  }

  /** An instance no plan visits, through all phases. */
  lemma OtherThrough(t: Tree, p: Plan, q: Patch, t1: Tree, t2: Tree, st: State, v: Tree, x: Ref)
    requires WellFormed(t) && q == RewritePlan(p) && Phases(t, q, t1, t2, st) && Finishing(t, q, st, v)
    requires x in t.insts && x in t1.insts
    requires forall r :: r in q.removed ==> r in t.insts && t.insts[r].parent != x
    requires forall a :: a in q.added ==> a.parent != x
    requires forall u :: u in q.updated ==> u.id != x
    ensures Kept(t, v, x)
  {
    ThinnedKeeps(t, t1, q.removed, x);
    PopulatedKeeps(t1, t2, q.added, x);
    assert x !in UpdatedIds(q.updated);
    LiveRange(t, x);
  }

  lemma ThinnedKeeps(t: Tree, u: Tree, removed: seq<Ref>, x: Ref)
    requires WellFormed(t) && Thinned(t, u, removed) && x in u.insts
    requires forall r :: r in removed ==> r in t.insts && t.insts[r].parent != x
    ensures Kept(t, u, x)
  {
    assert NodeOk(t, x);
    KeepAll(t.insts[x].children, Elements(removed));
  }

  lemma PopulatedKeeps(t: Tree, u: Tree, added: seq<Add>, x: Ref)
    requires WellFormed(t) && Adopted(t, u, added) && x in t.insts
    requires forall a :: a in added ==> a.parent != x
    ensures Kept(t, u, x)
  {
    NoNewKids(added, x, t.next);
    assert t.insts[x].children + [] == t.insts[x].children;
    assert t.meta.Keys == t.insts.Keys;
  }

  lemma LateKept(t: Tree, q: Patch, t1: Tree, t2: Tree, st: State)
    requires WellFormed(t) && Phases(t, q, t1, t2, st)
    requires forall u :: u in q.updated ==> u.id in t.insts
    ensures RowPlanted(st.tree, t.next, q.added)
  {
    forall x | t.next <= x && x in t2.insts ensures x !in UpdatedIds(q.updated) {
      LiveRange(t, x);
    }
    RowPlantedFrame(t2, st.tree, t.next, q.added);
  }

  lemma NewStand(t: Tree, s: Snapshot, p: Plan, t1: Tree, t2: Tree, st: State, v: Tree)
    requires WellFormed(t) && GoodPlan(t, s, p)
    requires Composable(p.ids, AddedIds(t.next, p.patch.added))
    requires Phases(t, RewritePlan(p), t1, t2, st) && Finishing(t, RewritePlan(p), st, v)
    ensures RowStanding(v, t.next, p.patch.added, Table(p, t.next))
  {
    ComputedUpdates(t, s, p);
    LateKept(t, RewritePlan(p), t1, t2, st);
    RewriteRow(p.ids, p.patch.added, t.next);
    RowStands(st.tree, st.ctx.hasRefs, v, t.next, p.patch.added, p.ids, st.ctx.ids);
  }

  lemma OthersThrough(t: Tree, s: Snapshot, p: Plan, t1: Tree, t2: Tree, st: State, v: Tree)
    requires WellFormed(t) && GoodPlan(t, s, p)
    requires Phases(t, RewritePlan(p), t1, t2, st) && Finishing(t, RewritePlan(p), st, v)
    ensures forall x :: x in t.insts && x in v.insts && x !in Visited(p) ==> Kept(t, v, x)
  {
    var q := RewritePlan(p);
    RewrittenIn(p);
    ComputedUpdates(t, s, p);
    forall x | x in t.insts && x in v.insts && x !in Visited(p) ensures Kept(t, v, x) {
      LiveRange(t, x);
      OtherThrough(t, p, q, t1, t2, st, v, x);
    }
  }

  lemma MembersThrough(t: Tree, p: Plan, t1: Tree, t2: Tree, st: State, v: Tree)
    requires WellFormed(t) && Phases(t, RewritePlan(p), t1, t2, st) && Finishing(t, RewritePlan(p), st, v)
    ensures Members(t, v, p)
  {
    var m := TranslateAdded(st.tree, st.ctx.hasRefs, st.ctx.ids);
    TranslateAddedWellFormed(st.tree, st.ctx.hasRefs, st.ctx.ids);
    ResolvingWellFormed(m, v);
    RewriteRow(p.ids, p.patch.added, t.next);
    forall x | x in t.insts ensures x in v.insts <==> !Dead(t, x, p.patch.removed) {
      LiveRange(t, x);
    }
  }

  /** What any applicable patch with distinct live updates leaves, and how it is
      described. */
  lemma AppliedShape(t: Tree, q: Patch)
    requires WellFormed(t) && Applicable(t, q)
    requires DistinctIds(q.updated) && forall u :: u in q.updated ==> u.id in RemoveAll(t, q.removed).insts
    ensures var v := ApplyPatch(t, q); WellFormed(v) && v.next == t.next + Total(q.added)
    ensures Applying(t, q).ctx.applied == Applied(q.removed, Range(t.next, Total(q.added)), DescribedAll(q.updated))
  {
    var t1, t2 := ApplyingPhases(t, q);
    var st := Applying(t, q);
    ApplyingFinishes(t, q);
    TranslateAddedWellFormed(st.tree, st.ctx.hasRefs, st.ctx.ids);
    ResolvingWellFormed(TranslateAdded(st.tree, st.ctx.hasRefs, st.ctx.ids), ApplyPatch(t, q));
  }

  /** Every reconciliation goes through the phases, whatever the snapshot. */
  lemma ReconcilePhases(t: Tree, s: Snapshot, id: Ref) returns (t1: Tree, t2: Tree)
    requires WellFormed(t) && id in t.insts
    ensures var p := PlanNode(t, s, id); var q := PatchFor(t, Some(s), id);
      && GoodPlan(t, s, p) && Applicable(t, q) && q == RewritePlan(p)
      && Phases(t, q, t1, t2, Applying(t, q)) && Finishing(t, q, Applying(t, q), ApplyPatch(t, q))
      && forall y :: y in Visited(p) ==> y in t1.insts
  {
    var p := PlanNode(t, s, id);
    PlanIsGood(t, s, id);
    PlanApplicable(t, s, p);
    ComputedUpdates(t, s, p);
    t1, t2 := ApplyingPhases(t, RewritePlan(p));
    ApplyingFinishes(t, RewritePlan(p));
  }

  /** For every snapshot, the tree stays well formed, exactly the removed subtrees
      go, and instances that no plan visits are untouched. */
  lemma ReconcileMembers(t: Tree, s: Snapshot, id: Ref)
    requires WellFormed(t) && id in t.insts
    ensures Applicable(t, PatchFor(t, Some(s), id))
    ensures var p := PlanNode(t, s, id); var v := ApplyPatch(t, PatchFor(t, Some(s), id));
      Members(t, v, p) && forall x :: x in t.insts && x in v.insts && x !in Visited(p) ==> Kept(t, v, x)
  {
    var p, q := PlanNode(t, s, id), PatchFor(t, Some(s), id);
    var t1, t2 := ReconcilePhases(t, s, id);
    OthersThrough(t, s, p, t1, t2, Applying(t, q), ApplyPatch(t, q));
    MembersThrough(t, p, t1, t2, Applying(t, q), ApplyPatch(t, q));
  }

  /** Reconciling ends in the tree that `Done` describes. */
  lemma ReconcileDone(t: Tree, s: Snapshot, id: Ref)
    requires WellFormed(t) && id in t.insts && AttributesStated(s) && FreshIds(t, s)
    ensures GoodPlan(t, s, PlanNode(t, s, id))
    ensures Applicable(t, PatchFor(t, Some(s), id))
    ensures Done(t, ApplyPatch(t, PatchFor(t, Some(s), id)), PlanNode(t, s, id))
  {
    var p, q := PlanNode(t, s, id), PatchFor(t, Some(s), id);
    var t1, t2 := ReconcilePhases(t, s, id);
    ReconcileMembers(t, s, id);
    PlanComposable(t, s, p);
    PairsThrough(t, s, p, t1, t2, Applying(t, q), ApplyPatch(t, q));
    NewStand(t, s, p, t1, t2, Applying(t, q), ApplyPatch(t, q));
  }
}
