/** Which instances carry a user-specified id after a reconciliation, told from before
    it (src/snapshot/patch_apply.rs, src/snapshot/tree.rs). */
module CarrierFacts {
  import opened Basics
  import opened Values
  import opened TreeModel
  import opened PatchPlan
  import opened PlanFacts
  import opened PatchEffect
  import opened EffectFacts
  import opened Pointers
  import opened Outcome
  import opened FinalTree
  import opened RefTranslation

  /** A new instance will carry the id that its node adopts or is given. */
  ghost predicate NewCarries(t: Tree, p: Plan, x: Ref, u: string) {
    exists q: Snapshot :: (x, q) in PlantRow(t.next, p.patch.added) && PlantedMeta(q).specifiedId == Some(u)
  }

  /** A visited one carries what its node leaves it. */
  ghost predicate PairCarries(t: Tree, p: Plan, x: Ref, u: string) {
    exists q: Snapshot :: (x, q) in p.pairs && x in t.insts && x in t.meta && MetaAfter(t, x, q).specifiedId == Some(u)
  }

  /** Any other one carries what it has, as long as it is there. */
  ghost predicate StillCarries(t: Tree, p: Plan, x: Ref, u: string) {
    && x in t.insts && x in t.meta && x !in Visited(p) && !Dead(t, x, p.patch.removed)
    && t.meta[x].specifiedId == Some(u)
  }

  ghost predicate WillCarry(t: Tree, p: Plan, x: Ref, u: string) {
    StillCarries(t, p, x, u) || PairCarries(t, p, x, u) || NewCarries(t, p, x, u)
  }

  ghost predicate OnlyOneCarries(t: Tree, p: Plan, x: Ref, u: string) {
    WillCarry(t, p, x, u) && forall y :: WillCarry(t, p, y, u) ==> y == x
  }

  /** The instance that the id will stand for. */
  ghost function CarrierAfter(t: Tree, p: Plan, u: string): (r: Option<Ref>)
    ensures r.Some? <==> exists x :: OnlyOneCarries(t, p, x, u)
    ensures r.Some? ==> OnlyOneCarries(t, p, r.value, u)
  {
    if exists x :: OnlyOneCarries(t, p, x, u) then
      var x :| OnlyOneCarries(t, p, x, u); Some(x)
    else None
  }

  // ----- the metadata of what is added -----

  ghost predicate MetaStands(t: Tree, y: (Ref, Snapshot)) {
    y.0 in t.meta && t.meta[y.0] == PlantedMeta(y.1)
  }

  lemma {:induction false} PlantedMetas(t: Tree, n: Ref, parent: Ref, s: Snapshot, a: map<Ref, Ref>)
    requires Planted(t, n, parent, RewriteSnapshot(a, s))
    ensures forall y :: y in PlantList(n, s) ==> MetaStands(t, y) && n <= y.0 < n + Size(s)
    decreases s, 1
  {
    TranslatedPointers(a, s.props);
    PlantedAllMetas(t, n + 1, n, s.children, a);
  }

  lemma {:induction false} PlantedAllMetas(t: Tree, n: Ref, parent: Ref, ss: seq<Snapshot>, a: map<Ref, Ref>)
    requires PlantedAll(t, n, parent, RewriteSnapshots(a, ss))
    ensures forall y :: y in PlantLists(n, ss) ==> MetaStands(t, y) && n <= y.0 < n + Sizes(ss)
    decreases ss, 0
  {
    if ss != [] {
      assert RewriteSnapshots(a, ss)[1..] == RewriteSnapshots(a, ss[1..]);
      RewriteSize(a, ss[0]);
      PlantedMetas(t, n, parent, ss[0], a);
      PlantedAllMetas(t, n + Size(ss[0]), parent, ss[1..], a);
    }
  }

  lemma {:induction false} RowMetas(t: Tree, n: Ref, added: seq<Add>, a: map<Ref, Ref>)
    requires RowPlanted(t, n, RewriteAdds(a, added))
    ensures forall y :: y in PlantRow(n, added) ==> MetaStands(t, y) && n <= y.0 < n + Total(added)
    decreases |added|
  {
    if added != [] {
      assert RewriteAdds(a, added)[1..] == RewriteAdds(a, added[1..]);
      RewriteSize(a, added[0].snap);
      PlantedMetas(t, n, added[0].parent, added[0].snap, a);
      RowMetas(t, n + Size(added[0].snap), added[1..], a);
    }
  }

  /** Every new id belongs to a node. */
  lemma {:induction false} RowCovers(n: Ref, added: seq<Add>, x: Ref) returns (q: Snapshot)
    requires n <= x < n + Total(added)
    ensures (x, q) in PlantRow(n, added)
    decreases |added|
  {
    var size := Size(added[0].snap);
    if x < n + size { q := ListCovers(n, added[0].snap, x); } else { q := RowCovers(n + size, added[1..], x); }
  }

  lemma {:induction false} ListCovers(n: Ref, s: Snapshot, x: Ref) returns (q: Snapshot)
    requires n <= x < n + Size(s)
    ensures (x, q) in PlantList(n, s)
    decreases s, 1
  {
    if x == n { q := s; } else { q := ListsCover(n + 1, s.children, x); }
  }

  lemma {:induction false} ListsCover(n: Ref, ss: seq<Snapshot>, x: Ref) returns (q: Snapshot)
    requires n <= x < n + Sizes(ss)
    ensures (x, q) in PlantLists(n, ss)
    decreases ss, 0
  {
    if x < n + Size(ss[0]) { q := ListCovers(n, ss[0], x); } else { q := ListsCover(n + Size(ss[0]), ss[1..], x); }
  }

  // ----- the metadata afterwards -----

  /** The metadata of everything, in terms of the tree before. */
  ghost predicate Metas(t: Tree, v: Tree, p: Plan) {
    && v.meta.Keys == v.insts.Keys && t.meta.Keys == t.insts.Keys
    && (forall x :: x in v.insts ==> x in t.insts || t.next <= x < t.next + Total(p.patch.added))
    && (forall x :: x in t.insts ==> x < t.next && (x in v.insts <==> !Dead(t, x, p.patch.removed)))
    && (forall x :: x in t.insts && x in v.insts && x !in Visited(p) ==> v.meta[x] == t.meta[x])
    && (forall x :: x in p.pairs ==> x.0 in t.insts && x.0 in v.insts && v.meta[x.0] == MetaAfter(t, x.0, x.1))
    && (forall y :: y in PlantRow(t.next, p.patch.added) ==> MetaStands(v, y) && t.next <= y.0)
  }

  lemma ReconcileMetas(t: Tree, s: Snapshot, id: Ref)
    requires WellFormed(t) && id in t.insts && AttributesStated(s)
    ensures Applicable(t, PatchFor(t, Some(s), id))
    ensures Metas(t, PatchEffect.ApplyPatch(t, PatchFor(t, Some(s), id)), PlanNode(t, s, id))
  {
    var p, q := PlanNode(t, s, id), PatchFor(t, Some(s), id);
    var t1, t2 := ReconcilePhases(t, s, id);
    var st, v := Applying(t, q), PatchEffect.ApplyPatch(t, q);
    ReconcileMembers(t, s, id);
    PairsThrough(t, s, p, t1, t2, st, v);
    NewMetas(t, s, p, t1, t2, st);
    MetasTogether(t, v, p);
  }

  lemma MetasTogether(t: Tree, v: Tree, p: Plan)
    requires WellFormed(t) && Members(t, v, p)
    requires forall x :: x in t.insts && x in v.insts && x !in Visited(p) ==> Kept(t, v, x)
    requires forall x :: x in p.pairs ==> x.0 in t.insts && PairDone(t, v, p, x.0, x.1)
    requires forall y :: y in PlantRow(t.next, p.patch.added) ==> MetaStands(v, y) && t.next <= y.0
    ensures Metas(t, v, p)
  {
    MembersOld(t, v, p);
    PairMetas(t, v, p);
  }

  lemma NewMetas(t: Tree, s: Snapshot, p: Plan, t1: Tree, t2: Tree, st: State)
    requires WellFormed(t) && GoodPlan(t, s, p) && Phases(t, RewritePlan(p), t1, t2, st)
    ensures forall y :: y in PlantRow(t.next, p.patch.added) ==> MetaStands(st.tree, y) && t.next <= y.0
  {
    UpdatedWereLive(t, s, p);
    LateKept(t, RewritePlan(p), t1, t2, st);
    RowMetas(st.tree, t.next, p.patch.added, p.ids);
  }

  lemma UpdatedWereLive(t: Tree, s: Snapshot, p: Plan)
    requires GoodPlan(t, s, p)
    ensures forall u :: u in RewritePlan(p).updated ==> u.id in t.insts
  {
    ComputedUpdates(t, s, p);
  }

  lemma PairMetas(t: Tree, v: Tree, p: Plan)
    requires forall x :: x in p.pairs ==> x.0 in t.insts && PairDone(t, v, p, x.0, x.1)
    ensures forall x :: x in p.pairs ==>
      x.0 in t.insts && x.0 in t.meta && x.0 in v.insts && x.0 in v.meta && v.meta[x.0] == MetaAfter(t, x.0, x.1)
  {
    forall x | x in p.pairs
      ensures x.0 in t.insts && x.0 in t.meta && x.0 in v.insts && x.0 in v.meta
      ensures v.meta[x.0] == MetaAfter(t, x.0, x.1)
    {
      assert PairDone(t, v, p, x.0, x.1);
    }
  }

  lemma MembersOld(t: Tree, v: Tree, p: Plan)
    requires WellFormed(t) && Members(t, v, p)
    ensures v.meta.Keys == v.insts.Keys && t.meta.Keys == t.insts.Keys
    ensures forall x :: x in t.insts ==> x < t.next
    ensures forall x :: x in v.insts ==> x in t.insts || t.next <= x < t.next + Total(p.patch.added)
  {
    forall x | x in t.insts ensures x < t.next { LiveRange(t, x); }
    forall x | x in v.insts ensures x in t.insts || t.next <= x < t.next + Total(p.patch.added) { LiveRange(v, x); }
  }

  // ----- who carries an id -----

  lemma WillCarryExactly(t: Tree, v: Tree, p: Plan, x: Ref, u: string)
    requires Metas(t, v, p) && Distinct(p)
    ensures x in Carriers(v, u) <==> WillCarry(t, p, x, u)
  {
    if PairCarries(t, p, x, u) {
      var q: Snapshot :| (x, q) in p.pairs && MetaAfter(t, x, q).specifiedId == Some(u);
      assert v.meta[(x, q).0] == MetaAfter(t, (x, q).0, (x, q).1);
    }
    if NewCarries(t, p, x, u) {
      var q: Snapshot :| (x, q) in PlantRow(t.next, p.patch.added) && PlantedMeta(q).specifiedId == Some(u);
      assert MetaStands(v, (x, q));
    }
    if x in Carriers(v, u) {
      if x in Visited(p) {
        var y :| y in p.pairs && y.0 == x;
        assert (x, y.1) in p.pairs;
      } else if x !in t.insts {
        var q := RowCovers(t.next, p.patch.added, x);
        assert MetaStands(v, (x, q));
      }
    }
  }

  /** The instance an id stands for after reconciling is the one it was going to stand
      for, as told from the tree and the plan before anything is changed. */
  lemma CarrierExactly(t: Tree, s: Snapshot, id: Ref, u: string)
    requires WellFormed(t) && id in t.insts && AttributesStated(s)
    ensures Applicable(t, PatchFor(t, Some(s), id))
    ensures var v, p := PatchEffect.ApplyPatch(t, PatchFor(t, Some(s), id)), PlanNode(t, s, id);
      && (forall x :: x in Carriers(v, u) <==> WillCarry(t, p, x, u))
      && SpecifiedRef(v, u) == CarrierAfter(t, p, u)
  {
    ReconcileMetas(t, s, id);
    PlanIsGood(t, s, id);
    var v, p := PatchEffect.ApplyPatch(t, PatchFor(t, Some(s), id)), PlanNode(t, s, id);
    forall x ensures x in Carriers(v, u) <==> WillCarry(t, p, x, u) { WillCarryExactly(t, v, p, x, u); }
    SameOne(t, v, p, u);
  }

  lemma SameOne(t: Tree, v: Tree, p: Plan, u: string)
    requires forall x :: x in Carriers(v, u) <==> WillCarry(t, p, x, u)
    ensures SpecifiedRef(v, u) == CarrierAfter(t, p, u)
  {
    forall x: Ref ensures Carriers(v, u) == {x} <==> OnlyOneCarries(t, p, x, u) {
      if OnlyOneCarries(t, p, x, u) {
        forall y ensures y in Carriers(v, u) <==> y in {x} {}
      }
      if Carriers(v, u) == {x} { assert x in Carriers(v, u); }
    }
  }

  // ----- for any patch -----

  lemma {:induction false} RewriteIdle(s: Snapshot)
    ensures RewriteSnapshot(map[], s) == s
    decreases s, 1
  {
    assert TranslateProps(map[], s.props) == s.props;
    RewriteAllIdle(s.children);
  }

  lemma {:induction false} RewriteAllIdle(ss: seq<Snapshot>)
    ensures RewriteSnapshots(map[], ss) == ss
    decreases ss, 0
  {
    if ss != [] {
      RewriteIdle(ss[0]);
      RewriteAllIdle(ss[1..]);
    }
  }

  lemma RewriteAddsIdle(added: seq<Add>)
    ensures RewriteAdds(map[], added) == added
  {
    forall i | 0 <= i < |added| ensures RewriteAdds(map[], added)[i] == added[i] { RewriteIdle(added[i].snap); }
  }

  ghost predicate PatchSpares(t: Tree, q: Patch, x: Ref, u: string) {
    && x in t.insts && x in t.meta && x !in UpdatedIds(q.updated) && !Dead(t, x, q.removed)
    && t.meta[x].specifiedId == Some(u)
  }

  /** The metadata an update leaves, with an id adopted from the new attributes. */
  function UpdatedMeta(t: Tree, q: Patch, w: Update): (r: Metadata)
    requires w.id in t.insts && w.id in t.meta
  {
    AdoptedMeta(ChangedProps(t.insts[w.id].props, w.props, AddedIds(t.next, q.added)), NewMeta(t.meta[w.id], w))
  }

  ghost predicate PatchUpdates(t: Tree, q: Patch, x: Ref, u: string) {
    exists w ::
      w in q.updated && w.id == x && x in t.insts && x in t.meta && UpdatedMeta(t, q, w).specifiedId == Some(u)
  }

  ghost predicate PatchAdds(t: Tree, q: Patch, x: Ref, u: string) {
    exists n: Snapshot :: (x, n) in PlantRow(t.next, q.added) && PlantedMeta(n).specifiedId == Some(u)
  }

  ghost predicate PatchCarries(t: Tree, q: Patch, x: Ref, u: string) {
    PatchSpares(t, q, x, u) || PatchUpdates(t, q, x, u) || PatchAdds(t, q, x, u)
  }

  ghost predicate OnlyOneAfter(t: Tree, q: Patch, x: Ref, u: string) {
    PatchCarries(t, q, x, u) && forall y :: PatchCarries(t, q, y, u) ==> y == x
  }

  /** The instance that the id will stand for once the patch is applied. */
  ghost function PatchCarrier(t: Tree, q: Patch, u: string): (r: Option<Ref>)
    ensures r.Some? <==> exists x :: OnlyOneAfter(t, q, x, u)
    ensures r.Some? ==> OnlyOneAfter(t, q, r.value, u)
  {
    if exists x :: OnlyOneAfter(t, q, x, u) then
      var x :| OnlyOneAfter(t, q, x, u); Some(x)
    else None
  }

  /** The metadata after a patch, in terms of the tree before. */
  ghost predicate PatchMetas(t: Tree, q: Patch, v: Tree) {
    && v.meta.Keys == v.insts.Keys && t.meta.Keys == t.insts.Keys
    && (forall x :: x in v.insts ==> x in t.insts || t.next <= x < t.next + Total(q.added))
    && (forall x :: x in t.insts ==> x < t.next && (x in v.insts <==> !Dead(t, x, q.removed)))
    && (forall x :: x in t.insts && x in v.insts && x !in UpdatedIds(q.updated) ==> v.meta[x] == t.meta[x])
    && (forall w :: w in q.updated ==> w.id in t.insts && w.id in v.insts && v.meta[w.id] == UpdatedMeta(t, q, w))
    && (forall y :: y in PlantRow(t.next, q.added) ==> MetaStands(v, y) && t.next <= y.0)
  }

  lemma ApplyingMetas(t: Tree, q: Patch)
    requires WellFormed(t) && Applicable(t, q) && DistinctIds(q.updated)
    requires forall w :: w in q.updated ==> w.id in RemoveAll(t, q.removed).insts
    ensures PatchMetas(t, q, PatchEffect.ApplyPatch(t, q))
  {
    var t1, t2 := ApplyingPhases(t, q);
    StateMetas(t, q, t1, t2, Applying(t, q));
    FinalMetas(Applying(t, q));
    SameMetas(t, q, Applying(t, q).tree, PatchEffect.ApplyPatch(t, q));
  }

  lemma StateMetas(t: Tree, q: Patch, t1: Tree, t2: Tree, st: State)
    requires WellFormed(t) && Phases(t, q, t1, t2, st) && forall w :: w in q.updated ==> w.id in t1.insts
    ensures PatchMetas(t, q, st.tree)
  {
    OldMembers(t, q, t1, t2, st);
    OldMetas(t, q, t1, t2, st);
    AddedMetas(t, q, t1, t2, st);
  }

  lemma FinalMetas(st: State)
    ensures Finalized(st).meta == st.tree.meta && Finalized(st).insts.Keys == st.tree.insts.Keys
  {
  }

  lemma SameMetas(t: Tree, q: Patch, u: Tree, v: Tree)
    requires PatchMetas(t, q, u) && v.meta == u.meta && v.insts.Keys == u.insts.Keys
    ensures PatchMetas(t, q, v)
  {
  }

  lemma OldMembers(t: Tree, q: Patch, t1: Tree, t2: Tree, st: State)
    requires WellFormed(t) && Phases(t, q, t1, t2, st)
    ensures t.meta.Keys == t.insts.Keys && st.tree.meta.Keys == st.tree.insts.Keys
    ensures forall x :: x in t.insts ==> x < t.next && (x in st.tree.insts <==> !Dead(t, x, q.removed))
    ensures forall x :: x in st.tree.insts ==> x in t.insts || t.next <= x < t.next + Total(q.added)
  {
    forall x | x in t.insts ensures x < t.next && (x in st.tree.insts <==> !Dead(t, x, q.removed)) { LiveRange(t, x); }
  }

  lemma OldMetas(t: Tree, q: Patch, t1: Tree, t2: Tree, st: State)
    requires WellFormed(t) && Phases(t, q, t1, t2, st) && forall w :: w in q.updated ==> w.id in t1.insts
    ensures forall x :: x in t.insts && x in st.tree.insts && x !in UpdatedIds(q.updated) ==>
      x in t.meta && x in st.tree.meta && st.tree.meta[x] == t.meta[x]
    ensures forall w :: w in q.updated ==>
      && w.id in t.insts && w.id in t.meta && w.id in st.tree.insts && w.id in st.tree.meta
      && st.tree.meta[w.id] == UpdatedMeta(t, q, w)
  {
    forall x | x in t.insts && x in st.tree.insts && x !in UpdatedIds(q.updated)
      ensures x in t.meta && x in st.tree.meta && st.tree.meta[x] == t.meta[x]
    {
      KeptMeta(t, q, t1, t2, st, x);
    }
    forall w | w in q.updated
      ensures w.id in t.insts && w.id in t.meta && w.id in st.tree.insts && w.id in st.tree.meta
      ensures st.tree.meta[w.id] == UpdatedMeta(t, q, w)
    {
      ChangedMeta(t, q, t1, t2, st, w);
    }
  }

  lemma KeptMeta(t: Tree, q: Patch, t1: Tree, t2: Tree, st: State, x: Ref)
    requires WellFormed(t) && Phases(t, q, t1, t2, st)
    requires x in t.insts && x in st.tree.insts && x !in UpdatedIds(q.updated)
    ensures x in t.meta && x in st.tree.meta && st.tree.meta[x] == t.meta[x]
  {
    LiveRange(t, x);
    assert t1.meta.Keys == t1.insts.Keys && t2.meta.Keys == t2.insts.Keys;
  }

  lemma ChangedMeta(t: Tree, q: Patch, t1: Tree, t2: Tree, st: State, w: Update)
    requires WellFormed(t) && Phases(t, q, t1, t2, st) && w in q.updated && w.id in t1.insts
    ensures w.id in t.insts && w.id in t.meta && w.id in st.tree.insts && w.id in st.tree.meta
    ensures st.tree.meta[w.id] == UpdatedMeta(t, q, w)
  {
    assert t1.meta.Keys == t1.insts.Keys;
    assert UpdateDone(t2, st.tree, w, st.ctx.ids);
  }

  lemma AddedMetas(t: Tree, q: Patch, t1: Tree, t2: Tree, st: State)
    requires WellFormed(t) && Phases(t, q, t1, t2, st) && forall w :: w in q.updated ==> w.id in t1.insts
    ensures forall y :: y in PlantRow(t.next, q.added) ==> MetaStands(st.tree, y) && t.next <= y.0
  {
    assert forall w :: w in q.updated ==> w.id in t.insts;
    LateKept(t, q, t1, t2, st);
    RewriteAddsIdle(q.added);
    RowMetas(st.tree, t.next, q.added, map[]);
  }

  lemma PatchCarriesExactly(t: Tree, q: Patch, v: Tree, x: Ref, u: string)
    requires PatchMetas(t, q, v) && DistinctIds(q.updated)
    ensures x in Carriers(v, u) <==> PatchCarries(t, q, x, u)
  {
    if PatchUpdates(t, q, x, u) {
      var w :| w in q.updated && w.id == x && UpdatedMeta(t, q, w).specifiedId == Some(u);
    }
    if PatchAdds(t, q, x, u) {
      var n: Snapshot :| (x, n) in PlantRow(t.next, q.added) && PlantedMeta(n).specifiedId == Some(u);
      assert MetaStands(v, (x, n));
    }
    if x in Carriers(v, u) {
      if x in UpdatedIds(q.updated) {
        var w :| w in q.updated && w.id == x;
      } else if x !in t.insts {
        var n := RowCovers(t.next, q.added, x);
        assert MetaStands(v, (x, n));
      }
    }
  }

  /** The same as `CarrierExactly`, for any patch. */
  lemma PatchCarrierExactly(t: Tree, q: Patch, u: string)
    requires WellFormed(t) && Applicable(t, q) && DistinctIds(q.updated)
    requires forall w :: w in q.updated ==> w.id in RemoveAll(t, q.removed).insts
    ensures SpecifiedRef(PatchEffect.ApplyPatch(t, q), u) == PatchCarrier(t, q, u)
  {
    var v := PatchEffect.ApplyPatch(t, q);
    ApplyingMetas(t, q);
    forall x ensures x in Carriers(v, u) <==> PatchCarries(t, q, x, u) { PatchCarriesExactly(t, q, v, x, u); }
    SameOneAfter(t, q, v, u);
  }

  lemma SameOneAfter(t: Tree, q: Patch, v: Tree, u: string)
    requires forall x :: x in Carriers(v, u) <==> PatchCarries(t, q, x, u)
    ensures SpecifiedRef(v, u) == PatchCarrier(t, q, u)
  {
    forall x: Ref ensures Carriers(v, u) == {x} <==> OnlyOneAfter(t, q, x, u) {
      if OnlyOneAfter(t, q, x, u) {
        forall y ensures y in Carriers(v, u) <==> y in {x} {}
      }
      if Carriers(v, u) == {x} { assert x in Carriers(v, u); }
    }
  }
}
