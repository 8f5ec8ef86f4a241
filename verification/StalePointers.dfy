/** A concrete input on which a pointer goes stale (src/snapshot/patch_compute.rs,
    src/snapshot/patch_apply.rs). */
module StalePointers {
  import opened Basics
  import opened Values
  import opened TreeModel
  import opened PatchPlan
  import opened PatchEffect
  import opened EffectFacts
  import opened Pointers
  import opened Outcome
  import opened FinalTree
  import opened RefTranslation
  import opened CarrierFacts
  import opened PointerSettling

  const PLAIN_META := Metadata(false, [], None, [])

  /** "A" points, under "P", to whatever carries the id "u"; "B" does at first. */
  const HOLDER := Snapshot(
    NO_REF, PLAIN_META, "A", "Part", map[ATTRIBUTES := Attributes(map[PointerName("P") := Str("u")])], [])

  const NEWCOMER := Snapshot(NO_REF, PLAIN_META.(specifiedId := Some("u")), "C", "Part", map[], [])

  const STALE_SNAPSHOT := Snapshot(NO_REF, PLAIN_META, "Game", "DataModel", map[], [HOLDER, NEWCOMER])

  const STALE_TREE := Tree(
    1,
    map[1 := Instance("Game", "DataModel", map[], NO_REF, [2, 3]),
        2 := Instance("A", "Part", HOLDER.props["P" := RefValue(3)], 1, []),
        3 := Instance("B", "Part", map[], 1, [])],
    map[1 := PLAIN_META, 2 := PLAIN_META, 3 := PLAIN_META.(specifiedId := Some("u"))],
    4)

  lemma StaleTreeOk()
    ensures WellFormed(STALE_TREE) && AttributesStated(STALE_SNAPSHOT) && FreshIds(STALE_TREE, STALE_SNAPSHOT)
    ensures SpecifiedRef(STALE_TREE, "u") == Some(3)
  {
    var t := STALE_TREE;
    assert NodeOk(t, 1) && NodeOk(t, 2) && NodeOk(t, 3);
    assert Carriers(t, "u") == {3};
    assert AttributesStated(HOLDER) && AttributesStated(NEWCOMER);
    assert IdsAmong([HOLDER, NEWCOMER]) == {} by {
      assert [HOLDER, NEWCOMER][1..] == [NEWCOMER] && [NEWCOMER][1..] == [];
      assert HOLDER.children == [] && NEWCOMER.children == [] && IdsAmong([]) == {};
      assert IdsIn(HOLDER) == {} + {} && IdsIn(NEWCOMER) == {} + {};
    }
  }

  lemma HolderPoints()
    ensures PointsTo(HOLDER, "P", "u") && PointedBy(HOLDER.props) == {"P"}
  {
    forall p ensures p in PointedBy(HOLDER.props) <==> p == "P" {
      assert PointerName(p)[|POINTER_PREFIX|..] == p && PointerName("P")[|POINTER_PREFIX|..] == "P";
    }
  }

  /** The holder already has what it points to, so nothing is emitted for it. */
  lemma HolderIsQuiet()
    ensures 2 in STALE_TREE.insts && 2 in STALE_TREE.meta && ChangesNothing(NodeUpdate(STALE_TREE, HOLDER, 2))
  {
    var t, actual := STALE_TREE, STALE_TREE.insts[2].props;
    StaleTreeOk();
    HolderPoints();
    VariantEqReflexive(HOLDER.props[ATTRIBUTES]);
    var base, refs := BaseChanges(HOLDER.props, actual), AttributeRefs(t, HOLDER.props);
    assert base == map["P" := None];
    assert refs == map["P" := Some(RefValue(3))];
    assert OverlayRefs(base, refs, actual) == map[];
  }

  lemma StalePairing()
    ensures var kids, none := [2, 3], NonePaired(2); var one := Mark(none, Some(0));
      && FirstFit(STALE_TREE, kids, none, HOLDER, 0) == Some(0) && FirstFit(STALE_TREE, kids, one, NEWCOMER, 0) == None
      && Unpaired(kids, one) == [3]
  {
    var t, kids, none := STALE_TREE, [2, 3], NonePaired(2);
    var one := Mark(none, Some(0));
    assert Fits(t, kids, none, HOLDER, 0);
    assert FirstFit(t, kids, none, HOLDER, 0) == Some(0);
    assert !Fits(t, kids, one, NEWCOMER, 0) && !Fits(t, kids, one, NEWCOMER, 1);
    assert FirstFit(t, kids, one, NEWCOMER, 0) == None;
    assert one[0] && kids[1..] == [3] && one[1..] == [false];
    assert [3][1..] == [] && [false][1..] == [];
    assert Unpaired([3], [false]) == [3] + Unpaired([], []);
  }

  lemma NewcomerPlan(one: seq<bool>)
    requires one == Mark(NonePaired(2), Some(0))
    ensures WellFormed(STALE_TREE)
    ensures var p := PlanChildren(STALE_TREE, 1, [NEWCOMER], one);
      p.pairs == [] && p.patch.removed == [3] && p.patch.added == [Add(1, NEWCOMER)]
  {
    StaleTreeOk();
    StalePairing();
    var t := STALE_TREE;
    assert [NEWCOMER][1..] == [] && Mark(one, None) == one;
    var last := PlanChildren(t, 1, [], one);
    assert last.patch == Patch([3], [], []) && last.pairs == [];
    assert PlanChild(t, 1, NEWCOMER, None).patch == Patch([], [Add(1, NEWCOMER)], []);
    assert PlanChildren(t, 1, [NEWCOMER], one) == Then(PlanChild(t, 1, NEWCOMER, None), last);
  }

  lemma StalePlan()
    ensures WellFormed(STALE_TREE)
    ensures var p := PlanNode(STALE_TREE, STALE_SNAPSHOT, 1);
      && p.pairs == [(1, STALE_SNAPSHOT), (2, HOLDER)] && p.patch.removed == [3] && p.patch.added == [Add(1, NEWCOMER)]
  {
    StaleTreeOk();
    StalePairing();
    var t, one := STALE_TREE, Mark(NonePaired(2), Some(0));
    var ss: seq<Snapshot> := [HOLDER, NEWCOMER];
    HolderPlan();
    NewcomerPlan(one);
    assert ss[1..] == [NEWCOMER];
    var a, b := PlanNode(t, HOLDER, 2), PlanChildren(t, 1, [NEWCOMER], one);
    StaleParts(a, b, PlanChildren(t, 1, ss, NonePaired(2)));
  }

  lemma StaleParts(a: Plan, b: Plan, rest: Plan)
    requires WellFormed(STALE_TREE) && rest == PlanChildren(STALE_TREE, 1, [HOLDER, NEWCOMER], NonePaired(2))
    requires rest == Then(a, b)
    requires a.pairs == [(2, HOLDER)] && a.patch.removed == [] && a.patch.added == []
    requires b.pairs == [] && b.patch.removed == [3] && b.patch.added == [Add(1, NEWCOMER)]
    ensures var p := PlanNode(STALE_TREE, STALE_SNAPSHOT, 1);
      && p.pairs == [(1, STALE_SNAPSHOT), (2, HOLDER)] && p.patch.removed == [3] && p.patch.added == [Add(1, NEWCOMER)]
  {
    assert PlanNode(STALE_TREE, STALE_SNAPSHOT, 1) == Then(NodePlan(STALE_TREE, STALE_SNAPSHOT, 1), rest);
  }

  lemma HolderPlan()
    ensures WellFormed(STALE_TREE)
    ensures var p := PlanNode(STALE_TREE, HOLDER, 2);
      p.pairs == [(2, HOLDER)] && p.patch.removed == [] && p.patch.added == []
  {
    StaleTreeOk();
    assert PlanChildren(STALE_TREE, 2, [], NonePaired(0)).pairs == [];
    assert Unpaired([], NonePaired(0)) == [];
  }

  lemma NewcomerPlace()
    ensures PlantRow(4, [Add(1, NEWCOMER)]) == [(4, NEWCOMER)]
  {
    assert [Add(1, NEWCOMER)][1..] == [] && NEWCOMER.children == [];
    assert PlantList(4, NEWCOMER) == [(4, NEWCOMER)] + [];
    assert PlantRow(4 + Size(NEWCOMER), []) == [];
  }

  /** Only the newcomer will carry the id. */
  lemma NewcomerCarries()
    ensures WellFormed(STALE_TREE) && CarrierAfter(STALE_TREE, PlanNode(STALE_TREE, STALE_SNAPSHOT, 1), "u") == Some(4)
  {
    StalePlan();
    var t, p := STALE_TREE, PlanNode(STALE_TREE, STALE_SNAPSHOT, 1);
    NewcomerPlace();
    assert NewCarries(t, p, 4, "u");
    forall y | WillCarry(t, p, y, "u") ensures y == 4 { OthersCarryNothing(p, y); }
    assert OnlyOneCarries(t, p, 4, "u");
  }

  lemma OthersCarryNothing(p: Plan, y: Ref)
    requires p.pairs == [(1, STALE_SNAPSHOT), (2, HOLDER)] && p.patch.removed == [3]
    requires p.patch.added == [Add(1, NEWCOMER)]
    ensures !PairCarries(STALE_TREE, p, y, "u") && !StillCarries(STALE_TREE, p, y, "u")
    ensures NewCarries(STALE_TREE, p, y, "u") ==> y == 4
  {
    var t := STALE_TREE;
    forall q: Snapshot | (y, q) in p.pairs && y in t.insts && y in t.meta
      ensures MetaAfter(t, y, q).specifiedId == None
    {
      NoIdsStated(q);
    }
    assert Under(t, 3, 3) && 3 in p.patch.removed && Dead(t, 3, p.patch.removed);
    NewcomerPlace();
  }

  lemma NoIdsStated(q: Snapshot)
    requires q == HOLDER || q == STALE_SNAPSHOT
    ensures q.meta.specifiedId == None && PlantedMeta(q).specifiedId == None
  {
    assert PointerName("P")[5] == 'T' && ID_ATTRIBUTE[5] == 'I';
  }

  /** A stale pointer. The instance that carried the id is removed and another one takes
      the id over, yet an instance that points to the id and needs no other change keeps
      its reference to the one that is gone. */
  lemma StalePointer()
    ensures WellFormed(STALE_TREE) && Applicable(STALE_TREE, PatchFor(STALE_TREE, Some(STALE_SNAPSHOT), 1))
    ensures var v := ApplyPatch(STALE_TREE, PatchFor(STALE_TREE, Some(STALE_SNAPSHOT), 1));
      && SpecifiedRef(v, "u") == Some(4) && 3 !in v.insts
      && 2 in v.insts && "P" in v.insts[2].props && v.insts[2].props["P"] == RefValue(3)
  {
    StaleTreeOk();
    StalePlan();
    NewcomerCarries();
    HolderIsQuiet();
    HolderPoints();
    var t, p := STALE_TREE, PlanNode(STALE_TREE, STALE_SNAPSHOT, 1);
    assert (2, HOLDER) in p.pairs;
    PointersSettle(t, STALE_SNAPSHOT, 1, 2, HOLDER, "P", "u");
    PointersSettleExactly(t, STALE_SNAPSHOT, 1, 2, HOLDER, "P", "u");
    ReconcileMembers(t, STALE_SNAPSHOT, 1);
    assert Under(t, 3, 3) && 3 in p.patch.removed && Dead(t, 3, p.patch.removed);
  }
}
