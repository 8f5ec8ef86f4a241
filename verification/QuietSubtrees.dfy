/** What a subtree that is left alone keeps: its picture and its plan
    (src/snapshot/patch_compute.rs). */
module QuietSubtrees {
  import opened Basics
  import opened TreeModel
  import opened PatchPlan
  import opened PlanFacts
  import opened FinalTree
  import opened Reconciliation
  import opened SpelledOut

  /** Nothing at or below `a` differs. */
  ghost predicate Quiet(t: Tree, v: Tree, a: Ref) {
    forall x :: Under(t, x, a) ==> Kept(t, v, x) && Under(v, x, a)
  }

  lemma QuietOn(t: Tree, u: Tree, v: Tree, a: Ref)
    requires Quiet(t, u, a) && Quiet(u, v, a)
    ensures Quiet(t, v, a)
  {
  }

  lemma {:induction false} KeptUnder(t: Tree, v: Tree, x: Ref, a: Ref)
    requires Under(t, x, a) && forall y :: Under(t, y, a) ==> Kept(t, v, y)
    ensures Under(v, x, a)
    decreases x
  {
    if x != a { KeptUnder(t, v, t.insts[x].parent, a); }
  }

  lemma {:induction false} MatchKept(u: Tree, w: Tree, a: Ref, x: Ref, s: Snapshot, ids: map<Ref, Ref>)
    requires WellFormed(u) && Quiet(u, w, a) && Under(u, x, a) && IsTheSnapshot(u, x, s, ids)
    ensures IsTheSnapshot(w, x, s, ids)
    decreases s
  {
    assert Kept(u, w, x);
    var kids: seq<Ref> :| |kids| == |s.children| && multiset(kids) == multiset(u.insts[x].children)
      && forall i :: 0 <= i < |kids| ==> IsTheSnapshot(u, kids[i], s.children[i], ids);
    forall i | 0 <= i < |kids| ensures IsTheSnapshot(w, kids[i], s.children[i], ids) {
      assert kids[i] in multiset(kids);
      ChildUnder(u, x, kids[i]);
      UnderTransitive(u, kids[i], x, a);
      MatchKept(u, w, a, kids[i], s.children[i], ids);
    }
  }

  // ----- the plan of an untouched subtree -----

  /** Which pairs are visited depends on the subtree alone. */
  lemma {:induction false} SamePairs(t: Tree, u: Tree, s: Snapshot, x: Ref, a: Ref)
    requires WellFormed(t) && WellFormed(u) && Quiet(t, u, a) && Under(t, x, a)
    ensures x in t.insts && x in u.insts && PlanNode(u, s, x).pairs == PlanNode(t, s, x).pairs
    decreases s, 1
  {
    assert Kept(t, u, x);
    SamePairsBelow(t, u, x, s.children, NonePaired(|t.insts[x].children|), a);
  }

  lemma {:induction false} SamePairsBelow(t: Tree, u: Tree, x: Ref, ss: seq<Snapshot>, paired: seq<bool>, a: Ref)
    requires WellFormed(t) && WellFormed(u) && Quiet(t, u, a) && Under(t, x, a)
    requires x in t.insts && |paired| == |t.insts[x].children|
    ensures x in u.insts && u.insts[x].children == t.insts[x].children
    ensures PlanChildren(u, x, ss, paired).pairs == PlanChildren(t, x, ss, paired).pairs
    decreases ss, 0
  {
    assert Kept(t, u, x);
    if ss != [] {
      var kids := t.insts[x].children;
      forall c | c in kids ensures c in t.insts && Under(t, c, a) && Kept(t, u, c) {
        ChildUnder(t, x, c);
        UnderTransitive(t, c, x, a);
      }
      SameFit(t, u, kids, paired, ss[0], 0);
      var j := FirstFit(t, kids, paired, ss[0], 0);
      SamePairsBelow(t, u, x, ss[1..], Mark(paired, j), a);
      if j.Some? { SamePairs(t, u, ss[0], kids[j.value], a); }
    }
  }

  lemma {:induction false} SameFit(t: Tree, u: Tree, kids: seq<Ref>, paired: seq<bool>, s: Snapshot, lo: nat)
    requires |paired| == |kids| && lo <= |kids| && forall c :: c in kids ==> Kept(t, u, c)
    ensures FirstFit(u, kids, paired, s, lo) == FirstFit(t, kids, paired, s, lo)
    decreases |kids| - lo
  {
    if lo < |kids| {
      assert Kept(t, u, kids[lo]);
      SameFit(t, u, kids, paired, s, lo + 1);
    }
  }

  /** So whether all visited instances are honoured can be told as long as the subtree has
      not been touched. */
  lemma HonouredAlike(t: Tree, u: Tree, s: Snapshot, a: Ref)
    requires WellFormed(t) && WellFormed(u) && Quiet(t, u, a) && a in t.insts
    ensures a in u.insts && (AllHonoured(u, s, a) <==> AllHonoured(t, s, a))
  {
    SamePairs(t, u, s, a, a);
    PlanNodeFacts(t, s, a);
    forall y | y in PlanNode(t, s, a).pairs ensures Kept(t, u, y.0) {
      assert y.0 in Visited(PlanNode(t, s, a));
    }
  }
}
