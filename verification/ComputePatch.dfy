/** Computing a patch: the recursion over a snapshot and a tree, with its mutable
    patch, id table and pairing flags (src/snapshot/patch_compute.rs). */
module ComputePatch {
  import opened Basics
  import opened Values
  import opened TreeModel
  import opened PatchPlan
  import opened RojoTrees

  class ComputePatchContext {
    var snapshotIdToInstanceId: map<Ref, Ref>

    constructor ()
      ensures snapshotIdToInstanceId == map[]
    {
      snapshotIdToInstanceId := map[];
    }
  }

  class PatchSet {
    var removedInstances: seq<Ref>
    var addedInstances: seq<Add>
    var updatedInstances: seq<Update>

    constructor ()
      ensures Contents() == EMPTY_PATCH
    {
      removedInstances, addedInstances, updatedInstances := [], [], [];
    }

    function Contents(): (p: Patch)
      reads this
    {
      Patch(removedInstances, addedInstances, updatedInstances)
    }
  }

  /** The patch grown by what a plan adds to it. */
  function Extended(p: Patch, q: Patch): (r: Patch) {
    Patch(p.removed + q.removed, p.added + q.added, p.updated + q.updated)
  }

  /** Patch and table before and after a plan has been added to them. */
  ghost predicate Grew(p: Patch, ids: map<Ref, Ref>, p': Patch, ids': map<Ref, Ref>, plan: Plan) {
    p' == Extended(p, plan.patch) && ids' == ids + plan.ids
  }

  lemma GrewTwice(p: Patch, m: map<Ref, Ref>, p1: Patch, m1: map<Ref, Ref>, p2: Patch, m2: map<Ref, Ref>, a: Plan,
      b: Plan)
    requires Grew(p, m, p1, m1, a) && Grew(p1, m1, p2, m2, b)
    ensures Grew(p, m, p2, m2, Then(a, b))
  {
    assert (p.removed + a.patch.removed) + b.patch.removed == p.removed + (a.patch.removed + b.patch.removed);
    assert (p.added + a.patch.added) + b.patch.added == p.added + (a.patch.added + b.patch.added);
    assert (p.updated + a.patch.updated) + b.patch.updated == p.updated + (a.patch.updated + b.patch.updated);
    assert (m + a.ids) + b.ids == m + (a.ids + b.ids);
  }

  lemma GrewNot(p: Patch, m: map<Ref, Ref>)
    ensures Grew(p, m, p, m, EMPTY_PLAN)
  {
    assert p.removed + [] == p.removed && p.added + [] == p.added && p.updated + [] == p.updated;
    assert m + map[] == m;
  }

  /** Growing by one addition, or by the removal of the leftovers, leaves the table. */
  lemma GrewPatchOnly(p: Patch, m: map<Ref, Ref>, q: Patch)
    ensures Grew(p, m, Extended(p, q), m, Plan(q, map[], []))
  {
    assert m + map[] == m;
  }

  method ComputePatchSet(snapshot: Option<Snapshot>, tree: RojoTree, id: Ref) returns (patch: Patch)
    requires tree.Valid() && (snapshot.Some? ==> id in tree.insts)
    ensures patch == PatchFor(tree.Model(), snapshot, id)
  {
    var patchSet := new PatchSet();
    if snapshot.Some? {
      var context := new ComputePatchContext();
      ComputePatchSetInternal(context, snapshot.value, tree, id, patchSet);
      ghost var plan := PlanNode(tree.Model(), snapshot.value, id);
      assert map[] + plan.ids == plan.ids;
      assert patchSet.Contents() == plan.patch;
      patchSet.updatedInstances := RewriteRefsInUpdates(context.snapshotIdToInstanceId, patchSet.updatedInstances);
      patchSet.addedInstances := RewriteRefsInAdditions(context.snapshotIdToInstanceId, patchSet.addedInstances);
    } else if id != tree.root {
      patchSet.removedInstances := patchSet.removedInstances + [id];
    }
    patch := patchSet.Contents();
  }

  method ComputePatchSetInternal(context: ComputePatchContext, snapshot: Snapshot, tree: RojoTree, id: Ref,
      patchSet: PatchSet)
    requires tree.Valid() && id in tree.insts
    modifies context, patchSet
    ensures Grew(old(patchSet.Contents()), old(context.snapshotIdToInstanceId),
                 patchSet.Contents(), context.snapshotIdToInstanceId, PlanNode(tree.Model(), snapshot, id))
    decreases snapshot, 1
  {
    ghost var own := NodePlan(tree.Model(), snapshot, id);
    ghost var rest := PlanChildren(tree.Model(), id, snapshot.children, NonePaired(|tree.insts[id].children|));
    ghost var p, m := patchSet.Contents(), context.snapshotIdToInstanceId;
    if snapshot.id != NO_REF {
      context.snapshotIdToInstanceId := context.snapshotIdToInstanceId[snapshot.id := id];
    }
    ComputePropertyPatches(snapshot, tree, id, patchSet);
    ghost var p1, m1 := patchSet.Contents(), context.snapshotIdToInstanceId;
    assert m1 == m + own.ids;
    ComputeChildrenPatches(context, snapshot, tree, id, patchSet);
    GrewTwice(p, m, p1, m1, patchSet.Contents(), context.snapshotIdToInstanceId, own, rest);
  }

  /** Emits the update of one instance, unless nothing changes. */
  method ComputePropertyPatches(snapshot: Snapshot, tree: RojoTree, id: Ref, patchSet: PatchSet)
    requires tree.Valid() && id in tree.insts
    modifies patchSet
    ensures patchSet.Contents() == Extended(old(patchSet.Contents()), NodePlan(tree.Model(), snapshot, id).patch)
  {
    var instance, metadata := tree.insts[id], tree.metadata[id];
    var refs := ComputeRefProperties(snapshot, tree);
    var changedName := if snapshot.name == instance.name then None else Some(snapshot.name);
    var changedClassName := if snapshot.className == instance.className then None else Some(snapshot.className);
    var changedMetadata := if snapshot.meta == metadata then None else Some(snapshot.meta);
    var changed := CompareProperties(snapshot.props, instance.props);
    changed := OverlayPointers(changed, refs, instance.props);
    var actualClass := if changedClassName.Some? then changedClassName.value else instance.className;
    changed := ApplyPivotRule(changed, actualClass, instance.props);
    var update := Update(id, changedName, changedClassName, changed, changedMetadata);
    assert update == NodeUpdate(tree.Model(), snapshot, id);
    if changed != map[] || changedName.Some? || changedClassName.Some? || changedMetadata.Some? {
      patchSet.updatedInstances := patchSet.updatedInstances + [update];
    } else {
      GrewNot(patchSet.Contents(), map[]);
    }
  }

  /** First the wanted properties that differ, then the ones nobody asked for. */
  method CompareProperties(wanted: Props, actual: Props) returns (changed: Changes)
    ensures changed == BaseChanges(wanted, actual)
  {
    changed := map[];
    var todo := wanted.Keys;
    while todo != {}
      invariant todo <= wanted.Keys
      invariant forall k :: k in changed <==>
        k in wanted && k !in todo && !(k in actual && VariantEq(wanted[k], actual[k]))
      invariant forall k :: k in changed ==> changed[k] == Some(wanted[k])
      decreases todo
    {
      var k :| k in todo;
      todo := todo - {k};
      if k in actual {
        if !VariantEq(wanted[k], actual[k]) {
          changed := changed[k := Some(wanted[k])];
        }
      } else {
        changed := changed[k := Some(wanted[k])];
      }
    }
    todo := actual.Keys;
    while todo != {}
      invariant todo <= actual.Keys
      invariant forall k :: k in changed <==>
        (k in wanted && !(k in actual && VariantEq(wanted[k], actual[k])))
          || (k in actual && k !in wanted && k !in todo)
      invariant forall k :: k in changed ==> changed[k] == if k in wanted then Some(wanted[k]) else None
      decreases todo
    {
      var k :| k in todo;
      todo := todo - {k};
      if k !in wanted {
        changed := changed[k := None];
      }
    }
  }

  /** Values pointed at by attributes override what the comparison found. */
  method OverlayPointers(base: Changes, refs: Changes, actual: Props) returns (changed: Changes)
    ensures changed == OverlayRefs(base, refs, actual)
  {
    changed := base;
    var todo := refs.Keys;
    while todo != {}
      invariant todo <= refs.Keys
      invariant forall k :: k in changed <==>
        if k in refs && k !in todo then !AlreadySo(refs[k], actual, k) else k in base
      invariant forall k :: k in changed ==> changed[k] == if k in refs && k !in todo then refs[k] else base[k]
      decreases todo
    {
      var k :| k in todo;
      todo := todo - {k};
      if refs[k].Some? && k in actual {
        if refs[k].value != actual[k] {
          changed := changed[k := refs[k]];
        } else {
          changed := changed - {k};
        }
      } else if refs[k].Some? || k in actual {
        changed := changed[k := refs[k]];
      } else {
        changed := changed - {k};
      }
    }
  }

  method ApplyPivotRule(base: Changes, className: string, actual: Props) returns (changed: Changes)
    ensures changed == PivotRule(base, className, actual)
  {
    changed := base;
    if ModelLike(className) {
      if PIVOT !in actual {
        changed := changed[PIVOT := Some(PIVOT_OFF)];
      }
      if PIVOT in changed && changed[PIVOT].Some? && changed[PIVOT].value.Plain? && changed[PIVOT].value.scalar.Bool? {
      } else if PIVOT in changed && changed[PIVOT].None? {
        changed := changed - {PIVOT};
      } else {
        changed := changed[PIVOT := Some(PIVOT_OFF)];
      }
    }
  }

  /** The properties a snapshot's attributes point with, resolved in the tree. */
  method ComputeRefProperties(snapshot: Snapshot, tree: RojoTree) returns (refs: Changes)
    requires tree.Valid()
    ensures refs == AttributeRefs(tree.Model(), snapshot.props)
  {
    refs := map[];
    if ATTRIBUTES !in snapshot.props || !snapshot.props[ATTRIBUTES].Attributes? {
      return;
    }
    var attrs := snapshot.props[ATTRIBUTES].attrs;
    var todo := attrs.Keys;
    while todo != {}
      invariant todo <= attrs.Keys
      invariant forall p :: p in refs <==> p in PointerProps(attrs) && PointerName(p) !in todo
      invariant forall p :: p in refs ==> refs[p] == PointedValue(tree.Model(), TextOf(attrs[PointerName(p)]).value)
      decreases todo
    {
      var name :| name in todo;
      todo := todo - {name};
      if IsPointerName(name) {
        var prop := name[|POINTER_PREFIX|..];
        assert PointerName(prop) == name;
        assert forall p :: PointerName(p) == name ==> p == prop;
        var text := TextOf(attrs[name]);
        if text.Some? {
          var target := tree.GetSpecifiedId(text.value);
          refs := refs[prop := if target.Some? then Some(RefValue(target.value)) else None];
        }
      }
    }
  }

  /** Pairs the snapshot's children greedily; the unpaired on either side become
      additions and removals. */
  method ComputeChildrenPatches(context: ComputePatchContext, snapshot: Snapshot, tree: RojoTree, id: Ref,
      patchSet: PatchSet)
    requires tree.Valid() && id in tree.insts
    modifies context, patchSet
    ensures Grew(old(patchSet.Contents()), old(context.snapshotIdToInstanceId),
                 patchSet.Contents(), context.snapshotIdToInstanceId,
                 PlanChildren(tree.Model(), id, snapshot.children, NonePaired(|tree.insts[id].children|)))
    decreases snapshot, 0
  {
    ghost var t := tree.Model();
    var kids := tree.insts[id].children;
    assert NodeOk(t, id);
    var paired := new bool[|kids|](_ => false);
    assert paired[..] == NonePaired(|kids|);
    ghost var plan := PlanChildren(t, id, snapshot.children, NonePaired(|kids|));
    ghost var p, m := patchSet.Contents(), context.snapshotIdToInstanceId;
    ghost var done := EMPTY_PLAN;
    GrewNot(p, m);
    ThenEmpty(plan);
    var i := 0;
    while i < |snapshot.children|
      invariant 0 <= i <= |snapshot.children|
      invariant paired.Length == |kids| && t == tree.Model()
      invariant Then(done, PlanChildren(t, id, snapshot.children[i..], paired[..])) == plan
      invariant Grew(p, m, patchSet.Contents(), context.snapshotIdToInstanceId, done)
    {
      ghost var p0, m0 := patchSet.Contents(), context.snapshotIdToInstanceId;
      ghost var step := ComputeChildPatch(context, snapshot.children[i], tree, id, paired, patchSet,
        snapshot.children[i..]);
      ghost var p1, m1 := patchSet.Contents(), context.snapshotIdToInstanceId;
      assert snapshot.children[i..][1..] == snapshot.children[i + 1..];
      ThenAssociative(done, step, PlanChildren(t, id, snapshot.children[i + 1..], paired[..]));
      GrewTwice(p, m, p0, m0, p1, m1, done, step);
      done := Then(done, step);
      i := i + 1;
    }
    assert snapshot.children[i..] == [];
    ghost var last := Plan(Patch(Unpaired(kids, paired[..]), [], []), map[], []);
    assert PlanChildren(t, id, [], paired[..]) == last;
    ghost var p1, m1 := patchSet.Contents(), context.snapshotIdToInstanceId;
    RemoveLeftovers(kids, paired, patchSet);
    GrewPatchOnly(p1, m1, last.patch);
    GrewTwice(p, m, p1, m1, patchSet.Contents(), context.snapshotIdToInstanceId, done, last);
  }

  /** One round of the loop over the snapshot's children `ss`. */
  method ComputeChildPatch(context: ComputePatchContext, child: Snapshot, tree: RojoTree, id: Ref, paired: array<bool>,
                           patchSet: PatchSet, ghost ss: seq<Snapshot>) returns (ghost step: Plan)
    requires tree.Valid() && id in tree.insts && paired.Length == |tree.insts[id].children|
    requires ss != [] && ss[0] == child
    modifies context, patchSet, paired
    ensures Grew(old(patchSet.Contents()), old(context.snapshotIdToInstanceId),
                 patchSet.Contents(), context.snapshotIdToInstanceId, step)
    ensures PlanChildren(tree.Model(), id, ss, old(paired[..]))
         == Then(step, PlanChildren(tree.Model(), id, ss[1..], paired[..]))
    decreases child, 2
  {
    var kids := tree.insts[id].children;
    assert NodeOk(tree.Model(), id);
    var found := FindMatch(tree, kids, paired, child);
    step := PlanChild(tree.Model(), id, child, found);
    if found.Some? {
      ComputePatchSetInternal(context, child, tree, kids[found.value], patchSet);
    } else {
      GrewPatchOnly(patchSet.Contents(), context.snapshotIdToInstanceId, step.patch);
      patchSet.addedInstances := patchSet.addedInstances + [Add(id, child)];
    }
  }

  /** The first unpaired child with the snapshot's name and class; its flag is set. */
  method FindMatch(tree: RojoTree, kids: seq<Ref>, paired: array<bool>, child: Snapshot) returns (r: Option<nat>)
    requires paired.Length == |kids| && forall k :: k in kids ==> k in tree.insts
    modifies paired
    ensures r == FirstFit(tree.Model(), kids, old(paired[..]), child, 0)
    ensures paired[..] == Mark(old(paired[..]), r)
  {
    var j := 0;
    while j < |kids|
      invariant 0 <= j <= |kids|
      invariant paired[..] == old(paired[..])
      invariant FirstFit(tree.Model(), kids, paired[..], child, j) == FirstFit(tree.Model(), kids, paired[..], child, 0)
    {
      if !paired[j] {
        var candidate := tree.insts[kids[j]];
        if child.name == candidate.name && child.className == candidate.className {
          paired[j] := true;
          return Some(j);
        }
      }
      j := j + 1;
    }
    r := None;
  }

  method RemoveLeftovers(kids: seq<Ref>, paired: array<bool>, patchSet: PatchSet)
    requires paired.Length == |kids|
    modifies patchSet
    ensures patchSet.Contents() == Extended(old(patchSet.Contents()), Patch(Unpaired(kids, paired[..]), [], []))
  {
    ghost var all := Unpaired(kids, paired[..]);
    ghost var done: seq<Ref> := [];
    var j := 0;
    while j < |kids|
      invariant 0 <= j <= |kids|
      invariant done + Unpaired(kids[j..], paired[..][j..]) == all
      invariant patchSet.removedInstances == old(patchSet.removedInstances) + done
      invariant patchSet.addedInstances == old(patchSet.addedInstances)
      invariant patchSet.updatedInstances == old(patchSet.updatedInstances)
    {
      assert kids[j..][1..] == kids[j + 1..] && paired[..][j..][1..] == paired[..][j + 1..];
      if !paired[j] {
        patchSet.removedInstances := patchSet.removedInstances + [kids[j]];
        done := done + [kids[j]];
      }
      j := j + 1;
    }
  }

  // ----- rewriting references to ids known so far -----

  method RewriteRefsInUpdates(ids: map<Ref, Ref>, updates: seq<Update>) returns (r: seq<Update>)
    ensures r == RewriteUpdates(ids, updates)
  {
    r := updates;
    for i := 0 to |updates|
      invariant |r| == |updates|
      invariant forall j :: 0 <= j < i ==> r[j] == RewriteUpdate(ids, updates[j])
      invariant forall j :: i <= j < |updates| ==> r[j] == updates[j]
    {
      var changed := updates[i].props;
      var todo := changed.Keys;
      while todo != {}
        invariant todo <= changed.Keys == updates[i].props.Keys
        invariant forall k :: k in changed ==>
          changed[k] == if k in todo then updates[i].props[k] else RewriteChanges(ids, updates[i].props)[k]
        decreases todo
      {
        var k :| k in todo;
        todo := todo - {k};
        if changed[k].Some? && changed[k].value.RefValue? && changed[k].value.ref in ids {
          changed := changed[k := Some(RefValue(ids[changed[k].value.ref]))];
        }
      }
      r := r[i := updates[i].(props := changed)];
    }
  }

  method RewriteRefsInAdditions(ids: map<Ref, Ref>, additions: seq<Add>) returns (r: seq<Add>)
    ensures r == RewriteAdds(ids, additions)
  {
    r := additions;
    for i := 0 to |additions|
      invariant |r| == |additions|
      invariant forall j :: 0 <= j < i ==> r[j] == Add(additions[j].parent, RewriteSnapshot(ids, additions[j].snap))
      invariant forall j :: i <= j < |additions| ==> r[j] == additions[j]
    {
      var instance := RewriteRefsInSnapshot(ids, additions[i].snap);
      r := r[i := additions[i].(snap := instance)];
    }
  }

  method RewriteRefsInSnapshot(ids: map<Ref, Ref>, snapshot: Snapshot) returns (r: Snapshot)
    ensures r == RewriteSnapshot(ids, snapshot)
    decreases snapshot
  {
    var props := snapshot.props;
    var todo := props.Keys;
    while todo != {}
      invariant todo <= props.Keys == snapshot.props.Keys
      invariant forall k :: k in props ==>
        props[k] == if k in todo then snapshot.props[k] else Translate(ids, snapshot.props[k])
      decreases todo
    {
      var k :| k in todo;
      todo := todo - {k};
      if props[k].RefValue? && props[k].ref in ids {
        props := props[k := RefValue(ids[props[k].ref])];
      }
    }
    var children := snapshot.children;
    for i := 0 to |snapshot.children|
      invariant |children| == |snapshot.children|
      invariant forall j :: 0 <= j < i ==> children[j] == RewriteSnapshot(ids, snapshot.children[j])
      invariant forall j :: i <= j < |children| ==> children[j] == snapshot.children[j]
    {
      var child := RewriteRefsInSnapshot(ids, snapshot.children[i]);
      children := children[i := child];
    }
    r := snapshot.(props := props, children := children);
    assert props == TranslateProps(ids, snapshot.props);
    assert children == RewriteSnapshots(ids, snapshot.children);
  }
}
