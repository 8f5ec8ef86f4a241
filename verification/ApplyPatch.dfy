/** Applying a patch to the tree in place: removals, additions, updates, and the
    deferred references at the end (src/snapshot/patch_apply.rs). */
module ApplyPatch {
  import opened Basics
  import opened Values
  import opened Ordering
  import opened MultiMaps
  import opened TreeModel
  import opened PatchPlan
  import opened PatchEffect
  import opened EffectFacts
  import opened RojoTrees
  import opened ComputePatch
  import opened Outcome

  class PatchApplyContext {
    var snapshotIdToInstanceId: map<Ref, Ref>
    var hasRefsToRewrite: set<Ref>
    var attributeRefsToRewrite: MultiMap<Ref, (string, string)>
    var applied: Applied

    constructor ()
      ensures Contents() == EMPTY_CONTEXT
    {
      snapshotIdToInstanceId, hasRefsToRewrite, attributeRefsToRewrite := map[], {}, map[];
      applied := Applied([], [], []);
    }

    function Contents(): (c: Context)
      reads this
    {
      Context(snapshotIdToInstanceId, hasRefsToRewrite, attributeRefsToRewrite, applied)
    }
  }

  /** The tree and the context together. */
  ghost function Now(tree: RojoTree, context: PatchApplyContext): (s: State)
    reads tree, context
  {
    State(tree.Model(), context.Contents())
  }

  /** Deferred work is only ever noted for live instances. */
  ghost predicate DeferredLive(s: State) {
    (forall x :: x in s.ctx.hasRefs ==> x in s.tree.insts) && (forall x :: x in s.ctx.pointers ==> x in s.tree.insts)
  }

  ghost predicate Ready(tree: RojoTree, context: PatchApplyContext)
    reads tree, context
  {
    tree.Valid() && DeferredLive(Now(tree, context))
  }

  /** Updates that replace metadata name instances that are still there. */
  ghost predicate MetadataLive(t: Tree, p: Patch) {
    forall u :: u in p.updated && u.meta.Some? ==> u.id in RemoveAll(t, p.removed).insts
  }

  method ApplyPatchSet(tree: RojoTree, patch: Patch) returns (applied: Applied)
    requires tree.Valid() && Applicable(tree.Model(), patch) && MetadataLive(tree.Model(), patch)
    modifies tree
    ensures tree.Valid()
    ensures tree.Model() == PatchEffect.ApplyPatch(old(tree.Model()), patch)
    ensures applied == Applying(old(tree.Model()), patch).ctx.applied
  {
    var context := new PatchApplyContext();
    ApplyRemovals(context, tree, patch.removed);
    ApplyAdditions(context, tree, patch.added);
    ApplyUpdates(context, tree, patch.updated);
    applied := FinalizePatchApplication(context, tree);
  }

  method ApplyRemovals(context: PatchApplyContext, tree: RojoTree, removed: seq<Ref>)
    requires tree.Valid() && Removable(tree.Model(), removed) && context.Contents() == EMPTY_CONTEXT
    modifies context, tree
    ensures Ready(tree, context)
    ensures Now(tree, context)
         == State(RemoveAll(old(tree.Model()), removed), EMPTY_CONTEXT.(applied := Applied(removed, [], [])))
  {
    ghost var t := tree.Model();
    for i := 0 to |removed|
      invariant Ready(tree, context)
      invariant Removable(tree.Model(), removed[i..])
      invariant RemoveAll(tree.Model(), removed[i..]) == RemoveAll(t, removed)
      invariant context.Contents() == EMPTY_CONTEXT.(applied := Applied(removed[..i], [], []))
    {
      NextRemoval(tree.Model(), removed, i);
      ApplyRemoveInstance(context, tree, removed[i]);
      assert removed[..i + 1] == removed[..i] + [removed[i]];
    }
    assert removed[..|removed|] == removed;
  }

  lemma NextRemoval(t: Tree, removed: seq<Ref>, i: nat)
    requires i < |removed| && Removable(t, removed[i..])
    ensures var r := removed[i];
      && r in t.insts && r != t.root && Removable(RemoveSubtree(t, r), removed[i + 1..])
      && RemoveAll(RemoveSubtree(t, r), removed[i + 1..]) == RemoveAll(t, removed[i..])
  {
    assert removed[i..][1..] == removed[i + 1..];
  }

  method ApplyAdditions(context: PatchApplyContext, tree: RojoTree, added: seq<Add>)
    requires Ready(tree, context) && ParentsLive(tree.Model(), added)
    modifies context, tree
    ensures Ready(tree, context) && old(tree.insts.Keys) <= tree.insts.Keys
    ensures Now(tree, context) == AddAll(old(Now(tree, context)), added)
  {
    ghost var st := Now(tree, context);
    for i := 0 to |added|
      invariant Ready(tree, context)
      invariant ParentsLive(tree.Model(), added[i..])
      invariant AddAll(Now(tree, context), added[i..]) == AddAll(st, added)
      invariant st.tree.insts.Keys <= tree.insts.Keys
    {
      assert added[i..][0] == added[i] && added[i..][1..] == added[i + 1..];
      var _ := ApplyAddChild(context, tree, added[i].parent, added[i].snap);
    }
  }

  method ApplyUpdates(context: PatchApplyContext, tree: RojoTree, updated: seq<Update>)
    requires Ready(tree, context) && forall u :: u in updated && u.meta.Some? ==> u.id in tree.insts
    modifies context, tree
    ensures Ready(tree, context)
    ensures Now(tree, context) == UpdateAll(old(Now(tree, context)), updated)
  {
    ghost var st := Now(tree, context);
    for i := 0 to |updated|
      invariant Ready(tree, context) && tree.insts.Keys == st.tree.insts.Keys
      invariant UpdateAll(Now(tree, context), updated[i..]) == UpdateAll(st, updated)
    {
      assert updated[i..][0] == updated[i] && updated[i..][1..] == updated[i + 1..];
      assert updated[i] in updated;
      ApplyUpdateChild(context, tree, updated[i]);
    }
  }

  method ApplyRemoveInstance(context: PatchApplyContext, tree: RojoTree, removed: Ref)
    requires Ready(tree, context) && context.hasRefsToRewrite == {} && context.attributeRefsToRewrite == map[]
    requires removed in tree.insts && removed != tree.root
    modifies context, tree
    ensures Ready(tree, context) && tree.Model() == RemoveSubtree(old(tree.Model()), removed)
    ensures context.Contents() == old(context.Contents()).(applied :=
        old(context.applied).(removed := old(context.applied.removed) + [removed]))
  {
    tree.Remove(removed);
    context.applied := context.applied.(removed := context.applied.removed + [removed]);
  }

  method ApplyAddChild(context: PatchApplyContext, tree: RojoTree, parent: Ref, snapshot: Snapshot) returns (id: Ref)
    requires Ready(tree, context) && parent in tree.insts
    modifies context, tree
    ensures Ready(tree, context)
    ensures Now(tree, context) == AddChild(old(Now(tree, context)), parent, snapshot)
    ensures old(tree.insts.Keys) <= tree.insts.Keys
    decreases snapshot, 1
  {
    ghost var before := Now(tree, context);
    id := tree.InsertInstance(parent, snapshot.(children := []));
    assert tree.Model() == InsertOne(before.tree, parent, snapshot);
    NoteAddition(context, id, snapshot);
    ghost var noted := Now(tree, context);
    AddChildrenOf(context, tree, id, snapshot);
    DeferRefProperties(tree, id, context);
  }

  method AddChildrenOf(context: PatchApplyContext, tree: RojoTree, id: Ref, snapshot: Snapshot)
    requires Ready(tree, context) && id in tree.insts
    modifies context, tree
    ensures Ready(tree, context)
    ensures Now(tree, context) == AddChildren(old(Now(tree, context)), id, snapshot.children)
    ensures old(tree.insts.Keys) <= tree.insts.Keys
    decreases snapshot, 0
  {
    ghost var st := Now(tree, context);
    for i := 0 to |snapshot.children|
      invariant Ready(tree, context) && id in tree.insts
      invariant st.tree.insts.Keys <= tree.insts.Keys
      invariant AddChildren(Now(tree, context), id, snapshot.children[i..]) == AddChildren(st, id, snapshot.children)
    {
      assert snapshot.children[i..][0] == snapshot.children[i]
        && snapshot.children[i..][1..] == snapshot.children[i + 1..];
      var _ := ApplyAddChild(context, tree, id, snapshot.children[i]);
    }
  }

  /** Records an added instance: reported, marked if it holds references, known by
      its snapshot id. */
  method NoteAddition(context: PatchApplyContext, id: Ref, snapshot: Snapshot)
    modifies context
    ensures context.Contents() == NoteAdded(old(context.Contents()), id, snapshot)
  {
    var hasRefs := exists k :: k in snapshot.props && snapshot.props[k].RefValue? && snapshot.props[k].ref != NO_REF;
    context.applied := context.applied.(added := context.applied.added + [id]);
    if hasRefs {
      context.hasRefsToRewrite := context.hasRefsToRewrite + {id};
    }
    if snapshot.id != NO_REF {
      context.snapshotIdToInstanceId := context.snapshotIdToInstanceId[snapshot.id := id];
    }
  }

  /** The instance with the changes of one update, and those to be described. */
  method EditInstance(original: Instance, patch: Update, ids: map<Ref, Ref>)
      returns (instance: Instance, described: Changes)
    ensures instance == ChangedInstance(original, patch, ids)
    ensures described == map k | k in patch.props && !IsNullRef(patch.props[k]) :: patch.props[k]
  {
    instance := original;
    if patch.name.Some? {
      instance := instance.(name := patch.name.value);
    }
    if patch.className.Some? {
      instance := instance.(className := patch.className.value);
    }
    var props;
    props, described := ChangeProperties(instance.props, patch.props, ids);
    instance := instance.(props := props);
  }

  /** One update. For an id that does not exist, nothing happens but that its metadata,
      if any, is stored; only then is the tree no longer in order. */
  method ApplyUpdateChild(context: PatchApplyContext, tree: RojoTree, patch: Update)
    requires Ready(tree, context)
    modifies context, tree
    ensures (patch.meta.Some? ==> patch.id in old(tree.insts)) ==> Ready(tree, context)
    ensures Now(tree, context) == ApplyUpdate(old(Now(tree, context)), patch)
  {
    if patch.meta.Some? {
      tree.UpdateMetadata(patch.id, patch.meta.value);
    }
    if patch.id !in tree.insts {
      return;
    }
    if patch.meta.Some? { MetadataWellFormed(old(tree.Model()), patch.id, patch.meta.value); }
    ghost var t := tree.Model();
    var instance, described := EditInstance(tree.insts[patch.id], patch, context.snapshotIdToInstanceId);
    tree.insts := tree.insts[patch.id := instance];
    EditWellFormed(t, patch.id, instance);
    DeferRefProperties(tree, patch.id, context);
    context.applied := context.applied.(updated := context.applied.updated + [patch.(props := described)]);
  }

  lemma MetadataWellFormed(t: Tree, id: Ref, m: Metadata)
    requires WellFormed(t) && id in t.insts
    ensures WellFormed(SetMetadata(t, id, m))
  {
    var u := SetMetadata(t, id, m);
    assert u.meta.Keys == t.meta.Keys;
    forall x | x in u.insts ensures NodeOk(u, x) { assert NodeOk(t, x); }
  }

  /** The properties with all changes made but those still to do. */
  ghost predicate PartlyChanged(props: Props, changes: Changes, ids: map<Ref, Ref>, todo: set<string>, r: Props) {
    forall k ::
      && (k in r <==> (if k in todo then k in props else ChangedProp(props, changes, ids, k).Some?))
      && (k in r ==> k in todo ==> r[k] == props[k])
      && (k in r ==> k !in todo ==> r[k] == ChangedProp(props, changes, ids, k).value)
  }

  lemma ChangeMade(props: Props, changes: Changes, ids: map<Ref, Ref>, todo: set<string>, k: string, r: Props,
      r': Props)
    requires PartlyChanged(props, changes, ids, todo, r) && k in todo
    requires r' == (if ChangedProp(props, changes, ids, k).Some? then r[k := ChangedProp(props, changes, ids, k).value]
                    else r - {k})
    ensures PartlyChanged(props, changes, ids, todo - {k}, r')
  {
  }

  /** What has been done so far, described without the null references. */
  ghost predicate PartlyDescribed(changes: Changes, todo: set<string>, described: Changes) {
    forall k ::
      && (k in described <==> k in changes && k !in todo && !IsNullRef(changes[k]))
      && (k in described ==> described[k] == changes[k])
  }

  lemma AllChanged(props: Props, changes: Changes, ids: map<Ref, Ref>, r: Props, described: Changes)
    requires PartlyChanged(props, changes, ids, {}, r) && PartlyDescribed(changes, {}, described)
    ensures r == ChangedProps(props, changes, ids)
    ensures described == map k | k in changes && !IsNullRef(changes[k]) :: changes[k]
  {
  }

  /** The loop over the changed properties; null references are passed over. */
  method ChangeProperties(props: Props, changes: Changes, ids: map<Ref, Ref>) returns (r: Props, described: Changes)
    ensures r == ChangedProps(props, changes, ids)
    ensures described == map k | k in changes && !IsNullRef(changes[k]) :: changes[k]
  {
    r, described := props, map[];
    var todo := changes.Keys;
    while todo != {}
      invariant todo <= changes.Keys && PartlyChanged(props, changes, ids, todo, r)
      invariant PartlyDescribed(changes, todo, described)
      decreases todo
    {
      var k :| k in todo;
      ghost var before, left := r, todo;
      todo := todo - {k};
      if changes[k].Some? && changes[k].value.RefValue? {
        var referent := changes[k].value.ref;
        if referent == NO_REF {
          continue;
        }
        r := r[k := RefValue(if referent in ids then ids[referent] else referent)];
      } else if changes[k].Some? {
        r := r[k := changes[k].value];
      } else {
        r := r - {k};
      }
      described := described[k := changes[k]];
      ChangeMade(props, changes, ids, left, k, before, r);
    }
    AllChanged(props, changes, ids, r, described);
  }

  /** Notes the pointers among an instance's attributes, in the order of their names,
      and gives the instance the id its attributes ask for. */
  method DeferRefProperties(tree: RojoTree, id: Ref, context: PatchApplyContext)
    requires Ready(tree, context) && id in tree.insts
    modifies context`attributeRefsToRewrite, tree
    ensures Ready(tree, context)
    ensures Now(tree, context) == Deferred(old(Now(tree, context)), id)
  {
    var props := tree.insts[id].props;
    if ATTRIBUTES !in props || !props[ATTRIBUTES].Attributes? {
      return;
    }
    var attrs := props[ATTRIBUTES].attrs;
    NotePointersKeys(context.attributeRefsToRewrite, id, PointerList(attrs));
    var specified := ReadAttributes(context, id, attrs);
    if specified.Some? {
      ghost var t := tree.Model();
      tree.SetSpecifiedId(id, specified.value);
      DeferredTree(State(t, context.Contents()), id);
    }
  }

  lemma {:induction false} NotePointersKeys(m: MultiMap<Ref, (string, string)>, id: Ref, list: seq<(string, string)>)
    ensures forall x :: x in NotePointers(m, id, list) ==> x == id || x in m
    decreases |list|
  {
    if list != [] { NotePointersKeys(Inserted(m, id, list[0]), id, list[1..]); }
  }

  method ReadAttributes(context: PatchApplyContext, id: Ref, attrs: map<string, Scalar>)
      returns (specified: Option<string>)
    modifies context`attributeRefsToRewrite
    ensures specified == AttributeId(attrs)
    ensures context.attributeRefsToRewrite == NotePointers(old(context.attributeRefsToRewrite), id, PointerList(attrs))
  {
    ghost var pointers0 := context.attributeRefsToRewrite;
    var rest := SortNames(attrs.Keys);
    ghost var done: seq<string> := [];
    specified := None;
    while rest != []
      invariant forall a :: a in attrs <==> a in done || a in rest
      invariant specified == SeenId(attrs, done)
      invariant NotePointers(context.attributeRefsToRewrite, id, PointersAmong(attrs, rest))
             == NotePointers(pointers0, id, PointerList(attrs))
      decreases |rest|
    {
      specified := ReadId(attrs, done, rest[0], specified);
      NotePointer(context, id, attrs, rest[0], rest);
      done, rest := done + [rest[0]], rest[1..];
    }
  }

  /** The specified id once the attributes with these names have been read. */
  function SeenId(attrs: map<string, Scalar>, names: seq<string>): (r: Option<string>) {
    if ID_ATTRIBUTE in names then AttributeId(attrs) else None
  }

  method ReadId(attrs: map<string, Scalar>, ghost names: seq<string>, name: string, specified: Option<string>)
    returns (r: Option<string>)
    requires specified == SeenId(attrs, names) && name in attrs
    ensures r == SeenId(attrs, names + [name])
  {
    r := if name == ID_ATTRIBUTE then TextOf(attrs[name]) else specified;
  }

  /** The first of the attribute names that are left, if it is a pointer. */
  method NotePointer(context: PatchApplyContext, id: Ref, attrs: map<string, Scalar>, name: string,
      ghost names: seq<string>)
    requires names != [] && names[0] == name && forall a :: a in names ==> a in attrs
    modifies context`attributeRefsToRewrite
    ensures NotePointers(context.attributeRefsToRewrite, id, PointersAmong(attrs, names[1..]))
         == NotePointers(old(context.attributeRefsToRewrite), id, PointersAmong(attrs, names))
  {
    assert [] + PointersAmong(attrs, names[1..]) == PointersAmong(attrs, names[1..]);
    if IsPointerName(name) {
      var text := TextOf(attrs[name]);
      if text.Some? {
        var pointer := (name[|POINTER_PREFIX|..], text.value);
        PointersSplit(attrs, names, pointer);
        context.attributeRefsToRewrite := Insert(context.attributeRefsToRewrite, id, pointer);
      }
    }
  }

  lemma PointersSplit(attrs: map<string, Scalar>, names: seq<string>, pointer: (string, string))
    requires forall a :: a in names ==> a in attrs
    requires names != [] && IsPointerName(names[0]) && TextOf(attrs[names[0]]) == Some(pointer.1)
    requires pointer.0 == names[0][|POINTER_PREFIX|..]
    ensures PointersAmong(attrs, names)[1..] == PointersAmong(attrs, names[1..])
    ensures |PointersAmong(attrs, names)| > 0 && PointersAmong(attrs, names)[0] == pointer
  {
  }

  /** Translates the references of added instances, then resolves the pointers. */
  method FinalizePatchApplication(context: PatchApplyContext, tree: RojoTree) returns (applied: Applied)
    requires Ready(tree, context)
    modifies tree
    ensures tree.Valid() && tree.Model() == Finalized(old(Now(tree, context)))
    ensures applied == context.applied
  {
    ghost var st := Now(tree, context);
    TranslateDeferred(context, tree);
    ResolveDeferred(context, tree);
    applied := context.applied;
  }

  method TranslateDeferred(context: PatchApplyContext, tree: RojoTree)
    requires Ready(tree, context)
    modifies tree
    ensures tree.Valid()
    ensures tree.Model() == TranslateAdded(old(tree.Model()), context.hasRefsToRewrite, context.snapshotIdToInstanceId)
  {
    ghost var t := tree.Model();
    var ids := context.snapshotIdToInstanceId;
    var todo := context.hasRefsToRewrite;
    while todo != {}
      invariant todo <= context.hasRefsToRewrite
      invariant tree.Valid() && tree.Model() == t.(insts := tree.insts)
      invariant tree.insts == TranslateAdded(t, context.hasRefsToRewrite - todo, ids).insts
      decreases todo
    {
      var id :| id in todo;
      var props := TranslateValues(tree.insts[id].props, ids);
      EditWellFormed(tree.Model(), id, tree.insts[id].(props := props));
      tree.insts := tree.insts[id := tree.insts[id].(props := props)];
      todo := todo - {id};
      assert tree.insts == TranslateAdded(t, context.hasRefsToRewrite - todo, ids).insts;
    }
    assert context.hasRefsToRewrite - {} == context.hasRefsToRewrite;
  }

  method TranslateValues(props: Props, ids: map<Ref, Ref>) returns (r: Props)
    ensures r == TranslateProps(ids, props)
  {
    r := props;
    var todo := props.Keys;
    while todo != {}
      invariant todo <= props.Keys == r.Keys
      invariant forall k :: k in r ==> r[k] == if k in todo then props[k] else Translate(ids, props[k])
      decreases todo
    {
      var k :| k in todo;
      todo := todo - {k};
      if r[k].RefValue? && r[k].ref in ids {
        r := r[k := RefValue(ids[r[k].ref])];
      }
    }
  }

  /** The pointers of all instances resolved but those still to do. */
  ghost predicate PartlyResolved(t: Tree, pointers: MultiMap<Ref, (string, string)>, todo: set<Ref>,
      insts: map<Ref, Instance>) {
    && insts.Keys == t.insts.Keys
    && forall x :: x in t.insts ==>
         insts[x] == if x in pointers && x !in todo
           then t.insts[x].(props := ResolvedProps(t, t.insts[x].props, pointers[x]))
                     else t.insts[x]
  }

  lemma OneResolved(t: Tree, pointers: MultiMap<Ref, (string, string)>, todo: set<Ref>, insts: map<Ref, Instance>,
      id: Ref, props: Props)
    requires PartlyResolved(t, pointers, todo, insts) && id in todo && id in pointers && id in t.insts
    requires props == ResolvedProps(t, insts[id].props, pointers[id])
    ensures PartlyResolved(t, pointers, todo - {id}, insts[id := insts[id].(props := props)])
  {
  }

  method ResolveDeferred(context: PatchApplyContext, tree: RojoTree)
    requires Ready(tree, context)
    modifies tree
    ensures tree.Valid() && tree.Model() == ResolvePointers(old(tree.Model()), context.attributeRefsToRewrite)
  {
    ghost var t := tree.Model();
    var pointers := context.attributeRefsToRewrite;
    var todo := pointers.Keys;
    while todo != {}
      invariant todo <= pointers.Keys
      invariant tree.Valid() && tree.Model() == t.(insts := tree.insts)
      invariant PartlyResolved(t, pointers, todo, tree.insts)
      decreases todo
    {
      var id :| id in todo;
      ghost var u := tree.Model();
      var props := ResolveList(tree, tree.insts[id].props, pointers[id]);
      SpecifiedSame(t, u, tree.insts[id].props, pointers[id]);
      OneResolved(t, pointers, todo, tree.insts, id, props);
      todo := todo - {id};
      EditWellFormed(u, id, tree.insts[id].(props := props));
      tree.insts := tree.insts[id := tree.insts[id].(props := props)];
    }
    assert tree.insts == ResolvePointers(t, pointers).insts;
  }

  lemma {:induction false} SpecifiedSame(t: Tree, u: Tree, props: Props, list: seq<(string, string)>)
    requires t.meta == u.meta
    ensures ResolvedProps(t, props, list) == ResolvedProps(u, props, list)
    decreases |list|
  {
    if list != [] {
      CarriersSame(t, u, list[0].1);
      var target := SpecifiedRef(t, list[0].1);
      SpecifiedSame(t, u, if target.Some? then props[list[0].0 := RefValue(target.value)] else props, list[1..]);
    }
  }

  lemma CarriersSame(t: Tree, u: Tree, specified: string)
    requires t.meta == u.meta
    ensures SpecifiedRef(t, specified) == SpecifiedRef(u, specified)
  {
    assert Carriers(t, specified) == Carriers(u, specified);
    var a, b := SpecifiedRef(t, specified), SpecifiedRef(u, specified);
    if a.Some? && b.Some? {
      assert a.value in Carriers(u, specified);
    }
  }

  method ResolveList(tree: RojoTree, props: Props, list: seq<(string, string)>) returns (r: Props)
    requires tree.Valid()
    ensures r == ResolvedProps(tree.Model(), props, list)
  {
    r := props;
    for i := 0 to |list|
      invariant ResolvedProps(tree.Model(), r, list[i..]) == ResolvedProps(tree.Model(), props, list)
    {
      assert list[i..][0] == list[i] && list[i..][1..] == list[i + 1..];
      var target := tree.GetSpecifiedId(list[i].1);
      if target.Some? {
        r := r[list[i].0 := RefValue(target.value)];
      }
    }
  }

  /** Reconciling an instance with a fresh snapshot of its source: no precondition
      besides a live id is left, since a computed patch always applies
      (src/change_processor.rs). */
  method ReconcileInstance(tree: RojoTree, snapshot: Snapshot, id: Ref) returns (applied: Applied)
    requires tree.Valid() && id in tree.insts
    modifies tree
    ensures tree.Valid()
    ensures var q := PatchFor(old(tree.Model()), Some(snapshot), id);
      && Applicable(old(tree.Model()), q)
      && tree.Model() == PatchEffect.ApplyPatch(old(tree.Model()), q)
      && applied == Applying(old(tree.Model()), q).ctx.applied
  {
    var patch := ComputePatchSet(Some(snapshot), tree, id);
    ComputedPatchApplicable(tree.Model(), snapshot, id);
    applied := ApplyPatchSet(tree, patch);
  }
}
