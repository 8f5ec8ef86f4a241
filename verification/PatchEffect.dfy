/** What `apply_patch_set` does to the tree, phase by phase, as functions
    (src/snapshot/patch_apply.rs). */
module PatchEffect {
  import opened Basics
  import opened Values
  import opened Ordering
  import opened MultiMaps
  import opened TreeModel
  import opened PatchPlan

  /** The description of what was done, meant for the clients. */
  datatype Applied = Applied(removed: seq<Ref>, added: seq<Ref>, updated: seq<Update>)

  datatype Context = Context(
    ids: map<Ref, Ref>,
    hasRefs: set<Ref>,
    pointers: MultiMap<Ref, (string, string)>,
    applied: Applied)

  const EMPTY_CONTEXT := Context(map[], {}, map[], Applied([], [], []))

  /** The tree together with the ephemeral state of one application. */
  datatype State = State(tree: Tree, ctx: Context)

  // ----- references written as attributes -----

  ghost function PointersAmong(attrs: map<string, Scalar>, names: seq<string>): (r: seq<(string, string)>)
    requires forall a :: a in names ==> a in attrs
  {
    if names == [] then []
    else
      var text := TextOf(attrs[names[0]]);
      (if IsPointerName(names[0]) && text.Some? then [(names[0][|POINTER_PREFIX|..], text.value)] else [])
      + PointersAmong(attrs, names[1..])
  }

  /** The pointers among the attributes: property name and wanted id, in the order
      of the attribute names. */
  ghost function PointerList(attrs: map<string, Scalar>): (r: seq<(string, string)>) {
    PointersAmong(attrs, Sorted(attrs.Keys))
  }

  function AttributeId(attrs: map<string, Scalar>): (r: Option<string>) {
    if ID_ATTRIBUTE in attrs then TextOf(attrs[ID_ATTRIBUTE]) else None
  }

  ghost function NotePointers(m: MultiMap<Ref, (string, string)>, id: Ref, list: seq<(string, string)>)
    : (r: MultiMap<Ref, (string, string)>)
    decreases |list|
  {
    if list == [] then m else NotePointers(Inserted(m, id, list[0]), id, list[1..])
  }

  /** Remembers the pointers of an instance and adopts the id its attributes give. */
  ghost function Deferred(st: State, id: Ref): (r: State)
    requires id in st.tree.insts
    ensures r.tree.insts == st.tree.insts && r.tree.next == st.tree.next && r.tree.root == st.tree.root
  {
    var found := AttributesOf(st.tree.insts[id].props);
    if found.None? then st
    else
      var attrs := found.value;
      State(if AttributeId(attrs).Some? then SetSpecifiedId(st.tree, id, AttributeId(attrs).value) else st.tree,
            st.ctx.(pointers := NotePointers(st.ctx.pointers, id, PointerList(attrs))))
  }

  // ----- removals -----

  /** Can these ids be removed one after the other? Each must be live when its
      turn comes, and none may be the root. */
  ghost predicate Removable(t: Tree, removed: seq<Ref>)
    decreases |removed|
  {
    removed == [] ||
    (removed[0] in t.insts && removed[0] != t.root && Removable(RemoveSubtree(t, removed[0]), removed[1..]))
  }

  ghost function RemoveAll(t: Tree, removed: seq<Ref>): (r: Tree)
    decreases |removed|
  {
    if removed == [] then t else RemoveAll(RemoveSubtree(t, removed[0]), removed[1..])
  }

  // ----- additions -----

  predicate HasRefs(props: Props) {
    exists k :: k in props && props[k].RefValue? && props[k].ref != NO_REF
  }

  function NoteAdded(ctx: Context, id: Ref, s: Snapshot): (r: Context) {
    ctx.(applied := ctx.applied.(added := ctx.applied.added + [id]),
         hasRefs := if HasRefs(s.props) then ctx.hasRefs + {id} else ctx.hasRefs,
         ids := if s.id != NO_REF then ctx.ids[s.id := id] else ctx.ids)
  }

  ghost function AddChild(st: State, parent: Ref, s: Snapshot): (r: State)
    requires parent in st.tree.insts
    ensures st.tree.insts.Keys <= r.tree.insts.Keys
    decreases s, 1
  {
    var id := st.tree.next;
    var noted := State(InsertOne(st.tree, parent, s), NoteAdded(st.ctx, id, s));
    Deferred(AddChildren(noted, id, s.children), id)
  }

  ghost function AddChildren(st: State, parent: Ref, ss: seq<Snapshot>): (r: State)
    requires parent in st.tree.insts
    ensures st.tree.insts.Keys <= r.tree.insts.Keys
    decreases ss, 0
  {
    if ss == [] then st else AddChildren(AddChild(st, parent, ss[0]), parent, ss[1..])
  }

  ghost predicate ParentsLive(t: Tree, added: seq<Add>) {
    forall a :: a in added ==> a.parent in t.insts
  }

  ghost function AddAll(st: State, added: seq<Add>): (r: State)
    requires ParentsLive(st.tree, added)
    ensures st.tree.insts.Keys <= r.tree.insts.Keys
    decreases |added|
  {
    if added == [] then st else AddAll(AddChild(st, added[0].parent, added[0].snap), added[1..])
  }

  // ----- updates -----

  predicate IsNullRef(c: Option<Value>) {
    c.Some? && c.value == RefValue(NO_REF)
  }

  /** One property after the changes. A change to the null reference is skipped,
      and references to instances added by this patch are translated. */
  function ChangedProp(props: Props, c: Changes, ids: map<Ref, Ref>, k: string): (r: Option<Value>) {
    if k in c && !IsNullRef(c[k]) then
      if c[k].Some? then Some(Translate(ids, c[k].value)) else None
    else if k in props then Some(props[k])
    else None
  }

  function ChangedProps(props: Props, c: Changes, ids: map<Ref, Ref>): (r: Props)
    ensures forall k :: k in r <==> ChangedProp(props, c, ids, k).Some?
    ensures forall k :: k in r ==> r[k] == ChangedProp(props, c, ids, k).value
  {
    map k | k in props.Keys + c.Keys && ChangedProp(props, c, ids, k).Some? :: ChangedProp(props, c, ids, k).value
  }

  function ChangedInstance(n: Instance, u: Update, ids: map<Ref, Ref>): (r: Instance) {
    n.(name := if u.name.Some? then u.name.value else n.name,
       className := if u.className.Some? then u.className.value else n.className,
       props := ChangedProps(n.props, u.props, ids))
  }

  /** Null references are left out of the description as well. */
  function Described(u: Update): (r: Update) {
    u.(props := map k | k in u.props && !IsNullRef(u.props[k]) :: u.props[k])
  }

  ghost function ApplyUpdate(st: State, u: Update): (r: State)
    ensures r.tree.insts.Keys == st.tree.insts.Keys
  {
    var t := if u.meta.Some? then SetMetadata(st.tree, u.id, u.meta.value) else st.tree;
    if u.id !in t.insts then st.(tree := t)
    else
      var st1 := st.(tree := SetInstance(t, u.id, ChangedInstance(t.insts[u.id], u, st.ctx.ids)));
      var st2 := Deferred(st1, u.id);
      st2.(ctx := st2.ctx.(applied := st2.ctx.applied.(updated := st2.ctx.applied.updated + [Described(u)])))
  }

  ghost function UpdateAll(st: State, updated: seq<Update>): (r: State)
    ensures r.tree.insts.Keys == st.tree.insts.Keys
    decreases |updated|
  {
    if updated == [] then st else UpdateAll(ApplyUpdate(st, updated[0]), updated[1..])
  }

  // ----- finalization -----

  function WithTranslatedProps(n: Instance, ids: map<Ref, Ref>): (r: Instance) {
    n.(props := TranslateProps(ids, n.props))
  }

  ghost function TranslateAdded(t: Tree, hasRefs: set<Ref>, ids: map<Ref, Ref>): (r: Tree) {
    t.(insts := map x | x in t.insts :: if x in hasRefs then WithTranslatedProps(t.insts[x], ids) else t.insts[x])
  }

  ghost function ResolvedProps(t: Tree, props: Props, list: seq<(string, string)>): (r: Props)
    decreases |list|
  {
    if list == [] then props
    else
      var target := SpecifiedRef(t, list[0].1);
      ResolvedProps(t, if target.Some? then props[list[0].0 := RefValue(target.value)] else props, list[1..])
  }

  ghost function ResolvePointers(t: Tree, pointers: MultiMap<Ref, (string, string)>): (r: Tree) {
    t.(insts := map x | x in t.insts ::
         if x in pointers then t.insts[x].(props := ResolvedProps(t, t.insts[x].props, pointers[x])) else t.insts[x])
  }

  ghost function Finalized(st: State): (r: Tree) {
    ResolvePointers(TranslateAdded(st.tree, st.ctx.hasRefs, st.ctx.ids), st.ctx.pointers)
  }

  // ----- the whole -----

  ghost predicate Applicable(t: Tree, p: Patch) {
    Removable(t, p.removed) && ParentsLive(RemoveAll(t, p.removed), p.added)
  }

  /** The state after removals, additions and updates, before finalization. */
  ghost function Applying(t: Tree, p: Patch): (r: State)
    requires Applicable(t, p)
  {
    var context := EMPTY_CONTEXT.(applied := Applied(p.removed, [], []));
    UpdateAll(AddAll(State(RemoveAll(t, p.removed), context), p.added), p.updated)
  }

  /** The specification of `apply_patch_set`. */
  ghost function ApplyPatch(t: Tree, p: Patch): (r: Tree)
    requires Applicable(t, p)
  {
    Finalized(Applying(t, p))
  }
}
