/** What `compute_patch_set` computes, as functions of the tree and the snapshot
    (src/snapshot/patch_compute.rs, src/snapshot/patch.rs). */
module PatchPlan {
  import opened Basics
  import opened Values
  import opened TreeModel

  type Changes = map<string, Option<Value>>

  datatype Add = Add(parent: Ref, snap: Snapshot)

  datatype Update = Update(
    id: Ref,
    name: Option<string>,
    className: Option<string>,
    props: Changes,
    meta: Option<Metadata>)

  datatype Patch = Patch(removed: seq<Ref>, added: seq<Add>, updated: seq<Update>)

  const EMPTY_PATCH := Patch([], [], [])

  /** The work of one pass: the patch, the table from snapshot ids to instances,
      and the pairs of instance and snapshot node that were visited. */
  datatype Plan = Plan(patch: Patch, ids: map<Ref, Ref>, pairs: seq<(Ref, Snapshot)>)

  const EMPTY_PLAN := Plan(EMPTY_PATCH, map[], [])

  function Then(a: Plan, b: Plan): (r: Plan) {
    Plan(Patch(a.patch.removed + b.patch.removed, a.patch.added + b.patch.added, a.patch.updated + b.patch.updated),
         a.ids + b.ids,
         a.pairs + b.pairs)
  }

  lemma ThenAssociative(a: Plan, b: Plan, c: Plan)
    ensures Then(Then(a, b), c) == Then(a, Then(b, c))
  {
    assert (a.patch.removed + b.patch.removed) + c.patch.removed ==
      a.patch.removed + (b.patch.removed + c.patch.removed);
    assert (a.patch.added + b.patch.added) + c.patch.added == a.patch.added + (b.patch.added + c.patch.added);
    assert (a.patch.updated + b.patch.updated) + c.patch.updated ==
      a.patch.updated + (b.patch.updated + c.patch.updated);
    assert (a.ids + b.ids) + c.ids == a.ids + (b.ids + c.ids);
    assert (a.pairs + b.pairs) + c.pairs == a.pairs + (b.pairs + c.pairs);
  }

  lemma ThenEmpty(a: Plan)
    ensures Then(a, EMPTY_PLAN) == a && Then(EMPTY_PLAN, a) == a
  {
    assert a.ids + map[] == a.ids;
    assert map[] + a.ids == a.ids;
  }

  // ----- one node -----

  /** Wanted values that differ, and `None` for values nobody wants. */
  function BaseChanges(wanted: Props, actual: Props): (r: Changes) {
    map k | k in wanted.Keys + actual.Keys && !(k in wanted && k in actual && VariantEq(wanted[k], actual[k]))
      :: if k in wanted then Some(wanted[k]) else None
  }

  /** The values of the properties that the snapshot's attributes point with. */
  ghost function AttributeRefs(t: Tree, props: Props): (r: Changes) {
    if AttributesOf(props).None? then map[]
    else
      var attrs := AttributesOf(props).value;
      map p | p in PointerProps(attrs) :: PointedValue(t, TextOf(attrs[PointerName(p)]).value)
  }

  ghost function PointedValue(t: Tree, specified: string): (r: Option<Value>) {
    var target := SpecifiedRef(t, specified);
    if target.Some? then Some(RefValue(target.value)) else None
  }

  /** Is the pointed value what the instance already has? */
  predicate AlreadySo(pointed: Option<Value>, actual: Props, k: string) {
    if pointed.Some? then k in actual && actual[k] == pointed.value else k !in actual
  }

  function OverlayRefs(changes: Changes, refs: Changes, actual: Props): (r: Changes) {
    map k | k in changes.Keys + refs.Keys && !(k in refs && AlreadySo(refs[k], actual, k))
      :: if k in refs then refs[k] else changes[k]
  }

  /** The special case for `NeedsPivotMigration` on model-like classes. */
  function PivotRule(changes: Changes, className: string, actual: Props): (r: Changes) {
    if !ModelLike(className) then changes
    else
      var c := if PIVOT in actual then changes else changes[PIVOT := Some(PIVOT_OFF)];
      if PIVOT in c && c[PIVOT].Some? && c[PIVOT].value.Plain? && c[PIVOT].value.scalar.Bool? then c
      else if PIVOT in c && c[PIVOT].None? then c - {PIVOT}
      else c[PIVOT := Some(PIVOT_OFF)]
  }

  function Changed<T(==)>(wanted: T, actual: T): (r: Option<T>) {
    if wanted == actual then None else Some(wanted)
  }

  ghost function NodeUpdate(t: Tree, s: Snapshot, id: Ref): (r: Update)
    requires id in t.insts && id in t.meta
  {
    var n := t.insts[id];
    Update(id,
           Changed(s.name, n.name),
           Changed(s.className, n.className),
           PivotRule(OverlayRefs(BaseChanges(s.props, n.props), AttributeRefs(t, s.props), n.props), s.className,
             n.props),
           Changed(s.meta, t.meta[id]))
  }

  predicate ChangesNothing(u: Update) {
    u.name.None? && u.className.None? && u.props == map[] && u.meta.None?
  }

  /** The plan for one node alone: its id is noted and its update, if any, emitted. */
  ghost function NodePlan(t: Tree, s: Snapshot, id: Ref): (r: Plan)
    requires id in t.insts && id in t.meta
  {
    var u := NodeUpdate(t, s, id);
    Plan(Patch([], [], if ChangesNothing(u) then [] else [u]),
         if s.id == NO_REF then map[] else map[s.id := id],
         [(id, s)])
  }

  // ----- children -----

  predicate SameKey(t: Tree, k: Ref, s: Snapshot) {
    k in t.insts && t.insts[k].name == s.name && t.insts[k].className == s.className
  }

  predicate Fits(t: Tree, kids: seq<Ref>, paired: seq<bool>, s: Snapshot, j: nat)
    requires |paired| == |kids| && j < |kids|
  {
    !paired[j] && SameKey(t, kids[j], s)
  }

  /** The first child, from index `lo` on, that is unpaired and has the snapshot's
      name and class. */
  function FirstFit(t: Tree, kids: seq<Ref>, paired: seq<bool>, s: Snapshot, lo: nat): (r: Option<nat>)
    requires |paired| == |kids| && lo <= |kids|
    ensures r.Some? ==> lo <= r.value < |kids| && Fits(t, kids, paired, s, r.value)
    ensures forall j :: lo <= j < |kids| && (r.Some? ==> j < r.value) ==> !Fits(t, kids, paired, s, j)
    decreases |kids| - lo
  {
    if lo == |kids| then None
    else if Fits(t, kids, paired, s, lo) then Some(lo)
    else FirstFit(t, kids, paired, s, lo + 1)
  }

  function Mark(paired: seq<bool>, j: Option<nat>): (r: seq<bool>)
    requires j.Some? ==> j.value < |paired|
    ensures |r| == |paired|
  {
    if j.Some? then paired[j.value := true] else paired
  }

  function Unpaired(kids: seq<Ref>, paired: seq<bool>): (r: seq<Ref>)
    requires |paired| == |kids|
    ensures forall x :: x in r <==> exists j :: 0 <= j < |kids| && !paired[j] && kids[j] == x
  {
    if kids == [] then []
    else if paired[0] then Unpaired(kids[1..], paired[1..])
    else [kids[0]] + Unpaired(kids[1..], paired[1..])
  }

  lemma {:induction false} UnpairedNoDup(kids: seq<Ref>, paired: seq<bool>)
    requires |paired| == |kids| && NoDup(kids)
    ensures NoDup(Unpaired(kids, paired))
  {
    if kids != [] {
      UnpairedNoDup(kids[1..], paired[1..]);
      assert kids[0] !in kids[1..];
      assert kids[0] !in Unpaired(kids[1..], paired[1..]);
    }
  }

  function NonePaired(n: nat): (r: seq<bool>)
    ensures |r| == n && forall j :: 0 <= j < n ==> !r[j]
  {
    seq(n, _ => false)
  }

  /** The plan for a node: its own, then its children's in snapshot order, then
      the removal of the children left over. */
  ghost function PlanNode(t: Tree, s: Snapshot, id: Ref): (r: Plan)
    requires WellFormed(t) && id in t.insts
    decreases s, 1
  {
    var kids := t.insts[id].children;
    Then(NodePlan(t, s, id), PlanChildren(t, id, s.children, NonePaired(|kids|)))
  }

  ghost function PlanChildren(t: Tree, id: Ref, ss: seq<Snapshot>, paired: seq<bool>): (r: Plan)
    requires WellFormed(t) && id in t.insts && |paired| == |t.insts[id].children|
    decreases ss, 0
  {
    var kids := t.insts[id].children;
    if ss == [] then Plan(Patch(Unpaired(kids, paired), [], []), map[], [])
    else
      var j := FirstFit(t, kids, paired, ss[0], 0);
      Then(PlanChild(t, id, ss[0], j), PlanChildren(t, id, ss[1..], Mark(paired, j)))
  }

  ghost function PlanChild(t: Tree, id: Ref, s: Snapshot, j: Option<nat>): (r: Plan)
    requires WellFormed(t) && id in t.insts
    requires j.Some? ==> j.value < |t.insts[id].children| && t.insts[id].children[j.value] in t.insts
    decreases s, 2
  {
    if j.Some? then PlanNode(t, s, t.insts[id].children[j.value])
    else Plan(Patch([], [Add(id, s)], []), map[], [])
  }

  // ----- rewriting references -----

  function RewriteChanges(ids: map<Ref, Ref>, c: Changes): (r: Changes)
    ensures r.Keys == c.Keys
  {
    map k | k in c :: if c[k].Some? then Some(Translate(ids, c[k].value)) else None
  }

  function RewriteUpdate(ids: map<Ref, Ref>, u: Update): (r: Update) {
    u.(props := RewriteChanges(ids, u.props))
  }

  function RewriteUpdates(ids: map<Ref, Ref>, us: seq<Update>): (r: seq<Update>)
    ensures |r| == |us| && forall i :: 0 <= i < |us| ==> r[i] == RewriteUpdate(ids, us[i])
  {
    seq(|us|, i requires 0 <= i < |us| => RewriteUpdate(ids, us[i]))
  }

  function RewriteSnapshot(ids: map<Ref, Ref>, s: Snapshot): (r: Snapshot)
    decreases s, 1
  {
    s.(props := TranslateProps(ids, s.props), children := RewriteSnapshots(ids, s.children))
  }

  function RewriteSnapshots(ids: map<Ref, Ref>, ss: seq<Snapshot>): (r: seq<Snapshot>)
    ensures |r| == |ss| && forall i :: 0 <= i < |ss| ==> r[i] == RewriteSnapshot(ids, ss[i])
    decreases ss, 0
  {
    if ss == [] then [] else [RewriteSnapshot(ids, ss[0])] + RewriteSnapshots(ids, ss[1..])
  }

  function RewriteAdds(ids: map<Ref, Ref>, added: seq<Add>): (r: seq<Add>)
    ensures |r| == |added|
    ensures forall i :: 0 <= i < |added| ==> r[i] == Add(added[i].parent, RewriteSnapshot(ids, added[i].snap))
  {
    seq(|added|, i requires 0 <= i < |added| => Add(added[i].parent, RewriteSnapshot(ids, added[i].snap)))
  }

  function RewritePlan(p: Plan): (r: Patch) {
    Patch(p.patch.removed, RewriteAdds(p.ids, p.patch.added), RewriteUpdates(p.ids, p.patch.updated))
  }

  /** The specification of `compute_patch_set`. */
  ghost function PatchFor(t: Tree, s: Option<Snapshot>, id: Ref): (r: Patch)
    requires WellFormed(t) && (s.Some? ==> id in t.insts)
  {
    if s.Some? then RewritePlan(PlanNode(t, s.value, id))
    else if id != t.root then Patch([id], [], [])
    else EMPTY_PATCH
  }
}
