/** The references written as attributes while a patch is applied: which instances
    have them noted for the end, and what resolving them leaves untouched
    (src/snapshot/patch_apply.rs). */
module Pointers {
  import opened Basics
  import opened Values
  import opened Ordering
  import opened MultiMaps
  import opened TreeModel
  import opened PatchPlan
  import opened PatchEffect
  import opened EffectFacts

  /** The pointers among the attributes of an instance. */
  ghost function PointersIn(props: Props): (r: seq<(string, string)>) {
    if AttributesOf(props).Some? then PointerList(AttributesOf(props).value) else []
  }

  lemma {:induction false} PointersAmongContents(attrs: map<string, Scalar>, names: seq<string>, k: string, u: string)
    requires forall a :: a in names ==> a in attrs
    ensures (k, u) in PointersAmong(attrs, names) <==>
      PointerName(k) in names && TextOf(attrs[PointerName(k)]) == Some(u)
  {
    if names != [] {
      PointersAmongContents(attrs, names[1..], k, u);
      assert PointerName(k)[|POINTER_PREFIX|..] == k;
      assert IsPointerName(names[0]) ==> names[0] == PointerName(names[0][|POINTER_PREFIX|..]);
      assert PointerName(k) in names <==> PointerName(k) == names[0] || PointerName(k) in names[1..];
    }
  }

  /** The remembered pairs are exactly the readable pointer attributes. */
  lemma PointerListContents(attrs: map<string, Scalar>, k: string, u: string)
    ensures (k, u) in PointerList(attrs) <==> PointerName(k) in attrs && TextOf(attrs[PointerName(k)]) == Some(u)
  {
    PointersAmongContents(attrs, Sorted(attrs.Keys), k, u);
  }

  type Pointers = MultiMap<Ref, (string, string)>

  lemma {:induction false} NotedContents(m: Pointers, id: Ref, list: seq<(string, string)>)
    ensures var r := NotePointers(m, id, list);
      && (forall j :: j != id ==> Get(r, j) == Get(m, j) && (j in r <==> j in m))
      && (forall w :: w in Get(r, id) <==> w in Get(m, id) || w in list)
    decreases |list|
  {
    if list != [] {
      var more := Inserted(m, id, list[0]);
      assert forall w :: w in Get(more, id) <==> w in Get(m, id) || w == list[0];
      NotedContents(more, id, list[1..]);
    }
  }

  /** The names in the list are those of the pointed properties. */
  lemma PointersInNames(props: Props)
    ensures forall w :: w in PointersIn(props) ==> w.0 in PointedBy(props)
    ensures PointedBy(props) == {} ==> PointersIn(props) == []
  {
    forall w | w in PointersIn(props) ensures w.0 in PointedBy(props) {
      PointerListContents(AttributesOf(props).value, w.0, w.1);
    }
    if PointersIn(props) != [] { assert PointersIn(props)[0] in PointersIn(props); }
  }

  // ----- who has pointers noted -----

  ghost predicate FitsAt(st: State, id: Ref) {
    && id in st.ctx.pointers && id in st.tree.insts && st.ctx.pointers[id] != []
    && forall w :: w in st.ctx.pointers[id] <==> w in PointersIn(st.tree.insts[id].props)
  }

  /** What is noted is what the attributes say. */
  ghost predicate PointersFit(st: State) {
    forall id {:trigger FitsAt(st, id)} :: id in st.ctx.pointers ==> FitsAt(st, id)
  }

  lemma DeferredFits(st: State, id: Ref)
    requires id in st.tree.insts && PointersFit(st)
    ensures PointersFit(Deferred(st, id))
    ensures Deferred(st, id).ctx.pointers.Keys <= st.ctx.pointers.Keys + {id}
  {
    var r := Deferred(st, id);
    NotedContents(st.ctx.pointers, id, PointersIn(st.tree.insts[id].props));
    if id in st.ctx.pointers { assert FitsAt(st, id); }
    forall x | x in r.ctx.pointers ensures FitsAt(r, x) {
      if x != id {
        assert Get(r.ctx.pointers, x) == Get(st.ctx.pointers, x) && FitsAt(st, x);
      } else {
        NotedNonEmpty(st.ctx.pointers, id, PointersIn(st.tree.insts[id].props));
      }
    }
  }

  lemma {:induction false} NotedNonEmpty(m: Pointers, id: Ref, list: seq<(string, string)>)
    requires id in m ==> m[id] != []
    ensures var r := NotePointers(m, id, list); id in r ==> r[id] != []
    decreases |list|
  {
    if list != [] { NotedNonEmpty(Inserted(m, id, list[0]), id, list[1..]); }
  }

  /** Whatever an instance had before, its own properties decide what is noted. */
  lemma FitsElsewhere(st: State, r: State)
    requires PointersFit(st) && r.ctx.pointers == st.ctx.pointers
    requires forall x :: x in st.ctx.pointers && x in st.tree.insts ==>
      x in r.tree.insts && r.tree.insts[x].props == st.tree.insts[x].props
    ensures PointersFit(r)
  {
    forall x | x in r.ctx.pointers ensures FitsAt(r, x) { assert FitsAt(st, x); }
  }

  /** Only ids from `n` on have come to be noted. */
  ghost predicate NotedFrom(before: Pointers, after: Pointers, n: Ref) {
    forall x :: x in after ==> x in before || x >= n
  }

  lemma {:induction false} AddChildFits(st: State, parent: Ref, s: Snapshot)
    requires WellFormed(st.tree) && parent in st.tree.insts && PointersFit(st)
    ensures var r := AddChild(st, parent, s);
      PointersFit(r) && NotedFrom(st.ctx.pointers, r.ctx.pointers, st.tree.next)
    decreases s, 1
  {
    var n := st.tree.next;
    var noted := State(InsertOne(st.tree, parent, s), NoteAdded(st.ctx, n, s));
    LiveRange(st.tree, n);
    FitsElsewhere(st, noted);
    InsertOneWellFormed(st.tree, parent, s);
    AddChildrenFit(noted, n, s.children);
    DeferredFits(AddChildren(noted, n, s.children), n);
  }

  lemma {:induction false} AddChildrenFit(st: State, parent: Ref, ss: seq<Snapshot>)
    requires WellFormed(st.tree) && parent in st.tree.insts && PointersFit(st)
    ensures var r := AddChildren(st, parent, ss);
      PointersFit(r) && NotedFrom(st.ctx.pointers, r.ctx.pointers, st.tree.next)
    decreases ss, 0
  {
    if ss != [] {
      AddChildFits(st, parent, ss[0]);
      AddChildEffect(st, parent, ss[0]);
      AddChildrenFit(AddChild(st, parent, ss[0]), parent, ss[1..]);
    }
  }

  lemma {:induction false} AddAllFit(st: State, added: seq<Add>)
    requires WellFormed(st.tree) && ParentsLive(st.tree, added) && PointersFit(st)
    ensures var r := AddAll(st, added);
      PointersFit(r) && NotedFrom(st.ctx.pointers, r.ctx.pointers, st.tree.next)
    decreases |added|
  {
    if added != [] {
      var mid := AddChild(st, added[0].parent, added[0].snap);
      AddChildFits(st, added[0].parent, added[0].snap);
      AddChildEffect(st, added[0].parent, added[0].snap);
      AddAllFit(mid, added[1..]);
    }
  }

  /** An updated instance that has pointers has them noted. */
  ghost predicate NotedAt(st: State, id: Ref) {
    id in st.tree.insts && (PointersIn(st.tree.insts[id].props) != [] ==> id in st.ctx.pointers)
  }

  lemma {:induction false} NotedPresent(m: Pointers, id: Ref, list: seq<(string, string)>)
    ensures id in m || list != [] ==> id in NotePointers(m, id, list)
    decreases |list|
  {
    if list != [] { NotedPresent(Inserted(m, id, list[0]), id, list[1..]); }
  }

  lemma ApplyUpdateNotes(st: State, u: Update)
    requires u.id in st.tree.insts
    ensures NotedAt(ApplyUpdate(st, u), u.id)
    ensures forall x :: x != u.id && NotedAt(st, x) ==> NotedAt(ApplyUpdate(st, u), x)
  {
    var mid := BeforeDeferred(st, u);
    var list := PointersIn(mid.tree.insts[u.id].props);
    NotedPresent(st.ctx.pointers, u.id, list);
    NotedContents(st.ctx.pointers, u.id, list);
  }

  lemma {:induction false} UpdateAllNoted(st: State, updated: seq<Update>, x: Ref)
    requires UpdatesDistinct(st.tree, updated)
    ensures x in UpdatedIds(updated) || NotedAt(st, x) ==> NotedAt(UpdateAll(st, updated), x)
    decreases |updated|
  {
    if updated != [] {
      UpdatedIdsSplit(updated);
      ApplyUpdateNotes(st, updated[0]);
      UpdateAllNoted(ApplyUpdate(st, updated[0]), updated[1..], x);
    }
  }

  /** The state of an update just before its pointers are noted. */
  ghost function BeforeDeferred(st: State, u: Update): (r: State)
    requires u.id in st.tree.insts
  {
    var t := if u.meta.Some? then SetMetadata(st.tree, u.id, u.meta.value) else st.tree;
    st.(tree := SetInstance(t, u.id, ChangedInstance(t.insts[u.id], u, st.ctx.ids)))
  }

  lemma ApplyUpdateFits(st: State, u: Update)
    requires u.id in st.tree.insts && u.id !in st.ctx.pointers && PointersFit(st)
    ensures PointersFit(ApplyUpdate(st, u))
    ensures ApplyUpdate(st, u).ctx.pointers.Keys <= st.ctx.pointers.Keys + {u.id}
  {
    var mid := BeforeDeferred(st, u);
    FitsElsewhere(st, mid);
    DeferredFits(mid, u.id);
    FitsElsewhere(Deferred(mid, u.id), ApplyUpdate(st, u));
  }

  lemma {:induction false} UpdateAllFit(st: State, updated: seq<Update>)
    requires UpdatesDistinct(st.tree, updated) && PointersFit(st)
    requires forall u :: u in updated ==> u.id !in st.ctx.pointers
    ensures var r := UpdateAll(st, updated);
      PointersFit(r) && r.ctx.pointers.Keys <= st.ctx.pointers.Keys + UpdatedIds(updated)
    decreases |updated|
  {
    if updated != [] {
      ApplyUpdateFits(st, updated[0]);
      UpdatedIdsSplit(updated);
      forall u | u in updated[1..] ensures u.id !in ApplyUpdate(st, updated[0]).ctx.pointers {
        assert u.id in UpdatedIds(updated[1..]) && u in updated;
      }
      UpdateAllFit(ApplyUpdate(st, updated[0]), updated[1..]);
    }
  }

  /** After all phases, only added and updated instances have pointers noted. */
  lemma ApplyingFits(t: Tree, q: Patch)
    requires WellFormed(t) && Applicable(t, q) && DistinctIds(q.updated)
    requires forall u :: u in q.updated ==> u.id in RemoveAll(t, q.removed).insts
    ensures PointersFit(Applying(t, q))
    ensures forall x :: x in Applying(t, q).ctx.pointers ==> x >= t.next || x in UpdatedIds(q.updated)
  {
    var st := State(RemoveAll(t, q.removed), EMPTY_CONTEXT.(applied := Applied(q.removed, [], [])));
    RemoveAllEffect(t, q.removed);
    AddAllFit(st, q.added);
    forall u | u in q.updated ensures u.id !in AddAll(st, q.added).ctx.pointers { LiveRange(st.tree, u.id); }
    UpdateAllFit(AddAll(st, q.added), q.updated);
  }

  lemma ApplyingNotes(t: Tree, q: Patch, x: Ref)
    requires WellFormed(t) && Applicable(t, q) && DistinctIds(q.updated) && x in UpdatedIds(q.updated)
    requires forall u :: u in q.updated ==> u.id in RemoveAll(t, q.removed).insts
    ensures NotedAt(Applying(t, q), x)
  {
    var st := State(RemoveAll(t, q.removed), EMPTY_CONTEXT.(applied := Applied(q.removed, [], [])));
    UpdateAllNoted(AddAll(st, q.added), q.updated, x);
  }

  // ----- added instances -----

  /** `b` comes after `a`: instances keep their properties and what is noted for them. */
  ghost predicate Extends(a: State, b: State) {
    forall x :: x in a.tree.insts ==>
      && x in b.tree.insts && b.tree.insts[x].props == a.tree.insts[x].props
      && (x in a.ctx.pointers ==> x in b.ctx.pointers)
  }

  ghost predicate NotedThroughout(st: State, lo: Ref, size: nat) {
    forall y :: lo <= y < lo + size ==> NotedAt(st, y)
  }

  lemma NotedJoin(a: State, b: State, lo: Ref, i: nat, j: nat)
    requires NotedThroughout(a, lo, i) && Extends(a, b) && NotedThroughout(b, lo + i, j)
    ensures NotedThroughout(b, lo, i + j)
  {
    forall y | lo <= y < lo + i + j ensures NotedAt(b, y) {
      if y < lo + i { assert NotedAt(a, y); }
    }
  }

  lemma DeferredNotes(st: State, id: Ref)
    requires id in st.tree.insts
    ensures Extends(st, Deferred(st, id)) && NotedAt(Deferred(st, id), id)
  {
    var list := PointersIn(st.tree.insts[id].props);
    NotedPresent(st.ctx.pointers, id, list);
    NotedContents(st.ctx.pointers, id, list);
  }

  /** A whole added subtree is noted: each new instance that has pointers has them
      remembered. */
  lemma {:induction false} AddChildNoted(st: State, parent: Ref, s: Snapshot)
    requires WellFormed(st.tree) && parent in st.tree.insts
    ensures Extends(st, AddChild(st, parent, s)) && NotedThroughout(AddChild(st, parent, s), st.tree.next, Size(s))
    decreases s, 1
  {
    var n := st.tree.next;
    var start := State(InsertOne(st.tree, parent, s), NoteAdded(st.ctx, n, s));
    LiveRange(st.tree, n);
    InsertOneWellFormed(st.tree, parent, s);
    AddChildrenNoted(start, n, s.children);
    var mid := AddChildren(start, n, s.children);
    DeferredNotes(mid, n);
    OwnNoted(st, start, mid, Deferred(mid, n), n, Sizes(s.children));
  }

  lemma OwnNoted(st: State, start: State, mid: State, r: State, n: Ref, size: nat)
    requires Extends(st, start) && Extends(start, mid) && Extends(mid, r)
    requires NotedAt(r, n) && NotedThroughout(mid, n + 1, size)
    ensures Extends(st, r) && NotedThroughout(r, n, 1 + size)
  {
    forall y | n <= y < n + 1 + size ensures NotedAt(r, y) {
      if y != n { assert NotedAt(mid, y); }
    }
  }

  lemma {:induction false} AddChildrenNoted(st: State, parent: Ref, ss: seq<Snapshot>)
    requires WellFormed(st.tree) && parent in st.tree.insts
    ensures Extends(st, AddChildren(st, parent, ss))
      && NotedThroughout(AddChildren(st, parent, ss), st.tree.next, Sizes(ss))
    decreases ss, 0
  {
    if ss != [] {
      var mid := AddChild(st, parent, ss[0]);
      AddChildEffect(st, parent, ss[0]);
      AddChildNoted(st, parent, ss[0]);
      AddChildrenNoted(mid, parent, ss[1..]);
      NotedJoin(mid, AddChildren(mid, parent, ss[1..]), st.tree.next, Size(ss[0]), Sizes(ss[1..]));
    }
  }

  lemma {:induction false} AddAllNoted(st: State, added: seq<Add>)
    requires WellFormed(st.tree) && ParentsLive(st.tree, added)
    ensures Extends(st, AddAll(st, added)) && NotedThroughout(AddAll(st, added), st.tree.next, Total(added))
    decreases |added|
  {
    if added != [] {
      var mid := AddChild(st, added[0].parent, added[0].snap);
      AddChildEffect(st, added[0].parent, added[0].snap);
      AddChildNoted(st, added[0].parent, added[0].snap);
      AddAllNoted(mid, added[1..]);
      NotedJoin(mid, AddAll(mid, added[1..]), st.tree.next, Size(added[0].snap), Total(added[1..]));
    }
  }

  lemma ApplyingNotesAdded(t: Tree, q: Patch, y: Ref)
    requires WellFormed(t) && Applicable(t, q) && DistinctIds(q.updated) && t.next <= y < t.next + Total(q.added)
    requires forall u :: u in q.updated ==> u.id in RemoveAll(t, q.removed).insts
    ensures NotedAt(Applying(t, q), y)
  {
    var st := State(RemoveAll(t, q.removed), EMPTY_CONTEXT.(applied := Applied(q.removed, [], [])));
    RemoveAllEffect(t, q.removed);
    PhasesNote(st, q.added, q.updated, y);
  }

  lemma PhasesNote(st: State, added: seq<Add>, updated: seq<Update>, y: Ref)
    requires WellFormed(st.tree) && ParentsLive(st.tree, added) && UpdatesDistinct(AddAll(st, added).tree, updated)
    requires st.tree.next <= y < st.tree.next + Total(added)
    ensures NotedAt(UpdateAll(AddAll(st, added), updated), y)
  {
    AddAllNoted(st, added);
    assert NotedAt(AddAll(st, added), y);
    UpdateAllNoted(AddAll(st, added), updated, y);
  }

  // ----- snapshots without pointers -----

  /** No node has a pointer attribute. A null reference in the place of the
      attributes is skipped like any other, and would leave the old ones. */
  ghost predicate PointerFree(s: Snapshot)
    decreases s
  {
    PointedBy(s.props) == {} && NoNullAttributes(s.props) && forall c :: c in s.children ==> PointerFree(c)
  }

  /** No node has a null reference in the place of its attributes. */
  ghost predicate AttributesStated(s: Snapshot)
    decreases s
  {
    NoNullAttributes(s.props) && forall c :: c in s.children ==> AttributesStated(c)
  }

  predicate NoNullAttributes(props: Props) {
    ATTRIBUTES in props ==> props[ATTRIBUTES] != RefValue(NO_REF)
  }

  lemma DeferredNothing(st: State, id: Ref)
    requires id in st.tree.insts && PointedBy(st.tree.insts[id].props) == {}
    ensures Deferred(st, id).ctx == st.ctx
  {
    PointersInNames(st.tree.insts[id].props);
  }

  lemma {:induction false} AddChildNoPointers(st: State, parent: Ref, s: Snapshot)
    requires WellFormed(st.tree) && parent in st.tree.insts && PointerFree(s)
    ensures AddChild(st, parent, s).ctx.pointers == st.ctx.pointers
    decreases s, 1
  {
    var n := st.tree.next;
    var noted := State(InsertOne(st.tree, parent, s), NoteAdded(st.ctx, n, s));
    InsertOneWellFormed(st.tree, parent, s);
    AddChildrenNoPointers(noted, n, s.children);
    AddChildrenEffect(noted, n, s.children);
    var mid := AddChildren(noted, n, s.children);
    assert mid.tree.insts[n].props == InsertedProps(s.className, s.props);
    assert AttributesOf(InsertedProps(s.className, s.props)) == AttributesOf(s.props);
    DeferredNothing(mid, n);
  }

  lemma {:induction false} AddChildrenNoPointers(st: State, parent: Ref, ss: seq<Snapshot>)
    requires WellFormed(st.tree) && parent in st.tree.insts
    requires forall c :: c in ss ==> PointerFree(c)
    ensures AddChildren(st, parent, ss).ctx.pointers == st.ctx.pointers
    decreases ss, 0
  {
    if ss != [] {
      AddChildNoPointers(st, parent, ss[0]);
      AddChildEffect(st, parent, ss[0]);
      AddChildrenNoPointers(AddChild(st, parent, ss[0]), parent, ss[1..]);
    }
  }

  // ----- resolving them -----

  /** A property that one pointer names ends up at that pointer's target, if there
      is one; otherwise it keeps what it had. */
  lemma {:induction false} ResolvedAt(t: Tree, props: Props, list: seq<(string, string)>, k: string, u: string)
    requires forall w :: w in list && w.0 == k ==> w.1 == u
    ensures var r := ResolvedProps(t, props, list); var target := SpecifiedRef(t, u);
      if (k, u) in list && target.Some? then k in r && r[k] == RefValue(target.value)
      else (k in r <==> k in props) && (k in r ==> r[k] == props[k])
    decreases |list|
  {
    if list != [] {
      var found := SpecifiedRef(t, list[0].1);
      var more := if found.Some? then props[list[0].0 := RefValue(found.value)] else props;
      ResolvedAt(t, more, list[1..], k, u);
      assert (k, u) in list <==> (k, u) == list[0] || (k, u) in list[1..];
      assert list[0] in list;
    }
  }

  lemma SameCarriers(v: Tree, w: Tree, u: string)
    requires v.meta == w.meta
    ensures SpecifiedRef(v, u) == SpecifiedRef(w, u)
  {
    assert Carriers(v, u) == Carriers(w, u);
  }

  /** Resolving touches only what the pointers name. */
  lemma ResolvedOff(t: Tree, props: Props, list: seq<(string, string)>, off: set<string>)
    requires forall w :: w in list ==> w.0 in off
    ensures AgreeOff(ResolvedProps(t, props, list), props, off)
  {
    forall k | k !in off ensures AgreeAt(ResolvedProps(t, props, list), props, k) {
      ResolvedAt(t, props, list, k, "");
    }
  }

  ghost predicate ResolvesAt(m: Tree, v: Tree, x: Ref) {
    && x in m.insts && x in v.insts && v.insts[x] == m.insts[x].(props := v.insts[x].props)
    && AgreeOff(v.insts[x].props, m.insts[x].props, PointedBy(m.insts[x].props))
  }

  /** `v` is `m` but for properties that pointers decide. */
  ghost predicate Resolving(m: Tree, v: Tree) {
    && v.root == m.root && v.next == m.next && v.meta == m.meta && v.insts.Keys == m.insts.Keys
    && forall x {:trigger ResolvesAt(m, v, x)} :: x in m.insts ==> ResolvesAt(m, v, x)
  }

  /** Translating references leaves the attributes alone. */
  lemma TranslatedPointers(ids: map<Ref, Ref>, props: Props)
    ensures AttributesOf(TranslateProps(ids, props)) == AttributesOf(props)
  {
  }

  /** Finalization translates, and then resolves what is noted. */
  lemma FinalizedResolves(st: State)
    requires PointersFit(st)
    ensures var m := TranslateAdded(st.tree, st.ctx.hasRefs, st.ctx.ids);
      && Resolving(m, Finalized(st))
      && forall x :: x in m.insts && x !in st.ctx.pointers ==> Finalized(st).insts[x] == m.insts[x]
  {
    var m := TranslateAdded(st.tree, st.ctx.hasRefs, st.ctx.ids);
    forall x | x in m.insts ensures ResolvesAt(m, Finalized(st), x) {
      TranslatedPointers(st.ctx.ids, st.tree.insts[x].props);
      if x in st.ctx.pointers {
        assert FitsAt(st, x);
        PointersInNames(st.tree.insts[x].props);
        ResolvedOff(m, m.insts[x].props, st.ctx.pointers[x], PointedBy(m.insts[x].props));
      }
    }
  }

  lemma ResolvingWellFormed(m: Tree, v: Tree)
    requires WellFormed(m) && Resolving(m, v)
    ensures WellFormed(v)
  {
    forall x | x in m.insts
      ensures v.insts[x].parent == m.insts[x].parent && v.insts[x].children == m.insts[x].children
    {
      assert ResolvesAt(m, v, x);
    }
    forall x | x in v.insts ensures NodeOk(v, x) { assert NodeOk(m, x); }
  }
}
