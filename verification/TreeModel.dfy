/** Values of the instance tree: snapshots, instances, metadata, and the pure
    effect of every operation of `RojoTree` (src/snapshot/tree.rs). */
module TreeModel {
  import opened Basics
  import opened Values

  type Path = seq<string>

  /** `provenance` stands for the instigating source, context, middleware and
      schema, which the tree only stores and compares. */
  datatype Metadata = Metadata(
    ignoreUnknown: bool,
    relevantPaths: seq<Path>,
    specifiedId: Option<string>,
    provenance: seq<nat>)

  datatype Snapshot = Snapshot(
    id: Ref,
    meta: Metadata,
    name: string,
    className: string,
    props: Props,
    children: seq<Snapshot>)

  datatype Instance = Instance(
    name: string,
    className: string,
    props: Props,
    parent: Ref,
    children: seq<Ref>)

  /** The tree without its two indexes, which `Valid` of the class derives from
      the metadata. References at or above `next` were never generated. */
  datatype Tree = Tree(
    root: Ref,
    insts: map<Ref, Instance>,
    meta: map<Ref, Metadata>,
    next: Ref)

  // ----- shape -----

  ghost predicate NodeOk(t: Tree, id: Ref)
    requires id in t.insts
  {
    var n := t.insts[id];
    && 0 < id < t.next
    && NoDup(n.children)
    && (forall c :: c in n.children ==> id < c && c in t.insts && t.insts[c].parent == id)
    && if id == t.root then n.parent == NO_REF
       else n.parent in t.insts && id in t.insts[n.parent].children
  }

  /** Parent and child links agree, nothing is shared, the root is the only
      instance without a parent, and every instance has metadata. */
  ghost predicate WellFormed(t: Tree) {
    && t.root in t.insts
    && t.meta.Keys == t.insts.Keys
    && 0 < t.next
    && forall id {:trigger NodeOk(t, id)} :: id in t.insts ==> NodeOk(t, id)
  }

  lemma LiveRange(t: Tree, x: Ref)
    requires WellFormed(t)
    ensures x in t.insts ==> 0 < x < t.next
  {
    assert x in t.insts ==> NodeOk(t, x);
  }

  /** Is `x` the instance `a` or one of its descendants? */
  ghost predicate Under(t: Tree, x: Ref, a: Ref)
    decreases x
  {
    x in t.insts && (x == a || (t.insts[x].parent < x && Under(t, t.insts[x].parent, a)))
  }

  lemma {:induction false} UnderOrder(t: Tree, x: Ref, a: Ref)
    requires Under(t, x, a)
    ensures a <= x && a in t.insts
    decreases x
  {
    if x != a { UnderOrder(t, t.insts[x].parent, a); }
  }

  lemma {:induction false} UnderTransitive(t: Tree, x: Ref, y: Ref, z: Ref)
    requires Under(t, x, y) && Under(t, y, z)
    ensures Under(t, x, z)
    decreases x
  {
    if x != y { UnderTransitive(t, t.insts[x].parent, y, z); }
  }

  /** Two ancestors of one instance lie on one line. */
  lemma {:induction false} UnderLinear(t: Tree, x: Ref, a: Ref, b: Ref)
    requires Under(t, x, a) && Under(t, x, b)
    ensures Under(t, a, b) || Under(t, b, a)
    decreases x
  {
    if x != a && x != b { UnderLinear(t, t.insts[x].parent, a, b); }
  }

  lemma ChildUnder(t: Tree, p: Ref, c: Ref)
    requires WellFormed(t) && p in t.insts && c in t.insts[p].children
    ensures c in t.insts && t.insts[c].parent == p && p < c && Under(t, c, p) && !Under(t, p, c)
  {
    assert NodeOk(t, p);
    if Under(t, p, c) { UnderOrder(t, p, c); }
  }

  /** No instance lies below two different children of one parent. */
  lemma SiblingsDisjoint(t: Tree, p: Ref, a: Ref, b: Ref, x: Ref)
    requires WellFormed(t) && p in t.insts
    requires a in t.insts[p].children && b in t.insts[p].children
    requires Under(t, x, a) && Under(t, x, b)
    ensures a == b
  {
    ChildUnder(t, p, a);
    ChildUnder(t, p, b);
    UnderLinear(t, x, a, b);
    assert a != b && Under(t, a, b) ==> Under(t, p, b);
    assert a != b && Under(t, b, a) ==> Under(t, p, a);
  }

  /** Everything lies below the root. */
  lemma {:induction false} UnderRoot(t: Tree, x: Ref)
    requires WellFormed(t) && x in t.insts
    ensures Under(t, x, t.root)
    decreases x
  {
    if x != t.root {
      assert NodeOk(t, x);
      assert NodeOk(t, t.insts[x].parent);
      UnderRoot(t, t.insts[x].parent);
    }
  }

  // ----- insertion -----

  /** The properties an inserted instance gets: `NeedsPivotMigration` is switched
      off on model-like classes that do not mention it. */
  function InsertedProps(className: string, props: Props): (r: Props)
    ensures r.Keys == props.Keys + (if ModelLike(className) then {PIVOT} else {})
    ensures forall k :: k in props ==> r[k] == props[k]
  {
    if ModelLike(className) && PIVOT !in props then props[PIVOT := PIVOT_OFF] else props
  }

  function NewInstance(s: Snapshot, parent: Ref): (r: Instance) {
    Instance(s.name, s.className, InsertedProps(s.className, s.props), parent, [])
  }

  function Adopt(n: Instance, child: Ref): (r: Instance) {
    n.(children := n.children + [child])
  }

  /** One new instance, without the snapshot's children, appended to its parent. */
  function InsertOne(t: Tree, parent: Ref, s: Snapshot): (r: Tree)
    requires parent in t.insts
  {
    Tree(t.root,
         t.insts[parent := Adopt(t.insts[parent], t.next)][t.next := NewInstance(s, parent)],
         t.meta[t.next := s.meta],
         t.next + 1)
  }

  lemma InsertOneWellFormed(t: Tree, parent: Ref, s: Snapshot)
    requires WellFormed(t) && parent in t.insts
    ensures WellFormed(InsertOne(t, parent, s))
  {
    var r := InsertOne(t, parent, s);
    assert NodeOk(t, parent);
    LiveRange(t, t.next);
    forall id | id in r.insts ensures NodeOk(r, id) {
      if id != t.next {
        assert NodeOk(t, id);
        assert t.insts[id].parent != t.next;
        if id == parent {
          assert t.next !in t.insts[parent].children;
        }
      }
    }
  }

  /** A whole snapshot, in the order the instances are created. */
  function InsertTree(t: Tree, parent: Ref, s: Snapshot): (r: Tree)
    requires parent in t.insts
    ensures t.insts.Keys <= r.insts.Keys
    ensures t.next < r.next && r.root == t.root
    decreases s, 1
  {
    var t1 := InsertOne(t, parent, s);
    InsertForest(t1, t.next, s.children)
  }

  function InsertForest(t: Tree, parent: Ref, ss: seq<Snapshot>): (r: Tree)
    requires parent in t.insts
    ensures t.insts.Keys <= r.insts.Keys
    ensures t.next <= r.next && r.root == t.root
    decreases ss, 0
  {
    if ss == [] then t else InsertForest(InsertTree(t, parent, ss[0]), parent, ss[1..])
  }

  // ----- removal -----

  function Detach(n: Instance, r: Ref): (m: Instance) {
    n.(children := Keep(n.children, {r}))
  }

  /** Drops `r` and everything below it, keeping the order of its siblings. */
  ghost function RemoveSubtree(t: Tree, r: Ref): (u: Tree)
  {
    Tree(t.root,
         map x | x in t.insts && !Under(t, x, r) :: Detach(t.insts[x], r),
         map x | x in t.meta && !Under(t, x, r) :: t.meta[x],
         t.next)
  }

  lemma {:induction false} UnderAfterRemoval(t: Tree, r: Ref, x: Ref, a: Ref)
    requires WellFormed(t) && x in t.insts && !Under(t, x, r)
    ensures Under(RemoveSubtree(t, r), x, a) <==> Under(t, x, a)
    decreases x
  {
    var u := RemoveSubtree(t, r);
    if x != a && t.insts[x].parent < x && t.insts[x].parent in t.insts {
      UnderAfterRemoval(t, r, t.insts[x].parent, a);
    }
  }

  lemma RemoveWellFormed(t: Tree, r: Ref)
    requires WellFormed(t) && r in t.insts && r != t.root
    ensures WellFormed(RemoveSubtree(t, r))
  {
    var u := RemoveSubtree(t, r);
    assert NodeOk(t, t.root);
    LiveRange(t, NO_REF);
    assert !Under(t, NO_REF, r);
    assert !Under(t, t.root, r);
    forall id | id in u.insts ensures NodeOk(u, id) {
      assert NodeOk(t, id);
      KeepNoDup(t.insts[id].children, {r});
      forall c | c in u.insts[id].children
        ensures id < c && c in u.insts && u.insts[c].parent == id
      {
        assert c in t.insts[id].children && c != r;
      }
      if id != t.root {
        var p := t.insts[id].parent;
        assert NodeOk(t, p);
        assert !Under(t, p, r);
        assert id != r;
      }
    }
  }

  // ----- in-place edits -----

  function SetInstance(t: Tree, id: Ref, n: Instance): (r: Tree) {
    t.(insts := t.insts[id := n])
  }

  function SetMetadata(t: Tree, id: Ref, m: Metadata): (r: Tree) {
    t.(meta := t.meta[id := m])
  }

  function SetSpecifiedId(t: Tree, id: Ref, specified: string): (r: Tree) {
    if id in t.meta then SetMetadata(t, id, t.meta[id].(specifiedId := Some(specified))) else t
  }

  lemma EditWellFormed(t: Tree, id: Ref, n: Instance)
    requires WellFormed(t) && id in t.insts
    requires n.parent == t.insts[id].parent && n.children == t.insts[id].children
    ensures WellFormed(SetInstance(t, id, n))
    ensures forall x, a :: Under(SetInstance(t, id, n), x, a) <==> Under(t, x, a)
  {
    var u := SetInstance(t, id, n);
    forall x | x in u.insts ensures NodeOk(u, x) {
      assert NodeOk(t, x);
    }
    forall x, a ensures Under(u, x, a) <==> Under(t, x, a) {
      UnderSameLinks(t, u, x, a);
    }
  }

  lemma {:induction false} UnderSameLinks(t: Tree, u: Tree, x: Ref, a: Ref)
    requires t.insts.Keys == u.insts.Keys
    requires forall y :: y in t.insts ==> t.insts[y].parent == u.insts[y].parent
    ensures Under(u, x, a) <==> Under(t, x, a)
    decreases x
  {
    if x in t.insts && x != a && t.insts[x].parent < x {
      UnderSameLinks(t, u, t.insts[x].parent, a);
    }
  }

  // ----- user-specified ids -----

  ghost function Carriers(t: Tree, specified: string): (r: set<Ref>)
  {
    set id | id in t.meta && t.meta[id].specifiedId == Some(specified)
  }

  /** The instance a user-specified id stands for: the only one carrying it. */
  ghost function SpecifiedRef(t: Tree, specified: string): (r: Option<Ref>)
    ensures r.Some? <==> exists id :: Carriers(t, specified) == {id}
    ensures r.Some? ==> Carriers(t, specified) == {r.value}
  {
    if exists id :: Carriers(t, specified) == {id} then
      var id :| Carriers(t, specified) == {id}; Some(id)
    else None
  }
}
