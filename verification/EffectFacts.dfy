/** Each phase of applying a patch, described instance by instance. */
module EffectFacts {
  import opened Basics
  import opened Values
  import opened TreeModel
  import opened PatchPlan
  import opened PatchEffect

  // ----- removals -----

  ghost predicate Dead(t: Tree, x: Ref, removed: seq<Ref>) {
    exists r :: r in removed && Under(t, x, r)
  }

  lemma {:induction false} RemoveAllEffect(t: Tree, removed: seq<Ref>)
    requires WellFormed(t) && Removable(t, removed)
    ensures var u := RemoveAll(t, removed);
      && WellFormed(u) && u.next == t.next && u.root == t.root
      && (forall x :: x in u.insts <==> x in t.insts && !Dead(t, x, removed))
      && (forall x :: x in u.insts ==>
            u.insts[x] == t.insts[x].(children := Keep(t.insts[x].children, Elements(removed))))
      && (forall x :: x in u.insts ==> u.meta[x] == t.meta[x])
    decreases |removed|
  {
    if removed == [] {
      forall x | x in t.insts
        ensures t.insts[x] == t.insts[x].(children := Keep(t.insts[x].children, Elements(removed)))
      {
        KeepAll(t.insts[x].children, Elements(removed));
      }
    } else {
      var v := RemoveSubtree(t, removed[0]);
      RemoveWellFormed(t, removed[0]);
      RemoveAllEffect(v, removed[1..]);
      var u := RemoveAll(t, removed);
      forall x ensures x in u.insts <==> x in t.insts && !Dead(t, x, removed) {
        SurvivesBoth(t, removed, x);
      }
      forall x | x in u.insts
        ensures u.insts[x] == t.insts[x].(children := Keep(t.insts[x].children, Elements(removed)))
      {
        KeepFirstAndRest(t.insts[x].children, removed);
      }
    }
  }

  lemma SurvivesBoth(t: Tree, removed: seq<Ref>, x: Ref)
    requires WellFormed(t) && removed != []
    ensures var v := RemoveSubtree(t, removed[0]);
      (x in v.insts && !Dead(v, x, removed[1..])) <==> (x in t.insts && !Dead(t, x, removed))
  {
    if x in t.insts && !Under(t, x, removed[0]) {
      DeadAfterFirst(t, removed, x);
    } else if x in t.insts {
      assert removed[0] in removed;
    }
  }

  lemma KeepFirstAndRest(kids: seq<Ref>, removed: seq<Ref>)
    requires removed != []
    ensures Keep(Keep(kids, {removed[0]}), Elements(removed[1..])) == Keep(kids, Elements(removed))
  {
    KeepKeep(kids, {removed[0]}, Elements(removed[1..]));
    assert {removed[0]} + Elements(removed[1..]) == Elements(removed);
  }

  lemma DeadAfterFirst(t: Tree, removed: seq<Ref>, x: Ref)
    requires WellFormed(t) && removed != [] && x in t.insts && !Under(t, x, removed[0])
    ensures Dead(RemoveSubtree(t, removed[0]), x, removed[1..]) <==> Dead(t, x, removed)
  {
    var v := RemoveSubtree(t, removed[0]);
    if Dead(t, x, removed) {
      var r :| r in removed && Under(t, x, r);
      UnderAfterRemoval(t, removed[0], x, r);
      assert r in removed[1..];
    }
    if Dead(v, x, removed[1..]) {
      var r :| r in removed[1..] && Under(v, x, r);
      UnderAfterRemoval(t, removed[0], x, r);
      assert r in removed;
    }
  }

  /** Pairwise unnested ids other than the root can be removed in sequence. */
  lemma {:induction false} RemovableWhenUnnested(t: Tree, removed: seq<Ref>)
    requires WellFormed(t)
    requires forall r :: r in removed ==> r in t.insts && r != t.root
    requires forall i, j :: 0 <= i < j < |removed| ==> !Under(t, removed[j], removed[i])
    ensures Removable(t, removed)
    decreases |removed|
  {
    if removed != [] {
      var v := RemoveSubtree(t, removed[0]);
      RemoveWellFormed(t, removed[0]);
      forall i | 1 <= i < |removed| ensures removed[i] in v.insts {
        assert removed[i] in removed;
      }
      forall i, j | 0 <= i < j < |removed[1..]| ensures !Under(v, removed[1..][j], removed[1..][i]) {
        UnderAfterRemoval(t, removed[0], removed[j + 1], removed[i + 1]);
      }
      RemovableWhenUnnested(v, removed[1..]);
    }
  }

  // ----- additions -----

  function Size(s: Snapshot): (r: nat)
    ensures r > 0
    decreases s, 1
  {
    1 + Sizes(s.children)
  }

  function Sizes(ss: seq<Snapshot>): (r: nat)
    decreases ss, 0
  {
    if ss == [] then 0 else Size(ss[0]) + Sizes(ss[1..])
  }

  /** The ids a row of snapshots gets when ids are handed out from `n`. */
  function Bases(n: Ref, ss: seq<Snapshot>): (r: seq<Ref>)
    ensures |r| == |ss|
    ensures forall i :: 0 <= i < |r| ==> n <= r[i] < n + Sizes(ss)
    decreases ss
  {
    if ss == [] then [] else [n] + Bases(n + Size(ss[0]), ss[1..])
  }

  /** Metadata once the attributes have been looked at: a `Rojo_Id` wins. */
  function AdoptedMeta(props: Props, m: Metadata): (r: Metadata) {
    var found := AttributesOf(props);
    if found.Some? && AttributeId(found.value).Some?
    then m.(specifiedId := Some(AttributeId(found.value).value))
    else m
  }

  function PlantedMeta(s: Snapshot): (r: Metadata) {
    AdoptedMeta(s.props, s.meta)
  }

  function PlantedInstance(n: Ref, parent: Ref, s: Snapshot): (r: Instance) {
    NewInstance(s, parent).(children := Bases(n + 1, s.children))
  }

  /** The whole snapshot stands in the tree, numbered from `n` in creation order. */
  ghost predicate Planted(t: Tree, n: Ref, parent: Ref, s: Snapshot)
    decreases s, 1
  {
    && n in t.insts && t.insts[n] == PlantedInstance(n, parent, s)
    && n in t.meta && t.meta[n] == PlantedMeta(s)
    && PlantedAll(t, n + 1, n, s.children)
  }

  ghost predicate PlantedAll(t: Tree, n: Ref, parent: Ref, ss: seq<Snapshot>)
    decreases ss, 0
  {
    ss == [] || (Planted(t, n, parent, ss[0]) && PlantedAll(t, n + Size(ss[0]), parent, ss[1..]))
  }

  ghost predicate SameOn(t: Tree, u: Tree, lo: Ref, hi: Ref) {
    forall x :: lo <= x < hi && x in t.insts && x in t.meta ==>
      x in u.insts && x in u.meta && u.insts[x] == t.insts[x] && u.meta[x] == t.meta[x]
  }

  lemma {:induction false} PlantedFrame(t: Tree, u: Tree, n: Ref, parent: Ref, s: Snapshot)
    requires Planted(t, n, parent, s) && SameOn(t, u, n, n + Size(s))
    ensures Planted(u, n, parent, s)
    decreases s, 1
  {
    PlantedAllFrame(t, u, n + 1, n, s.children);
  }

  lemma {:induction false} PlantedAllFrame(t: Tree, u: Tree, n: Ref, parent: Ref, ss: seq<Snapshot>)
    requires PlantedAll(t, n, parent, ss) && SameOn(t, u, n, n + Sizes(ss))
    ensures PlantedAll(u, n, parent, ss)
    decreases ss, 0
  {
    if ss != [] {
      PlantedFrame(t, u, n, parent, ss[0]);
      PlantedAllFrame(t, u, n + Size(ss[0]), parent, ss[1..]);
    }
  }

  /** Between `t` and `u`, exactly the ids in `[t.next, t.next + size)` appeared,
      and only `parent` changed among the old ones: it adopted `roots`. */
  ghost predicate Grown(t: Tree, u: Tree, size: nat, parent: Ref, roots: seq<Ref>) {
    && parent in t.insts
    && u.next == t.next + size && u.root == t.root
    && (forall x :: x in u.insts <==> x in t.insts || t.next <= x < t.next + size)
    && (forall x :: x in t.insts && x != parent ==> u.insts[x] == t.insts[x])
    && u.insts[parent] == t.insts[parent].(children := t.insts[parent].children + roots)
    && (forall x :: x in t.meta ==> x in u.meta && u.meta[x] == t.meta[x])
  }

  lemma DeferredTree(st: State, id: Ref)
    requires WellFormed(st.tree) && id in st.tree.insts
    ensures WellFormed(Deferred(st, id).tree)
    ensures forall x :: x in st.tree.meta && x != id ==> Deferred(st, id).tree.meta[x] == st.tree.meta[x]
  {
    var r := Deferred(st, id);
    assert r.tree.meta.Keys == st.tree.meta.Keys;
    forall x | x in r.tree.insts ensures NodeOk(r.tree, x) {
      assert NodeOk(st.tree, x);
    }
  }

  lemma GrownTwice(t: Tree, u: Tree, v: Tree, a: nat, b: nat, parent: Ref, r1: seq<Ref>, r2: seq<Ref>)
    requires WellFormed(t)
    requires Grown(t, u, a, parent, r1) && Grown(u, v, b, parent, r2)
    ensures Grown(t, v, a + b, parent, r1 + r2)
  {
    assert (t.insts[parent].children + r1) + r2 == t.insts[parent].children + (r1 + r2);
  }

  /** A new instance whose children then grow below it. */
  lemma GrownBelow(t: Tree, u: Tree, parent: Ref, s: Snapshot, size: nat, roots: seq<Ref>)
    requires WellFormed(t) && parent in t.insts
    requires Grown(InsertOne(t, parent, s), u, size, t.next, roots)
    ensures Grown(t, u, 1 + size, parent, [t.next])
    ensures u.insts[t.next] == NewInstance(s, parent).(children := roots)
    ensures u.meta[t.next] == s.meta
  {
    LiveRange(t, t.next);
    LiveRange(t, parent);
    assert t.meta.Keys == t.insts.Keys;
    assert [] + roots == roots;
    assert NewInstance(s, parent).children == [];
  }

  /** Adopting an id from attributes only touches the metadata of one instance. */
  lemma DeferredGrown(t: Tree, st: State, id: Ref, size: nat, parent: Ref, roots: seq<Ref>)
    requires Grown(t, st.tree, size, parent, roots) && id in st.tree.insts && id !in t.meta
    ensures Grown(t, Deferred(st, id).tree, size, parent, roots)
  {
  }

  lemma {:induction false} AddChildEffect(st: State, parent: Ref, s: Snapshot)
    requires WellFormed(st.tree) && parent in st.tree.insts
    ensures WellFormed(AddChild(st, parent, s).tree)
    ensures Grown(st.tree, AddChild(st, parent, s).tree, Size(s), parent, [st.tree.next])
    ensures Planted(AddChild(st, parent, s).tree, st.tree.next, parent, s)
    decreases s, 1
  {
    var n := st.tree.next;
    var noted := State(InsertOne(st.tree, parent, s), NoteAdded(st.ctx, n, s));
    InsertOneWellFormed(st.tree, parent, s);
    AddChildrenEffect(noted, n, s.children);
    var mid := AddChildren(noted, n, s.children);
    GrownBelow(st.tree, mid.tree, parent, s, Sizes(s.children), Bases(n + 1, s.children));
    DeferredTree(mid, n);
    LiveRange(st.tree, n);
    DeferredGrown(st.tree, mid, n, Size(s), parent, [n]);
    DeferredPlants(mid, n, parent, s);
  }

  /** The root of an added subtree gets its final metadata last. */
  lemma DeferredPlants(st: State, n: Ref, parent: Ref, s: Snapshot)
    requires WellFormed(st.tree) && n in st.tree.insts
    requires st.tree.insts[n] == PlantedInstance(n, parent, s)
    requires st.tree.meta[n] == s.meta
    requires PlantedAll(st.tree, n + 1, n, s.children)
    ensures Planted(Deferred(st, n).tree, n, parent, s)
  {
    var r := Deferred(st, n).tree;
    DeferredTree(st, n);
    PlantedAllFrame(st.tree, r, n + 1, n, s.children);
    var props := InsertedProps(s.className, s.props);
    assert ATTRIBUTES != PIVOT;
    assert AttributesOf(props) == AttributesOf(s.props);
  }

  lemma {:induction false} AddChildrenEffect(st: State, parent: Ref, ss: seq<Snapshot>)
    requires WellFormed(st.tree) && parent in st.tree.insts
    ensures WellFormed(AddChildren(st, parent, ss).tree)
    ensures Grown(st.tree, AddChildren(st, parent, ss).tree, Sizes(ss), parent, Bases(st.tree.next, ss))
    ensures PlantedAll(AddChildren(st, parent, ss).tree, st.tree.next, parent, ss)
    decreases ss, 0
  {
    if ss == [] {
      assert st.tree.insts[parent].children + [] == st.tree.insts[parent].children;
    } else {
      AddChildEffect(st, parent, ss[0]);
      AddChildrenEffect(AddChild(st, parent, ss[0]), parent, ss[1..]);
      RowGrows(st.tree, AddChild(st, parent, ss[0]).tree, AddChildren(st, parent, ss).tree, parent, ss);
    }
  }

  lemma RowGrows(t: Tree, u: Tree, v: Tree, parent: Ref, ss: seq<Snapshot>)
    requires WellFormed(t) && parent in t.insts && ss != []
    requires Grown(t, u, Size(ss[0]), parent, [t.next]) && Planted(u, t.next, parent, ss[0])
    requires Grown(u, v, Sizes(ss[1..]), parent, Bases(u.next, ss[1..]))
    requires PlantedAll(v, u.next, parent, ss[1..])
    ensures Grown(t, v, Sizes(ss), parent, Bases(t.next, ss))
    ensures PlantedAll(v, t.next, parent, ss)
  {
    RowStays(t, u, v, t.next, Size(ss[0]), parent, ss, Bases(u.next, ss[1..]));
    RowGrown(t, u, v, Size(ss[0]), parent, ss);
  }

  lemma RowStays(t: Tree, u: Tree, v: Tree, n: Ref, size: nat, parent: Ref, ss: seq<Snapshot>, later: seq<Ref>)
    requires WellFormed(t) && ss != [] && n == t.next && size == Size(ss[0])
    requires Grown(t, u, size, parent, [n]) && Planted(u, n, parent, ss[0])
    requires Grown(u, v, Sizes(ss[1..]), parent, later) && PlantedAll(v, u.next, parent, ss[1..])
    ensures PlantedAll(v, n, parent, ss)
  {
    LiveRange(t, parent);
    GrownKeeps(u, v, Sizes(ss[1..]), parent, later, n, n + size);
    FirstPlanted(u, v, n, parent, ss);
  }

  lemma RowGrown(t: Tree, u: Tree, v: Tree, size: nat, parent: Ref, ss: seq<Snapshot>)
    requires WellFormed(t) && ss != [] && size == Size(ss[0])
    requires Grown(t, u, size, parent, [t.next]) && Grown(u, v, Sizes(ss[1..]), parent, Bases(t.next + size, ss[1..]))
    ensures Grown(t, v, Sizes(ss), parent, Bases(t.next, ss))
  {
    var later := Bases(t.next + size, ss[1..]);
    GrownTwice(t, u, v, size, Sizes(ss[1..]), parent, [t.next], later);
    assert Sizes(ss) == size + Sizes(ss[1..]) && Bases(t.next, ss) == [t.next] + later;
  }

  lemma FirstPlanted(u: Tree, v: Tree, n: Ref, parent: Ref, ss: seq<Snapshot>)
    requires ss != [] && Planted(u, n, parent, ss[0]) && SameOn(u, v, n, n + Size(ss[0]))
    requires PlantedAll(v, n + Size(ss[0]), parent, ss[1..])
    ensures PlantedAll(v, n, parent, ss)
  {
    PlantedFrame(u, v, n, parent, ss[0]);
  }

  lemma GrownKeeps(t: Tree, u: Tree, size: nat, parent: Ref, roots: seq<Ref>, lo: Ref, hi: Ref)
    requires Grown(t, u, size, parent, roots) && parent < lo
    ensures SameOn(t, u, lo, hi)
  {
  }

  function Total(added: seq<Add>): (r: nat) {
    if added == [] then 0 else Size(added[0].snap) + Total(added[1..])
  }

  /** The ids that instance `p` adopts, when ids are handed out from `n`. */
  function NewKids(added: seq<Add>, p: Ref, n: Ref): (r: seq<Ref>)
    ensures forall c :: c in r ==> n <= c < n + Total(added)
    decreases |added|
  {
    if added == [] then []
    else (if added[0].parent == p then [n] else []) + NewKids(added[1..], p, n + Size(added[0].snap))
  }

  ghost predicate RowPlanted(t: Tree, n: Ref, added: seq<Add>)
    decreases |added|
  {
    added == [] ||
    (Planted(t, n, added[0].parent, added[0].snap) && RowPlanted(t, n + Size(added[0].snap), added[1..]))
  }

  /** Between `t` and `u`, every addition has been carried out and nothing else. */
  ghost predicate Populated(t: Tree, u: Tree, added: seq<Add>) {
    Adopted(t, u, added) && RowPlanted(u, t.next, added)
  }

  ghost predicate Adopted(t: Tree, u: Tree, added: seq<Add>) {
    && u.next == t.next + Total(added) && u.root == t.root
    && (forall x :: x in u.insts <==> x in t.insts || t.next <= x < t.next + Total(added))
    && (forall x :: x in t.insts ==>
          u.insts[x] == t.insts[x].(children := t.insts[x].children + NewKids(added, x, t.next)))
    && (forall x :: x in t.meta ==> x in u.meta && u.meta[x] == t.meta[x])
  }

  lemma {:induction false} AddAllEffect(st: State, added: seq<Add>)
    requires WellFormed(st.tree) && ParentsLive(st.tree, added)
    ensures WellFormed(AddAll(st, added).tree)
    ensures Populated(st.tree, AddAll(st, added).tree, added)
    decreases |added|
  {
    if added == [] {
      forall x | x in st.tree.insts
        ensures st.tree.insts[x] == st.tree.insts[x].(children := st.tree.insts[x].children + [])
      {
        assert st.tree.insts[x].children + [] == st.tree.insts[x].children;
      }
    } else {
      var mid := AddChild(st, added[0].parent, added[0].snap);
      AddChildEffect(st, added[0].parent, added[0].snap);
      AddAllEffect(mid, added[1..]);
      PopulatedStep(st.tree, mid.tree, AddAll(st, added).tree, added);
    }
  }

  lemma PopulatedStep(t: Tree, u: Tree, v: Tree, added: seq<Add>)
    requires WellFormed(t) && ParentsLive(t, added) && added != []
    requires Grown(t, u, Size(added[0].snap), added[0].parent, [t.next])
    requires Planted(u, t.next, added[0].parent, added[0].snap)
    requires WellFormed(u) && Populated(u, v, added[1..])
    ensures Populated(t, v, added)
  {
    AdoptedStep(t, u, v, added);
    RowStep(t, u, v, added);
  }

  lemma RowStep(t: Tree, u: Tree, v: Tree, added: seq<Add>)
    requires WellFormed(t) && ParentsLive(t, added) && added != []
    requires u.next == t.next + Size(added[0].snap) && Planted(u, t.next, added[0].parent, added[0].snap)
    requires Populated(u, v, added[1..])
    ensures RowPlanted(v, t.next, added)
  {
    EarlierKept(t, u, v, added);
    FirstRowPlanted(u, v, t.next, added);
  }

  lemma FirstRowPlanted(u: Tree, v: Tree, n: Ref, added: seq<Add>)
    requires added != [] && Planted(u, n, added[0].parent, added[0].snap) && SameOn(u, v, n, n + Size(added[0].snap))
    requires RowPlanted(v, n + Size(added[0].snap), added[1..])
    ensures RowPlanted(v, n, added)
  {
    PlantedFrame(u, v, n, added[0].parent, added[0].snap);
  }

  lemma AdoptedStep(t: Tree, u: Tree, v: Tree, added: seq<Add>)
    requires added != []
    requires Grown(t, u, Size(added[0].snap), added[0].parent, [t.next])
    requires Adopted(u, v, added[1..])
    ensures Adopted(t, v, added)
  {
    forall x | x in t.insts
      ensures v.insts[x] == t.insts[x].(children := t.insts[x].children + NewKids(added, x, t.next))
    {
      KidsStep(t.insts[x].children, added, x, t.next);
    }
  }

  lemma KidsStep(kids: seq<Ref>, added: seq<Add>, x: Ref, n: Ref)
    requires added != []
    ensures kids + NewKids(added, x, n)
         == (if added[0].parent == x then kids + [n] else kids) + NewKids(added[1..], x, n + Size(added[0].snap))
  {
    var rest := NewKids(added[1..], x, n + Size(added[0].snap));
    assert [] + rest == rest;
    assert (kids + [n]) + rest == kids + ([n] + rest);
  }

  lemma EarlierKept(t: Tree, u: Tree, v: Tree, added: seq<Add>)
    requires WellFormed(t) && ParentsLive(t, added) && added != []
    requires u.next >= t.next && Populated(u, v, added[1..])
    ensures SameOn(u, v, t.next, u.next)
  {
    forall x | t.next <= x < u.next && x in u.insts ensures v.insts[x] == u.insts[x] {
      forall a | a in added[1..] ensures a.parent != x {
        assert a in added;
        LiveRange(t, a.parent);
      }
      NoNewKids(added[1..], x, u.next);
      assert u.insts[x].children + [] == u.insts[x].children;
    }
  }

  lemma {:induction false} NoNewKids(added: seq<Add>, p: Ref, n: Ref)
    requires forall a :: a in added ==> a.parent != p
    ensures NewKids(added, p, n) == []
    decreases |added|
  {
    if added != [] {
      assert added[0] in added;
      NoNewKids(added[1..], p, n + Size(added[0].snap));
    }
  }

  // ----- what the additions leave in the context -----

  function Range(n: Ref, size: nat): (r: seq<Ref>)
    ensures |r| == size && forall i :: 0 <= i < size ==> r[i] == n + i
  {
    seq(size, i => n + i)
  }

  function SnapshotIds(n: Ref, s: Snapshot): (r: map<Ref, Ref>)
    decreases s, 1
  {
    OwnId(n, s) + SnapshotsIds(n + 1, s.children)
  }

  function SnapshotsIds(n: Ref, ss: seq<Snapshot>): (r: map<Ref, Ref>)
    decreases ss, 0
  {
    if ss == [] then map[] else SnapshotIds(n, ss[0]) + SnapshotsIds(n + Size(ss[0]), ss[1..])
  }

  function AddedIds(n: Ref, added: seq<Add>): (r: map<Ref, Ref>)
    decreases |added|
  {
    if added == [] then map[] else SnapshotIds(n, added[0].snap) + AddedIds(n + Size(added[0].snap), added[1..])
  }

  /** Every node that holds a non-null reference is marked for translation. */
  ghost predicate RefsNoted(marked: set<Ref>, n: Ref, s: Snapshot)
    decreases s, 1
  {
    (HasRefs(s.props) ==> n in marked) && RefsNotedAll(marked, n + 1, s.children)
  }

  ghost predicate RefsNotedAll(marked: set<Ref>, n: Ref, ss: seq<Snapshot>)
    decreases ss, 0
  {
    ss == [] || (RefsNoted(marked, n, ss[0]) && RefsNotedAll(marked, n + Size(ss[0]), ss[1..]))
  }

  ghost predicate RefsNotedRow(marked: set<Ref>, n: Ref, added: seq<Add>)
    decreases |added|
  {
    added == [] || (RefsNoted(marked, n, added[0].snap) && RefsNotedRow(marked, n + Size(added[0].snap), added[1..]))
  }

  lemma {:induction false} RefsNotedMore(a: set<Ref>, b: set<Ref>, n: Ref, s: Snapshot)
    requires a <= b && RefsNoted(a, n, s)
    ensures RefsNoted(b, n, s)
    decreases s, 1
  {
    RefsNotedAllMore(a, b, n + 1, s.children);
  }

  lemma {:induction false} RefsNotedAllMore(a: set<Ref>, b: set<Ref>, n: Ref, ss: seq<Snapshot>)
    requires a <= b && RefsNotedAll(a, n, ss)
    ensures RefsNotedAll(b, n, ss)
    decreases ss, 0
  {
    if ss != [] {
      RefsNotedMore(a, b, n, ss[0]);
      RefsNotedAllMore(a, b, n + Size(ss[0]), ss[1..]);
    }
  }

  /** The context after additions numbered from `n`: the snapshot ids are known,
      the ids are reported in order, and only new instances are marked. */
  ghost predicate Noted(c: Context, d: Context, n: Ref, size: nat, ids: map<Ref, Ref>) {
    && d.ids == c.ids + ids
    && d.applied == c.applied.(added := c.applied.added + Range(n, size))
    && c.hasRefs <= d.hasRefs
    && (forall x :: x in d.hasRefs && x !in c.hasRefs ==> n <= x < n + size)
  }

  lemma NotedTwice(c: Context, d: Context, e: Context, n: Ref, a: nat, b: nat, m1: map<Ref, Ref>, m2: map<Ref, Ref>)
    requires Noted(c, d, n, a, m1) && Noted(d, e, n + a, b, m2)
    ensures Noted(c, e, n, a + b, m1 + m2)
  {
    assert (c.ids + m1) + m2 == c.ids + (m1 + m2);
    assert (c.applied.added + Range(n, a)) + Range(n + a, b) == c.applied.added + Range(n, a + b);
  }

  lemma {:induction false} AddChildNotes(st: State, parent: Ref, s: Snapshot)
    requires WellFormed(st.tree) && parent in st.tree.insts
    ensures var n := st.tree.next;
      && Noted(st.ctx, AddChild(st, parent, s).ctx, n, Size(s), SnapshotIds(n, s))
      && RefsNoted(AddChild(st, parent, s).ctx.hasRefs, n, s)
    decreases s, 1
  {
    var n := st.tree.next;
    var noted := State(InsertOne(st.tree, parent, s), NoteAdded(st.ctx, n, s));
    InsertOneWellFormed(st.tree, parent, s);
    AddChildrenNotes(noted, n, s.children);
    OwnNoted(st.ctx, n, s);
    var mid := AddChildren(noted, n, s.children);
    NotedTwice(st.ctx, noted.ctx, mid.ctx, n, 1, Sizes(s.children), OwnId(n, s), SnapshotsIds(n + 1, s.children));
    DeferredNotes(mid, n);
  }

  function OwnId(n: Ref, s: Snapshot): (r: map<Ref, Ref>) {
    if s.id == NO_REF then map[] else map[s.id := n]
  }

  lemma OwnNoted(c: Context, n: Ref, s: Snapshot)
    ensures Noted(c, NoteAdded(c, n, s), n, 1, OwnId(n, s))
  {
    assert c.ids + OwnId(n, s) == NoteAdded(c, n, s).ids;
    assert [n] == Range(n, 1);
  }

  lemma DeferredNotes(st: State, id: Ref)
    requires id in st.tree.insts
    ensures Deferred(st, id).ctx == st.ctx.(pointers := Deferred(st, id).ctx.pointers)
  {
  }

  lemma {:induction false} AddChildrenNotes(st: State, parent: Ref, ss: seq<Snapshot>)
    requires WellFormed(st.tree) && parent in st.tree.insts
    ensures var n := st.tree.next;
      && Noted(st.ctx, AddChildren(st, parent, ss).ctx, n, Sizes(ss), SnapshotsIds(n, ss))
      && RefsNotedAll(AddChildren(st, parent, ss).ctx.hasRefs, n, ss)
    decreases ss, 0
  {
    var n := st.tree.next;
    if ss == [] {
      NothingNoted(st.ctx, n);
    } else {
      var mid := AddChild(st, parent, ss[0]);
      AddChildEffect(st, parent, ss[0]);
      AddChildNotes(st, parent, ss[0]);
      AddChildrenNotes(mid, parent, ss[1..]);
      ChildrenNoted(st.ctx, mid.ctx, AddChildren(mid, parent, ss[1..]).ctx, n, ss);
    }
  }

  lemma ChildrenNoted(c: Context, d: Context, e: Context, n: Ref, ss: seq<Snapshot>)
    requires ss != []
    requires Noted(c, d, n, Size(ss[0]), SnapshotIds(n, ss[0])) && RefsNoted(d.hasRefs, n, ss[0])
    requires var m := n + Size(ss[0]);
      Noted(d, e, m, Sizes(ss[1..]), SnapshotsIds(m, ss[1..])) && RefsNotedAll(e.hasRefs, m, ss[1..])
    ensures Noted(c, e, n, Sizes(ss), SnapshotsIds(n, ss)) && RefsNotedAll(e.hasRefs, n, ss)
  {
    NotedTwice(c, d, e, n, Size(ss[0]), Sizes(ss[1..]), SnapshotIds(n, ss[0]), SnapshotsIds(n + Size(ss[0]), ss[1..]));
    RefsNotedMore(d.hasRefs, e.hasRefs, n, ss[0]);
  }

  lemma NothingNoted(c: Context, n: Ref)
    ensures Noted(c, c, n, 0, map[])
  {
    assert c.ids + map[] == c.ids;
    assert c.applied.added + Range(n, 0) == c.applied.added;
  }

  lemma {:induction false} AddAllNotes(st: State, added: seq<Add>)
    requires WellFormed(st.tree) && ParentsLive(st.tree, added)
    ensures var n := st.tree.next;
      && Noted(st.ctx, AddAll(st, added).ctx, n, Total(added), AddedIds(n, added))
      && RefsNotedRow(AddAll(st, added).ctx.hasRefs, n, added)
    decreases |added|
  {
    var n := st.tree.next;
    if added == [] {
      NothingNoted(st.ctx, n);
    } else {
      var s := added[0].snap;
      var mid := AddChild(st, added[0].parent, s);
      AddChildEffect(st, added[0].parent, s);
      AddChildNotes(st, added[0].parent, s);
      AddAllNotes(mid, added[1..]);
      RowNoted(st.ctx, mid.ctx, AddAll(st, added).ctx, n, added);
    }
  }

  lemma RowNoted(c: Context, d: Context, e: Context, n: Ref, added: seq<Add>)
    requires added != []
    requires Noted(c, d, n, Size(added[0].snap), SnapshotIds(n, added[0].snap))
      && RefsNoted(d.hasRefs, n, added[0].snap)
    requires var m := n + Size(added[0].snap);
      Noted(d, e, m, Total(added[1..]), AddedIds(m, added[1..])) && RefsNotedRow(e.hasRefs, m, added[1..])
    ensures Noted(c, e, n, Total(added), AddedIds(n, added)) && RefsNotedRow(e.hasRefs, n, added)
  {
    var s := added[0].snap;
    NotedTwice(c, d, e, n, Size(s), Total(added[1..]), SnapshotIds(n, s), AddedIds(n + Size(s), added[1..]));
    RefsNotedMore(d.hasRefs, e.hasRefs, n, s);
  }

  // ----- updates -----

  ghost predicate DistinctIds(updated: seq<Update>) {
    forall i, j :: 0 <= i < j < |updated| ==> updated[i].id != updated[j].id
  }

  ghost predicate UpdatesDistinct(t: Tree, updated: seq<Update>) {
    DistinctIds(updated) && forall u :: u in updated ==> u.id in t.insts
  }

  function NewMeta(m: Metadata, u: Update): (r: Metadata) {
    if u.meta.Some? then u.meta.value else m
  }

  /** What one update leaves at its instance. */
  ghost predicate UpdateDone(t: Tree, v: Tree, u: Update, ids: map<Ref, Ref>) {
    && u.id in t.insts && u.id in t.meta && u.id in v.insts && u.id in v.meta
    && v.insts[u.id] == ChangedInstance(t.insts[u.id], u, ids)
    && v.meta[u.id] == AdoptedMeta(v.insts[u.id].props, NewMeta(t.meta[u.id], u))
  }

  /** Instances outside `touched` are as before. */
  ghost predicate Untouched(t: Tree, v: Tree, touched: set<Ref>) {
    && v.insts.Keys == t.insts.Keys && v.meta.Keys == t.meta.Keys && v.next == t.next && v.root == t.root
    && (forall x :: x in t.insts && x !in touched ==> v.insts[x] == t.insts[x])
    && (forall x :: x in t.meta && x !in touched ==> v.meta[x] == t.meta[x])
  }

  lemma ApplyUpdateEffect(st: State, u: Update)
    requires WellFormed(st.tree) && u.id in st.tree.insts
    ensures var r := ApplyUpdate(st, u);
      && WellFormed(r.tree)
      && Untouched(st.tree, r.tree, {u.id})
      && UpdateDone(st.tree, r.tree, u, st.ctx.ids)
      && r.ctx.ids == st.ctx.ids
  {
    var t := if u.meta.Some? then SetMetadata(st.tree, u.id, u.meta.value) else st.tree;
    assert WellFormed(t) by {
      assert t.meta.Keys == t.insts.Keys;
      forall x | x in t.insts ensures NodeOk(t, x) { assert NodeOk(st.tree, x); }
    }
    var n := ChangedInstance(t.insts[u.id], u, st.ctx.ids);
    EditWellFormed(t, u.id, n);
    DeferredTree(st.(tree := SetInstance(t, u.id, n)), u.id);
  }

  lemma ApplyUpdateKeeps(st: State, u: Update)
    requires u.id in st.tree.insts
    ensures ApplyUpdate(st, u).tree.insts.Keys == st.tree.insts.Keys
    ensures var c := ApplyUpdate(st, u).ctx;
      c == st.ctx.(pointers := c.pointers,
        applied := st.ctx.applied.(updated := st.ctx.applied.updated + [Described(u)]))
  {
  }

  ghost function UpdatedIds(updated: seq<Update>): (r: set<Ref>) {
    set u | u in updated :: u.id
  }

  /** Between `t` and `v`, every update has been carried out and nothing else. */
  ghost predicate Updated(t: Tree, v: Tree, updated: seq<Update>, ids: map<Ref, Ref>) {
    Untouched(t, v, UpdatedIds(updated)) && forall u :: u in updated ==> UpdateDone(t, v, u, ids)
  }

  lemma UpdatedStep(t: Tree, m: Tree, v: Tree, updated: seq<Update>, ids: map<Ref, Ref>)
    requires updated != [] && UpdatesDistinct(t, updated)
    requires Untouched(t, m, {updated[0].id}) && UpdateDone(t, m, updated[0], ids)
    requires Updated(m, v, updated[1..], ids)
    ensures Updated(t, v, updated, ids)
  {
    var first, rest := updated[0], updated[1..];
    UpdatedIdsSplit(updated);
    forall u | u in updated ensures UpdateDone(t, v, u, ids) {
      if u in rest {
        assert u.id in UpdatedIds(rest);
        DoneLater(t, m, v, first.id, u, ids);
      } else {
        DoneEarlier(t, m, v, UpdatedIds(rest), u, ids);
      }
    }
  }

  lemma UpdatedIdsSplit(updated: seq<Update>)
    requires updated != []
    requires DistinctIds(updated)
    ensures UpdatedIds(updated) == {updated[0].id} + UpdatedIds(updated[1..])
    ensures updated[0].id !in UpdatedIds(updated[1..])
    ensures forall u :: u in updated && u !in updated[1..] ==> u == updated[0]
  {
    assert updated == [updated[0]] + updated[1..];
  }

  lemma DoneLater(t: Tree, m: Tree, v: Tree, first: Ref, u: Update, ids: map<Ref, Ref>)
    requires Untouched(t, m, {first}) && u.id != first && UpdateDone(m, v, u, ids)
    ensures UpdateDone(t, v, u, ids)
  {
    assert m.insts[u.id] == t.insts[u.id] && m.meta[u.id] == t.meta[u.id];
  }

  lemma DoneEarlier(t: Tree, m: Tree, v: Tree, later: set<Ref>, u: Update, ids: map<Ref, Ref>)
    requires UpdateDone(t, m, u, ids) && Untouched(m, v, later) && u.id !in later
    ensures UpdateDone(t, v, u, ids)
  {
    assert v.insts[u.id] == m.insts[u.id] && v.meta[u.id] == m.meta[u.id];
  }

  lemma {:induction false} UpdateAllEffect(st: State, updated: seq<Update>)
    requires WellFormed(st.tree) && UpdatesDistinct(st.tree, updated)
    ensures WellFormed(UpdateAll(st, updated).tree)
    ensures Updated(st.tree, UpdateAll(st, updated).tree, updated, st.ctx.ids)
    decreases |updated|
  {
    if updated != [] {
      var mid := ApplyUpdate(st, updated[0]);
      ApplyUpdateEffect(st, updated[0]);
      UpdateAllEffect(mid, updated[1..]);
      UpdatedStep(st.tree, mid.tree, UpdateAll(st, updated).tree, updated, st.ctx.ids);
    }
  }

  /** The context after updates: only pointers and the description have grown. */
  ghost predicate UpdatesNoted(c: Context, d: Context, updated: seq<Update>) {
    && d.ids == c.ids && d.hasRefs == c.hasRefs
    && d.applied == c.applied.(updated := c.applied.updated + DescribedAll(updated))
  }

  lemma UpdatesNotedStep(c: Context, d: Context, e: Context, updated: seq<Update>)
    requires updated != [] && UpdatesNoted(d, e, updated[1..])
    requires d ==
      c.(pointers := d.pointers, applied := c.applied.(updated := c.applied.updated + [Described(updated[0])]))
    ensures UpdatesNoted(c, e, updated)
  {
    assert c.applied.updated + [Described(updated[0])] + DescribedAll(updated[1..])
        == c.applied.updated + DescribedAll(updated);
  }

  lemma {:induction false} UpdateAllNotes(st: State, updated: seq<Update>)
    requires forall u :: u in updated ==> u.id in st.tree.insts
    ensures UpdatesNoted(st.ctx, UpdateAll(st, updated).ctx, updated)
    decreases |updated|
  {
    if updated == [] {
      assert st.ctx.applied.updated + [] == st.ctx.applied.updated;
    } else {
      var mid := ApplyUpdate(st, updated[0]);
      ApplyUpdateKeeps(st, updated[0]);
      UpdateAllNotes(mid, updated[1..]);
      UpdatesNotedStep(st.ctx, mid.ctx, UpdateAll(mid, updated[1..]).ctx, updated);
    }
  }

  function DescribedAll(updated: seq<Update>): (r: seq<Update>) {
    if updated == [] then [] else [Described(updated[0])] + DescribedAll(updated[1..])
  }
}
