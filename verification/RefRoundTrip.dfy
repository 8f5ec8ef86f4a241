/** References written as attributes by syncback and read back by the reconciler:
    a linked DOM, stripped of its raw references and added to a tree, gets them back
    (src/syncback/ref_properties.rs, src/snapshot/patch_apply.rs). */
module RefRoundTrip {
  import opened Basics
  import opened Values
  import opened MultiMaps
  import opened TreeModel
  import opened PatchPlan
  import opened PatchEffect
  import opened EffectFacts
  import opened Pointers
  import opened RefTranslation
  import opened Doms
  import opened RefLinks
  import opened LinkFacts

  // ----- the DOM on its way through the files -----

  /** The snapshot `s` describes the DOM at `x`: same structure, names, classes and
      attributes, and no raw reference. Other properties may have been filtered. */
  ghost predicate Dumped(insts: Instances, x: Ref, s: Snapshot)
    decreases s
  {
    && x in insts && s.name == insts[x].name && s.className == insts[x].className
    && AttributesOf(s.props) == AttributesOf(insts[x].props)
    && (forall k :: k in s.props ==> !s.props[k].RefValue?)
    && |s.children| == |insts[x].children|
    && forall i :: 0 <= i < |s.children| ==> Dumped(insts, insts[x].children[i], s.children[i])
  }

  /** An instance of the DOM, the instance made from it, and the node between. */
  datatype Copy = Copy(source: Ref, made: Ref, node: Snapshot)

  /** All copies, when the snapshot is added with ids handed out from `n`. */
  function Copies(insts: Instances, x: Ref, n: Ref, s: Snapshot): (r: seq<Copy>)
    decreases s, 1
  {
    [Copy(x, n, s)] + if x in insts then CopiesAll(insts, insts[x].children, n + 1, s.children) else []
  }

  function CopiesAll(insts: Instances, xs: seq<Ref>, n: Ref, ss: seq<Snapshot>): (r: seq<Copy>)
    decreases ss, 0
  {
    if xs == [] || ss == [] then []
    else Copies(insts, xs[0], n, ss[0]) + CopiesAll(insts, xs[1..], n + Size(ss[0]), ss[1..])
  }

  ghost predicate DumpedAll(insts: Instances, xs: seq<Ref>, ss: seq<Snapshot>) {
    |xs| == |ss| && forall i :: 0 <= i < |ss| ==> Dumped(insts, xs[i], ss[i])
  }

  lemma DumpedTail(insts: Instances, xs: seq<Ref>, ss: seq<Snapshot>)
    requires DumpedAll(insts, xs, ss) && ss != []
    ensures Dumped(insts, xs[0], ss[0]) && DumpedAll(insts, xs[1..], ss[1..])
  {
    forall i | 0 <= i < |ss[1..]| ensures Dumped(insts, xs[1..][i], ss[1..][i]) {
      assert xs[1..][i] == xs[i + 1] && ss[1..][i] == ss[i + 1];
    }
  }

  ghost predicate IsMade(copies: seq<Copy>, q: Ref) {
    exists c :: c in copies && c.made == q
  }

  /** Each copy is numbered in range, describes its source, and is on the list of
      planted nodes; each planted node is the copy of one instance. */
  ghost predicate CopiesOk(insts: Instances, copies: seq<Copy>, n: Ref, size: nat, places: Places) {
    && (forall c ::
      c in copies ==> n <= c.made < n + size && Dumped(insts, c.source, c.node) && (c.made, c.node) in places)
    && (forall p :: p in places ==> exists c :: c in copies && c.made == p.0 && c.node == p.1)
    && (forall q: Ref :: n <= q < n + size ==> IsMade(copies, q))
    && (forall c, d :: c in copies && d in copies && c.made == d.made ==> c == d)
  }

  lemma {:induction false} CopiesFit(insts: Instances, x: Ref, n: Ref, s: Snapshot)
    requires Dumped(insts, x, s)
    ensures CopiesOk(insts, Copies(insts, x, n, s), n, Size(s), PlantList(n, s))
    decreases s, 1
  {
    var below := CopiesAll(insts, insts[x].children, n + 1, s.children);
    CopiesAllFit(insts, insts[x].children, n + 1, s.children);
    var own := Copy(x, n, s);
    var all := Copies(insts, x, n, s);
    assert forall c :: c in all <==> c == own || c in below;
    assert forall p :: p in PlantList(n, s) <==> p == (n, s) || p in PlantLists(n + 1, s.children);
    forall q: Ref | n <= q < n + Size(s) ensures IsMade(all, q) {
      if q == n { assert own in all; } else { assert IsMade(below, q); }
    }
    forall p | p in PlantList(n, s) ensures exists c :: c in all && c.made == p.0 && c.node == p.1 {
      if p == (n, s) { assert own in all; }
    }
  }

  lemma {:induction false} CopiesAllFit(insts: Instances, xs: seq<Ref>, n: Ref, ss: seq<Snapshot>)
    requires DumpedAll(insts, xs, ss)
    ensures CopiesOk(insts, CopiesAll(insts, xs, n, ss), n, Sizes(ss), PlantLists(n, ss))
    decreases ss, 0
  {
    if ss != [] {
      DumpedTail(insts, xs, ss);
      CopiesFit(insts, xs[0], n, ss[0]);
      CopiesAllFit(insts, xs[1..], n + Size(ss[0]), ss[1..]);
      CopiesJoin(insts, Copies(insts, xs[0], n, ss[0]), CopiesAll(insts, xs[1..], n + Size(ss[0]), ss[1..]), n,
                 Size(ss[0]), Sizes(ss[1..]), PlantList(n, ss[0]), PlantLists(n + Size(ss[0]), ss[1..]));
    }
  }

  lemma CopiesJoin(insts: Instances, a: seq<Copy>, b: seq<Copy>, n: Ref, i: nat, j: nat, p: Places, q: Places)
    requires CopiesOk(insts, a, n, i, p) && CopiesOk(insts, b, n + i, j, q)
    ensures CopiesOk(insts, a + b, n, i + j, p + q)
  {
    forall c ensures c in a + b <==> c in a || c in b {}
    forall m: Ref | n <= m < n + i + j ensures IsMade(a + b, m) {
      assert if m < n + i then IsMade(a, m) else IsMade(b, m);
    }
    forall y | y in p + q ensures exists c :: c in a + b && c.made == y.0 && c.node == y.1 {
      if y in p {
        var c :| c in a && c.made == y.0 && c.node == y.1;
        assert c in a + b;
      } else {
        var c :| c in b && c.made == y.0 && c.node == y.1;
        assert c in a + b;
      }
    }
  }

  /** Every copied instance was reached when collecting. */
  lemma {:induction false} CopiesReached(before: Instances, insts: Instances, reached: set<Ref>, x: Ref, n: Ref,
      s: Snapshot)
    requires Shrunk(before, insts) && Closed(before, reached) && x in reached && Dumped(insts, x, s)
    ensures forall c :: c in Copies(insts, x, n, s) ==> c.source in reached
    decreases s, 1
  {
    CopiesAllReached(before, insts, reached, insts[x].children, n + 1, s.children);
  }

  lemma {:induction false} CopiesAllReached(before: Instances, insts: Instances, reached: set<Ref>, xs: seq<Ref>,
      n: Ref, ss: seq<Snapshot>)
    requires Shrunk(before, insts) && Closed(before, reached) && DumpedAll(insts, xs, ss)
    requires forall x :: x in xs ==> x in reached
    ensures forall c :: c in CopiesAll(insts, xs, n, ss) ==> c.source in reached
    decreases ss, 0
  {
    if ss != [] {
      DumpedTail(insts, xs, ss);
      CopiesReached(before, insts, reached, xs[0], n, ss[0]);
      CopiesAllReached(before, insts, reached, xs[1..], n + Size(ss[0]), ss[1..]);
    }
  }

  // ----- the planted nodes -----

  ghost predicate StandsAt(t: Tree, p: (Ref, Snapshot)) {
    && p.0 in t.insts && t.insts[p.0].props == InsertedProps(p.1.className, p.1.props)
    && p.0 in t.meta && t.meta[p.0] == PlantedMeta(p.1)
  }

  lemma {:induction false} PlantedStand(t: Tree, n: Ref, parent: Ref, s: Snapshot)
    requires Planted(t, n, parent, s)
    ensures forall p :: p in PlantList(n, s) ==> StandsAt(t, p)
    decreases s, 1
  {
    PlantedAllStandAt(t, n + 1, n, s.children);
  }

  lemma {:induction false} PlantedAllStandAt(t: Tree, n: Ref, parent: Ref, ss: seq<Snapshot>)
    requires PlantedAll(t, n, parent, ss)
    ensures forall p :: p in PlantLists(n, ss) ==> StandsAt(t, p)
    decreases ss, 0
  {
    if ss != [] {
      PlantedStand(t, n, parent, ss[0]);
      PlantedAllStandAt(t, n + Size(ss[0]), parent, ss[1..]);
    }
  }

  // ----- the pointers that are remembered -----

  ghost function NodePointers(s: Snapshot): (r: seq<(string, string)>) {
    PointersIn(s.props)
  }

  /** Exactly the pointers of the nodes at `places` have been noted since. */
  ghost predicate PointsNoted(before: Pointers, after: Pointers, n: Ref, size: nat, places: Places) {
    && (forall q :: !(n <= q < n + size) ==> Get(after, q) == Get(before, q) && (q in after <==> q in before))
    && (forall p :: p in places ==> NotedFor(after, p))
  }

  ghost predicate NotedFor(m: Pointers, p: (Ref, Snapshot)) {
    forall w :: w in Get(m, p.0) <==> w in NodePointers(p.1)
  }

  ghost predicate NoneFrom(m: Pointers, n: Ref) {
    forall q: Ref :: n <= q ==> q !in m
  }

  lemma {:induction false} PlacesInRange(n: Ref, s: Snapshot)
    ensures forall p :: p in PlantList(n, s) ==> n <= p.0 < n + Size(s)
    decreases s, 1
  {
    PlacesAllInRange(n + 1, s.children);
  }

  lemma {:induction false} PlacesAllInRange(n: Ref, ss: seq<Snapshot>)
    ensures forall p :: p in PlantLists(n, ss) ==> n <= p.0 < n + Sizes(ss)
    decreases ss, 0
  {
    if ss != [] {
      PlacesInRange(n, ss[0]);
      PlacesAllInRange(n + Size(ss[0]), ss[1..]);
    }
  }

  lemma {:induction false} AddChildPoints(st: State, parent: Ref, s: Snapshot)
    requires WellFormed(st.tree) && parent in st.tree.insts && NoneFrom(st.ctx.pointers, st.tree.next)
    ensures PointsNoted(st.ctx.pointers, AddChild(st, parent, s).ctx.pointers, st.tree.next, Size(s),
      PlantList(st.tree.next, s))
    decreases s, 1
  {
    var n := st.tree.next;
    var noted := State(InsertOne(st.tree, parent, s), NoteAdded(st.ctx, n, s));
    InsertOneWellFormed(st.tree, parent, s);
    AddChildrenPoints(noted, n, s.children);
    AddChildrenEffect(noted, n, s.children);
    var mid := AddChildren(noted, n, s.children);
    assert mid.tree.insts[n].props == InsertedProps(s.className, s.props);
    assert AttributesOf(InsertedProps(s.className, s.props)) == AttributesOf(s.props);
    OwnPointsNoted(st.ctx.pointers, mid, n, s);
  }

  lemma OwnPointsNoted(before: Pointers, mid: State, n: Ref, s: Snapshot)
    requires NoneFrom(before, n) && n in mid.tree.insts
      && AttributesOf(mid.tree.insts[n].props) == AttributesOf(s.props)
    requires PointsNoted(before, mid.ctx.pointers, n + 1, Sizes(s.children), PlantLists(n + 1, s.children))
    ensures PointsNoted(before, Deferred(mid, n).ctx.pointers, n, Size(s), PlantList(n, s))
  {
    var after := Deferred(mid, n).ctx.pointers;
    NotedContents(mid.ctx.pointers, n, NodePointers(s));
    assert after == NotePointers(mid.ctx.pointers, n, NodePointers(s));
    assert Get(mid.ctx.pointers, n) == [];
    PlacesAllInRange(n + 1, s.children);
    forall p | p in PlantList(n, s) ensures NotedFor(after, p) {
      if p != (n, s) { assert p in PlantLists(n + 1, s.children) && NotedFor(mid.ctx.pointers, p); }
    }
  }

  lemma {:induction false} AddChildrenPoints(st: State, parent: Ref, ss: seq<Snapshot>)
    requires WellFormed(st.tree) && parent in st.tree.insts && NoneFrom(st.ctx.pointers, st.tree.next)
    ensures PointsNoted(st.ctx.pointers, AddChildren(st, parent, ss).ctx.pointers, st.tree.next, Sizes(ss),
      PlantLists(st.tree.next, ss))
    decreases ss, 0
  {
    if ss != [] {
      var mid := AddChild(st, parent, ss[0]);
      var after := AddChildren(mid, parent, ss[1..]);
      AddChildPoints(st, parent, ss[0]);
      FirstAdded(st, parent, ss[0]);
      AddChildrenPoints(mid, parent, ss[1..]);
      ChildrenPoint(st.ctx.pointers, mid.ctx.pointers, after.ctx.pointers, st.tree.next, ss);
      assert after == AddChildren(st, parent, ss);
    } else {
      NothingPoints(st.ctx.pointers, st.tree.next);
    }
  }

  lemma NothingPoints(a: Pointers, n: Ref)
    requires NoneFrom(a, n)
    ensures PointsNoted(a, a, n, Sizes([]), PlantLists(n, []))
  {
  }

  lemma FirstAdded(st: State, parent: Ref, s: Snapshot)
    requires WellFormed(st.tree) && parent in st.tree.insts && NoneFrom(st.ctx.pointers, st.tree.next)
    requires PointsNoted(st.ctx.pointers, AddChild(st, parent, s).ctx.pointers, st.tree.next, Size(s),
      PlantList(st.tree.next, s))
    ensures var mid := AddChild(st, parent, s);
      && WellFormed(mid.tree) && parent in mid.tree.insts && mid.tree.next == st.tree.next + Size(s)
      && NoneFrom(mid.ctx.pointers, mid.tree.next)
  {
    AddChildEffect(st, parent, s);
  }

  lemma ChildrenPoint(a: Pointers, b: Pointers, c: Pointers, n: Ref, ss: seq<Snapshot>)
    requires ss != [] && PointsNoted(a, b, n, Size(ss[0]), PlantList(n, ss[0]))
    requires var m := n + Size(ss[0]); PointsNoted(b, c, m, Sizes(ss[1..]), PlantLists(m, ss[1..]))
    ensures PointsNoted(a, c, n, Sizes(ss), PlantLists(n, ss))
  {
    PlacesInRange(n, ss[0]);
    PointsJoin(a, b, c, n, Size(ss[0]), Sizes(ss[1..]), PlantList(n, ss[0]), PlantLists(n + Size(ss[0]), ss[1..]));
  }

  lemma PointsJoin(a: Pointers, b: Pointers, c: Pointers, n: Ref, i: nat, j: nat, p: Places, q: Places)
    requires PointsNoted(a, b, n, i, p) && PointsNoted(b, c, n + i, j, q)
    requires forall y :: y in p ==> n <= y.0 < n + i
    ensures PointsNoted(a, c, n, i + j, p + q)
  {
    forall y | y in p ensures NotedFor(c, y) {
      assert NotedFor(b, y);
    }
  }

  // ----- the whole way -----

  /** The tree after adding the snapshot below `parent`. */
  ghost function Readded(t: Tree, parent: Ref, s: Snapshot): (r: Tree)
    requires parent in t.insts
  {
    assert Applicable(t, AddOnly(parent, s)) by { assert RemoveAll(t, []) == t; }
    ApplyPatch(t, AddOnly(parent, s))
  }

  function AddOnly(parent: Ref, s: Snapshot): (r: Patch) {
    Patch([], [Add(parent, s)], [])
  }

  ghost function Added(t: Tree, parent: Ref, s: Snapshot): (r: State)
    requires parent in t.insts
  {
    AddChild(State(t, EMPTY_CONTEXT.(applied := Applied([], [], []))), parent, s)
  }

  lemma ReaddedFinal(t: Tree, parent: Ref, s: Snapshot)
    requires parent in t.insts
    ensures Readded(t, parent, s) == Finalized(Added(t, parent, s))
  {
    var start := State(t, EMPTY_CONTEXT.(applied := Applied([], [], [])));
    var st := Added(t, parent, s);
    assert RemoveAll(t, []) == t;
    assert [Add(parent, s)][1..] == [];
    assert AddAll(start, [Add(parent, s)]) == AddAll(st, []) == st;
    assert UpdateAll(st, []) == st;
  }

  /** The state before finalization: every planted node stands there, its metadata
      carries the id its attributes give, its pointers are remembered. */
  lemma AddedStands(t: Tree, parent: Ref, s: Snapshot)
    requires WellFormed(t) && parent in t.insts
    ensures var st := Added(t, parent, s); var places := PlantList(t.next, s);
      && (forall p :: p in places ==> StandsAt(st.tree, p) && NotedFor(st.ctx.pointers, p))
      && (forall x :: x in st.tree.meta <==> x in t.meta || t.next <= x < t.next + Size(s))
      && (forall x :: x in t.meta ==> st.tree.meta[x] == t.meta[x])
  {
    var start := State(t, EMPTY_CONTEXT.(applied := Applied([], [], [])));
    AddChildEffect(start, parent, s);
    AddChildPoints(start, parent, s);
    PlantedStand(Added(t, parent, s).tree, t.next, parent, s);
  }

  /** Is `b` the only instance that will carry the id `u`? */
  ghost predicate OnlyCarrier(t: Tree, copies: seq<Copy>, b: Copy, u: string) {
    && (forall x :: x in t.meta ==> t.meta[x].specifiedId != Some(u))
    && (forall c :: c in copies && PlantedMeta(c.node).specifiedId == Some(u) ==> c == b)
  }

  /** The metadata of the tree once the copies are in it. */
  ghost predicate MetaOf(t: Tree, copies: seq<Copy>, v: Tree) {
    && (forall x :: x in v.meta ==> x in t.meta || IsMade(copies, x))
    && (forall x :: x in t.meta ==> x < t.next && x in v.meta && v.meta[x] == t.meta[x])
    && (forall c :: c in copies ==> t.next <= c.made && c.made in v.meta && v.meta[c.made] == PlantedMeta(c.node))
    && (forall c, d :: c in copies && d in copies && c.made == d.made ==> c == d)
  }

  lemma AddedMeta(t: Tree, parent: Ref, s: Snapshot, insts: Instances, x: Ref)
    requires WellFormed(t) && parent in t.insts && Dumped(insts, x, s)
    ensures MetaOf(t, Copies(insts, x, t.next, s), Added(t, parent, s).tree)
  {
    var copies := Copies(insts, x, t.next, s);
    var v := Added(t, parent, s).tree;
    AddedStands(t, parent, s);
    CopiesFit(insts, x, t.next, s);
    forall c | c in copies ensures c.made in v.meta && v.meta[c.made] == PlantedMeta(c.node) {
      assert StandsAt(v, (c.made, c.node));
    }
    forall y | y in t.meta ensures y < t.next { LiveRange(t, y); }
  }

  /** The id stands for `b` exactly when nothing else carries it, and otherwise for
      nothing at all. */
  lemma CarriersAre(t: Tree, copies: seq<Copy>, b: Copy, u: string, v: Tree)
    requires MetaOf(t, copies, v) && b in copies && PlantedMeta(b.node).specifiedId == Some(u)
    ensures SpecifiedRef(v, u) == if OnlyCarrier(t, copies, b, u) then Some(b.made) else None
  {
    assert b.made in Carriers(v, u);
    if OnlyCarrier(t, copies, b, u) {
      forall y | y in Carriers(v, u) ensures y == b.made {
        assert y !in t.meta && IsMade(copies, y);
      }
      assert Carriers(v, u) == {b.made};
    } else if exists y :: y in t.meta && t.meta[y].specifiedId == Some(u) {
      var y :| y in t.meta && t.meta[y].specifiedId == Some(u);
      assert y in Carriers(v, u);
    } else {
      var c :| c in copies && PlantedMeta(c.node).specifiedId == Some(u) && c != b;
      assert c.made in Carriers(v, u);
    }
  }

  /** The state before finalization, as far as one copy is concerned. */
  ghost predicate CopyStands(st: State, a: Copy) {
    StandsAt(st.tree, (a.made, a.node)) && NotedFor(st.ctx.pointers, (a.made, a.node))
    && forall k :: k in a.node.props ==> !a.node.props[k].RefValue?
  }

  lemma AddedCopies(t: Tree, parent: Ref, s: Snapshot, insts: Instances, x: Ref, a: Copy)
    requires WellFormed(t) && parent in t.insts && Dumped(insts, x, s) && a in Copies(insts, x, t.next, s)
    ensures CopyStands(Added(t, parent, s), a)
  {
    AddedStands(t, parent, s);
    CopiesFit(insts, x, t.next, s);
    assert Dumped(insts, a.source, a.node);
  }

  /** One property of a copy, once everything has been resolved. */
  lemma CopyResolved(st: State, a: Copy, k: string, u: string)
    requires CopyStands(st, a)
    requires forall w :: w in NodePointers(a.node) && w.0 == k ==> w.1 == u
    ensures var v := Finalized(st); var plain := InsertedProps(a.node.className, a.node.props);
      && v.meta == st.tree.meta && a.made in v.insts
      && if (k, u) in NodePointers(a.node) && SpecifiedRef(v, u).Some?
         then k in v.insts[a.made].props && v.insts[a.made].props[k] == RefValue(SpecifiedRef(v, u).value)
         else (k in v.insts[a.made].props <==> k in plain) && (k in plain ==> v.insts[a.made].props[k] == plain[k])
  {
    var mid := TranslateAdded(st.tree, st.ctx.hasRefs, st.ctx.ids);
    var v := Finalized(st);
    var plain := InsertedProps(a.node.className, a.node.props);
    PlainUntranslated(st.ctx.ids, plain);
    assert mid.insts[a.made].props == plain;
    SameCarriers(v, mid, u);
    ResolvedAt(mid, plain, Get(st.ctx.pointers, a.made), k, u);
  }

  lemma PlainUntranslated(ids: map<Ref, Ref>, props: Props)
    requires forall k :: k in props ==> !props[k].RefValue?
    ensures TranslateProps(ids, props) == props
  {
  }

  // ----- every instance is copied once -----

  ghost predicate Below(insts: Instances, rank: map<Ref, nat>, y: Ref, a: Ref)
    decreases if y in rank then rank[y] else 0
  {
    && y in insts && y in rank
    && (y == a ||
        (insts[y].parent in rank && rank[insts[y].parent] < rank[y] && Below(insts, rank, insts[y].parent, a)))
  }

  lemma {:induction false} BelowRank(insts: Instances, rank: map<Ref, nat>, y: Ref, a: Ref)
    requires Below(insts, rank, y, a)
    ensures a in rank && rank[a] <= rank[y]
    decreases rank[y]
  {
    if y != a { BelowRank(insts, rank, insts[y].parent, a); }
  }

  ghost predicate ChildOf(insts: Instances, rank: map<Ref, nat>, c: Ref, p: Ref) {
    c in insts && insts[c].parent == p && p in insts && p in rank && c in rank && rank[p] < rank[c]
  }

  lemma {:induction false} BelowParent(insts: Instances, rank: map<Ref, nat>, y: Ref, c: Ref, p: Ref)
    requires Below(insts, rank, y, c) && ChildOf(insts, rank, c, p)
    ensures Below(insts, rank, y, p)
    decreases rank[y]
  {
    if y != c { BelowParent(insts, rank, insts[y].parent, c, p); }
  }

  lemma {:induction false} SiblingsApart(insts: Instances, rank: map<Ref, nat>, y: Ref, a: Ref, b: Ref, p: Ref)
    requires Below(insts, rank, y, a) && Below(insts, rank, y, b)
    requires ChildOf(insts, rank, a, p) && ChildOf(insts, rank, b, p)
    ensures a == b
    decreases rank[y]
  {
    if y == a && y != b {
      BelowRank(insts, rank, p, b);
    } else if y == b && y != a {
      BelowRank(insts, rank, p, a);
    } else if y != a {
      SiblingsApart(insts, rank, insts[y].parent, a, b, p);
    }
  }

  ghost predicate CopiedOnce(copies: seq<Copy>) {
    forall c, d :: c in copies && d in copies && c.source == d.source ==> c == d
  }

  lemma {:induction false} CopiesOnce(insts: Instances, rank: map<Ref, nat>, x: Ref, n: Ref, s: Snapshot)
    requires TreeShaped(insts) && Ranked(insts, rank) && Dumped(insts, x, s)
    ensures CopiedOnce(Copies(insts, x, n, s))
    ensures forall c :: c in Copies(insts, x, n, s) ==> Below(insts, rank, c.source, x)
    decreases s, 1
  {
    var kids := insts[x].children;
    assert FamilyOk(insts, x) && RanksChildren(insts, rank, x);
    CopiesAllOnce(insts, rank, x, kids, n + 1, s.children);
    forall c | c in CopiesAll(insts, kids, n + 1, s.children) ensures c.source != x && Below(insts, rank, c.source, x) {
      var k :| k in kids && Below(insts, rank, c.source, k);
      BelowRank(insts, rank, c.source, k);
      BelowParent(insts, rank, c.source, k, x);
    }
  }

  lemma {:induction false} CopiesAllOnce(insts: Instances, rank: map<Ref, nat>, p: Ref, xs: seq<Ref>, n: Ref,
      ss: seq<Snapshot>)
    requires TreeShaped(insts) && Ranked(insts, rank) && DumpedAll(insts, xs, ss) && NoDup(xs)
    requires forall k :: k in xs ==> ChildOf(insts, rank, k, p)
    ensures CopiedOnce(CopiesAll(insts, xs, n, ss))
    ensures forall c :: c in CopiesAll(insts, xs, n, ss) ==> exists k :: k in xs && Below(insts, rank, c.source, k)
    decreases ss, 0
  {
    if ss != [] {
      var first, rest := Copies(insts, xs[0], n, ss[0]), CopiesAll(insts, xs[1..], n + Size(ss[0]), ss[1..]);
      DumpedTail(insts, xs, ss);
      CopiesOnce(insts, rank, xs[0], n, ss[0]);
      CopiesAllOnce(insts, rank, p, xs[1..], n + Size(ss[0]), ss[1..]);
      assert xs[0] !in xs[1..];
      forall c, d | c in first && d in rest ensures c.source != d.source {
        var k :| k in xs[1..] && Below(insts, rank, d.source, k);
        if c.source == d.source { SiblingsApart(insts, rank, c.source, xs[0], k, p); }
      }
      forall c | c in first + rest ensures exists k :: k in xs && Below(insts, rank, c.source, k) {
        if c in first {
          assert xs[0] in xs;
        } else {
          var k :| k in xs[1..] && Below(insts, rank, c.source, k);
          assert k in xs;
        }
      }
    }
  }

  // ----- the theorems -----

  /** One whole trip: collected from `before`, linked as `insts`, giving `linked`,
      which the files describe as `s`. */
  ghost predicate Trip(before: Instances, reached: set<Ref>, links: Links, targets: seq<Ref>, rewrite: set<Ref>,
                       insts: Instances, generated: Ref -> string, linked: Instances, root: Ref, s: Snapshot) {
    && root in reached && Closed(before, reached)
    && Collected(before, reached, links, targets, rewrite)
    && Later(before, insts) && LinkedTo(insts, links, rewrite, generated, linked)
    && Dumped(linked, root, s)
  }

  /** A reference to a live target is a pointer attribute with the target's id. */
  lemma TripPointer(before: Instances, reached: set<Ref>, links: Links, targets: seq<Ref>, rewrite: set<Ref>,
                    insts: Instances, generated: Ref -> string, linked: Instances, root: Ref, s: Snapshot,
                    n: Ref, a: Copy, b: Copy, k: string)
    requires Trip(before, reached, links, targets, rewrite, insts, generated, linked, root, s)
    requires a in Copies(linked, root, n, s) && b in Copies(linked, root, n, s)
    requires LiveTarget(before, a.source, k, insts) == Some(b.source)
    ensures b.source in targets && b.source in linked && ExistingId(linked[b.source]).Some?
    ensures var u := ExistingId(linked[b.source]).value;
      && PlantedMeta(b.node).specifiedId == Some(u)
      && (k, u) in NodePointers(a.node)
      && forall w :: w in NodePointers(a.node) && w.0 == k ==> w.1 == u
  {
    LinkedPointwise(insts, links, rewrite, generated, linked);
    CopiesFit(linked, root, n, s);
    CopiesReached(before, linked, reached, root, n, s);
    var own := Link(k, b.source);
    assert IsLink(before, a.source, own);
    assert own in Get(links, a.source) && IsTarget(links, b.source);
    PointersNameTheirTargets(before, reached, links, targets, rewrite, insts, generated, linked, a.source, k);
    assert Dumped(linked, a.source, a.node) && Dumped(linked, b.source, b.node);
    var attrs := AttributesOf(a.node.props).value;
    forall w: string ensures (k, w) in NodePointers(a.node) <==>
      PointerName(k) in attrs && TextOf(attrs[PointerName(k)]) == Some(w) {
      PointerListContents(attrs, k, w);
    }
  }

  /** The reading side alone: a pointer attribute with the id of `b`. */
  lemma PointerComesBack(t: Tree, parent: Ref, s: Snapshot, insts: Instances, x: Ref, a: Copy, b: Copy, k: string,
      u: string)
    requires WellFormed(t) && parent in t.insts && Dumped(insts, x, s)
    requires a in Copies(insts, x, t.next, s) && b in Copies(insts, x, t.next, s)
    requires PlantedMeta(b.node).specifiedId == Some(u) && (k, u) in NodePointers(a.node)
    requires forall w :: w in NodePointers(a.node) && w.0 == k ==> w.1 == u
    ensures a.made in Readded(t, parent, s).insts
    ensures var props := Readded(t, parent, s).insts[a.made].props;
      if OnlyCarrier(t, Copies(insts, x, t.next, s), b, u) then k in props && props[k] == RefValue(b.made)
      else k in props ==> !props[k].RefValue?
  {
    var st, v := Added(t, parent, s), Readded(t, parent, s);
    ReaddedFinal(t, parent, s);
    AddedCopies(t, parent, s, insts, x, a);
    CopyResolved(st, a, k, u);
    AddedMeta(t, parent, s, insts, x);
    CarriersAre(t, Copies(insts, x, t.next, s), b, u, st.tree);
    SameCarriers(v, st.tree, u);
  }

  /** The round trip. A reference from one instance to another comes back as a
      reference between the instances made from them, exactly when nothing but the
      target carries its id afterwards; otherwise the property holds no reference. */
  lemma ReferencesComeBack(before: Instances, reached: set<Ref>, links: Links, targets: seq<Ref>, rewrite: set<Ref>,
                           insts: Instances, generated: Ref -> string, linked: Instances, root: Ref, s: Snapshot,
                           t: Tree, parent: Ref, a: Copy, b: Copy, k: string)
    requires Trip(before, reached, links, targets, rewrite, insts, generated, linked, root, s)
    requires WellFormed(t) && parent in t.insts
    requires a in Copies(linked, root, t.next, s) && b in Copies(linked, root, t.next, s)
    requires LiveTarget(before, a.source, k, insts) == Some(b.source)
    ensures b.source in linked && ExistingId(linked[b.source]).Some?
    ensures a.made in Readded(t, parent, s).insts
    ensures var props := Readded(t, parent, s).insts[a.made].props;
      if OnlyCarrier(t, Copies(linked, root, t.next, s), b, ExistingId(linked[b.source]).value)
      then k in props && props[k] == RefValue(b.made)
      else k in props ==> !props[k].RefValue?
  {
    TripPointer(before, reached, links, targets, rewrite, insts, generated, linked, root, s, t.next, a, b, k);
    PointerComesBack(t, parent, s, linked, root, a, b, k, ExistingId(linked[b.source]).value);
  }

  /** No instance outside the targets carries the id of a target. */
  ghost predicate NoIntruder(t: Tree, copies: seq<Copy>, targets: seq<Ref>, linked: Instances) {
    forall y :: y in targets && y in linked && ExistingId(linked[y]).Some? ==>
      && (forall x :: x in t.meta ==> t.meta[x].specifiedId != ExistingId(linked[y]))
      && (forall c :: c in copies && PlantedMeta(c.node).specifiedId == ExistingId(linked[y]) ==> c.source in targets)
  }

  /** When generated ids are new, no unique id that is written is taken, and no
      untargeted instance shares an id, all references come back. */
  lemma AllReferencesComeBack(before: Instances, reached: set<Ref>, links: Links, targets: seq<Ref>, rewrite: set<Ref>,
                              insts: Instances, generated: Ref -> string, linked: Instances, root: Ref, s: Snapshot,
                              t: Tree, parent: Ref, a: Copy, b: Copy, k: string)
    requires Trip(before, reached, links, targets, rewrite, insts, generated, linked, root, s)
    requires WellFormed(t) && parent in t.insts && TreeShaped(insts)
    requires a in Copies(linked, root, t.next, s) && b in Copies(linked, root, t.next, s)
    requires LiveTarget(before, a.source, k, insts) == Some(b.source)
    requires GeneratedNew(insts, generated) && UniqueTextsApart(insts, targets, rewrite)
    requires NoIntruder(t, Copies(linked, root, t.next, s), targets, linked)
    ensures var v := Readded(t, parent, s);
      a.made in v.insts && k in v.insts[a.made].props && v.insts[a.made].props[k] == RefValue(b.made)
  {
    TripPointer(before, reached, links, targets, rewrite, insts, generated, linked, root, s, t.next, a, b, k);
    ReferencesComeBack(before, reached, links, targets, rewrite, insts, generated, linked, root, s, t, parent, a, b, k);
    TripIds(before, reached, links, targets, rewrite, insts, generated, linked, root, s, t.next);
    NobodyElse(t, Copies(linked, root, t.next, s), targets, linked, b);
  }

  /** Targets have ids, and different ones; instances are copied once. */
  ghost predicate IdsSettled(copies: seq<Copy>, targets: seq<Ref>, linked: Instances) {
    && CopiedOnce(copies)
    && (forall c :: c in copies ==> Dumped(linked, c.source, c.node))
    && TargetsSettled(targets, linked)
  }

  ghost predicate TargetsSettled(targets: seq<Ref>, linked: Instances) {
    && (forall y :: y in targets && y in linked ==> ExistingId(linked[y]).Some?)
    && (forall y, z ::
          (y in targets && z in targets && y in linked && z in linked
           && ExistingId(linked[y]) == ExistingId(linked[z])) ==> y == z)
  }

  lemma NobodyElse(t: Tree, copies: seq<Copy>, targets: seq<Ref>, linked: Instances, b: Copy)
    requires IdsSettled(copies, targets, linked) && NoIntruder(t, copies, targets, linked)
    requires b in copies && b.source in targets && b.source in linked
    ensures OnlyCarrier(t, copies, b, ExistingId(linked[b.source]).value)
  {
    var u := ExistingId(linked[b.source]).value;
    forall c | c in copies && PlantedMeta(c.node).specifiedId == Some(u) ensures c == b {
      assert Dumped(linked, c.source, c.node);
      assert c.source in targets;
      assert PlantedMeta(c.node).specifiedId == ExistingId(linked[c.source]);
    }
  }

  lemma TripIds(before: Instances, reached: set<Ref>, links: Links, targets: seq<Ref>, rewrite: set<Ref>,
                insts: Instances, generated: Ref -> string, linked: Instances, root: Ref, s: Snapshot, n: Ref)
    requires Trip(before, reached, links, targets, rewrite, insts, generated, linked, root, s)
    requires TreeShaped(insts) && GeneratedNew(insts, generated) && UniqueTextsApart(insts, targets, rewrite)
    ensures IdsSettled(Copies(linked, root, n, s), targets, linked)
  {
    TripTargets(before, reached, links, targets, rewrite, insts, generated, linked);
    LinkedShape(insts, links, rewrite, generated, linked);
    var rank :| Ranked(linked, rank);
    CopiesOnce(linked, rank, root, n, s);
    CopiesFit(linked, root, n, s);
  }

  lemma TripTargets(before: Instances, reached: set<Ref>, links: Links, targets: seq<Ref>, rewrite: set<Ref>,
                    insts: Instances, generated: Ref -> string, linked: Instances)
    requires Collected(before, reached, links, targets, rewrite) && Later(before, insts)
    requires LinkedTo(insts, links, rewrite, generated, linked)
    requires GeneratedNew(insts, generated) && UniqueTextsApart(insts, targets, rewrite)
    ensures TargetsSettled(targets, linked)
  {
    TargetsToldApart(before, reached, links, targets, rewrite, insts, generated);
    LinkedIds(insts, links, rewrite, generated, linked);
    LinkingCannotPanic(before, reached, links, targets, rewrite, insts, generated);
    forall y | y in targets && y in linked ensures ExistingId(linked[y]).Some? {
      assert IsTarget(links, y);
    }
  }

  /** Linking only touches attributes. */
  lemma LinkedShape(insts: Instances, links: Links, rewrite: set<Ref>, generated: Ref -> string, linked: Instances)
    requires LinkedTo(insts, links, rewrite, generated, linked) && TreeShaped(insts)
    ensures TreeShaped(linked)
  {
    LinkedPointwise(insts, links, rewrite, generated, linked);
    forall x | x in linked
      ensures linked[x].parent == insts[x].parent && linked[x].children == insts[x].children && FamilyOk(insts, x)
    {}
    forall x | x in linked ensures FamilyOk(linked, x) {
      assert FamilyOk(insts, x);
    }
    var rank :| Ranked(insts, rank);
    forall x | x in linked ensures RanksChildren(linked, rank, x) {
      assert RanksChildren(insts, rank, x);
    }
    assert Ranked(linked, rank);
  }
}
