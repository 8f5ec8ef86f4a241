/** References between the nodes of a snapshot become references between the
    instances those nodes ended up as, although the rewriting is split over the two
    passes (src/snapshot/patch_compute.rs, src/snapshot/patch_apply.rs). */
module RefTranslation {
  import opened Basics
  import opened Values
  import opened TreeModel
  import opened PatchPlan
  import opened PlanFacts
  import opened PatchEffect
  import opened EffectFacts
  import opened Outcome
  import opened FinalTree
  import opened Convergence
  import opened Reconciliation

  type Places = seq<(Ref, Snapshot)>

  /** The node `q` of the snapshot `s` at `x` ended up as the instance `y`. */
  ghost predicate PlacedAt(v: Tree, x: Ref, s: Snapshot, y: Ref, q: Snapshot)
    requires Shaped(v, x, s)
    decreases s
  {
    (x == y && s == q) ||
    (var kids := v.insts[x].children;
     exists i :: 0 <= i < |s.children| &&
       PlacedAt(v, kids[Pairing(v, kids, s.children, NonePaired(|kids|))[i].value], s.children[i], y, q))
  }

  /** How often an id occurs in a snapshot. */
  function Times(r: Ref, s: Snapshot): (n: nat)
    decreases s, 1
  {
    (if s.id == r then 1 else 0) + TimesAmong(r, s.children)
  }

  function TimesAmong(r: Ref, ss: seq<Snapshot>): (n: nat)
    decreases ss, 0
  {
    if ss == [] then 0 else Times(r, ss[0]) + TimesAmong(r, ss[1..])
  }

  /** No two nodes share an id. */
  ghost predicate DistinctSnapshotIds(s: Snapshot) {
    forall r: Ref :: r != NO_REF ==> Times(r, s) <= 1
  }

  // ----- all places, in the order in which the tables are filled -----

  function PlantList(n: Ref, s: Snapshot): (r: Places)
    decreases s, 1
  {
    [(n, s)] + PlantLists(n + 1, s.children)
  }

  function PlantLists(n: Ref, ss: seq<Snapshot>): (r: Places)
    decreases ss, 0
  {
    if ss == [] then [] else PlantList(n, ss[0]) + PlantLists(n + Size(ss[0]), ss[1..])
  }

  function PlantRow(n: Ref, added: seq<Add>): (r: Places)
    decreases |added|
  {
    if added == [] then [] else PlantList(n, added[0].snap) + PlantRow(n + Size(added[0].snap), added[1..])
  }

  function IdsOf(places: Places): (r: map<Ref, Ref>)
    decreases |places|
  {
    if places == [] then map[] else OwnId(places[0].0, places[0].1) + IdsOf(places[1..])
  }

  function TimesIn(r: Ref, places: Places): (n: nat)
    decreases |places|
  {
    if places == [] then 0 else (if places[0].1.id == r then 1 else 0) + TimesIn(r, places[1..])
  }

  lemma {:induction false} IdsOfAppend(a: Places, b: Places)
    ensures IdsOf(a + b) == IdsOf(a) + IdsOf(b)
    decreases |a|
  {
    if a == [] {
      assert a + b == b;
      assert map[] + IdsOf(b) == IdsOf(b);
    } else {
      assert (a + b)[1..] == a[1..] + b;
      IdsOfAppend(a[1..], b);
      MapsAssociate(OwnId(a[0].0, a[0].1), IdsOf(a[1..]), IdsOf(b));
    }
  }

  lemma MapsAssociate(a: map<Ref, Ref>, b: map<Ref, Ref>, c: map<Ref, Ref>)
    ensures (a + b) + c == a + (b + c)
  {
  }

  lemma {:induction false} TimesAppend(r: Ref, a: Places, b: Places)
    ensures TimesIn(r, a + b) == TimesIn(r, a) + TimesIn(r, b)
    decreases |a|
  {
    if a == [] {
      assert a + b == b;
    } else {
      assert (a + b)[1..] == a[1..] + b;
      TimesAppend(r, a[1..], b);
    }
  }

  lemma {:induction false} PlantListIds(n: Ref, s: Snapshot)
    ensures IdsOf(PlantList(n, s)) == SnapshotIds(n, s)
    decreases s, 1
  {
    PlantListsIds(n + 1, s.children);
    assert PlantList(n, s)[1..] == PlantLists(n + 1, s.children);
  }

  lemma {:induction false} PlantListsIds(n: Ref, ss: seq<Snapshot>)
    ensures IdsOf(PlantLists(n, ss)) == SnapshotsIds(n, ss)
    decreases ss, 0
  {
    if ss != [] {
      PlantListIds(n, ss[0]);
      PlantListsIds(n + Size(ss[0]), ss[1..]);
      IdsOfAppend(PlantList(n, ss[0]), PlantLists(n + Size(ss[0]), ss[1..]));
    }
  }

  lemma {:induction false} PlantListTimes(r: Ref, n: Ref, s: Snapshot)
    ensures TimesIn(r, PlantList(n, s)) == Times(r, s)
    decreases s, 1
  {
    PlantListsTimes(r, n + 1, s.children);
    assert PlantList(n, s)[1..] == PlantLists(n + 1, s.children);
  }

  lemma {:induction false} PlantListsTimes(r: Ref, n: Ref, ss: seq<Snapshot>)
    ensures TimesIn(r, PlantLists(n, ss)) == TimesAmong(r, ss)
    decreases ss, 0
  {
    if ss != [] {
      PlantListTimes(r, n, ss[0]);
      PlantListsTimes(r, n + Size(ss[0]), ss[1..]);
      TimesAppend(r, PlantList(n, ss[0]), PlantLists(n + Size(ss[0]), ss[1..]));
    }
  }

  function TimesAdded(r: Ref, added: seq<Add>): (n: nat) {
    if added == [] then 0 else Times(r, added[0].snap) + TimesAdded(r, added[1..])
  }

  lemma {:induction false} PlantRowIds(n: Ref, added: seq<Add>)
    ensures IdsOf(PlantRow(n, added)) == AddedIds(n, added)
    decreases |added|
  {
    if added != [] {
      var first, rest := PlantList(n, added[0].snap), PlantRow(n + Size(added[0].snap), added[1..]);
      PlantListIds(n, added[0].snap);
      PlantRowIds(n + Size(added[0].snap), added[1..]);
      IdsOfAppend(first, rest);
      assert PlantRow(n, added) == first + rest;
    }
  }

  lemma {:induction false} PlantRowTimes(r: Ref, n: Ref, added: seq<Add>)
    ensures TimesIn(r, PlantRow(n, added)) == TimesAdded(r, added)
    decreases |added|
  {
    if added != [] {
      var first, rest := PlantList(n, added[0].snap), PlantRow(n + Size(added[0].snap), added[1..]);
      PlantListTimes(r, n, added[0].snap);
      PlantRowTimes(r, n + Size(added[0].snap), added[1..]);
      TimesAppend(r, first, rest);
      assert PlantRow(n, added) == first + rest;
    }
  }

  lemma {:induction false} TimesAddedAppend(r: Ref, a: seq<Add>, b: seq<Add>)
    ensures TimesAdded(r, a + b) == TimesAdded(r, a) + TimesAdded(r, b)
  {
    if a == [] {
      assert a + b == b;
    } else {
      assert (a + b)[1..] == a[1..] + b;
      TimesAddedAppend(r, a[1..], b);
    }
  }

  /** How often a plan accounts for a node with the id. */
  function TimesPlanned(r: Ref, p: Plan): (n: nat) {
    TimesIn(r, p.pairs) + TimesAdded(r, p.patch.added)
  }

  lemma TimesThen(r: Ref, a: Plan, b: Plan)
    ensures TimesPlanned(r, Then(a, b)) == TimesPlanned(r, a) + TimesPlanned(r, b)
  {
    TimesAppend(r, a.pairs, b.pairs);
    TimesAddedAppend(r, a.patch.added, b.patch.added);
  }

  lemma TimesOne(r: Ref, id: Ref, s: Snapshot)
    ensures TimesIn(r, [(id, s)]) == if s.id == r then 1 else 0
    ensures TimesAdded(r, [Add(id, s)]) == Times(r, s)
  {
  }

  /** A plan accounts for every node of its snapshot once: paired or added. */
  lemma {:induction false} PlanNodeTimes(r: Ref, t: Tree, s: Snapshot, id: Ref)
    requires WellFormed(t) && id in t.insts
    ensures TimesPlanned(r, PlanNode(t, s, id)) == Times(r, s)
    decreases s, 1
  {
    var none := NonePaired(|t.insts[id].children|);
    PlanChildrenTimes(r, t, id, s.children, none);
    TimesOne(r, id, s);
    TimesThen(r, NodePlan(t, s, id), PlanChildren(t, id, s.children, none));
  }

  lemma {:induction false} PlanChildrenTimes(r: Ref, t: Tree, id: Ref, ss: seq<Snapshot>, paired: seq<bool>)
    requires WellFormed(t) && id in t.insts && |paired| == |t.insts[id].children|
    ensures TimesPlanned(r, PlanChildren(t, id, ss, paired)) == TimesAmong(r, ss)
    decreases ss, 0
  {
    if ss != [] {
      var kids := t.insts[id].children;
      assert NodeOk(t, id);
      var j := FirstFit(t, kids, paired, ss[0], 0);
      PlanChildrenTimes(r, t, id, ss[1..], Mark(paired, j));
      if j.Some? { PlanNodeTimes(r, t, ss[0], kids[j.value]); } else { TimesOne(r, id, ss[0]); }
      TimesThen(r, PlanChild(t, id, ss[0], j), PlanChildren(t, id, ss[1..], Mark(paired, j)));
    }
  }

  /** The table made while computing is read off the visited pairs. */
  lemma {:induction false} PlanNodeIds(t: Tree, s: Snapshot, id: Ref)
    requires WellFormed(t) && id in t.insts
    ensures PlanNode(t, s, id).ids == IdsOf(PlanNode(t, s, id).pairs)
    decreases s, 1
  {
    var none := NonePaired(|t.insts[id].children|);
    PlanChildrenIds(t, id, s.children, none);
    IdsOfAppend([(id, s)], PlanChildren(t, id, s.children, none).pairs);
    IdsOfOne(id, s);
  }

  lemma IdsOfOne(id: Ref, s: Snapshot)
    ensures IdsOf([(id, s)]) == OwnId(id, s)
  {
    assert OwnId(id, s) + map[] == OwnId(id, s);
  }

  lemma {:induction false} PlanChildrenIds(t: Tree, id: Ref, ss: seq<Snapshot>, paired: seq<bool>)
    requires WellFormed(t) && id in t.insts && |paired| == |t.insts[id].children|
    ensures PlanChildren(t, id, ss, paired).ids == IdsOf(PlanChildren(t, id, ss, paired).pairs)
    decreases ss, 0
  {
    if ss != [] {
      var kids := t.insts[id].children;
      assert NodeOk(t, id);
      var j := FirstFit(t, kids, paired, ss[0], 0);
      PlanChildrenIds(t, id, ss[1..], Mark(paired, j));
      if j.Some? { PlanNodeIds(t, ss[0], kids[j.value]); }
      IdsOfAppend(PlanChild(t, id, ss[0], j).pairs, PlanChildren(t, id, ss[1..], Mark(paired, j)).pairs);
    }
  }

  /** With distinct ids, the table gives every node its own place. */
  lemma {:induction false} TableOfDistinct(places: Places, i: nat)
    requires forall r: Ref :: r != NO_REF ==> TimesIn(r, places) <= 1
    requires i < |places| && places[i].1.id != NO_REF
    ensures places[i].1.id in IdsOf(places) && IdsOf(places)[places[i].1.id] == places[i].0
    decreases |places|
  {
    var rest := places[1..];
    var r := places[i].1.id;
    assert TimesIn(r, places) <= 1;
    forall q: Ref | q != NO_REF ensures TimesIn(q, rest) <= 1 {
      assert TimesIn(q, rest) <= TimesIn(q, places);
    }
    AbsentFromTable(r, rest);
    if i > 0 {
      InTimes(rest, i - 1);
      TableOfDistinct(rest, i - 1);
    }
  }

  lemma {:induction false} InTimes(places: Places, i: nat)
    requires i < |places|
    ensures TimesIn(places[i].1.id, places) > 0
    decreases |places|
  {
    if i > 0 { InTimes(places[1..], i - 1); }
  }

  lemma {:induction false} AbsentFromTable(r: Ref, places: Places)
    ensures r in IdsOf(places) ==> TimesIn(r, places) > 0
    decreases |places|
  {
    if places != [] { AbsentFromTable(r, places[1..]); }
  }

  /** All places where nodes end up: the added ones, then the pairs. */
  function AllPlaces(p: Plan, n: Ref): (r: Places) {
    PlantRow(n, p.patch.added) + p.pairs
  }

  lemma PlacesTable(t: Tree, s: Snapshot, id: Ref)
    requires WellFormed(t) && id in t.insts && DistinctSnapshotIds(s)
    ensures var p := PlanNode(t, s, id);
      && IdsOf(AllPlaces(p, t.next)) == Table(p, t.next)
      && forall r: Ref :: r != NO_REF ==> TimesIn(r, AllPlaces(p, t.next)) <= 1
  {
    var p := PlanNode(t, s, id);
    PlanNodeIds(t, s, id);
    PlantRowIds(t.next, p.patch.added);
    IdsOfAppend(PlantRow(t.next, p.patch.added), p.pairs);
    forall r: Ref | r != NO_REF ensures TimesIn(r, AllPlaces(p, t.next)) <= 1 {
      PlanNodeTimes(r, t, s, id);
      PlantRowTimes(r, t.next, p.patch.added);
      TimesAppend(r, PlantRow(t.next, p.patch.added), p.pairs);
    }
  }

  // ----- every node is at one of the places -----

  /** A node placed below a newly made instance is placed below one of its children. */
  lemma StandingChild(v: Tree, n: Ref, parent: Ref, s: Snapshot, ids: map<Ref, Ref>, y: Ref, q: Snapshot)
      returns (i: nat)
    requires Standing(v, n, parent, s, ids) && Shaped(v, n, s) && PlacedAt(v, n, s, y, q)
    requires !(n == y && s == q)
    ensures i < |s.children| && s.children[i] in s.children
    ensures var c := Bases(n + 1, s.children)[i];
      Standing(v, c, n, s.children[i], ids) && Shaped(v, c, s.children[i]) && PlacedAt(v, c, s.children[i], y, q)
  {
    var kids := Bases(n + 1, s.children);
    assert v.insts[n].children == kids;
    StandingKeys(v, n + 1, n, s.children, ids);
    FreshPairing(v, s.children, kids);
    i := PlacedBelow(v, n, s, kids, y, q);
  }

  lemma PlacedBelow(v: Tree, x: Ref, s: Snapshot, targets: seq<Ref>, y: Ref, q: Snapshot) returns (i: nat)
    requires Shaped(v, x, s) && PlacedAt(v, x, s, y, q) && !(x == y && s == q)
    requires |targets| == |s.children| && PairsAll(v, v.insts[x].children, s.children, targets)
    ensures i < |s.children| && s.children[i] in s.children
    ensures Shaped(v, targets[i], s.children[i]) && PlacedAt(v, targets[i], s.children[i], y, q)
  {
    var kids := v.insts[x].children;
    i :| 0 <= i < |s.children| &&
      PlacedAt(v, kids[Pairing(v, kids, s.children, NonePaired(|kids|))[i].value], s.children[i], y, q);
  }

  lemma {:induction false} StandingPlaces(v: Tree, n: Ref, parent: Ref, s: Snapshot, ids: map<Ref, Ref>, y: Ref,
      q: Snapshot)
    requires Standing(v, n, parent, s, ids) && Shaped(v, n, s) && PlacedAt(v, n, s, y, q)
    ensures (y, q) in PlantList(n, s)
    ensures Settled(v, y, q, ids)
    decreases s
  {
    StandingSettled(v, n, parent, s, ids);
    if !(n == y && s == q) {
      var i := StandingChild(v, n, parent, s, ids, y, q);
      StandingPlaces(v, Bases(n + 1, s.children)[i], n, s.children[i], ids, y, q);
      PlantListsContain(n + 1, s.children, i, (y, q));
    }
  }

  lemma {:induction false} PlantListsContain(n: Ref, ss: seq<Snapshot>, i: nat, y: (Ref, Snapshot))
    requires i < |ss| && y in PlantList(Bases(n, ss)[i], ss[i])
    ensures y in PlantLists(n, ss)
    decreases |ss|
  {
    if i > 0 {
      assert Bases(n, ss)[i] == Bases(n + Size(ss[0]), ss[1..])[i - 1];
      PlantListsContain(n + Size(ss[0]), ss[1..], i - 1, y);
    }
  }

  lemma {:induction false} RowContains(added: seq<Add>, n: Ref, x: Ref, q: nat, y: (Ref, Snapshot))
    requires q < |NewKids(added, x, n)| && |NewKids(added, x, n)| == |AddsFor(added, x)|
    requires y in PlantList(NewKids(added, x, n)[q], AddsFor(added, x)[q])
    ensures y in PlantRow(n, added)
    decreases |added|
  {
    var m := n + Size(added[0].snap);
    KidsCount(added[1..], x, m);
    if added[0].parent == x {
      assert NewKids(added, x, n) == [n] + NewKids(added[1..], x, m);
      assert AddsFor(added, x) == [added[0].snap] + AddsFor(added[1..], x);
      if q > 0 { RowContains(added[1..], m, x, q - 1, y); }
    } else {
      assert NewKids(added, x, n) == NewKids(added[1..], x, m);
      assert AddsFor(added, x) == AddsFor(added[1..], x);
      RowContains(added[1..], m, x, q, y);
    }
  }

  lemma {:induction false} KidsCount(added: seq<Add>, x: Ref, n: Ref)
    ensures |NewKids(added, x, n)| == |AddsFor(added, x)|
    decreases |added|
  {
    if added != [] {
      var m := n + Size(added[0].snap);
      KidsCount(added[1..], x, m);
      assert |NewKids(added, x, n)| == (if added[0].parent == x then 1 else 0) + |NewKids(added[1..], x, m)|;
      assert |AddsFor(added, x)| == (if added[0].parent == x then 1 else 0) + |AddsFor(added[1..], x)|;
    }
  }

  /** A node below a visited pair is another visited pair, or stands among the new
      instances with its references translated. */
  lemma {:induction false} PairPlaces(t: Tree, v: Tree, p: Plan, root: Snapshot, x: Ref, s: Snapshot, y: Ref,
      q: Snapshot)
    requires Settling(t, v, p, root) && (x, s) in p.pairs && Shaped(v, x, s) && PlacedAt(v, x, s, y, q)
    ensures (y, q) in p.pairs || ((y, q) in PlantRow(t.next, p.patch.added) && Settled(v, y, q, Table(p, t.next)))
    decreases s
  {
    if !(x == y && s == q) {
      PairedChildren(t, v, p, root, x, s);
      var kids := t.insts[x].children;
      var none := NonePaired(|kids|);
      var news := NewKids(p.patch.added, x, t.next);
      var all := v.insts[x].children;
      var i :| 0 <= i < |s.children| &&
        PlacedAt(v, all[Pairing(v, all, s.children, NonePaired(|all|))[i].value], s.children[i], y, q);
      assert Local(t, p, (x, s).0, (x, s).1);
      var m := TargetOf(t, kids, s.children, none, news, i);
      var j := Pairing(t, kids, s.children, none)[i];
      if j.Some? {
        PairPlaces(t, v, p, root, kids[j.value], s.children[i], y, q);
      } else {
        assert s.children[i] in s.children;
        StandingPlaces(v, news[m], x, s.children[i], Table(p, t.next), y, q);
        RowContains(p.patch.added, t.next, x, m, (y, q));
      }
    }
  }

  /** The node is among the places, and its instance is right about references. */
  lemma NodePlace(t: Tree, v: Tree, p: Plan, s: Snapshot, id: Ref, y: Ref, q: Snapshot)
    requires Settling(t, v, p, s) && (id, s) in p.pairs && Shaped(v, id, s) && PlacedAt(v, id, s, y, q)
    ensures (y, q) in AllPlaces(p, t.next)
  {
    PairPlaces(t, v, p, s, id, s, y, q);
  }

  // ----- and at every place there is a node -----

  lemma PlacedInChild(v: Tree, x: Ref, s: Snapshot, targets: seq<Ref>, i: nat, y: Ref, q: Snapshot)
    requires Shaped(v, x, s) && |targets| == |s.children| && i < |s.children|
    requires PairsAll(v, v.insts[x].children, s.children, targets)
    requires Shaped(v, targets[i], s.children[i]) && PlacedAt(v, targets[i], s.children[i], y, q)
    ensures PlacedAt(v, x, s, y, q)
  {
    assert s.children[i] in s.children;
    var kids := v.insts[x].children;
    assert kids[Pairing(v, kids, s.children, NonePaired(|kids|))[i].value] == targets[i];
  }

  /** A node of a placed node is placed. */
  lemma {:induction false} PlacedThrough(v: Tree, x: Ref, s: Snapshot, c: Ref, r: Snapshot, y: Ref, q: Snapshot)
    requires Shaped(v, x, s) && PlacedAt(v, x, s, c, r) && Shaped(v, c, r) && PlacedAt(v, c, r, y, q)
    ensures PlacedAt(v, x, s, y, q)
    decreases s
  {
    if !(x == c && s == r) {
      var kids := v.insts[x].children;
      var i :| 0 <= i < |s.children| &&
        PlacedAt(v, kids[Pairing(v, kids, s.children, NonePaired(|kids|))[i].value], s.children[i], c, r);
      assert s.children[i] in s.children;
      PlacedThrough(v, kids[Pairing(v, kids, s.children, NonePaired(|kids|))[i].value], s.children[i], c, r, y, q);
    }
  }

  ghost predicate PlacedIn(v: Tree, x: Ref, s: Snapshot, y: (Ref, Snapshot)) {
    Shaped(v, x, s) && PlacedAt(v, x, s, y.0, y.1)
  }

  /** Position by position, a node of some snapshot is placed below its target. */
  ghost predicate PlacedAmong(v: Tree, targets: seq<Ref>, ss: seq<Snapshot>, y: (Ref, Snapshot))
    decreases |ss|
  {
    |targets| == |ss| > 0 && (PlacedIn(v, targets[0], ss[0], y) || PlacedAmong(v, targets[1..], ss[1..], y))
  }

  lemma {:induction false} AmongIndex(v: Tree, targets: seq<Ref>, ss: seq<Snapshot>, y: (Ref, Snapshot))
      returns (i: nat)
    requires PlacedAmong(v, targets, ss, y)
    ensures i < |ss| == |targets| && PlacedIn(v, targets[i], ss[i], y)
    decreases |ss|
  {
    i := 0;
    if !PlacedIn(v, targets[0], ss[0], y) {
      i := AmongIndex(v, targets[1..], ss[1..], y);
      i := i + 1;
    }
  }

  ghost predicate AllAmong(v: Tree, targets: seq<Ref>, ss: seq<Snapshot>, places: Places) {
    forall y :: y in places ==> PlacedAmong(v, targets, ss, y)
  }

  lemma AmongFirst(v: Tree, c: Ref, targets: seq<Ref>, s: Snapshot, ss: seq<Snapshot>, here: Places, later: Places)
    requires |targets| == |ss| && AllAmong(v, targets, ss, later) && forall y :: y in here ==> PlacedIn(v, c, s, y)
    ensures AllAmong(v, [c] + targets, [s] + ss, here + later)
  {
    var all, snaps := [c] + targets, [s] + ss;
    assert all[1..] == targets && snaps[1..] == ss;
    forall y | y in here + later ensures PlacedAmong(v, all, snaps, y) {
      assert y in here || y in later;
    }
  }

  ghost predicate Laid(t: Tree, v: Tree, p: Plan, y: (Ref, Snapshot)) {
    Linked(t, v, p, y.0, y.1) && Shaped(v, y.0, y.1)
  }

  ghost predicate AllLaid(t: Tree, v: Tree, p: Plan) {
    forall y :: y in p.pairs ==> Laid(t, v, p, y)
  }

  lemma PairsLaid(t: Tree, v: Tree, p: Plan, root: Snapshot)
    requires Settling(t, v, p, root)
    ensures AllLaid(t, v, p)
  {
    forall y | y in p.pairs ensures Laid(t, v, p, y) {
      PairedChildren(t, v, p, root, y.0, y.1);
      PairShaped(t, v, p, root, y.0, y.1);
    }
  }

  lemma PairsOfNode(t: Tree, s: Snapshot, x: Ref)
    requires WellFormed(t) && x in t.insts
    ensures PlanNode(t, s, x).pairs
      == [(x, s)] + PlanChildren(t, x, s.children, NonePaired(|t.insts[x].children|)).pairs
  {
  }

  lemma PairsOfChildren(t: Tree, x: Ref, ss: seq<Snapshot>, paired: seq<bool>)
    requires WellFormed(t) && x in t.insts && |paired| == |t.insts[x].children| && ss != []
    ensures var j := FirstFit(t, t.insts[x].children, paired, ss[0], 0);
      && (j.Some? ==> t.insts[x].children[j.value] in t.insts)
      && PlanChildren(t, x, ss, paired).pairs
         == (if j.Some? then PlanNode(t, ss[0], t.insts[x].children[j.value]).pairs else [])
            + PlanChildren(t, x, ss[1..], Mark(paired, j)).pairs
  {
    assert NodeOk(t, x);
  }

  /** The pairs of a plan are places of nodes. */
  lemma {:induction false} PairsPlaced(t: Tree, v: Tree, p: Plan, x: Ref, s: Snapshot)
    requires WellFormed(t) && AllLaid(t, v, p) && x in t.insts
    requires forall y :: y in PlanNode(t, s, x).pairs ==> y in p.pairs
    ensures forall y :: y in PlanNode(t, s, x).pairs ==> PlacedIn(v, x, s, y)
    decreases s, 1
  {
    var kids := t.insts[x].children;
    var none, news := NonePaired(|kids|), NewKids(p.patch.added, x, t.next);
    var rest := PlanChildren(t, x, s.children, none).pairs;
    PairsOfNode(t, s, x);
    assert (x, s) in PlanNode(t, s, x).pairs;
    assert Laid(t, v, p, (x, s));
    forall y | y in rest ensures y in p.pairs { assert y in PlanNode(t, s, x).pairs; }
    PairsPlacedAmong(t, v, p, x, s.children, none, news);
    forall y | y in rest ensures PlacedIn(v, x, s, y) {
      AmongIsBelow(v, x, s, Targets(t, kids, s.children, none, news), y);
    }
  }

  lemma AmongIsBelow(v: Tree, x: Ref, s: Snapshot, targets: seq<Ref>, y: (Ref, Snapshot))
    requires Shaped(v, x, s) && |targets| == |s.children| && PairsAll(v, v.insts[x].children, s.children, targets)
    requires PlacedAmong(v, targets, s.children, y)
    ensures PlacedIn(v, x, s, y)
  {
    var i := AmongIndex(v, targets, s.children, y);
    PlacedInChild(v, x, s, targets, i, y.0, y.1);
  }

  lemma {:induction false} PairsPlacedAmong(t: Tree, v: Tree, p: Plan, x: Ref, ss: seq<Snapshot>, paired: seq<bool>,
      news: seq<Ref>)
    requires WellFormed(t) && AllLaid(t, v, p) && x in t.insts && |paired| == |t.insts[x].children|
    requires |news| == |Unmatched(t, t.insts[x].children, ss, paired)|
    requires forall y :: y in PlanChildren(t, x, ss, paired).pairs ==> y in p.pairs
    ensures AllAmong(v, Targets(t, t.insts[x].children, ss, paired, news), ss, PlanChildren(t, x, ss, paired).pairs)
    decreases ss, 0
  {
    if ss != [] {
      var kids := t.insts[x].children;
      var j := FirstFit(t, kids, paired, ss[0], 0);
      var marked, later := Mark(paired, j), if j.Some? then news else news[1..];
      var a := if j.Some? then PlanNode(t, ss[0], kids[j.value]).pairs else [];
      var b := PlanChildren(t, x, ss[1..], marked).pairs;
      PairsOfChildren(t, x, ss, paired);
      forall y | y in a + b ensures y in p.pairs { assert y in PlanChildren(t, x, ss, paired).pairs; }
      PairsPlacedAmong(t, v, p, x, ss[1..], marked, later);
      if j.Some? { PairsPlaced(t, v, p, kids[j.value], ss[0]); }
      AmongSplit(t, v, kids, ss, paired, news, a, b);
    }
  }

  lemma AmongSplit(t: Tree, v: Tree, kids: seq<Ref>, ss: seq<Snapshot>, paired: seq<bool>, news: seq<Ref>,
      here: Places, later: Places)
    requires |paired| == |kids| && |news| == |Unmatched(t, kids, ss, paired)| && ss != []
    requires var j := FirstFit(t, kids, paired, ss[0], 0);
      && (if j.Some? then forall y :: y in here ==> PlacedIn(v, kids[j.value], ss[0], y) else here == [])
      && AllAmong(v, Targets(t, kids, ss[1..], Mark(paired, j), if j.Some? then news else news[1..]), ss[1..], later)
    ensures AllAmong(v, Targets(t, kids, ss, paired, news), ss, here + later)
  {
    var j := FirstFit(t, kids, paired, ss[0], 0);
    TargetsSplit(t, kids, ss, paired, news);
    assert [ss[0]] + ss[1..] == ss;
    AmongFirst(v, if j.Some? then kids[j.value] else news[0],
      Targets(t, kids, ss[1..], Mark(paired, j), if j.Some? then news else news[1..]), ss[0], ss[1..], here, later);
  }

  /** Among the new instances, the nodes stand in the order of creation. */
  lemma {:induction false} StandingPlaced(v: Tree, n: Ref, parent: Ref, s: Snapshot, ids: map<Ref, Ref>, y: Ref,
      q: Snapshot)
    requires Standing(v, n, parent, s, ids) && Shaped(v, n, s) && (y, q) in PlantList(n, s)
    ensures PlacedAt(v, n, s, y, q)
    decreases s
  {
    if (y, q) != (n, s) {
      var kids := Bases(n + 1, s.children);
      assert v.insts[n].children == kids;
      StandingKeys(v, n + 1, n, s.children, ids);
      FreshPairing(v, s.children, kids);
      var i := InPlantLists(n + 1, s.children, (y, q));
      assert s.children[i] in s.children;
      StandingMirrors(v, kids[i], n, s.children[i], ids);
      StandingPlaced(v, kids[i], n, s.children[i], ids, y, q);
      PlacedInChild(v, n, s, kids, i, y, q);
    }
  }

  lemma {:induction false} InPlantLists(n: Ref, ss: seq<Snapshot>, y: (Ref, Snapshot)) returns (i: nat)
    requires y in PlantLists(n, ss)
    ensures i < |ss| && y in PlantList(Bases(n, ss)[i], ss[i])
    decreases |ss|
  {
    if y in PlantList(n, ss[0]) {
      i := 0;
    } else {
      i := InPlantLists(n + Size(ss[0]), ss[1..], y);
      i := i + 1;
    }
  }

  /** A place among the added rows belongs to one added snapshot, which is one of those
      added below its parent. */
  lemma {:induction false} InPlantRow(n: Ref, added: seq<Add>, y: (Ref, Snapshot)) returns (x: Ref, m: nat)
    requires y in PlantRow(n, added)
    ensures exists a :: a in added && a.parent == x
    ensures m < |NewKids(added, x, n)| == |AddsFor(added, x)|
    ensures y in PlantList(NewKids(added, x, n)[m], AddsFor(added, x)[m])
    decreases |added|
  {
    var a, later := added[0], n + Size(added[0].snap);
    if y in PlantList(n, a.snap) {
      x, m := a.parent, 0;
      assert a in added;
    } else {
      x, m := InPlantRow(later, added[1..], y);
      var b :| b in added[1..] && b.parent == x;
      assert b in added;
      if a.parent == x { m := m + 1; }
    }
    KidsCount(added, x, n);
    KidsSplit(added, x, n);
  }

  lemma KidsSplit(added: seq<Add>, x: Ref, n: Ref)
    requires added != []
    ensures var a, later := added[0], n + Size(added[0].snap);
      && NewKids(added, x, n) == (if a.parent == x then [n] else []) + NewKids(added[1..], x, later)
      && AddsFor(added, x) == (if a.parent == x then [a.snap] else []) + AddsFor(added[1..], x)
  {
  }

  /** Every snapshot child without a partner is the target of its own new instance. */
  lemma {:induction false} UnmatchedTarget(t: Tree, kids: seq<Ref>, ss: seq<Snapshot>, paired: seq<bool>,
      news: seq<Ref>, m: nat) returns (i: nat)
    requires |paired| == |kids| && m < |news| == |Unmatched(t, kids, ss, paired)|
    ensures i < |ss| && Targets(t, kids, ss, paired, news)[i] == news[m] && Unmatched(t, kids, ss, paired)[m] == ss[i]
    decreases |ss|
  {
    var f := FirstFit(t, kids, paired, ss[0], 0);
    TargetsSplit(t, kids, ss, paired, news);
    if f.None? && m == 0 {
      i := 0;
    } else {
      i := UnmatchedTarget(t, kids, ss[1..], Mark(paired, f), if f.Some? then news else news[1..],
        if f.Some? then m else m - 1);
      i := i + 1;
    }
  }

  lemma AddedPlaced(t: Tree, v: Tree, s: Snapshot, id: Ref, y: Ref, q: Snapshot)
    requires WellFormed(t) && id in t.insts && Settling(t, v, PlanNode(t, s, id), s) && Shaped(v, id, s)
    requires (y, q) in PlantRow(t.next, PlanNode(t, s, id).patch.added)
    ensures PlacedAt(v, id, s, y, q)
  {
    var p := PlanNode(t, s, id);
    var x, m := InPlantRow(t.next, p.patch.added, (y, q));
    assert x in Visited(p);
    var r: Snapshot :| (x, r) in p.pairs;
    var kids, news := t.insts[x].children, NewKids(p.patch.added, x, t.next);
    var none := NonePaired(|kids|);
    assert Local(t, p, (x, r).0, (x, r).1);
    PairedChildren(t, v, p, s, x, r);
    PairShaped(t, v, p, s, x, r);
    var i := UnmatchedTarget(t, kids, r.children, none, news, m);
    StandingMirrors(v, news[m], x, r.children[i], Table(p, t.next));
    StandingPlaced(v, news[m], x, r.children[i], Table(p, t.next), y, q);
    PlacedInChild(v, x, r, Targets(t, kids, r.children, none, news), i, y, q);
    PairsLaid(t, v, p, s);
    PairsPlaced(t, v, p, id, s);
    assert PlacedIn(v, id, s, (x, r));
    PlacedThrough(v, id, s, x, r, y, q);
  }

  /** The nodes of the snapshot end up exactly at the places the plan gives them: the
      instances they were paired with, and the new ones in order of creation. */
  lemma PlacesExactly(t: Tree, s: Snapshot, id: Ref, y: Ref, q: Snapshot)
    requires WellFormed(t) && id in t.insts && Clean(t, s)
    ensures Applicable(t, PatchFor(t, Some(s), id)) && Shaped(Reconciled(t, s, id), id, s)
    ensures PlacedAt(Reconciled(t, s, id), id, s, y, q) <==> (y, q) in AllPlaces(PlanNode(t, s, id), t.next)
  {
    ReconcileConverges(t, s, id);
    Settles(t, s, id);
    SettledPlaces(t, Reconciled(t, s, id), s, id, y, q);
  }

  lemma SettledPlaces(t: Tree, v: Tree, s: Snapshot, id: Ref, y: Ref, q: Snapshot)
    requires WellFormed(t) && id in t.insts && Settling(t, v, PlanNode(t, s, id), s) && Shaped(v, id, s)
    requires (id, s) in PlanNode(t, s, id).pairs
    ensures PlacedAt(v, id, s, y, q) <==> (y, q) in AllPlaces(PlanNode(t, s, id), t.next)
  {
    var p := PlanNode(t, s, id);
    if PlacedAt(v, id, s, y, q) { NodePlace(t, v, p, s, id, y, q); }
    if (y, q) in PlantRow(t.next, p.patch.added) { AddedPlaced(t, v, s, id, y, q); }
    if (y, q) in p.pairs {
      PairsLaid(t, v, p, s);
      PairsPlaced(t, v, p, id, s);
      assert PlacedIn(v, id, s, (y, q));
    }
  }

  lemma PlaceInTable(places: Places, y: Ref, q: Snapshot)
    requires forall r: Ref :: r != NO_REF ==> TimesIn(r, places) <= 1
    requires (y, q) in places && q.id != NO_REF
    ensures q.id in IdsOf(places) && IdsOf(places)[q.id] == y
  {
    var i :| 0 <= i < |places| && places[i] == (y, q);
    TableOfDistinct(places, i);
  }

  /** The table of destinations is right: a node with an id is found under that id. */
  lemma DestinationIsThePlace(t: Tree, s: Snapshot, id: Ref, y: Ref, q: Snapshot)
    requires WellFormed(t) && id in t.insts && Clean(t, s) && DistinctSnapshotIds(s)
    requires Applicable(t, PatchFor(t, Some(s), id)) && Shaped(Reconciled(t, s, id), id, s)
    requires PlacedAt(Reconciled(t, s, id), id, s, y, q) && q.id != NO_REF
    ensures q.id in Destinations(t, s, id) && Destinations(t, s, id)[q.id] == y
  {
    Settles(t, s, id);
    NodePlace(t, Reconciled(t, s, id), PlanNode(t, s, id), s, id, y, q);
    PlacesTable(t, s, id);
    PlaceInTable(AllPlaces(PlanNode(t, s, id), t.next), y, q);
  }

  /** A reference to a known id, in a property that nothing else decides. */
  ghost predicate Refers(a: Snapshot, k: string, ids: map<Ref, Ref>) {
    && k in a.props && a.props[k].RefValue? && a.props[k].ref in ids
    && !PivotRuled(a, k) && k !in PointedBy(a.props)
  }

  /** A reference to a known id is translated at every node, paired or added. */
  lemma ReferenceTranslated(t: Tree, v: Tree, p: Plan, s: Snapshot, id: Ref, y: Ref, a: Snapshot, k: string)
    requires Settling(t, v, p, s) && FreshIds(t, s) && (id, s) in p.pairs
    requires Shaped(v, id, s) && PlacedAt(v, id, s, y, a) && Refers(a, k, Table(p, t.next))
    ensures y in v.insts && k in v.insts[y].props
    ensures v.insts[y].props[k] == RefValue(Table(p, t.next)[a.props[k].ref])
  {
    PairPlaces(t, v, p, s, id, s, y, a);
    if (y, a) in p.pairs {
      PairTranslated(t, v, p, s, y, a, k);
    } else {
      assert Settled(v, y, a, Table(p, t.next));
      assert PropSettled(v.insts[y].props, a, Table(p, t.next), k);
    }
  }

  lemma PairTranslated(t: Tree, v: Tree, p: Plan, s: Snapshot, y: Ref, a: Snapshot, k: string)
    requires Settling(t, v, p, s) && FreshIds(t, s) && (y, a) in p.pairs && Refers(a, k, Table(p, t.next))
    ensures y in v.insts && k in v.insts[y].props
    ensures v.insts[y].props[k] == RefValue(Table(p, t.next)[a.props[k].ref])
  {
    TablesGood(t, p, s);
    PairProps(t, v, p, s, y, a);
    var after := PropsAfter(t.insts[y].props, a, p.ids, AddedIds(t.next, p.patch.added));
    PropTranslated(t.insts[y].props, a, p.ids, AddedIds(t.next, p.patch.added), k);
    assert AgreeAt(v.insts[y].props, after, k);
  }

  lemma PropTranslated(actual: Props, a: Snapshot, m: map<Ref, Ref>, b: map<Ref, Ref>, k: string)
    requires Composable(m, b) && NO_REF !in m && OutsideTable(actual, b + m)
    requires forall i :: i in m ==> m[i] != NO_REF
    requires NO_REF !in b && Refers(a, k, b + m)
    ensures var r := PropsAfter(actual, a, m, b);
      k in r && r[k] == RefValue((b + m)[a.props[k].ref])
  {
    PropAfter(actual, a, m, b, k);
  }

  lemma PairProps(t: Tree, v: Tree, p: Plan, s: Snapshot, y: Ref, a: Snapshot)
    requires Settling(t, v, p, s) && FreshIds(t, s) && (y, a) in p.pairs
    requires Table(p, t.next).Keys <= IdsIn(s)
    ensures y in t.insts && y in v.insts
    ensures AgreeOff(v.insts[y].props, PropsAfter(t.insts[y].props, a, p.ids, AddedIds(t.next, p.patch.added)),
                     PointedBy(a.props))
    ensures OutsideTable(t.insts[y].props, Table(p, t.next))
  {
    assert (y, a).0 in t.insts && PairDone(t, v, p, (y, a).0, (y, a).1);
  }

  lemma TablesGood(t: Tree, p: Plan, s: Snapshot)
    requires WellFormed(t) && GoodPlan(t, s, p) && FreshIds(t, s)
    ensures Composable(p.ids, AddedIds(t.next, p.patch.added)) && NO_REF !in p.ids
    ensures forall i :: i in p.ids ==> p.ids[i] != NO_REF
    ensures Table(p, t.next).Keys <= IdsIn(s) && NO_REF !in Table(p, t.next)
  {
    PlanComposable(t, s, p);
    NoNullIds(s);
    forall i | i in p.ids ensures p.ids[i] != NO_REF {
      assert p.ids[i] in Visited(p);
      LiveRange(t, p.ids[i]);
    }
  }

  /** Ref translation. When the node `a` holds, under `k`, a reference to the node
      `b`, then afterwards the instance of `a` holds, under `k`, a reference to the
      instance of `b`, whether they were paired with old instances or created. Only a
      pointer attribute for `k` would overrule that. */
  lemma ReferencesFollowTheirTargets(t: Tree, s: Snapshot, id: Ref, y: Ref, a: Snapshot, k: string, z: Ref, b: Snapshot)
    requires WellFormed(t) && id in t.insts && Clean(t, s) && DistinctSnapshotIds(s)
    requires Applicable(t, PatchFor(t, Some(s), id)) && Shaped(Reconciled(t, s, id), id, s)
    requires PlacedAt(Reconciled(t, s, id), id, s, y, a) && PlacedAt(Reconciled(t, s, id), id, s, z, b)
    requires k in a.props && a.props[k] == RefValue(b.id) && b.id != NO_REF
    requires !PivotRuled(a, k) && k !in PointedBy(a.props)
    ensures var v := Reconciled(t, s, id);
      y in v.insts && k in v.insts[y].props && v.insts[y].props[k] == RefValue(z)
  {
    DestinationIsThePlace(t, s, id, z, b);
    Settles(t, s, id);
    ReferenceTranslated(t, Reconciled(t, s, id), PlanNode(t, s, id), s, id, y, a, k);
  }
}
