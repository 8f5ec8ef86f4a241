/** Reconciling the same snapshot a second time (src/snapshot/patch_compute.rs). */
module Idempotence {
  import opened Basics
  import opened Values
  import opened TreeModel
  import opened PatchPlan
  import opened PlanFacts
  import opened PatchEffect
  import opened EffectFacts
  import opened Outcome
  import opened Pointers
  import opened FinalTree
  import opened Convergence
  import opened Reconciliation
  import opened RefTranslation
  import opened CarrierFacts
  import opened PointerSettling

  // ----- the second plan -----

  /** The instance already has all that the node asks for. */
  ghost predicate QuietAt(t: Tree, x: Ref, s: Snapshot) {
    x in t.insts && x in t.meta && ChangesNothing(NodeUpdate(t, s, x))
  }

  /** So have all instances below it that the pairing gives to its nodes. */
  ghost predicate Quiet(t: Tree, x: Ref, s: Snapshot)
    decreases s, 1
  {
    && QuietAt(t, x, s)
    && (var kids := t.insts[x].children;
        EachQuiet(t, kids, s.children, Pairing(t, kids, s.children, NonePaired(|kids|))))
  }

  ghost predicate EachQuiet(t: Tree, kids: seq<Ref>, ss: seq<Snapshot>, pairing: seq<Option<nat>>)
    decreases ss, 0
  {
    && |pairing| == |ss|
    && (ss == [] ||
        (pairing[0].Some? && pairing[0].value < |kids| && Quiet(t, kids[pairing[0].value], ss[0])
         && EachQuiet(t, kids, ss[1..], pairing[1..])))
  }

  lemma {:induction false} EachQuietByIndex(t: Tree, kids: seq<Ref>, ss: seq<Snapshot>, pairing: seq<Option<nat>>)
    requires |pairing| == |ss| && forall i :: 0 <= i < |ss| ==> pairing[i].Some? && pairing[i].value < |kids|
    ensures EachQuiet(t, kids, ss, pairing) <==> forall i :: 0 <= i < |ss| ==> Quiet(t, kids[pairing[i].value], ss[i])
    decreases |ss|
  {
    if ss != [] {
      EachQuietByIndex(t, kids, ss[1..], pairing[1..]);
      assert forall i :: 0 < i < |ss| ==> ss[i] == ss[1..][i - 1] && pairing[i] == pairing[1..][i - 1];
    }
  }

  /** Quiet below means quiet wherever a node is placed, ... */
  lemma {:induction false} QuietAtPlace(t: Tree, x: Ref, s: Snapshot, y: Ref, q: Snapshot)
    requires Shaped(t, x, s) && Quiet(t, x, s) && PlacedAt(t, x, s, y, q)
    ensures QuietAt(t, y, q)
    decreases s
  {
    if !(x == y && s == q) {
      var kids := t.insts[x].children;
      var pairing := Pairing(t, kids, s.children, NonePaired(|kids|));
      var i :| 0 <= i < |s.children| && PlacedAt(t, kids[pairing[i].value], s.children[i], y, q);
      EachQuietByIndex(t, kids, s.children, pairing);
      assert s.children[i] in s.children;
      QuietAtPlace(t, kids[pairing[i].value], s.children[i], y, q);
    }
  }

  /** ... and otherwise there is a place where it is not. */
  lemma {:induction false} LoudPlace(t: Tree, x: Ref, s: Snapshot) returns (y: Ref, q: Snapshot)
    requires Shaped(t, x, s) && !Quiet(t, x, s)
    ensures PlacedAt(t, x, s, y, q) && !QuietAt(t, y, q)
    decreases s
  {
    if !QuietAt(t, x, s) {
      y, q := x, s;
    } else {
      var kids := t.insts[x].children;
      var pairing := Pairing(t, kids, s.children, NonePaired(|kids|));
      EachQuietByIndex(t, kids, s.children, pairing);
      var i :| 0 <= i < |s.children| && !Quiet(t, kids[pairing[i].value], s.children[i]);
      assert s.children[i] in s.children;
      y, q := LoudPlace(t, kids[pairing[i].value], s.children[i]);
    }
  }

  lemma AllPaired(t: Tree, kids: seq<Ref>, paired: seq<bool>)
    requires |paired| == |kids| && forall j :: 0 <= j < |kids| ==> paired[j]
    ensures Unpaired(kids, paired) == []
  {
    assert forall x :: x in Unpaired(kids, paired) ==> false;
  }

  lemma EmptyParts(a: Plan, b: Plan)
    ensures Then(a, b).patch == EMPTY_PATCH <==> a.patch == EMPTY_PATCH && b.patch == EMPTY_PATCH
  {
    assert |a.patch.removed + b.patch.removed| == |a.patch.removed| + |b.patch.removed|;
    assert |a.patch.added + b.patch.added| == |a.patch.added| + |b.patch.added|;
    assert |a.patch.updated + b.patch.updated| == |a.patch.updated| + |b.patch.updated|;
  }

  /** On a tree shaped like the snapshot, planning finds nothing exactly when the tree
      is quiet. */
  lemma {:induction false} EmptyPlan(t: Tree, x: Ref, s: Snapshot)
    requires WellFormed(t) && Shaped(t, x, s)
    ensures PlanNode(t, s, x).patch == EMPTY_PATCH <==> Quiet(t, x, s)
    decreases s, 1
  {
    var kids := t.insts[x].children;
    var none := NonePaired(|kids|);
    EmptyParts(NodePlan(t, s, x), PlanChildren(t, x, s.children, none));
    assert NodePlan(t, s, x).patch == EMPTY_PATCH <==> QuietAt(t, x, s);
    EmptyPlanAmong(t, x, s.children, none);
  }

  ghost predicate EachShaped(t: Tree, kids: seq<Ref>, ss: seq<Snapshot>, pairing: seq<Option<nat>>) {
    |pairing| == |ss| && forall i :: 0 <= i < |ss| ==>
      pairing[i].Some? && pairing[i].value < |kids| && Shaped(t, kids[pairing[i].value], ss[i])
  }

  lemma EachShapedTail(t: Tree, kids: seq<Ref>, ss: seq<Snapshot>, j: Option<nat>, tail: seq<Option<nat>>)
    requires ss != [] && EachShaped(t, kids, ss, [j] + tail)
    ensures j.Some? && j.value < |kids| && Shaped(t, kids[j.value], ss[0]) && EachShaped(t, kids, ss[1..], tail)
  {
    var all := [j] + tail;
    assert all[0] == j;
    forall i | 0 <= i < |tail| ensures tail[i].Some? && tail[i].value < |kids|
      && Shaped(t, kids[tail[i].value], ss[1..][i]) {
      assert all[i + 1] == tail[i] && ss[1..][i] == ss[i + 1];
    }
  }

  lemma {:induction false} EmptyPlanAmong(t: Tree, x: Ref, ss: seq<Snapshot>, paired: seq<bool>)
    requires WellFormed(t) && x in t.insts && |paired| == |t.insts[x].children|
    requires forall j :: 0 <= j < |paired| ==> Final(t, t.insts[x].children, ss, paired)[j]
    requires EachShaped(t, t.insts[x].children, ss, Pairing(t, t.insts[x].children, ss, paired))
    ensures PlanChildren(t, x, ss, paired).patch == EMPTY_PATCH
      <==> EachQuiet(t, t.insts[x].children, ss, Pairing(t, t.insts[x].children, ss, paired))
    decreases ss, 0
  {
    var kids := t.insts[x].children;
    assert NodeOk(t, x);
    if ss == [] {
      assert Final(t, kids, ss, paired) == paired;
      AllPaired(t, kids, paired);
    } else {
      var j := FirstFit(t, kids, paired, ss[0], 0);
      var tail := Pairing(t, kids, ss[1..], Mark(paired, j));
      EachShapedTail(t, kids, ss, j, tail);
      assert Final(t, kids, ss, paired) == Final(t, kids, ss[1..], Mark(paired, j));
      EmptyParts(PlanChild(t, x, ss[0], j), PlanChildren(t, x, ss[1..], Mark(paired, j)));
      EmptyPlan(t, kids[j.value], ss[0]);
      EmptyPlanAmong(t, x, ss[1..], Mark(paired, j));
      assert ([j] + tail)[0] == j && ([j] + tail)[1..] == tail;
    }
  }

  // ----- one instance -----

  /** The node sets the forced pivot property itself, and no pointer does. */
  predicate AsksForPivot(q: Snapshot) {
    ModelLike(q.className) && PIVOT in q.props && PIVOT !in PointedBy(q.props)
  }

  function PointerText(q: Snapshot, k: string): (u: string)
    requires k in PointedBy(q.props)
    ensures Points(q, k, u)
  {
    TextOf(AttributesOf(q.props).value[PointerName(k)]).value
  }

  /** The pointer leaves nothing to do: the instance has what it stands for, or the pivot
      rule leaves a present value alone because the pointer leads nowhere. */
  ghost predicate PointerThere(v: Tree, actual: Props, q: Snapshot, k: string, u: string) {
    if PivotRuled(q, k) then PIVOT in actual && SpecifiedRef(v, u).None?
    else AlreadySo(PointedValue(v, u), actual, k)
  }

  /** Where a pointer decides, a change is left exactly when something is to do. */
  lemma PointedChange(v: Tree, q: Snapshot, y: Ref, k: string)
    requires y in v.insts && y in v.meta && k in PointedBy(q.props)
    ensures k in NodeUpdate(v, q, y).props <==> !PointerThere(v, v.insts[y].props, q, k, PointerText(q, k))
  {
    var actual := v.insts[y].props;
    var refs := AttributeRefs(v, q.props);
    var overlay := OverlayRefs(BaseChanges(q.props, actual), refs, actual);
    assert k in refs && refs[k] == PointedValue(v, PointerText(q, k));
    if k != PIVOT { PivotElsewhere(overlay, q.className, actual, k); }
    assert k in overlay <==> !AlreadySo(refs[k], actual, k);
  }

  /** An explicit pivot on a model-like class is emitted whatever the instance has. */
  lemma PivotAlwaysEmitted(t: Tree, x: Ref, s: Snapshot)
    requires x in t.insts && x in t.meta && PIVOT !in PointedBy(s.props)
    requires ModelLike(s.className) && PIVOT in s.props
    ensures PIVOT in NodeUpdate(t, s, x).props
  {
    NodeChange(t, s, x, PIVOT);
  }

  /** Without an explicit pivot, a change is left among the properties that pointers do
      not decide exactly where a value is missing. */
  lemma ValuesQuiet(q: Snapshot, actual: Props)
    requires !AsksForPivot(q)
    requires forall k :: k in actual && k !in q.props && k !in PointedBy(q.props) ==> PivotRuled(q, k)
    requires ModelLike(q.className) && PIVOT !in PointedBy(q.props) ==> PIVOT in actual
    ensures var c := PivotRule(BaseChanges(q.props, actual), q.className, actual);
      forall k :: k !in PointedBy(q.props) ==>
        (k in c <==> k in q.props && !(k in actual && VariantEq(q.props[k], actual[k])))
  {
    var base := BaseChanges(q.props, actual);
    var c := PivotRule(base, q.className, actual);
    forall k | k !in PointedBy(q.props)
      ensures k in c <==> k in q.props && !(k in actual && VariantEq(q.props[k], actual[k]))
    {
      if k != PIVOT { PivotElsewhere(base, q.className, actual, k); }
      assert k in base <==>
        (k in q.props || k in actual) && !(k in q.props && k in actual && VariantEq(q.props[k], actual[k]));
    }
  }

  /** The values a node asks for outside its pointers are there, untranslated. */
  ghost predicate ValuesThere(actual: Props, q: Snapshot) {
    forall k :: k in q.props && k !in PointedBy(q.props) ==> k in actual && VariantEq(q.props[k], actual[k])
  }

  ghost predicate PointersThere(v: Tree, actual: Props, q: Snapshot) {
    forall k, u :: Points(q, k, u) ==> PointerThere(v, actual, q, k, u)
  }

  /** No change is left exactly when all values and pointers are there. */
  lemma ChangesGone(v: Tree, y: Ref, q: Snapshot)
    requires y in v.insts && y in v.meta && !AsksForPivot(q)
    requires forall k :: k in v.insts[y].props && k !in q.props && k !in PointedBy(q.props) ==> PivotRuled(q, k)
    requires ModelLike(q.className) && PIVOT !in PointedBy(q.props) ==> PIVOT in v.insts[y].props
    ensures NodeUpdate(v, q, y).props == map[] <==>
      ValuesThere(v.insts[y].props, q) && PointersThere(v, v.insts[y].props, q)
  {
    var actual, c := v.insts[y].props, NodeUpdate(v, q, y).props;
    var d := PivotRule(BaseChanges(q.props, actual), q.className, actual);
    ValuesQuiet(q, actual);
    forall k | k !in PointedBy(q.props) ensures k in c <==> k in d { NodeChange(v, q, y, k); }
    if ValuesThere(actual, q) && PointersThere(v, actual, q) {
      forall k ensures k !in c {
        if k in PointedBy(q.props) { PointedChange(v, q, y, k); }
      }
    }
    if c == map[] {
      forall k, u | Points(q, k, u) ensures PointerThere(v, actual, q, k, u) {
        assert k in PointedBy(q.props);
        PointedChange(v, q, y, k);
        assert PointerText(q, k) == u;
      }
      forall k | k in q.props && k !in PointedBy(q.props) ensures k in actual && VariantEq(q.props[k], actual[k]) {
        assert k !in c;
      }
    }
  }

  /** What the first pass has left at a place, given which null references it kept. */
  ghost predicate LeftOf(actual: Props, q: Snapshot, ids: map<Ref, Ref>, kept: set<string>) {
    && (forall k :: k in actual && k !in q.props && k !in PointedBy(q.props) ==> PivotRuled(q, k))
    && (ModelLike(q.className) && PIVOT !in q.props && PIVOT !in PointedBy(q.props) ==> PIVOT in actual)
    && forall k :: k in q.props && k !in PointedBy(q.props) && !PivotRuled(q, k) ==>
         (PropSettled(actual, q, ids, k) <==> (q.props[k] == RefValue(NO_REF) ==> k in kept))
  }

  /** No reference of the node was translated, and its null references were kept. */
  ghost predicate RefsThere(q: Snapshot, ids: map<Ref, Ref>, kept: set<string>) {
    forall k :: k in q.props && k !in PointedBy(q.props) ==>
      Translate(ids, q.props[k]) == q.props[k] && (q.props[k] == RefValue(NO_REF) ==> k in kept)
  }

  /** What the second pass looks at. */
  lemma QuietExactly(v: Tree, y: Ref, q: Snapshot, ids: map<Ref, Ref>, kept: set<string>)
    requires y in v.insts && y in v.meta && v.insts[y].name == q.name && v.insts[y].className == q.className
    requires NO_REF !in ids && LeftOf(v.insts[y].props, q, ids, kept)
    ensures QuietAt(v, y, q) <==>
      && v.meta[y] == q.meta && !AsksForPivot(q)
      && RefsThere(q, ids, kept) && PointersThere(v, v.insts[y].props, q)
  {
    if AsksForPivot(q) {
      PivotAlwaysEmitted(v, y, q);
    } else {
      ChangesGone(v, y, q);
      LeftValues(v.insts[y].props, q, ids, kept);
    }
  }

  lemma LeftValues(actual: Props, q: Snapshot, ids: map<Ref, Ref>, kept: set<string>)
    requires NO_REF !in ids && LeftOf(actual, q, ids, kept) && !AsksForPivot(q)
    ensures ValuesThere(actual, q) <==> RefsThere(q, ids, kept)
  {
    forall k | k in q.props && k !in PointedBy(q.props)
      ensures k in actual && VariantEq(q.props[k], actual[k]) <==>
        Translate(ids, q.props[k]) == q.props[k] && (q.props[k] == RefValue(NO_REF) ==> k in kept)
    {
      assert !PivotRuled(q, k);
      assert PropSettled(actual, q, ids, k) <==> (q.props[k] == RefValue(NO_REF) ==> k in kept);
    }
  }

  // ----- every place -----

  /** The null references that an instance had before; a new one has what it is given. */
  function NullsOf(t: Tree, y: Ref, q: Snapshot): (r: set<string>) {
    if y in t.insts then set k | k in t.insts[y].props && t.insts[y].props[k] == RefValue(NO_REF) else q.props.Keys
  }

  /** A pointer has nothing to do when the carrier will be the one from before, or when
      an update or creation will resolve it; a new instance without a carrier must not
      have the property at all. A pointer to the forced pivot must lead nowhere. */
  ghost predicate PointerRepeats(t: Tree, p: Plan, y: Ref, q: Snapshot, k: string, u: string) {
    var z := CarrierAfter(t, p, u);
    if PivotRuled(q, k) then z.None?
    else if y in t.insts then SpecifiedRef(t, u) == z || (z.Some? && WillResolve(t, y, q))
    else z.Some? || k !in q.props
  }

  /** Reconciling again finds nothing to do for a node of the snapshot when it asks for
      no pivot, when none of its references was translated, when its null references
      were there before, when no `Rojo_Id` has replaced the id of its metadata, and when
      its pointers have stayed or have been resolved. */
  ghost predicate Repeats(t: Tree, p: Plan, y: Ref, q: Snapshot, ids: map<Ref, Ref>) {
    && !AsksForPivot(q)
    && RefsThere(q, ids, NullsOf(t, y, q))
    && (PlantedMeta(q) == q.meta || (y in t.insts && !WillResolve(t, y, q)))
    && forall k, u :: Points(q, k, u) ==> PointerRepeats(t, p, y, q, k, u)
  }

  /** What pointers have left at a visited instance ... */
  ghost predicate PairPointed(t: Tree, v: Tree, p: Plan, x: Ref, q: Snapshot) {
    && x in t.insts && x in t.meta && x in v.insts
    && forall k, u :: Points(q, k, u) ==> PairPointedAt(t, v.insts[x].props, x, q, k, CarrierAfter(t, p, u), u)
  }

  ghost predicate PairPointedAt(t: Tree, after: Props, x: Ref, q: Snapshot, k: string, z: Option<Ref>, u: string) {
    if WillResolve(t, x, q) && z.Some? then AlreadySo(RefTo(z), after, k)
    else if PivotRuled(q, k) then PIVOT in after
    else AlreadySo(RefTo(SpecifiedRef(t, u)), after, k)
  }

  /** ... and at a new one. */
  ghost predicate NewPointed(t: Tree, v: Tree, p: Plan, y: Ref, q: Snapshot) {
    && y in v.insts
    && forall k, u :: Points(q, k, u) ==>
         if CarrierAfter(t, p, u).Some? then AlreadySo(RefTo(CarrierAfter(t, p, u)), v.insts[y].props, k)
         else k in v.insts[y].props <==> k in q.props || PivotRuled(q, k)
  }

  /** The plan tells what every id will stand for. */
  ghost predicate Foretold(t: Tree, v: Tree, p: Plan) {
    forall u :: SpecifiedRef(v, u) == CarrierAfter(t, p, u)
  }

  lemma PairPointers(t: Tree, v: Tree, p: Plan, y: Ref, q: Snapshot)
    requires Foretold(t, v, p) && PairPointed(t, v, p, y, q)
    ensures PointersThere(v, v.insts[y].props, q) <==>
      forall k, u :: Points(q, k, u) ==> PointerRepeats(t, p, y, q, k, u)
  {
    forall k, u | Points(q, k, u)
      ensures PointerThere(v, v.insts[y].props, q, k, u) <==> PointerRepeats(t, p, y, q, k, u)
    {
      assert SpecifiedRef(v, u) == CarrierAfter(t, p, u);
    }
  }

  lemma NewPointers(t: Tree, v: Tree, p: Plan, y: Ref, q: Snapshot)
    requires Foretold(t, v, p) && NewPointed(t, v, p, y, q) && y !in t.insts
    ensures PointersThere(v, v.insts[y].props, q) <==>
      forall k, u :: Points(q, k, u) ==> PointerRepeats(t, p, y, q, k, u)
  {
    forall k, u | Points(q, k, u)
      ensures PointerThere(v, v.insts[y].props, q, k, u) <==> PointerRepeats(t, p, y, q, k, u)
    {
      assert SpecifiedRef(v, u) == CarrierAfter(t, p, u);
    }
  }

  lemma PairRepeats(t: Tree, v: Tree, p: Plan, s: Snapshot, y: Ref, q: Snapshot)
    requires Settling(t, v, p, s) && FreshIds(t, s) && (y, q) in p.pairs
    requires Foretold(t, v, p) && PairPointed(t, v, p, y, q)
    ensures QuietAt(v, y, q) <==> Repeats(t, p, y, q, Table(p, t.next))
  {
    PairLeaves(t, v, p, s, y, q);
    PairLeft(t, v, p, s, y, q);
    PairPointers(t, v, p, y, q);
    QuietExactly(v, y, q, Table(p, t.next), NullsOf(t, y, q));
  }

  lemma PairLeft(t: Tree, v: Tree, p: Plan, s: Snapshot, y: Ref, q: Snapshot)
    requires Settling(t, v, p, s) && FreshIds(t, s) && (y, q) in p.pairs
    ensures y in t.insts && y in v.insts && NO_REF !in Table(p, t.next)
    ensures LeftOf(v.insts[y].props, q, Table(p, t.next), NullsOf(t, y, q))
  {
    TablesGood(t, p, s);
    PairProps(t, v, p, s, y, q);
    ValuesAfter(t.insts[y].props, v.insts[y].props, q, p.ids, AddedIds(t.next, p.patch.added), NullsOf(t, y, q));
  }

  lemma PairLeaves(t: Tree, v: Tree, p: Plan, s: Snapshot, y: Ref, q: Snapshot)
    requires Settling(t, v, p, s) && (y, q) in p.pairs
    ensures y in t.insts && y in t.meta && y in v.insts && y in v.meta
    ensures v.insts[y].name == q.name && v.insts[y].className == q.className
    ensures v.meta[y] == q.meta <==> PlantedMeta(q) == q.meta || !WillResolve(t, y, q)
  {
    assert (y, q).0 in t.insts && PairDone(t, v, p, (y, q).0, (y, q).1);
  }

  /** What the first pass has left of the values a node asks for. */
  lemma ValuesAfter(before: Props, actual: Props, q: Snapshot, a: map<Ref, Ref>, b: map<Ref, Ref>, kept: set<string>)
    requires Composable(a, b) && NO_REF !in a && OutsideTable(before, b + a)
    requires forall i :: i in a ==> a[i] != NO_REF
    requires AgreeOff(actual, PropsAfter(before, q, a, b), PointedBy(q.props))
    requires kept == set k | k in before && before[k] == RefValue(NO_REF)
    ensures LeftOf(actual, q, b + a, kept)
  {
    var after := PropsAfter(before, q, a, b);
    forall k | k !in PointedBy(q.props) && !PivotRuled(q, k)
      ensures PropSettled(actual, q, b + a, k) <==> (k in q.props ==> NullThere(before, q, k))
    {
      assert AgreeAt(actual, after, k);
      PropAfter(before, q, a, b, k);
    }
    if ModelLike(q.className) && PIVOT !in PointedBy(q.props) {
      assert AgreeAt(actual, after, PIVOT);
      PivotAfter(before, q, a, b);
    }
  }

  lemma {:induction false} RowStandsAt(v: Tree, n: Ref, added: seq<Add>, ids: map<Ref, Ref>, y: (Ref, Snapshot))
    requires RowStanding(v, n, added, ids) && y in PlantRow(n, added)
    ensures y.0 >= n && exists parent :: StandsOne(v, y.0, parent, y.1, ids)
    decreases |added|
  {
    if y in PlantList(n, added[0].snap) {
      StandsAt(v, n, added[0].parent, added[0].snap, ids, y);
    } else {
      RowStandsAt(v, n + Size(added[0].snap), added[1..], ids, y);
    }
  }

  lemma {:induction false} StandsAt(v: Tree, n: Ref, parent: Ref, s: Snapshot, ids: map<Ref, Ref>, y: (Ref, Snapshot))
    requires Standing(v, n, parent, s, ids) && y in PlantList(n, s)
    ensures y.0 >= n && exists above :: StandsOne(v, y.0, above, y.1, ids)
    decreases s, 1
  {
    if y != (n, s) {
      StandAt(v, n + 1, n, s.children, ids, y);
    } else {
      assert StandsOne(v, y.0, parent, y.1, ids);
    }
  }

  lemma {:induction false} StandAt(v: Tree, n: Ref, parent: Ref, ss: seq<Snapshot>, ids: map<Ref, Ref>,
      y: (Ref, Snapshot))
    requires StandingAll(v, n, parent, ss, ids) && y in PlantLists(n, ss)
    ensures y.0 >= n && exists above :: StandsOne(v, y.0, above, y.1, ids)
    decreases ss, 0
  {
    if y in PlantList(n, ss[0]) {
      StandsAt(v, n, parent, ss[0], ids, y);
    } else {
      StandAt(v, n + Size(ss[0]), parent, ss[1..], ids, y);
    }
  }

  lemma AddedRepeats(t: Tree, v: Tree, p: Plan, s: Snapshot, y: Ref, q: Snapshot)
    requires Settling(t, v, p, s) && FreshIds(t, s) && NewPointed(t, v, p, y, q)
    requires Foretold(t, v, p)
    requires (y, q) in PlantRow(t.next, p.patch.added)
    ensures QuietAt(v, y, q) <==> Repeats(t, p, y, q, Table(p, t.next))
  {
    var ids := Table(p, t.next);
    TablesGood(t, p, s);
    RowStandsAt(v, t.next, p.patch.added, ids, (y, q));
    var parent :| StandsOne(v, y, parent, q, ids);
    LiveRange(t, y);
    StandingSettled(v, y, parent, q, ids);
    SettledLeft(v, y, q, ids);
    NewPointers(t, v, p, y, q);
    QuietExactly(v, y, q, ids, q.props.Keys);
  }

  lemma SettledLeft(v: Tree, y: Ref, q: Snapshot, ids: map<Ref, Ref>)
    requires Settled(v, y, q, ids)
    ensures LeftOf(v.insts[y].props, q, ids, q.props.Keys)
  {
    var actual := v.insts[y].props;
    forall k | k !in PointedBy(q.props) ensures PropSettled(actual, q, ids, k) {}
    if ModelLike(q.className) && PIVOT !in PointedBy(q.props) { assert PropSettled(actual, q, ids, PIVOT); }
    forall k | k in actual && k !in q.props && k !in PointedBy(q.props) ensures PivotRuled(q, k) {
      assert PropSettled(actual, q, ids, k);
    }
  }

  /** Idempotence, exactly: reconciling a second time computes the empty patch if and
      only if no place of a node, as planned the first time, gives it a reason to do
      otherwise. */
  lemma SecondReconcileIsEmpty(t: Tree, s: Snapshot, id: Ref)
    requires WellFormed(t) && id in t.insts && Clean(t, s)
    ensures Applicable(t, PatchFor(t, Some(s), id))
    ensures var v := Reconciled(t, s, id);
      && WellFormed(v) && id in v.insts
      && (PatchFor(v, Some(s), id) == EMPTY_PATCH <==>
            var p := PlanNode(t, s, id);
            forall x :: x in AllPlaces(p, t.next) ==> Repeats(t, p, x.0, x.1, Destinations(t, s, id)))
  {
    ReconcileConverges(t, s, id);
    Settles(t, s, id);
    var v, p := Reconciled(t, s, id), PlanNode(t, s, id);
    RewrittenEmpty(PlanNode(v, s, id));
    EmptyPlan(v, id, s);
    AllPointed(t, s, id);
    QuietPlaces(t, v, s, id);
  }

  ghost predicate EachPointed(t: Tree, v: Tree, p: Plan) {
    && Foretold(t, v, p)
    && (forall x :: x in p.pairs ==> PairPointed(t, v, p, x.0, x.1))
    && (forall x :: x in PlantRow(t.next, p.patch.added) ==> NewPointed(t, v, p, x.0, x.1))
  }

  lemma AllPointed(t: Tree, s: Snapshot, id: Ref)
    requires WellFormed(t) && id in t.insts && FreshIds(t, s) && AttributesStated(s)
    ensures Applicable(t, PatchFor(t, Some(s), id)) && EachPointed(t, Reconciled(t, s, id), PlanNode(t, s, id))
  {
    PlanIsGood(t, s, id);
    PlanApplicable(t, s, PlanNode(t, s, id));
    var v, p := Reconciled(t, s, id), PlanNode(t, s, id);
    forall u ensures SpecifiedRef(v, u) == CarrierAfter(t, p, u) { CarrierExactly(t, s, id, u); }
    forall x | x in p.pairs ensures PairPointed(t, v, p, x.0, x.1) {
      PairIsPointed(t, s, id, x.0, x.1);
    }
    forall x | x in PlantRow(t.next, p.patch.added) ensures NewPointed(t, v, p, x.0, x.1) {
      NewIsPointed(t, s, id, x.0, x.1);
    }
  }

  lemma PairIsPointed(t: Tree, s: Snapshot, id: Ref, x: Ref, q: Snapshot)
    requires WellFormed(t) && id in t.insts && FreshIds(t, s) && AttributesStated(s)
    requires (x, q) in PlanNode(t, s, id).pairs
    ensures Applicable(t, PatchFor(t, Some(s), id))
    ensures PairPointed(t, Reconciled(t, s, id), PlanNode(t, s, id), x, q)
  {
    PairState(t, s, id, x, q);
    var v, p := Reconciled(t, s, id), PlanNode(t, s, id);
    forall k, u | Points(q, k, u)
      ensures PairPointedAt(t, v.insts[x].props, x, q, k, CarrierAfter(t, p, u), u)
    {
      PointersSettle(t, s, id, x, q, k, u);
    }
  }

  lemma NewIsPointed(t: Tree, s: Snapshot, id: Ref, y: Ref, q: Snapshot)
    requires WellFormed(t) && id in t.insts && FreshIds(t, s) && AttributesStated(s)
    requires (y, q) in PlantRow(t.next, PlanNode(t, s, id).patch.added)
    ensures Applicable(t, PatchFor(t, Some(s), id))
    ensures NewPointed(t, Reconciled(t, s, id), PlanNode(t, s, id), y, q)
  {
    AddedLives(t, s, id, y, q);
    var v, p := Reconciled(t, s, id), PlanNode(t, s, id);
    forall k, u | Points(q, k, u)
      ensures if CarrierAfter(t, p, u).Some? then AlreadySo(RefTo(CarrierAfter(t, p, u)), v.insts[y].props, k)
        else k in v.insts[y].props <==> k in q.props || PivotRuled(q, k)
    {
      AddedPointersSettle(t, s, id, y, q, k, u);
    }
  }

  lemma AddedLives(t: Tree, s: Snapshot, id: Ref, y: Ref, q: Snapshot)
    requires WellFormed(t) && id in t.insts && FreshIds(t, s)
    requires (y, q) in PlantRow(t.next, PlanNode(t, s, id).patch.added)
    ensures Applicable(t, PatchFor(t, Some(s), id)) && y in Reconciled(t, s, id).insts
  {
    AddedStand(t, s, id);
    AddedNoted(t, s, id, (y, q).0);
  }

  lemma QuietPlaces(t: Tree, v: Tree, s: Snapshot, id: Ref)
    requires WellFormed(t) && id in t.insts && FreshIds(t, s) && EachPointed(t, v, PlanNode(t, s, id))
    requires Settling(t, v, PlanNode(t, s, id), s) && (id, s) in PlanNode(t, s, id).pairs && Shaped(v, id, s)
    ensures var p := PlanNode(t, s, id);
      Quiet(v, id, s) <==> forall x :: x in AllPlaces(p, t.next) ==> Repeats(t, p, x.0, x.1, Table(p, t.next))
  {
    var p := PlanNode(t, s, id);
    if Quiet(v, id, s) {
      forall x | x in AllPlaces(p, t.next) ensures Repeats(t, p, x.0, x.1, Table(p, t.next)) {
        PlaceRepeats(t, v, s, id, x.0, x.1);
        QuietAtPlace(v, id, s, x.0, x.1);
      }
    } else {
      var y, q := LoudPlace(v, id, s);
      SettledPlaces(t, v, s, id, y, q);
      PlaceRepeats(t, v, s, id, y, q);
      assert !Repeats(t, p, (y, q).0, (y, q).1, Table(p, t.next));
    }
  }

  lemma PlaceRepeats(t: Tree, v: Tree, s: Snapshot, id: Ref, y: Ref, q: Snapshot)
    requires WellFormed(t) && id in t.insts && FreshIds(t, s) && EachPointed(t, v, PlanNode(t, s, id))
    requires Settling(t, v, PlanNode(t, s, id), s) && (id, s) in PlanNode(t, s, id).pairs && Shaped(v, id, s)
    requires (y, q) in AllPlaces(PlanNode(t, s, id), t.next)
    ensures PlacedAt(v, id, s, y, q)
    ensures QuietAt(v, y, q) <==> Repeats(t, PlanNode(t, s, id), y, q, Table(PlanNode(t, s, id), t.next))
  {
    var p := PlanNode(t, s, id);
    SettledPlaces(t, v, s, id, y, q);
    if (y, q) in p.pairs { PairRepeats(t, v, p, s, y, q); } else { AddedRepeats(t, v, p, s, y, q); }
  }

  lemma RewrittenEmpty(p: Plan)
    ensures RewritePlan(p) == EMPTY_PATCH <==> p.patch == EMPTY_PATCH
  {
    assert |RewritePlan(p).added| == |p.patch.added|;
    assert |RewritePlan(p).updated| == |p.patch.updated|;
  }

  lemma {:induction false} PlacedIsPart(v: Tree, x: Ref, s: Snapshot, y: Ref, q: Snapshot)
    requires Shaped(v, x, s) && PlacedAt(v, x, s, y, q)
    ensures Part(q, s)
    decreases s
  {
    if !(x == y && s == q) {
      var kids := v.insts[x].children;
      var i :| 0 <= i < |s.children| &&
        PlacedAt(v, kids[Pairing(v, kids, s.children, NonePaired(|kids|))[i].value], s.children[i], y, q);
      assert s.children[i] in s.children;
      PlacedIsPart(v, kids[Pairing(v, kids, s.children, NonePaired(|kids|))[i].value], s.children[i], y, q);
    }
  }

  // ----- the plain case -----

  /** No node holds a raw reference or a pointer, and a readable `Rojo_Id` only repeats the id that
      the node's metadata has. */
  ghost predicate IsPlain(s: Snapshot)
    decreases s
  {
    && PointedBy(s.props) == {} && (forall k :: k in s.props ==> !s.props[k].RefValue?)
    && PlantedMeta(s) == s.meta && forall c :: c in s.children ==> IsPlain(c)
  }

  /** No node of a model-like class sets `NeedsPivotMigration` itself. */
  predicate PivotFree(s: Snapshot)
    decreases s
  {
    !(ModelLike(s.className) && PIVOT in s.props) && forall c :: c in s.children ==> PivotFree(c)
  }

  lemma {:induction false} PartPlain(p: Snapshot, s: Snapshot)
    requires Part(p, s)
    ensures IsPlain(s) ==> IsPlain(p)
    ensures PivotFree(s) ==> PivotFree(p)
    decreases s
  {
    if p != s {
      var c :| c in s.children && Part(p, c);
      PartPlain(p, c);
    }
  }

  lemma {:induction false} PivotPlace(v: Tree, x: Ref, s: Snapshot) returns (y: Ref, q: Snapshot)
    requires Shaped(v, x, s) && !PivotFree(s)
    ensures PlacedAt(v, x, s, y, q) && ModelLike(q.className) && PIVOT in q.props
    decreases s
  {
    if ModelLike(s.className) && PIVOT in s.props {
      y, q := x, s;
    } else {
      var kids := v.insts[x].children;
      var pairing := Pairing(v, kids, s.children, NonePaired(|kids|));
      var i :| 0 <= i < |s.children| && !PivotFree(s.children[i]);
      assert s.children[i] in s.children;
      y, q := PivotPlace(v, kids[pairing[i].value], s.children[i]);
    }
  }

  /** For a plain snapshot the pivot alone decides. */
  lemma PlainIsIdempotent(t: Tree, s: Snapshot, id: Ref)
    requires WellFormed(t) && id in t.insts && FreshIds(t, s) && IsPlain(s)
    ensures Applicable(t, PatchFor(t, Some(s), id))
    ensures var v := Reconciled(t, s, id);
      && WellFormed(v) && id in v.insts
      && (PatchFor(v, Some(s), id) == EMPTY_PATCH <==> PivotFree(s))
  {
    PlainStated(s);
    SecondReconcileIsEmpty(t, s, id);
    ReconcileConverges(t, s, id);
    Settles(t, s, id);
    PlainPlaces(t, Reconciled(t, s, id), s, id);
  }

  lemma PlainRepeats(t: Tree, p: Plan, y: Ref, q: Snapshot, ids: map<Ref, Ref>)
    requires IsPlain(q) && PivotFree(q)
    ensures Repeats(t, p, y, q, ids)
  {
    forall k | k in q.props ensures Translate(ids, q.props[k]) == q.props[k] {
      assert !q.props[k].RefValue?;
    }
  }

  lemma {:induction false} PlainStated(s: Snapshot)
    requires IsPlain(s)
    ensures AttributesStated(s)
    decreases s
  {
    forall c | c in s.children ensures AttributesStated(c) { PlainStated(c); }
  }

  lemma PlainPlaces(t: Tree, v: Tree, s: Snapshot, id: Ref)
    requires WellFormed(t) && id in t.insts && IsPlain(s)
    requires Settling(t, v, PlanNode(t, s, id), s) && (id, s) in PlanNode(t, s, id).pairs && Shaped(v, id, s)
    ensures var p := PlanNode(t, s, id);
      (forall x :: x in AllPlaces(p, t.next) ==> Repeats(t, p, x.0, x.1, Table(p, t.next))) <==> PivotFree(s)
  {
    var p := PlanNode(t, s, id);
    if PivotFree(s) {
      forall x | x in AllPlaces(p, t.next) ensures Repeats(t, p, x.0, x.1, Table(p, t.next)) {
        SettledPlaces(t, v, s, id, x.0, x.1);
        PlacedIsPart(v, id, s, x.0, x.1);
        PartPlain(x.1, s);
        PlainRepeats(t, p, x.0, x.1, Table(p, t.next));
      }
    } else {
      var y, q := PivotPlace(v, id, s);
      SettledPlaces(t, v, s, id, y, q);
      PlacedIsPart(v, id, s, y, q);
      PartPlain(q, s);
      assert IsPlain(q) && AsksForPivot(q);
      assert !Repeats(t, p, (y, q).0, (y, q).1, Table(p, t.next));
    }
  }
}
