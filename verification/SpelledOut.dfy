/** What the theorems on reconciling come to when they are read in terms of fields
    alone: which values count as equal, which changes a computed patch holds, and what
    a subtree looks like afterwards (src/variant_eq.rs, src/snapshot/patch_compute.rs). */
module SpelledOut {
  import opened Basics
  import opened Values
  import opened TreeModel
  import opened PatchPlan
  import opened PlanFacts
  import opened PatchEffect
  import opened EffectFacts
  import opened Outcome
  import opened FinalTree
  import opened Convergence
  import opened Reconciliation

  // ----- names -----

  /** The name of a pointer is in the attributes, with a text that can be read. */
  predicate PointedAt(props: Props, k: string) {
    && "Attributes" in props && props["Attributes"].Attributes?
    && (var attrs := props["Attributes"].attrs;
        var a := "Rojo_Target_" + k;
        a in attrs && (attrs[a].Str? || (attrs[a].Binary? && attrs[a].bytes.Utf8?)))
  }

  lemma PointedExactly(props: Props, k: string)
    ensures k in PointedBy(props) <==> PointedAt(props, k)
  {
    assert PointerName(k) == "Rojo_Target_" + k;
  }

  /** The classes on which `NeedsPivotMigration` is forced. */
  predicate Migrates(className: string) {
    || className == "Model" || className == "Actor" || className == "Tool" || className == "HopperBin"
    || className == "Flag" || className == "WorldModel" || className == "Workspace" || className == "Status"
  }

  lemma MigratesExactly(className: string)
    ensures ModelLike(className) <==> Migrates(className)
  {
  }

  /** Neither a pointer nor the pivot rule decides the property. */
  predicate Ordinary(s: Snapshot, k: string) {
    !PointedAt(s.props, k) && !(Migrates(s.className) && k == "NeedsPivotMigration")
  }

  // ----- what a patch holds -----

  /** The updates have one for `x`, and it changes `k` to `c`. */
  ghost predicate Emitted(us: seq<Update>, x: Ref, k: string, c: Option<Value>) {
    exists u :: u in us && u.id == x && k in u.props && u.props[k] == c
  }

  ghost predicate LeftAlone(us: seq<Update>, x: Ref, k: string) {
    forall u :: u in us && u.id == x ==> k !in u.props
  }

  /** The updates have this one for `x` and no other. */
  ghost predicate OnlyUpdate(us: seq<Update>, x: Ref, u: Update) {
    u.id == x && forall w :: w in us && w.id == x ==> w == u
  }

  /** The updates of a computed patch, pair by pair. */
  lemma PairUpdates(t: Tree, s: Snapshot, id: Ref, x: (Ref, Snapshot))
    requires WellFormed(t) && id in t.insts && x in PlanNode(t, s, id).pairs
    ensures x.0 in t.insts && x.0 in t.meta
    ensures var p := PlanNode(t, s, id); var us := PatchFor(t, Some(s), id).updated;
      var u := RewriteUpdate(p.ids, NodeUpdate(t, x.1, x.0));
      OnlyUpdate(us, x.0, u) && (u in us <==> !ChangesNothing(NodeUpdate(t, x.1, x.0)))
  {
    PlanIsGood(t, s, id);
    var p := PlanNode(t, s, id);
    ComputedUpdates(t, s, p);
    OnePairUpdate(t, p, RewritePlan(p).updated, x);
  }

  lemma OnePairUpdate(t: Tree, p: Plan, us: seq<Update>, x: (Ref, Snapshot))
    requires t.meta.Keys == t.insts.Keys && forall y :: y in p.pairs ==> y.0 in t.insts
    requires Distinct(p) && UpdatesMatch(t, p, us) && x in p.pairs
    ensures var u := RewriteUpdate(p.ids, NodeUpdate(t, x.1, x.0));
      OnlyUpdate(us, x.0, u) && (u in us <==> !ChangesNothing(NodeUpdate(t, x.1, x.0)))
  {
    forall w | w in us && w.id == x.0
      ensures w == RewriteUpdate(p.ids, NodeUpdate(t, x.1, x.0)) && !ChangesNothing(NodeUpdate(t, x.1, x.0))
    {
      var y :| y in p.pairs && !ChangesNothing(NodeUpdate(t, y.1, y.0))
        && w == RewriteUpdate(p.ids, NodeUpdate(t, y.1, y.0));
      PairsApart(p, x, y);
    }
  }

  /** A change of the update is emitted, and what it does not mention is left alone. */
  lemma UpdateEmits(us: seq<Update>, x: Ref, w: Update, ids: map<Ref, Ref>, k: string)
    requires var u := RewriteUpdate(ids, w); OnlyUpdate(us, x, u) && (u in us <==> !ChangesNothing(w))
    ensures k !in w.props ==> LeftAlone(us, x, k)
    ensures k in w.props && w.props[k].None? ==> Emitted(us, x, k, None)
    ensures k in w.props && w.props[k].Some? ==> Emitted(us, x, k, Some(Translate(ids, w.props[k].value)))
  {
  }

  /** What is sent for a property of a visited instance. Exactly the values that are not
      the same are sent, with references to paired nodes translated, and exactly the
      properties that nobody wants are taken away. */
  lemma ChangesExactly(t: Tree, s: Snapshot, id: Ref, x: Ref, n: Snapshot, k: string)
    requires WellFormed(t) && id in t.insts && (x, n) in PlanNode(t, s, id).pairs && Ordinary(n, k)
    ensures x in t.insts
    ensures var us := PatchFor(t, Some(s), id).updated; var ids := PlanNode(t, s, id).ids;
      var actual := t.insts[x].props;
      if k in n.props then
        if k in actual && SameValue(n.props[k], actual[k]) then LeftAlone(us, x, k)
        else Emitted(us, x, k, Some(Translate(ids, n.props[k])))
      else if k in actual then Emitted(us, x, k, None)
      else LeftAlone(us, x, k)
  {
    PairUpdates(t, s, id, (x, n));
    var p, w := PlanNode(t, s, id), NodeUpdate(t, n, x);
    UpdateEmits(PatchFor(t, Some(s), id).updated, x, w, p.ids, k);
    OrdinaryChange(t, n, x, k);
  }

  /** One property of an update, before references are rewritten. */
  lemma OrdinaryChange(t: Tree, n: Snapshot, x: Ref, k: string)
    requires x in t.insts && x in t.meta && Ordinary(n, k)
    ensures var c := NodeUpdate(t, n, x).props; var actual := t.insts[x].props;
      if k in n.props then
        if k in actual && SameValue(n.props[k], actual[k]) then k !in c else k in c && c[k] == Some(n.props[k])
      else if k in actual then k in c && c[k] == None
      else k !in c
  {
    PointedExactly(n.props, k);
    MigratesExactly(n.className);
    var actual := t.insts[x].props;
    var base := BaseChanges(n.props, actual);
    if k in n.props && k in actual { EqualExactlyWhenSame(n.props[k], actual[k]); }
    OverlayElsewhere(t, n.props, actual, k);
    var overlaid := OverlayRefs(base, AttributeRefs(t, n.props), actual);
    if ModelLike(n.className) { PivotElsewhere(overlaid, n.className, actual, k); }
  }

  /** What is sent for `NeedsPivotMigration` on the classes that need it: the wanted
      boolean when it replaces another value, nothing when the instance has a value and
      the snapshot none, and `false` in all other cases. */
  lemma PivotExactly(t: Tree, s: Snapshot, id: Ref, x: Ref, n: Snapshot)
    requires WellFormed(t) && id in t.insts && (x, n) in PlanNode(t, s, id).pairs
    requires Migrates(n.className) && !PointedAt(n.props, "NeedsPivotMigration")
    ensures x in t.insts
    ensures var us := PatchFor(t, Some(s), id).updated; var k := "NeedsPivotMigration";
      var actual := t.insts[x].props;
      if k !in n.props && k in actual then LeftAlone(us, x, k)
      else if k in n.props && k in actual && n.props[k].Plain? && n.props[k].scalar.Bool? && n.props[k] != actual[k]
      then Emitted(us, x, k, Some(n.props[k]))
      else Emitted(us, x, k, Some(Plain(Bool(false))))
  {
    PairUpdates(t, s, id, (x, n));
    UpdateEmits(PatchFor(t, Some(s), id).updated, x, NodeUpdate(t, n, x), PlanNode(t, s, id).ids,
      "NeedsPivotMigration");
    PivotChange(t, n, x);
  }

  /** The pivot property of an update, before references are rewritten. */
  lemma PivotChange(t: Tree, n: Snapshot, x: Ref)
    requires x in t.insts && x in t.meta && Migrates(n.className) && !PointedAt(n.props, "NeedsPivotMigration")
    ensures var c := NodeUpdate(t, n, x).props; var k := "NeedsPivotMigration"; var actual := t.insts[x].props;
      if k !in n.props && k in actual then k !in c
      else if k in n.props && k in actual && n.props[k].Plain? && n.props[k].scalar.Bool? && n.props[k] != actual[k]
      then k in c && c[k] == Some(n.props[k])
      else k in c && c[k] == Some(Plain(Bool(false)))
  {
    var k := "NeedsPivotMigration";
    var actual := t.insts[x].props;
    var base := BaseChanges(n.props, actual);
    OverlayElsewhere(t, n.props, actual, k);
    MigratesExactly(n.className);
    PivotDecides(base, OverlayRefs(base, AttributeRefs(t, n.props), actual), n.className, actual);
    if k in n.props && k in actual { EqualExactlyWhenSame(n.props[k], actual[k]); }
  }

  /** Away from pointed properties, pointers change nothing. */
  lemma OverlayElsewhere(t: Tree, wanted: Props, actual: Props, k: string)
    requires !PointedAt(wanted, k)
    ensures var base := BaseChanges(wanted, actual);
      var overlaid := OverlayRefs(base, AttributeRefs(t, wanted), actual);
      (k in overlaid <==> k in base) && (k in base ==> overlaid[k] == base[k])
  {
    PointedExactly(wanted, k);
    assert AttributesOf(wanted).Some? ==> PointerProps(AttributesOf(wanted).value) == PointedBy(wanted);
  }

  lemma PivotDecides(base: Changes, changes: Changes, className: string, actual: Props)
    requires ModelLike(className) && (PIVOT in changes <==> PIVOT in base)
    requires PIVOT in base ==> changes[PIVOT] == base[PIVOT]
    ensures var r := PivotRule(changes, className, actual);
      if PIVOT in actual && PIVOT in base && base[PIVOT].None? then PIVOT !in r
      else if PIVOT in actual && PIVOT in base && base[PIVOT].value.Plain? && base[PIVOT].value.scalar.Bool?
      then PIVOT in r && r[PIVOT] == base[PIVOT]
      else PIVOT in r && r[PIVOT] == Some(Plain(Bool(false)))
  {
  }

  /** No other instance has the id. */
  ghost predicate OnlyCarrier(t: Tree, text: string, y: Ref) {
    forall z :: z in t.meta && t.meta[z].specifiedId == Some(text) <==> z == y
  }

  lemma CarrierSpelledOut(t: Tree, text: string)
    ensures forall y: Ref :: OnlyCarrier(t, text, y) <==> SpecifiedRef(t, text) == Some(y)
  {
    forall y: Ref ensures OnlyCarrier(t, text, y) <==> SpecifiedRef(t, text) == Some(y) {
      assert forall z :: z in Carriers(t, text) <==> z in t.meta && t.meta[z].specifiedId == Some(text);
      if OnlyCarrier(t, text, y) { assert Carriers(t, text) == {y}; }
    }
  }

  predicate Reads(props: Props, k: string, text: string) {
    PointedAt(props, k) &&
      props["Attributes"].attrs["Rojo_Target_" + k] in {Str(text), Binary(Utf8(text))}
  }

  /** One pointed property of an update, before references are rewritten. */
  lemma PointedChange(t: Tree, n: Snapshot, x: Ref, k: string, text: string)
    requires x in t.insts && x in t.meta && Reads(n.props, k, text)
    requires !(Migrates(n.className) && k == "NeedsPivotMigration")
    ensures var c := NodeUpdate(t, n, x).props; var actual := t.insts[x].props;
      if AlreadySo(PointedValue(t, text), actual, k) then k !in c else k in c && c[k] == PointedValue(t, text)
  {
    PointedExactly(n.props, k);
    MigratesExactly(n.className);
    var actual := t.insts[x].props;
    assert "Rojo_Target_" + k == PointerName(k);
    var refs := AttributeRefs(t, n.props);
    assert k in refs && refs[k] == PointedValue(t, text);
    var overlaid := OverlayRefs(BaseChanges(n.props, actual), refs, actual);
    assert if AlreadySo(refs[k], actual, k) then k !in overlaid else k in overlaid && overlaid[k] == refs[k];
    if ModelLike(n.className) { PivotElsewhere(overlaid, n.className, actual, k); }
  }

  /** What is sent for a property that the attributes point with: the one instance that
      has the id, or its removal when there is no such one, unless it is so already. */
  lemma PointedChangesExactly(t: Tree, s: Snapshot, id: Ref, x: Ref, n: Snapshot, k: string, text: string)
    requires WellFormed(t) && id in t.insts && (x, n) in PlanNode(t, s, id).pairs && Reads(n.props, k, text)
    requires !(Migrates(n.className) && k == "NeedsPivotMigration")
    ensures x in t.insts
    ensures var us := PatchFor(t, Some(s), id).updated; var actual := t.insts[x].props;
      && (forall y: Ref :: OnlyCarrier(t, text, y) ==>
            if k in actual && actual[k] == RefValue(y) then LeftAlone(us, x, k)
            else Emitted(us, x, k, Some(Translate(PlanNode(t, s, id).ids, RefValue(y)))))
      && ((forall y: Ref :: !OnlyCarrier(t, text, y)) ==>
            if k in actual then Emitted(us, x, k, None) else LeftAlone(us, x, k))
  {
    PairUpdates(t, s, id, (x, n));
    UpdateEmits(PatchFor(t, Some(s), id).updated, x, NodeUpdate(t, n, x), PlanNode(t, s, id).ids, k);
    PointedChange(t, n, x, k, text);
    CarrierSpelledOut(t, text);
    if SpecifiedRef(t, text).Some? { assert OnlyCarrier(t, text, SpecifiedRef(t, text).value); }
  }

  /** The other fields are sent exactly when they differ. */
  lemma FieldsExactly(t: Tree, s: Snapshot, id: Ref, x: Ref, n: Snapshot)
    requires WellFormed(t) && id in t.insts && (x, n) in PlanNode(t, s, id).pairs
    ensures x in t.insts && x in t.meta
    ensures var us := PatchFor(t, Some(s), id).updated;
      && (n.name != t.insts[x].name <==> exists u :: u in us && u.id == x && u.name == Some(n.name))
      && (n.className != t.insts[x].className <==>
            exists u :: u in us && u.id == x && u.className == Some(n.className))
      && (n.meta != t.meta[x] <==> exists u :: u in us && u.id == x && u.meta == Some(n.meta))
      && (forall u :: u in us && u.id == x ==>
            && u.name in {None, Some(n.name)} && u.className in {None, Some(n.className)}
            && u.meta in {None, Some(n.meta)})
  {
    PairUpdates(t, s, id, (x, n));
    var u := RewriteUpdate(PlanNode(t, s, id).ids, NodeUpdate(t, n, x));
    assert u.name == NodeUpdate(t, n, x).name;
  }

  /** A number that the file has changed reaches the patch. */
  lemma ChangedNumberIsSent(t: Tree, s: Snapshot, id: Ref, k: string, a: real, b: real)
    requires WellFormed(t) && id in t.insts && Ordinary(s, k)
    requires k in s.props && s.props[k] == Plain(Number(Finite(a)))
    requires k in t.insts[id].props && t.insts[id].props[k] == Plain(Number(Finite(b)))
    requires a - b >= 0.0000002 || b - a >= 0.0000002
    ensures Emitted(PatchFor(t, Some(s), id).updated, id, k, Some(s.props[k]))
  {
    PlanNodeFacts(t, s, id);
    ChangesExactly(t, s, id, id, s, k);
  }

  // ----- what is asked of snapshots -----

  /** The tree neither has an instance under this reference nor refers to it. */
  ghost predicate Unknown(t: Tree, r: Ref) {
    && r !in t.insts
    && forall x, k :: x in t.insts && k in t.insts[x].props ==> t.insts[x].props[k] != RefValue(r)
  }

  /** Every node's id, if it has one, is unknown, and its attributes are no null reference. */
  ghost predicate EachNodeClean(t: Tree, s: Snapshot)
    decreases s
  {
    && (s.id != NO_REF ==> Unknown(t, s.id))
    && ("Attributes" in s.props ==> s.props["Attributes"] != RefValue(NO_REF))
    && forall c :: c in s.children ==> EachNodeClean(t, c)
  }

  lemma {:induction false} CleanExactly(t: Tree, s: Snapshot)
    ensures Clean(t, s) <==> EachNodeClean(t, s)
    decreases s
  {
    FreshExactly(t, s);
    forall c | c in s.children ensures Clean(t, c) <==> EachNodeClean(t, c) { CleanExactly(t, c); }
    forall c | c in s.children ensures FreshIds(t, c) <==> AllUnknown(t, IdsIn(c)) { FreshExactly(t, c); }
    AmongExactly(t, s.children);
  }

  ghost predicate AllUnknown(t: Tree, ids: set<Ref>) {
    forall i :: i in ids ==> Unknown(t, i)
  }

  lemma FreshExactly(t: Tree, s: Snapshot)
    ensures FreshIds(t, s) <==> AllUnknown(t, IdsIn(s))
  {
    if AllUnknown(t, IdsIn(s)) {
      forall x | x in t.insts ensures x !in IdsIn(s) { assert !Unknown(t, x); }
      forall x, k | x in t.insts && k in t.insts[x].props && t.insts[x].props[k].RefValue?
        ensures t.insts[x].props[k].ref !in IdsIn(s)
      {
        assert !Unknown(t, t.insts[x].props[k].ref);
      }
    }
  }

  lemma {:induction false} AmongExactly(t: Tree, ss: seq<Snapshot>)
    ensures AllUnknown(t, IdsAmong(ss)) <==> forall c :: c in ss ==> AllUnknown(t, IdsIn(c))
  {
    if ss != [] {
      AmongExactly(t, ss[1..]);
      assert forall c :: c in ss <==> c == ss[0] || c in ss[1..];
    }
  }

  /** An instance is honoured when, away from pointed properties, a null reference that
      the snapshot asks for is there already, and a `NeedsPivotMigration` on the eight
      classes is off or a boolean that differs from the one that is there. */
  lemma HonouredExactly(actual: Props, s: Snapshot)
    ensures Honoured(actual, s) <==> forall k :: k in s.props && !PointedAt(s.props, k) ==> Granted(actual, s, k)
  {
    MigratesExactly(s.className);
    forall k | k in s.props
      ensures k in PointedBy(s.props) <==> PointedAt(s.props, k)
      ensures (if PivotRuled(s, k) then PivotKept(actual, s) else NullThere(actual, s, k)) <==> Granted(actual, s, k)
    {
      PointedExactly(s.props, k);
      if k in actual { EqualExactlyWhenSame(s.props[k], actual[k]); }
    }
  }

  predicate Granted(actual: Props, s: Snapshot, k: string)
    requires k in s.props
  {
    var v := s.props[k];
    if Migrates(s.className) && k == "NeedsPivotMigration" then
      v == Plain(Bool(false)) || (v.Plain? && v.scalar.Bool? && k in actual && v != actual[k])
    else v == RefValue(NO_REF) ==> k in actual && actual[k] == v
  }

  // ----- who is paired -----

  /** Below the root, an instance is only paired with a node of its own name and class. */
  lemma {:induction false} PairedAlike(t: Tree, s: Snapshot, id: Ref)
    requires WellFormed(t) && id in t.insts
    ensures forall y :: y in PlanNode(t, s, id).pairs ==> y.0 == id || Alike(t, y.0, y.1)
    decreases s, 1
  {
    RowPairedAlike(t, id, s.children, NonePaired(|t.insts[id].children|));
  }

  predicate Alike(t: Tree, x: Ref, n: Snapshot) {
    x in t.insts && t.insts[x].name == n.name && t.insts[x].className == n.className
  }

  lemma {:induction false} RowPairedAlike(t: Tree, id: Ref, ss: seq<Snapshot>, paired: seq<bool>)
    requires WellFormed(t) && id in t.insts && |paired| == |t.insts[id].children|
    ensures forall y :: y in PlanChildren(t, id, ss, paired).pairs ==> Alike(t, y.0, y.1)
    decreases ss, 0
  {
    if ss != [] {
      var kids := t.insts[id].children;
      assert NodeOk(t, id);
      var j := FirstFit(t, kids, paired, ss[0], 0);
      RowPairedAlike(t, id, ss[1..], Mark(paired, j));
      if j.Some? {
        PairedAlike(t, ss[0], kids[j.value]);
        PlanNodeFacts(t, ss[0], kids[j.value]);
        OwnPair(t, ss[0], kids[j.value], PlanNode(t, ss[0], kids[j.value]));
      }
    }
  }

  lemma OwnPair(t: Tree, s: Snapshot, id: Ref, p: Plan)
    requires Distinct(p) && |p.pairs| > 0 && p.pairs[0] == (id, s) && Alike(t, id, s)
    ensures forall y :: y in p.pairs && y.0 == id ==> Alike(t, y.0, y.1)
  {
    forall y | y in p.pairs && y.0 == id ensures y == (id, s) { PairsApart(p, y, (id, s)); }
  }

  lemma {:induction false} LeftOver(t: Tree, kids: seq<Ref>, ss: seq<Snapshot>, paired: seq<bool>, j: nat)
    requires |paired| == |kids| && j < |kids| && !Final(t, kids, ss, paired)[j]
    ensures forall n :: n in Unmatched(t, kids, ss, paired) ==> !Alike(t, kids[j], n)
    decreases |ss|
  {
    if ss != [] {
      var f := FirstFit(t, kids, paired, ss[0], 0);
      LeftOver(t, kids, ss[1..], Mark(paired, f), j);
      if f.None? && Alike(t, kids[j], ss[0]) { assert Fits(t, kids, paired, ss[0], j); }
    }
  }

  /** Nothing is replaced that could be kept: under one parent, no removed instance has
      the name and class of an added one. */
  lemma NothingReplaced(t: Tree, s: Snapshot, id: Ref, r: Ref, a: Add)
    requires WellFormed(t) && id in t.insts
    requires r in PlanNode(t, s, id).patch.removed && a in PlanNode(t, s, id).patch.added
    ensures r in t.insts && (t.insts[r].parent == a.parent ==> !Alike(t, r, a.snap))
  {
    var p := PlanNode(t, s, id);
    PlanNodeLocal(t, s, id);
    PlanIsGood(t, s, id);
    if t.insts[r].parent == a.parent {
      var y :| y in p.pairs && y.0 == a.parent;
      assert Local(t, p, y.0, y.1);
      var kids := t.insts[y.0].children;
      assert NodeOk(t, r);
      var j :| 0 <= j < |kids| && kids[j] == r;
      LeftOver(t, kids, y.1.children, NonePaired(|kids|), j);
      AddedHere(p.patch.added, a);
    }
  }

  lemma {:induction false} AddedHere(added: seq<Add>, a: Add)
    requires a in added
    ensures a.snap in AddsFor(added, a.parent)
  {
    if a != added[0] { AddedHere(added[1..], a); }
  }

  // ----- what the subtree looks like -----

  /** The instance has the fields of its snapshot: name, class, metadata but for an
      adopted `Rojo_Id`, and the same value at every ordinary property. On the classes
      that need it, `NeedsPivotMigration` is there in any case. */
  ghost predicate Holds(t: Tree, x: Ref, s: Snapshot, ids: map<Ref, Ref>) {
    && x in t.insts && x in t.meta
    && t.insts[x].name == s.name && t.insts[x].className == s.className
    && t.meta[x].ignoreUnknown == s.meta.ignoreUnknown && t.meta[x].relevantPaths == s.meta.relevantPaths
    && t.meta[x].provenance == s.meta.provenance
    && (t.meta[x].specifiedId == s.meta.specifiedId || HasId(s, t.meta[x].specifiedId))
    && (forall k :: !PointedAt(s.props, k) ==> HoldsAt(t.insts[x].props, s, ids, k))
  }

  predicate HoldsAt(actual: Props, s: Snapshot, ids: map<Ref, Ref>, k: string) {
    && (k in actual <==> k in s.props || (Migrates(s.className) && k == "NeedsPivotMigration"))
    && (k in s.props && k in actual ==> SameValue(Translate(ids, s.props[k]), actual[k]))
  }

  /** The attributes have this id under `Rojo_Id`. */
  predicate HasId(s: Snapshot, text: Option<string>) {
    && "Attributes" in s.props && s.props["Attributes"].Attributes?
    && (var attrs := s.props["Attributes"].attrs;
        && "Rojo_Id" in attrs && text.Some?
        && (attrs["Rojo_Id"] == Str(text.value) || attrs["Rojo_Id"] == Binary(Utf8(text.value))))
  }

  lemma SettledHolds(t: Tree, x: Ref, s: Snapshot, ids: map<Ref, Ref>)
    ensures Settled(t, x, s, ids) <==> Holds(t, x, s, ids)
  {
    if x in t.insts && x in t.meta {
      MetaHolds(t.meta[x], s);
      MigratesExactly(s.className);
      forall k ensures k in PointedBy(s.props) <==> PointedAt(s.props, k) { PointedExactly(s.props, k); }
      forall k ensures PropSettled(t.insts[x].props, s, ids, k) <==> HoldsAt(t.insts[x].props, s, ids, k) {
        if k in s.props && k in t.insts[x].props {
          EqualExactlyWhenSame(Translate(ids, s.props[k]), t.insts[x].props[k]);
        }
      }
    }
  }

  lemma MetaHolds(m: Metadata, s: Snapshot)
    ensures MetaSettled(m, s) <==>
      && m.ignoreUnknown == s.meta.ignoreUnknown && m.relevantPaths == s.meta.relevantPaths
      && m.provenance == s.meta.provenance
      && (m.specifiedId == s.meta.specifiedId || HasId(s, m.specifiedId))
  {
  }

  /** The subtree is the snapshot: each instance has the fields of its node, and its
      children are, in some order, those of the node. */
  ghost predicate IsTheSnapshot(t: Tree, x: Ref, s: Snapshot, ids: map<Ref, Ref>)
    decreases s
  {
    && Holds(t, x, s, ids)
    && exists kids: seq<Ref> ::
         && |kids| == |s.children|
         && multiset(kids) == multiset(t.insts[x].children)
         && forall i :: 0 <= i < |kids| ==> IsTheSnapshot(t, kids[i], s.children[i], ids)
  }

  lemma {:induction false} SameIsTheSnapshot(t: Tree, x: Ref, s: Snapshot, ids: map<Ref, Ref>)
    requires Same(t, x, s, ids)
    ensures IsTheSnapshot(t, x, s, ids)
    decreases s
  {
    SettledHolds(t, x, s, ids);
    var kids: seq<Ref> :| |kids| == |s.children| && multiset(kids) == multiset(t.insts[x].children)
      && forall i :: 0 <= i < |kids| ==> Same(t, kids[i], s.children[i], ids);
    forall i | 0 <= i < |kids| ensures IsTheSnapshot(t, kids[i], s.children[i], ids) {
      SameIsTheSnapshot(t, kids[i], s.children[i], ids);
    }
  }

  /** Convergence, in terms of fields alone. */
  lemma ReconcileSpelledOut(t: Tree, s: Snapshot, id: Ref)
    requires WellFormed(t) && id in t.insts && Clean(t, s) && AllHonoured(t, s, id)
    ensures Applicable(t, PatchFor(t, Some(s), id))
    ensures IsTheSnapshot(Reconciled(t, s, id), id, s, Destinations(t, s, id))
  {
    ReconcileGivesTheSnapshot(t, s, id);
    SameIsTheSnapshot(Reconciled(t, s, id), id, s, Destinations(t, s, id));
  }

  // ----- insertion -----

  /** The same instances, and the same metadata but for user-specified ids. */
  ghost predicate SameButIds(a: Tree, b: Tree) {
    && a.root == b.root && a.next == b.next && a.insts == b.insts && a.meta.Keys == b.meta.Keys
    && forall x :: x in b.meta ==> a.meta[x].(specifiedId := None) == b.meta[x].(specifiedId := None)
  }

  /** Inserting a snapshot builds what adding it in a patch builds, of which `AddAllEffect`
      tells the fields, and adopts no ids. */
  lemma {:induction false} InsertBuildsTheSame(st: State, t: Tree, parent: Ref, s: Snapshot)
    requires parent in t.insts && SameButIds(st.tree, t)
    ensures SameButIds(AddChild(st, parent, s).tree, InsertTree(t, parent, s))
    decreases s, 1
  {
    var n := t.next;
    var noted := State(InsertOne(st.tree, parent, s), NoteAdded(st.ctx, n, s));
    InsertRowBuildsTheSame(noted, InsertOne(t, parent, s), n, s.children);
  }

  lemma {:induction false} InsertRowBuildsTheSame(st: State, t: Tree, parent: Ref, ss: seq<Snapshot>)
    requires parent in t.insts && SameButIds(st.tree, t)
    ensures SameButIds(AddChildren(st, parent, ss).tree, InsertForest(t, parent, ss))
    decreases ss, 0
  {
    if ss != [] {
      InsertBuildsTheSame(st, t, parent, ss[0]);
      InsertRowBuildsTheSame(AddChild(st, parent, ss[0]), InsertTree(t, parent, ss[0]), parent, ss[1..]);
    }
  }

  /** One inserted instance: the fields of its snapshot, no children yet, and on the
      classes that need it a `NeedsPivotMigration` that is off unless it is stated. */
  lemma OneInserted(t: Tree, parent: Ref, s: Snapshot)
    requires WellFormed(t) && parent in t.insts
    ensures var r := InsertOne(t, parent, s); var x := t.next; var k := "NeedsPivotMigration";
      && x !in t.insts && x in r.insts && x in r.meta && r.meta[x] == s.meta
      && r.insts[x].name == s.name && r.insts[x].className == s.className
      && r.insts[x].parent == parent && r.insts[x].children == []
      && (forall j :: j in s.props ==> j in r.insts[x].props && r.insts[x].props[j] == s.props[j])
      && (forall j :: j in r.insts[x].props ==> j in s.props || (Migrates(s.className) && j == k))
      && (Migrates(s.className) && k !in s.props ==>
            k in r.insts[x].props && r.insts[x].props[k] == Plain(Bool(false)))
      && parent in r.insts && r.insts[parent] == t.insts[parent].(children := t.insts[parent].children + [x])
      && (forall y :: y in t.insts && y != parent ==> Kept(t, r, y))
  {
    LiveRange(t, t.next);
  }

  /** A visited instance of such a class that has no `NeedsPivotMigration`, nor its
      snapshot, ends with one that is off. */
  lemma PivotInTheEnd(t: Tree, s: Snapshot, id: Ref, x: Ref, n: Snapshot)
    requires WellFormed(t) && id in t.insts && Clean(t, s) && (x, n) in PlanNode(t, s, id).pairs && x in t.insts
    requires var k := "NeedsPivotMigration";
      Migrates(n.className) && !PointedAt(n.props, k) && k !in n.props && k !in t.insts[x].props
    ensures Applicable(t, PatchFor(t, Some(s), id))
    ensures var v := Reconciled(t, s, id); var k := "NeedsPivotMigration";
      x in v.insts && k in v.insts[x].props && v.insts[x].props[k] == Plain(Bool(false))
  {
    Settles(t, s, id);
    PointedExactly(n.props, PIVOT);
    MigratesExactly(n.className);
    var p, v := PlanNode(t, s, id), Reconciled(t, s, id);
    assert (x, n).0 in t.insts && PairDone(t, v, p, (x, n).0, (x, n).1);
    var after := PropsAfter(t.insts[x].props, n, p.ids, AddedIds(t.next, p.patch.added));
    assert AgreeAt(v.insts[x].props, after, PIVOT);
    PivotSwitchedOff(t.insts[x].props, n, p.ids, AddedIds(t.next, p.patch.added));
  }

  lemma PivotSwitchedOff(actual: Props, n: Snapshot, a: map<Ref, Ref>, b: map<Ref, Ref>)
    requires ModelLike(n.className) && PIVOT !in n.props && PIVOT !in actual
    ensures var r := PropsAfter(actual, n, a, b); PIVOT in r && r[PIVOT] == Plain(Bool(false))
  {
    var c := RewriteChanges(a, PivotRule(BaseChanges(n.props, actual), n.className, actual));
    assert PIVOT in c && c[PIVOT] == Some(Plain(Bool(false)));
    assert ChangedProp(actual, c, b, PIVOT).Some?;
  }
}
