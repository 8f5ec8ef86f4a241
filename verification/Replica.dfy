/** A client's copy of the tree, kept by replaying the descriptions of applied
    patches (src/web/interface.rs, src/snapshot/patch_apply.rs). */
module Replica {
  import opened Basics
  import opened Values
  import opened TreeModel
  import opened PatchPlan
  import opened PatchEffect
  import opened EffectFacts
  import opened Pointers
  import opened Outcome
  import opened FinalTree
  import opened CarrierFacts
  import opened PointerSettling
  import opened RojoTrees

  /** An instance as it travels: shared strings are left out, and of the metadata
      only one flag is sent. The list of its children travels beside it. */
  datatype Wire = Wire(name: string, className: string, props: Props, parent: Ref, ignoreUnknown: bool)

  type Copy = map<Ref, Wire>

  datatype WireUpdate = WireUpdate(
    id: Ref,
    name: Option<string>,
    className: Option<string>,
    props: Changes,
    ignoreUnknown: Option<bool>)

  /** The added records, each with the ordered list of its children, stand in two
      maps with the same keys. */
  datatype Message = Message(
    removed: seq<Ref>,
    added: Copy,
    children: map<Ref, seq<Ref>>,
    updated: seq<WireUpdate>)

  // ----- what is sent -----

  predicate IsShared(v: Value) {
    v.Plain? && v.scalar.Shared?
  }

  function WireProps(props: Props): (r: Props) {
    map k | k in props && !IsShared(props[k]) :: props[k]
  }

  function WireOf(n: Instance, m: Metadata): (r: Wire) {
    Wire(n.name, n.className, WireProps(n.props), n.parent, m.ignoreUnknown)
  }

  function View(t: Tree): (r: Copy) {
    map x | x in t.insts && x in t.meta :: WireOf(t.insts[x], t.meta[x])
  }

  function WireChanges(c: Changes): (r: Changes) {
    map k | k in c && !(c[k].Some? && IsShared(c[k].value)) :: c[k]
  }

  function UpdateOnWire(u: Update): (r: WireUpdate) {
    WireUpdate(u.id, u.name, u.className, WireChanges(u.props),
               if u.meta.Some? then Some(u.meta.value.ignoreUnknown) else None)
  }

  function UpdatesOnWire(us: seq<Update>): (r: seq<WireUpdate>)
    ensures |r| == |us| && forall i :: 0 <= i < |us| ==> r[i] == UpdateOnWire(us[i])
  {
    seq(|us|, i requires 0 <= i < |us| => UpdateOnWire(us[i]))
  }

  /** The records of the added instances and all their descendants. */
  ghost function AddedRecords(t: Tree, added: seq<Ref>): (r: Copy) {
    map x | x in t.insts && x in t.meta && Within(t, added, x) :: WireOf(t.insts[x], t.meta[x])
  }

  ghost predicate Within(t: Tree, added: seq<Ref>, x: Ref) {
    exists a :: a in added && Under(t, x, a)
  }

  ghost function ChildLists(t: Tree, added: seq<Ref>): (r: map<Ref, seq<Ref>>) {
    map x | x in t.insts && x in t.meta && Within(t, added, x) :: t.insts[x].children
  }

  ghost function MessageFor(t: Tree, applied: Applied): (m: Message) {
    Message(applied.removed, AddedRecords(t, applied.added), ChildLists(t, applied.added),
      UpdatesOnWire(applied.updated))
  }

  /** Composing a message looks up every added instance and panics without it. */
  ghost predicate CanCompose(t: Tree, applied: Applied) {
    forall a :: a in applied.added ==> a in t.insts
  }

  /** `SubscribeMessage::from_patch_update`, reading the tree as it is now. */
  method FromPatchUpdate(tree: RojoTree, applied: Applied) returns (m: Message)
    requires tree.Valid() && CanCompose(tree.Model(), applied)
    ensures m == MessageFor(tree.Model(), applied)
  {
    ghost var t := tree.Model();
    var added: Copy, children: map<Ref, seq<Ref>> := map[], map[];
    for i := 0 to |applied.added|
      invariant added == AddedRecords(t, applied.added[..i])
      invariant children == ChildLists(t, applied.added[..i])
    {
      assert applied.added[..i + 1] == applied.added[..i] + [applied.added[i]];
      var records, lists := RecordsBelow(tree, applied.added[i]);
      RecordsJoin(t, applied.added[..i], applied.added[i]);
      added, children := added + records, children + lists;
    }
    assert applied.added[..|applied.added|] == applied.added;
    m := Message(applied.removed, added, children, UpdatesOnWire(applied.updated));
  }

  lemma WithinJoin(t: Tree, some: seq<Ref>, id: Ref, x: Ref)
    ensures Within(t, some + [id], x) <==> Within(t, some, x) || Within(t, [id], x)
    ensures Within(t, [id], x) <==> Under(t, x, id)
  {
    assert id in [id] && id in some + [id];
    if a :| a in some && Under(t, x, a) { assert a in some + [id]; }
  }

  lemma RecordsJoin(t: Tree, some: seq<Ref>, id: Ref)
    ensures AddedRecords(t, some + [id]) == AddedRecords(t, some) + AddedRecords(t, [id])
    ensures ChildLists(t, some + [id]) == ChildLists(t, some) + ChildLists(t, [id])
  {
    forall x ensures Within(t, some + [id], x) <==> Within(t, some, x) || Within(t, [id], x) {
      WithinJoin(t, some, id, x);
    }
  }

  lemma RecordsOfOne(t: Tree, id: Ref, records: Copy, lists: map<Ref, seq<Ref>>)
    requires forall x :: x in records <==> x in t.insts && x in t.meta && Under(t, x, id)
    requires forall x :: x in records ==> x in t.insts && x in t.meta && records[x] == WireOf(t.insts[x], t.meta[x])
    requires lists.Keys == records.Keys
    requires forall x :: x in lists ==> x in t.insts && lists[x] == t.insts[x].children
    ensures records == AddedRecords(t, [id]) && lists == ChildLists(t, [id])
  {
    forall x ensures Within(t, [id], x) <==> Under(t, x, id) { WithinJoin(t, [], id, x); }
    assert forall x :: x in lists <==> x in t.insts && x in t.meta && Within(t, [id], x);
  }

  /** The records of one instance and of all its descendants. */
  method RecordsBelow(tree: RojoTree, id: Ref) returns (records: Copy, lists: map<Ref, seq<Ref>>)
    requires tree.Valid() && id in tree.insts
    ensures records == AddedRecords(tree.Model(), [id]) && lists == ChildLists(tree.Model(), [id])
  {
    ghost var t := tree.Model();
    records, lists := map[], map[];
    var queue := [id];
    ghost var ordered: seq<Ref>, done: set<Ref> := [], {};
    TreeWalkStarts(t, id);
    while queue != []
      invariant TreeWalk(t, id, ordered, queue, done)
      invariant records.Keys == lists.Keys == done
      invariant forall x :: x in records ==> x in t.insts && x in t.meta && records[x] == WireOf(t.insts[x], t.meta[x])
      invariant forall x :: x in lists ==> x in t.insts && lists[x] == t.insts[x].children
      decreases t.insts.Keys - done
    {
      TreeWalkStep(t, id, ordered, queue, done);
      var x := queue[0];
      queue := queue[1..] + tree.insts[x].children;
      records := records[x := WireOf(tree.insts[x], tree.metadata[x])];
      lists := lists[x := tree.insts[x].children];
      ordered, done := ordered + [x], done + {x};
    }
    TreeWalkEnds(t, id, ordered, done);
    RecordsOfOne(t, id, records, lists);
  }

  /** Nothing an added record lists is missing: its list holds exactly the added
      records that name it as their parent, each once. */
  lemma MessageIsClosed(t: Tree, added: seq<Ref>, x: Ref)
    requires WellFormed(t) && x in AddedRecords(t, added)
    ensures var r := AddedRecords(t, added); var lists := ChildLists(t, added);
      && x in lists && NoDup(lists[x])
      && forall y :: y in lists[x] <==> y in r && r[y].parent == x
  {
    var r := AddedRecords(t, added);
    assert NodeOk(t, x);
    var a :| a in added && Under(t, x, a);
    forall y ensures y in t.insts[x].children <==> y in r && r[y].parent == x {
      if y in t.insts { assert NodeOk(t, y); }
      if y in t.insts[x].children { assert Under(t, y, a); }
    }
  }

  /** The view says which children every instance has, though not in which order: trees
      with one view have the same children everywhere. */
  lemma ViewDeterminesChildren(t: Tree, u: Tree, x: Ref)
    requires WellFormed(t) && WellFormed(u) && View(t) == View(u) && x in t.insts
    ensures x in u.insts && NoDup(t.insts[x].children) && NoDup(u.insts[x].children)
    ensures forall y :: y in t.insts[x].children <==> y in u.insts[x].children
  {
    SameLive(t, u);
    assert NodeOk(t, x) && NodeOk(u, x);
    forall y ensures y in t.insts[x].children <==> y in u.insts[x].children {
      if y in t.insts {
        assert NodeOk(t, y) && NodeOk(u, y);
        assert View(t)[y].parent == View(u)[y].parent;
      }
    }
  }

  /** The view says everything else but shared strings: trees with one view have the same
      instances with the same name, class, parent, flag, and value at every property that
      is not a shared string. */
  lemma ViewDeterminesFields(t: Tree, u: Tree, x: Ref)
    requires WellFormed(t) && WellFormed(u) && View(t) == View(u) && x in t.insts
    ensures x in u.insts && x in t.meta && x in u.meta
    ensures t.insts[x].name == u.insts[x].name && t.insts[x].className == u.insts[x].className
    ensures t.insts[x].parent == u.insts[x].parent && t.meta[x].ignoreUnknown == u.meta[x].ignoreUnknown
    ensures forall k :: k in t.insts[x].props && !(t.insts[x].props[k].Plain? && t.insts[x].props[k].scalar.Shared?) ==>
      k in u.insts[x].props && u.insts[x].props[k] == t.insts[x].props[k]
  {
    SameLive(t, u);
    RecordHolds(t, x);
    RecordHolds(u, x);
  }

  /** What the record of an instance holds. */
  lemma RecordHolds(t: Tree, x: Ref)
    requires WellFormed(t)
    ensures x in View(t) <==> x in t.insts
    ensures x in t.insts ==> x in t.meta && x in View(t)
    ensures x in t.insts ==>
      var n, r := t.insts[x], View(t)[x];
      && r.name == n.name && r.className == n.className && r.parent == n.parent
      && r.ignoreUnknown == t.meta[x].ignoreUnknown
      && forall k :: if k in n.props && !(n.props[k].Plain? && n.props[k].scalar.Shared?)
                     then k in r.props && r.props[k] == n.props[k] else k !in r.props
  {
  }

  /** A message holds the record of each instance at or below an added one, as the view
      has it, and its ordered children. */
  lemma MessageHolds(t: Tree, applied: Applied, x: Ref)
    requires WellFormed(t) && CanCompose(t, applied)
    ensures var m := MessageFor(t, applied);
      && m.removed == applied.removed
      && (x in m.added <==> exists a :: a in applied.added && Under(t, x, a))
      && (x in m.added <==> x in m.children)
      && (x in m.added ==> x in t.insts && x in View(t))
      && (x in m.added ==> m.added[x] == View(t)[x] && m.children[x] == t.insts[x].children)
  {
    if a :| a in applied.added && Under(t, x, a) { UnderOrder(t, x, a); }
  }

  /** What an update tells the clients: every change but one to a shared string. */
  lemma UpdateHolds(t: Tree, applied: Applied, i: nat)
    requires i < |applied.updated|
    ensures var m := MessageFor(t, applied); var u := applied.updated[i];
      && |m.updated| == |applied.updated|
      && m.updated[i].id == u.id && m.updated[i].name == u.name && m.updated[i].className == u.className
      && (u.meta.None? ==> m.updated[i].ignoreUnknown == None)
      && (u.meta.Some? ==> m.updated[i].ignoreUnknown == Some(u.meta.value.ignoreUnknown))
      && forall k ::
           if k in u.props && !(u.props[k].Some? && u.props[k].value.Plain? && u.props[k].value.scalar.Shared?)
           then k in m.updated[i].props && m.updated[i].props[k] == u.props[k]
           else k !in m.updated[i].props
  {
    assert MessageFor(t, applied).updated[i] == UpdateOnWire(applied.updated[i]);
  }

  lemma SameLive(t: Tree, u: Tree)
    requires WellFormed(t) && WellFormed(u) && View(t) == View(u)
    ensures forall x :: x in t.insts <==> x in u.insts
  {
    assert t.meta.Keys == t.insts.Keys && u.meta.Keys == u.insts.Keys;
    forall x ensures x in t.insts <==> x in u.insts {
      assert x in View(t) <==> x in t.insts;
      assert x in View(u) <==> x in u.insts;
    }
  }

  // ----- what the client does with it -----

  ghost predicate Below(c: Copy, x: Ref, r: Ref)
    decreases x
  {
    x in c && (x == r || (c[x].parent < x && Below(c, c[x].parent, r)))
  }

  ghost function DropBelow(c: Copy, r: Ref): (d: Copy) {
    map x | x in c && !Below(c, x, r) :: c[x]
  }

  ghost function DropAll(c: Copy, removed: seq<Ref>): (d: Copy)
    decreases |removed|
  {
    if removed == [] then c else DropAll(DropBelow(c, removed[0]), removed[1..])
  }

  function ChangeOnCopy(props: Props, c: Changes): (r: Props) {
    map k | k in props.Keys + c.Keys && (k in c ==> c[k].Some?) :: if k in c then c[k].value else props[k]
  }

  function ChangedWire(w: Wire, u: WireUpdate): (r: Wire) {
    w.(name := if u.name.Some? then u.name.value else w.name,
       className := if u.className.Some? then u.className.value else w.className,
       props := ChangeOnCopy(w.props, u.props),
       ignoreUnknown := if u.ignoreUnknown.Some? then u.ignoreUnknown.value else w.ignoreUnknown)
  }

  function ChangeAll(c: Copy, updated: seq<WireUpdate>): (d: Copy)
    decreases |updated|
  {
    if updated == [] then c
    else
      var u := updated[0];
      ChangeAll(if u.id in c then c[u.id := ChangedWire(c[u.id], u)] else c, updated[1..])
  }

  /** Removals, then additions, then updates. */
  ghost function Replay(c: Copy, m: Message): (d: Copy) {
    ChangeAll(DropAll(c, m.removed) + m.added, m.updated)
  }

  ghost function ReplayAll(c: Copy, messages: seq<Message>): (d: Copy)
    decreases |messages|
  {
    if messages == [] then c else ReplayAll(Replay(c, messages[0]), messages[1..])
  }

  // ----- when the copy stays right -----

  /** The change can be described: it neither points at an instance that the same
      patch adds, whose reference would travel as the snapshot's id, nor hides a
      visible value behind a shared string, which would not travel at all. */
  predicate ChangeDescribable(actual: Props, c: Option<Value>, addIds: map<Ref, Ref>, k: string) {
    c.Some? ==>
      && (c.value.RefValue? ==> c.value.ref !in addIds)
      && (IsShared(c.value) ==> k !in actual || IsShared(actual[k]))
  }

  /** The client is told, or has already, that the property refers to the instance. */
  predicate TellsRef(actual: Props, c: Changes, k: string, z: Ref) {
    if k in c && !IsNullRef(c[k]) && !(c[k].Some? && IsShared(c[k].value)) then c[k] == Some(RefValue(z))
    else k in actual && actual[k] == RefValue(z)
  }

  /** One property. Where a pointer will lead somewhere, that must be what is told, for
      pointers are resolved when the description has been made. */
  predicate PropTold(actual: Props, c: Changes, addIds: map<Ref, Ref>, leads: map<string, Ref>, k: string) {
    if k in leads then TellsRef(actual, c, k, leads[k]) else k in c ==> ChangeDescribable(actual, c[k], addIds, k)
  }

  ghost predicate Describable(actual: Props, c: Changes, addIds: map<Ref, Ref>, leads: map<string, Ref>) {
    forall k :: k in c || k in leads ==> PropTold(actual, c, addIds, leads, k)
  }

  /** Where the pointers of an updated instance will lead. */
  ghost function Leads(t: Tree, q: Patch, r: Props): (leads: map<string, Ref>) {
    map k | k in PointedBy(r) && PatchCarrier(t, q, PointedText(r, k)).Some? ::
      PatchCarrier(t, q, PointedText(r, k)).value
  }

  function PointedText(r: Props, k: string): (text: string)
    requires k in PointedBy(r)
  {
    TextOf(AttributesOf(r).value[PointerName(k)]).value
  }

  ghost predicate UpdateTold(t: Tree, q: Patch, u: Update)
    requires u.id in t.insts
  {
    var actual, addIds := t.insts[u.id].props, AddedIds(t.next, q.added);
    Describable(actual, u.props, addIds, Leads(t, q, ChangedProps(actual, u.props, addIds)))
  }

  ghost predicate AllDescribable(t: Tree, q: Patch) {
    forall u :: u in q.updated && u.id in t.insts ==> UpdateTold(t, q, u)
  }

  /** An applicable patch whose updates are distinct and live, and whose snapshot ids
      were generated before it was applied. */
  ghost predicate Sendable(t: Tree, q: Patch) {
    && WellFormed(t) && Applicable(t, q) && DistinctIds(q.updated)
    && (forall u :: u in q.updated ==> u.id in RemoveAll(t, q.removed).insts)
    && (forall i :: i in AddedIds(t.next, q.added) ==> 0 < i < t.next)
  }

  function ClientProps(actual: Props, c: Changes): (r: Props) {
    ChangeOnCopy(WireProps(actual), WireChanges(map j | j in c && !IsNullRef(c[j]) :: c[j]))
  }

  /** One changed property, seen from the client and from the server. */
  lemma PropDescribed(actual: Props, c: Changes, addIds: map<Ref, Ref>, k: string)
    requires NO_REF !in addIds && forall i :: i in addIds ==> addIds[i] != i
    ensures AgreeAt(ClientProps(actual, c), WireProps(ChangedProps(actual, c, addIds)), k)
        <==> (k in c ==> ChangeDescribable(actual, c[k], addIds, k))
  {
    var r := ChangedProps(actual, c, addIds);
    assert k in r <==> ChangedProp(actual, c, addIds, k).Some?;
  }

  /** Properties with the pointers resolved. */
  function Led(r: Props, leads: map<string, Ref>): (p: Props) {
    map k | k in r.Keys + leads.Keys :: if k in leads then RefValue(leads[k]) else r[k]
  }

  lemma PropLed(actual: Props, c: Changes, addIds: map<Ref, Ref>, leads: map<string, Ref>, k: string)
    requires NO_REF !in addIds && forall i :: i in addIds ==> addIds[i] != i
    ensures AgreeAt(ClientProps(actual, c), WireProps(Led(ChangedProps(actual, c, addIds), leads)), k)
        <==> (k in c || k in leads ==> PropTold(actual, c, addIds, leads, k))
  {
    var r := ChangedProps(actual, c, addIds);
    if k in leads {
      assert WireProps(Led(r, leads))[k] == RefValue(leads[k]);
    } else {
      PropDescribed(actual, c, addIds, k);
      assert AgreeAt(WireProps(Led(r, leads)), WireProps(r), k);
    }
  }

  /** One update: the client's instance agrees with the server's exactly when the
      update is describable. */
  lemma UpdateDescribed(n: Instance, m: Metadata, u: Update, addIds: map<Ref, Ref>, leads: map<string, Ref>,
      m': Metadata)
    requires NO_REF !in addIds && forall i :: i in addIds ==> addIds[i] != i
    requires m'.ignoreUnknown == NewMeta(m, u).ignoreUnknown
    ensures var r := ChangedInstance(n, u, addIds);
      && (ChangedWire(WireOf(n, m), UpdateOnWire(Described(u))) == WireOf(r.(props := Led(r.props, leads)), m')
          <==> Describable(n.props, u.props, addIds, leads))
  {
    var client := ClientProps(n.props, u.props);
    var server := WireProps(Led(ChangedProps(n.props, u.props, addIds), leads));
    forall k ensures AgreeAt(client, server, k) <==>
      (k in u.props || k in leads ==> PropTold(n.props, u.props, addIds, leads, k)) {
      PropLed(n.props, u.props, addIds, leads, k);
    }
    AgreeEverywhere(client, server);
  }

  // ----- phase by phase -----

  lemma {:induction false} BelowIsUnder(t: Tree, x: Ref, r: Ref)
    requires t.meta.Keys == t.insts.Keys
    ensures Below(View(t), x, r) <==> Under(t, x, r)
    decreases x
  {
    if x in t.insts && t.insts[x].parent < x { BelowIsUnder(t, t.insts[x].parent, r); }
  }

  lemma {:induction false} DropsFollow(t: Tree, removed: seq<Ref>)
    requires WellFormed(t) && Removable(t, removed)
    ensures DropAll(View(t), removed) == View(RemoveAll(t, removed))
    decreases |removed|
  {
    if removed != [] {
      var r := removed[0];
      var u := RemoveSubtree(t, r);
      forall x ensures Below(View(t), x, r) <==> Under(t, x, r) { BelowIsUnder(t, x, r); }
      assert DropBelow(View(t), r) == View(u);
      RemoveWellFormed(t, r);
      DropsFollow(u, removed[1..]);
    }
  }

  /** The copy after the updates, at an instance no update names. */
  lemma {:induction false} ChangeElsewhere(c: Copy, updated: seq<WireUpdate>, x: Ref)
    requires forall u :: u in updated ==> u.id != x
    ensures x in ChangeAll(c, updated) <==> x in c
    ensures x in c ==> ChangeAll(c, updated)[x] == c[x]
    decreases |updated|
  {
    if updated != [] {
      var u := updated[0];
      ChangeElsewhere(if u.id in c then c[u.id := ChangedWire(c[u.id], u)] else c, updated[1..], x);
    }
  }

  /** The copy after the updates, at an instance that exactly one update names. */
  lemma {:induction false} ChangeAt(c: Copy, updated: seq<WireUpdate>, i: nat)
    requires i < |updated| && updated[i].id in c
    requires forall a, b :: 0 <= a < b < |updated| ==> updated[a].id != updated[b].id
    ensures updated[i].id in ChangeAll(c, updated)
    ensures ChangeAll(c, updated)[updated[i].id] == ChangedWire(c[updated[i].id], updated[i])
    decreases |updated|
  {
    var u := updated[0];
    var d := if u.id in c then c[u.id := ChangedWire(c[u.id], u)] else c;
    if i == 0 {
      forall w | w in updated[1..] ensures w.id != u.id {
        var k :| 0 <= k < |updated[1..]| && updated[1..][k] == w;
        assert updated[k + 1] == w;
      }
      ChangeElsewhere(d, updated[1..], u.id);
    } else {
      ChangeAt(d, updated[1..], i - 1);
    }
  }

  lemma {:induction false} ChangeKeys(c: Copy, updated: seq<WireUpdate>)
    ensures ChangeAll(c, updated).Keys == c.Keys
    decreases |updated|
  {
    if updated != [] {
      var u := updated[0];
      ChangeKeys(if u.id in c then c[u.id := ChangedWire(c[u.id], u)] else c, updated[1..]);
    }
  }

  /** What the client holds before the updates: the old instances as they were after
      the additions, and the new ones in their final form. */
  ghost predicate MiddleCopy(c: Copy, t: Tree, t2: Tree, v: Tree) {
    && c.Keys == v.insts.Keys
    && (forall x :: x in c && x < t.next ==> x in t2.insts && x in t2.meta && c[x] == WireOf(t2.insts[x], t2.meta[x]))
    && (forall x :: x in c && x >= t.next ==> x in v.insts && x in v.meta && c[x] == WireOf(v.insts[x], v.meta[x]))
  }

  /** The instances at or below the ids in a range at the end are those in the range. */
  lemma BelowRange(v: Tree, lo: Ref, size: nat, x: Ref)
    requires WellFormed(v) && x in v.insts && v.next == lo + size
    ensures Within(v, Range(lo, size), x) <==> x >= lo
  {
    if a :| a in Range(lo, size) && Under(v, x, a) {
      UnderOrder(v, x, a);
    }
    if x >= lo {
      LiveRange(v, x);
      assert Range(lo, size)[x - lo] == x;
      assert Under(v, x, x);
    }
  }

  lemma RecordsAreNew(v: Tree, lo: Ref, size: nat)
    requires WellFormed(v) && v.next == lo + size
    ensures var records := AddedRecords(v, Range(lo, size));
      && (forall x :: x in records <==> x in v.insts && x >= lo)
      && (forall x :: x in records ==> x in v.meta && records[x] == WireOf(v.insts[x], v.meta[x]))
  {
    assert v.meta.Keys == v.insts.Keys;
    forall x | x in v.insts
      ensures Within(v, Range(lo, size), x) <==> x >= lo
    {
      BelowRange(v, lo, size, x);
    }
  }

  /** What the phases keep of the old instances, as far as the wire is concerned. */
  lemma ThinnedView(t: Tree, q: Patch, t1: Tree, t2: Tree)
    requires WellFormed(t) && Thinned(t, t1, q.removed) && Adopted(t1, t2, q.added)
    ensures forall x :: x in t1.insts ==>
      x < t.next && x in t1.meta && x in t2.insts && x in t2.meta
      && WireOf(t2.insts[x], t2.meta[x]) == WireOf(t1.insts[x], t1.meta[x])
  {
    forall x | x in t1.insts
      ensures x < t.next && x in t2.insts && x in t2.meta
      ensures WireOf(t2.insts[x], t2.meta[x]) == WireOf(t1.insts[x], t1.meta[x])
    {
      LiveRange(t, x);
    }
  }

  lemma CopyInTheMiddle(t: Tree, q: Patch, t1: Tree, t2: Tree, v: Tree)
    requires WellFormed(t) && Removable(t, q.removed) && t1 == RemoveAll(t, q.removed)
    requires Thinned(t, t1, q.removed) && Adopted(t1, t2, q.added)
    requires WellFormed(v) && v.insts.Keys == t2.insts.Keys && v.next == t2.next
    ensures MiddleCopy(DropAll(View(t), q.removed) + AddedRecords(v, Range(t.next, Total(q.added))), t, t2, v)
  {
    DropsFollow(t, q.removed);
    RecordsAreNew(v, t.next, Total(q.added));
    ThinnedView(t, q, t1, t2);
    assert t1.meta.Keys == t1.insts.Keys;
    JoinedViews(t, t1, t2, v, AddedRecords(v, Range(t.next, Total(q.added))));
  }

  lemma JoinedViews(t: Tree, t1: Tree, t2: Tree, v: Tree, records: Copy)
    requires t1.meta.Keys == t1.insts.Keys
    requires forall x :: x in v.insts <==> x in t1.insts || (x in v.insts && x >= t.next)
    requires forall x :: x in t1.insts ==>
      x < t.next && x in t2.insts && x in t2.meta && WireOf(t2.insts[x], t2.meta[x]) == WireOf(t1.insts[x], t1.meta[x])
    requires forall x :: x in records <==> x in v.insts && x >= t.next
    requires forall x :: x in records ==> x in v.meta && records[x] == WireOf(v.insts[x], v.meta[x])
    ensures MiddleCopy(View(t1) + records, t, t2, v)
  {
  }

  lemma {:induction false} DescribedIds(us: seq<Update>)
    ensures |DescribedAll(us)| == |us| && forall i :: 0 <= i < |us| ==> DescribedAll(us)[i] == Described(us[i])
  {
    if us != [] { DescribedIds(us[1..]); }
  }

  /** At an old instance without an update, server and client agree. */
  lemma QuietInstance(t: Tree, q: Patch, t1: Tree, t2: Tree, st: State, v: Tree, x: Ref)
    requires WellFormed(t) && Phases(t, q, t1, t2, st) && Finishing(t, q, st, v)
    requires x in v.insts && x < t.next && x !in UpdatedIds(q.updated)
    ensures x in t2.insts && x in t2.meta && x in v.meta
    ensures WireOf(v.insts[x], v.meta[x]) == WireOf(t2.insts[x], t2.meta[x])
  {
    assert t2.meta.Keys == t2.insts.Keys;
  }

  /** At an updated instance, the server has what the update says, and where its
      pointers lead. */
  lemma UpdatedInstance(t: Tree, q: Patch, t1: Tree, t2: Tree, st: State, v: Tree, u: Update)
    requires WellFormed(t) && Phases(t, q, t1, t2, st) && Finishing(t, q, st, v)
    requires v == Finalized(st) && PointersFit(st) && NotedAt(st, u.id)
    requires forall w :: SpecifiedRef(v, w) == PatchCarrier(t, q, w)
    requires u in q.updated && u.id in t1.insts
    ensures u.id < t.next && u.id in t.insts && u.id in v.insts && u.id in v.meta && u.id in t2.insts && u.id in t2.meta
    ensures t2.insts[u.id].props == t.insts[u.id].props
    ensures var r := ChangedInstance(t2.insts[u.id], u, st.ctx.ids);
      v.insts[u.id] == r.(props := Led(r.props, Leads(t, q, r.props)))
    ensures v.meta[u.id].ignoreUnknown == NewMeta(t2.meta[u.id], u).ignoreUnknown
  {
    LiveRange(t, u.id);
    assert UpdateDone(t2, st.tree, u, st.ctx.ids);
    var m := TranslateAdded(st.tree, st.ctx.hasRefs, st.ctx.ids);
    assert m.insts[u.id] == st.tree.insts[u.id] && ResolvesAt(m, v, u.id);
    PropsLed(t, q, st, v, u.id);
  }

  /** The properties of an updated instance in the end. */
  lemma PropsLed(t: Tree, q: Patch, st: State, v: Tree, x: Ref)
    requires v == Finalized(st) && PointersFit(st) && NotedAt(st, x) && x in v.insts
    requires forall w :: SpecifiedRef(v, w) == PatchCarrier(t, q, w)
    requires ResolvesAt(Translated(st), v, x) && Translated(st).insts[x] == st.tree.insts[x]
    ensures v.insts[x].props == Led(st.tree.insts[x].props, Leads(t, q, st.tree.insts[x].props))
  {
    var r := st.tree.insts[x].props;
    forall k ensures AgreeAt(v.insts[x].props, Led(r, Leads(t, q, r)), k) {
      if k in PointedBy(r) {
        PointedHere(r, k);
        ResolvedAtTheEnd(st, x, k, PointedText(r, k));
        assert SpecifiedRef(v, PointedText(r, k)) == PatchCarrier(t, q, PointedText(r, k));
      } else {
        assert AgreeAt(v.insts[x].props, r, k);
      }
    }
    AgreeEverywhere(v.insts[x].props, Led(r, Leads(t, q, r)));
  }

  lemma PointedHere(r: Props, k: string)
    requires k in PointedBy(r)
    ensures var u := PointedText(r, k);
      (k, u) in PointersIn(r) && forall w :: w in PointersIn(r) && w.0 == k ==> w.1 == u
  {
    var attrs := AttributesOf(r).value;
    forall w: string ensures (k, w) in PointersIn(r) <==> w == PointedText(r, k) { PointerListContents(attrs, k, w); }
  }

  /** Replica fidelity for one patch: the replayed copy is the view of the new tree
      if and only if every update is describable. */
  lemma ReplayFollows(t: Tree, q: Patch)
    requires Sendable(t, q)
    ensures var v := PatchEffect.ApplyPatch(t, q);
      Replay(View(t), MessageFor(v, Applying(t, q).ctx.applied)) == View(v) <==> AllDescribable(t, q)
  {
    var t1, t2 := ApplyingPhases(t, q);
    var st := Applying(t, q);
    ApplyingFinishes(t, q);
    AppliedShape(t, q);
    var v := PatchEffect.ApplyPatch(t, q);
    CopyInTheMiddle(t, q, t1, t2, v);
    AddedIdsRange(t, q);
    ApplyingLeads(t, q);
    UpdatesDecide(t, q, t1, t2, st, v, DropAll(View(t), q.removed) + AddedRecords(v, Range(t.next, Total(q.added))));
  }

  lemma AddedIdsRange(t: Tree, q: Patch)
    requires forall i :: i in AddedIds(t.next, q.added) ==> 0 < i < t.next
    ensures NO_REF !in AddedIds(t.next, q.added)
    ensures forall i :: i in AddedIds(t.next, q.added) ==> AddedIds(t.next, q.added)[i] != i
  {
    AddedIdsAbove(t.next, q.added);
  }

  lemma {:induction false} AddedIdsAbove(n: Ref, added: seq<Add>)
    ensures forall i :: i in AddedIds(n, added) ==> AddedIds(n, added)[i] >= n
    decreases |added|
  {
    if added != [] {
      SnapshotIdsKeys(n, added[0].snap);
      AddedIdsAbove(n + Size(added[0].snap), added[1..]);
    }
  }

  /** The copy after the described updates, where no update applies. */
  lemma CopyNotNamed(c: Copy, updated: seq<Update>, x: Ref)
    requires x !in UpdatedIds(updated) && x in c
    ensures var d := ChangeAll(c, UpdatesOnWire(DescribedAll(updated))); x in d && d[x] == c[x]
  {
    var us := UpdatesOnWire(DescribedAll(updated));
    DescribedIds(updated);
    forall w | w in us ensures w.id != x {
      var i :| 0 <= i < |us| && us[i] == w;
      assert updated[i] in updated;
    }
    ChangeElsewhere(c, us, x);
  }

  /** The copy after the described updates, where one applies. */
  lemma CopyNamed(c: Copy, updated: seq<Update>, u: Update)
    requires DistinctIds(updated) && u in updated && u.id in c
    ensures var d := ChangeAll(c, UpdatesOnWire(DescribedAll(updated)));
      u.id in d && d[u.id] == ChangedWire(c[u.id], UpdateOnWire(Described(u)))
  {
    var i :| 0 <= i < |updated| && updated[i] == u;
    DescribedIds(updated);
    ChangeAt(c, UpdatesOnWire(DescribedAll(updated)), i);
  }

  lemma QuietOnCopy(t: Tree, q: Patch, t1: Tree, t2: Tree, st: State, v: Tree, c: Copy, x: Ref)
    requires WellFormed(t) && Phases(t, q, t1, t2, st) && Finishing(t, q, st, v)
    requires MiddleCopy(c, t, t2, v) && x in v.insts && x in v.meta && x !in UpdatedIds(q.updated)
    ensures x in c && c[x] == WireOf(v.insts[x], v.meta[x])
  {
    if x < t.next { QuietInstance(t, q, t1, t2, st, v, x); }
  }

  /** What the last phase makes of an applied patch, as far as pointers go. */
  ghost predicate Resolved(t: Tree, q: Patch, st: State, v: Tree) {
    && v == Finalized(st) && PointersFit(st) && (forall u :: u in q.updated ==> NotedAt(st, u.id))
    && forall w :: SpecifiedRef(v, w) == PatchCarrier(t, q, w)
  }

  lemma ApplyingLeads(t: Tree, q: Patch)
    requires Sendable(t, q)
    ensures Resolved(t, q, Applying(t, q), PatchEffect.ApplyPatch(t, q))
  {
    ApplyingFits(t, q);
    forall u | u in q.updated ensures NotedAt(Applying(t, q), u.id) { ApplyingNotes(t, q, u.id); }
    forall w ensures SpecifiedRef(PatchEffect.ApplyPatch(t, q), w) ==
      PatchCarrier(t, q, w) { PatchCarrierExactly(t, q, w); }
  }

  lemma UpdatedOnCopy(t: Tree, q: Patch, t1: Tree, t2: Tree, st: State, v: Tree, c: Copy, u: Update)
    requires WellFormed(t) && Phases(t, q, t1, t2, st) && Finishing(t, q, st, v) && Resolved(t, q, st, v)
    requires MiddleCopy(c, t, t2, v) && u in q.updated && u.id in t1.insts
    requires NO_REF !in st.ctx.ids && forall i :: i in st.ctx.ids ==> st.ctx.ids[i] != i
    ensures u.id in t.insts && u.id in v.insts && u.id in v.meta && u.id in c
    ensures ChangedWire(c[u.id], UpdateOnWire(Described(u))) == WireOf(v.insts[u.id], v.meta[u.id]) <==>
      UpdateTold(t, q, u)
  {
    UpdatedInstance(t, q, t1, t2, st, v, u);
    var r := ChangedProps(t.insts[u.id].props, u.props, st.ctx.ids);
    UpdateDescribed(t2.insts[u.id], t2.meta[u.id], u, st.ctx.ids, Leads(t, q, r), v.meta[u.id]);
  }

  /** Agreement everywhere is agreement at the updated instances. */
  lemma Decide(d: Copy, view: Copy, t: Tree, q: Patch)
    requires d.Keys == view.Keys
    requires forall x :: x in view && x !in UpdatedIds(q.updated) ==> d[x] == view[x]
    requires forall u :: u in q.updated ==> u.id in t.insts && u.id in view
    requires forall u :: u in q.updated ==> (d[u.id] == view[u.id] <==> UpdateTold(t, q, u))
    ensures d == view <==> AllDescribable(t, q)
  {
    if AllDescribable(t, q) {
      forall x | x in view ensures d[x] == view[x] {
        if x in UpdatedIds(q.updated) {
          var u :| u in q.updated && u.id == x;
        }
      }
      assert d == view;
    }
  }

  lemma UpdatesDecide(t: Tree, q: Patch, t1: Tree, t2: Tree, st: State, v: Tree, c: Copy)
    requires WellFormed(t) && Phases(t, q, t1, t2, st) && Finishing(t, q, st, v) && Resolved(t, q, st, v)
    requires WellFormed(v) && MiddleCopy(c, t, t2, v) && DistinctIds(q.updated)
    requires forall u :: u in q.updated ==> u.id in t1.insts
    requires NO_REF !in st.ctx.ids && forall i :: i in st.ctx.ids ==> st.ctx.ids[i] != i
    ensures ChangeAll(c, UpdatesOnWire(DescribedAll(q.updated))) == View(v) <==> AllDescribable(t, q)
  {
    var d := ChangeAll(c, UpdatesOnWire(DescribedAll(q.updated)));
    ChangeKeys(c, UpdatesOnWire(DescribedAll(q.updated)));
    ViewKeys(v);
    forall u | u in q.updated
      ensures u.id in t.insts && u.id in View(v)
      ensures d[u.id] == View(v)[u.id] <==> UpdateTold(t, q, u)
    {
      UpdatedAgrees(t, q, t1, t2, st, v, c, u);
    }
    forall x | x in View(v) && x !in UpdatedIds(q.updated) ensures d[x] == View(v)[x] {
      QuietOnCopy(t, q, t1, t2, st, v, c, x);
      CopyNotNamed(c, q.updated, x);
    }
    Decide(d, View(v), t, q);
  }

  lemma ViewKeys(v: Tree)
    requires WellFormed(v)
    ensures View(v).Keys == v.insts.Keys == v.meta.Keys
  {
    assert v.meta.Keys == v.insts.Keys;
  }

  lemma UpdatedAgrees(t: Tree, q: Patch, t1: Tree, t2: Tree, st: State, v: Tree, c: Copy, u: Update)
    requires WellFormed(t) && Phases(t, q, t1, t2, st) && Finishing(t, q, st, v) && Resolved(t, q, st, v)
    requires MiddleCopy(c, t, t2, v) && DistinctIds(q.updated) && u in q.updated && u.id in t1.insts
    requires NO_REF !in st.ctx.ids && forall i :: i in st.ctx.ids ==> st.ctx.ids[i] != i
    ensures u.id in t.insts && u.id in View(v)
    ensures var d := ChangeAll(c, UpdatesOnWire(DescribedAll(q.updated)));
      u.id in d && (d[u.id] == View(v)[u.id] <==> UpdateTold(t, q, u))
  {
    UpdatedOnCopy(t, q, t1, t2, st, v, c, u);
    CopyNamed(c, q.updated, u);
  }

  // ----- whole runs -----

  ghost predicate RunApplies(t: Tree, patches: seq<Patch>)
    decreases |patches|
  {
    patches == [] || (Sendable(t, patches[0]) && RunApplies(PatchEffect.ApplyPatch(t, patches[0]), patches[1..]))
  }

  ghost predicate RunDescribable(t: Tree, patches: seq<Patch>)
    requires RunApplies(t, patches)
    decreases |patches|
  {
    patches == [] ||
    (AllDescribable(t, patches[0]) && RunDescribable(PatchEffect.ApplyPatch(t, patches[0]), patches[1..]))
  }

  ghost predicate RunSendable(t: Tree, patches: seq<Patch>) {
    RunApplies(t, patches) && RunDescribable(t, patches)
  }

  ghost function TreeAfter(t: Tree, patches: seq<Patch>): (v: Tree)
    requires RunApplies(t, patches)
    decreases |patches|
  {
    if patches == [] then t else TreeAfter(PatchEffect.ApplyPatch(t, patches[0]), patches[1..])
  }

  ghost function TurnMessage(t: Tree, q: Patch): (m: Message)
    requires Applicable(t, q)
  {
    MessageFor(PatchEffect.ApplyPatch(t, q), Applying(t, q).ctx.applied)
  }

  ghost function CopyAfter(c: Copy, t: Tree, patches: seq<Patch>): (d: Copy)
    requires RunApplies(t, patches)
    decreases |patches|
  {
    if patches == [] then c
    else CopyAfter(Replay(c, TurnMessage(t, patches[0])), PatchEffect.ApplyPatch(t, patches[0]), patches[1..])
  }

  /** The copy is the view of the tree, now and after every patch of the run. */
  ghost predicate FollowsAll(c: Copy, t: Tree, patches: seq<Patch>)
    requires RunApplies(t, patches)
    decreases |patches|
  {
    c == View(t) &&
    (patches == [] ||
     FollowsAll(Replay(c, TurnMessage(t, patches[0])), PatchEffect.ApplyPatch(t, patches[0]), patches[1..]))
  }

  /** Replica fidelity for whole runs: the copy is right after every patch if and only
      if every patch can be described. */
  lemma {:induction false} RunFollows(t: Tree, patches: seq<Patch>)
    requires RunApplies(t, patches)
    ensures FollowsAll(View(t), t, patches) <==> RunDescribable(t, patches)
    ensures RunDescribable(t, patches) ==> CopyAfter(View(t), t, patches) == View(TreeAfter(t, patches))
    decreases |patches|
  {
    if patches != [] {
      var v := PatchEffect.ApplyPatch(t, patches[0]);
      ReplayFollows(t, patches[0]);
      RunFollows(v, patches[1..]);
      WrongForGood(Replay(View(t), TurnMessage(t, patches[0])), v, patches[1..]);
    }
  }

  lemma WrongForGood(c: Copy, t: Tree, patches: seq<Patch>)
    requires RunApplies(t, patches)
    ensures FollowsAll(c, t, patches) ==> c == View(t)
  {
  }

  lemma {:induction false} RemovedWereLive(t: Tree, removed: seq<Ref>, r: Ref)
    requires Removable(t, removed) && r in removed
    ensures r in t.insts
    decreases |removed|
  {
    if r != removed[0] { RemovedWereLive(RemoveSubtree(t, removed[0]), removed[1..], r); }
  }

  /** Patches that cannot be described exist for every tree: a visible value may go
      behind a shared string, ... */
  lemma HidingCannotBeDescribed(t: Tree, x: Ref, k: string, blob: string)
    requires WellFormed(t) && x in t.insts && k in t.insts[x].props && !IsShared(t.insts[x].props[k])
    requires PointedBy(t.insts[x].props) == {}
    ensures var q := Patch([], [], [Update(x, None, None, map[k := Some(Plain(Shared(blob)))], None)]);
      Sendable(t, q) && !AllDescribable(t, q)
  {
    var u := Update(x, None, None, map[k := Some(Plain(Shared(blob)))], None);
    var q := Patch([], [], [u]);
    ChangeIsSendable(t, [], u);
    NothingLeads(t, q, u);
    assert !ChangeDescribable(t.insts[x].props, u.props[k], AddedIds(t.next, []), k);
    assert !PropTold(t.insts[x].props, u.props, AddedIds(t.next, []), map[], k);
    assert u in [u];
  }

  /** ... or a property may refer to an instance that the same patch adds. */
  lemma AddedCannotBeDescribed(t: Tree, x: Ref, k: string, s: Snapshot)
    requires WellFormed(t) && x in t.insts && PointedBy(t.insts[x].props) == {}
    requires s.children == [] && 0 < s.id < t.next
    ensures var q := Patch([], [Add(x, s)], [Update(x, None, None, map[k := Some(RefValue(s.id))], None)]);
      Sendable(t, q) && !AllDescribable(t, q)
  {
    var u := Update(x, None, None, map[k := Some(RefValue(s.id))], None);
    var q := Patch([], [Add(x, s)], [u]);
    ChangeIsSendable(t, [Add(x, s)], u);
    AddedOne(t.next, x, s);
    NothingLeads(t, q, u);
    assert !ChangeDescribable(t.insts[x].props, u.props[k], AddedIds(t.next, [Add(x, s)]), k);
    assert !PropTold(t.insts[x].props, u.props, AddedIds(t.next, [Add(x, s)]), map[], k);
    assert u in [u];
  }

  lemma NothingLeads(t: Tree, q: Patch, u: Update)
    requires u.id in t.insts && PointedBy(t.insts[u.id].props) == {}
    requires forall k :: k in u.props ==> u.props[k].Some? && !u.props[k].value.Attributes?
    ensures Leads(t, q, ChangedProps(t.insts[u.id].props, u.props, AddedIds(t.next, q.added))) == map[]
  {
    var r := ChangedProps(t.insts[u.id].props, u.props, AddedIds(t.next, q.added));
    assert ATTRIBUTES in r ==>
      r[ATTRIBUTES] == ChangedProp(t.insts[u.id].props, u.props, AddedIds(t.next, q.added), ATTRIBUTES).value;
    assert PointedBy(r) == {};
  }

  lemma AddedOne(n: Ref, x: Ref, s: Snapshot)
    requires s.children == [] && s.id != NO_REF
    ensures AddedIds(n, [Add(x, s)]) == map[s.id := n]
  {
    assert [Add(x, s)][1..] == [];
    assert SnapshotsIds(n + 1, []) == map[];
    assert SnapshotIds(n, s) == OwnId(n, s) + map[];
  }

  lemma ChangeIsSendable(t: Tree, added: seq<Add>, u: Update)
    requires WellFormed(t) && u.id in t.insts
    requires added == [] || (|added| == 1 && added[0].parent in t.insts
                             && added[0].snap.children == [] && 0 < added[0].snap.id < t.next)
    ensures Sendable(t, Patch([], added, [u]))
  {
    assert RemoveAll(t, []) == t;
    if added != [] {
      AddedOne(t.next, added[0].parent, added[0].snap);
      assert added == [Add(added[0].parent, added[0].snap)] && added[1..] == [];
    }
  }

  /** For a computed patch, everything but describability comes for free. */
  lemma ReconcileReplicated(t: Tree, s: Snapshot, id: Ref)
    requires WellFormed(t) && id in t.insts
    requires forall i :: i in IdsIn(s) ==> i < t.next
    ensures Sendable(t, PatchFor(t, Some(s), id))
    ensures var q := PatchFor(t, Some(s), id); var v := PatchEffect.ApplyPatch(t, q);
      Replay(View(t), MessageFor(v, Applying(t, q).ctx.applied)) == View(v) <==> AllDescribable(t, q)
  {
    PlanIsGood(t, s, id);
    PlanSendable(t, s, PlanNode(t, s, id));
    ReplayFollows(t, PatchFor(t, Some(s), id));
  }

  lemma PlanSendable(t: Tree, s: Snapshot, p: Plan)
    requires WellFormed(t) && GoodPlan(t, s, p)
    requires forall i :: i in IdsIn(s) ==> i < t.next
    ensures Sendable(t, RewritePlan(p))
  {
    PlanApplicable(t, s, p);
    ComputedUpdates(t, s, p);
    PlanIdsOld(t, s, p);
  }

  lemma PlanIdsOld(t: Tree, s: Snapshot, p: Plan)
    requires From(p, s) && forall i :: i in IdsIn(s) ==> i < t.next
    ensures forall i :: i in AddedIds(t.next, RewritePlan(p).added) ==> 0 < i < t.next
  {
    AddedIdsOld(t.next, s, p.ids, p.patch.added);
  }

  lemma AddedIdsOld(n: Ref, s: Snapshot, ids: map<Ref, Ref>, added: seq<Add>)
    requires (forall a :: a in added ==> Part(a.snap, s)) && forall i :: i in IdsIn(s) ==> i < n
    ensures forall i :: i in AddedIds(n, RewriteAdds(ids, added)) ==> 0 < i < n
  {
    RewriteRow(ids, added, n);
    AddedIdsKeys(n, added, s);
    NoNullIds(s);
  }
}
