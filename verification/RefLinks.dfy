/** Syncback's linking of reference properties: a walk collects them, later their
    targets get ids and their owners get pointer attributes
    (src/syncback/ref_properties.rs). */
module RefLinks {
  import opened Basics
  import opened Values
  import opened MultiMaps
  import opened TreeModel
  import opened PatchEffect
  import opened Doms

  datatype Link = Link(name: string, value: Ref)

  type Links = MultiMap<Ref, Link>

  const UNIQUE_ID := "UniqueId"

  /** `get_existing_id` */
  function ExistingId(n: Instance): (r: Option<string>) {
    var found := AttributesOf(n.props);
    if found.Some? then AttributeId(found.value) else None
  }

  // ----- collecting -----

  /** A property of `x` that refers to an instance of the DOM. */
  predicate IsLink(insts: Instances, x: Ref, l: Link) {
    x in insts && l.name in insts[x].props && insts[x].props[l.name] == RefValue(l.value) && l.value != NO_REF
      && l.value in insts
  }

  ghost predicate IsTarget(links: Links, y: Ref) {
    exists x, l :: l in Get(links, x) && l.value == y
  }

  /** Which target was last seen with each id, and who needs a new one. */
  datatype Tally = Tally(ids: map<string, Ref>, rewrite: set<Ref>)

  function Tallied(insts: Instances, tally: Tally, y: Ref): (r: Tally)
    requires y in insts
  {
    var found := ExistingId(insts[y]);
    if found.None? then tally.(rewrite := tally.rewrite + {y})
    else
      var id := found.value;
      Tally(tally.ids[id := y], if id in tally.ids && tally.ids[id] != y then tally.rewrite + {y} else tally.rewrite)
  }

  /** The tally after coming across these targets, in this order. */
  function Scan(insts: Instances, targets: seq<Ref>): (r: Tally)
    requires forall y :: y in targets ==> y in insts
  {
    if targets == [] then Tally(map[], {})
    else Tallied(insts, Scan(insts, targets[..|targets| - 1]), targets[|targets| - 1])
  }

  ghost predicate SharesId(insts: Instances, targets: seq<Ref>, y: Ref)
    requires y in insts && forall z :: z in targets ==> z in insts
  {
    exists z :: z in targets && z != y && ExistingId(insts[z]) == ExistingId(insts[y])
  }

  /** What has to be rewritten: at least the targets without an id and all but one
      of those with the same id, and no target whose id is its own. */
  ghost predicate TallyOk(insts: Instances, targets: seq<Ref>, tally: Tally)
    requires forall y :: y in targets ==> y in insts
  {
    && (forall y :: y in targets && ExistingId(insts[y]).None? ==> y in tally.rewrite)
    && (forall y :: y in targets && ExistingId(insts[y]).Some? ==> ExistingId(insts[y]).value in tally.ids)
    && (forall u :: u in tally.ids ==> tally.ids[u] in targets && ExistingId(insts[tally.ids[u]]) == Some(u))
    && (forall y, z :: y in targets && z in targets && y != z && ExistingId(insts[y]) == ExistingId(insts[z])
          ==> y in tally.rewrite || z in tally.rewrite)
    && (forall y :: y in tally.rewrite ==> y in targets && (ExistingId(insts[y]).None? || SharesId(insts, targets, y)))
  }

  lemma {:induction false} ScanTallies(insts: Instances, targets: seq<Ref>)
    requires forall y :: y in targets ==> y in insts
    ensures TallyOk(insts, targets, Scan(insts, targets))
    decreases |targets|
  {
    if targets != [] {
      var k := |targets| - 1;
      var before, y := targets[..k], targets[k];
      ScanTallies(insts, before);
      assert targets == before + [y];
      TallyStep(insts, before, Scan(insts, before), y);
    }
  }

  lemma TallyStep(insts: Instances, before: seq<Ref>, tally: Tally, y: Ref)
    requires y in insts && (forall z :: z in before ==> z in insts) && TallyOk(insts, before, tally)
    ensures TallyOk(insts, before + [y], Tallied(insts, tally, y))
  {
    var r, targets := Tallied(insts, tally, y), before + [y];
    assert forall z :: z in targets <==> z in before || z == y;
    forall z | z in r.rewrite ensures ExistingId(insts[z]).None? || SharesId(insts, targets, z) {
      if z in tally.rewrite && ExistingId(insts[z]).Some? {
        assert SharesId(insts, before, z);
      } else if ExistingId(insts[z]).Some? {
        assert tally.ids[ExistingId(insts[z]).value] in before;
      }
    }
  }

  /** What `collect_referents` promises: exactly the live reference properties of
      the walked instances, and the tally of their targets. */
  ghost predicate Collected(insts: Instances, reached: set<Ref>, links: Links, targets: seq<Ref>, rewrite: set<Ref>) {
    && Proper(links)
    && (forall x, l :: l in Get(links, x) <==> x in reached && IsLink(insts, x, l))
    && (forall y :: y in targets ==> y in insts)
    && (forall y :: y in targets <==> IsTarget(links, y))
    && rewrite == Scan(insts, targets).rewrite
  }

  /** Between two properties of `x`: those in `todo` have not been looked at. */
  ghost predicate Collecting(insts: Instances, ordered: seq<Ref>, x: Ref, todo: set<string>, links: Links,
      targets: seq<Ref>, tally: Tally) {
    && Proper(links)
    && (forall w, l :: l in Get(links, w) <==> IsLink(insts, w, l) && (w in ordered || (w == x && l.name !in todo)))
    && (forall y :: y in targets ==> y in insts)
    && (forall y :: y in targets <==> IsTarget(links, y))
    && tally == Scan(insts, targets)
  }

  lemma CollectLink(insts: Instances, ordered: seq<Ref>, x: Ref, todo: set<string>, links: Links, targets: seq<Ref>,
      tally: Tally, k: string)
    requires Collecting(insts, ordered, x, todo, links, targets, tally) && x in insts && x !in ordered
    requires k in todo && k in insts[x].props && insts[x].props[k].RefValue?
      && IsLink(insts, x, Link(k, insts[x].props[k].ref))
    ensures var y := insts[x].props[k].ref;
      Collecting(insts, ordered, x, todo - {k}, Inserted(links, x, Link(k, y)), targets + [y], Tallied(insts, tally, y))
  {
    var y := insts[x].props[k].ref;
    var own, more := Link(k, y), Inserted(links, x, Link(k, y));
    InsertedContents(links, x, own);
    assert (targets + [y])[..|targets|] == targets;
    forall w, l ensures l in Get(more, w) <==>
      IsLink(insts, w, l) && (w in ordered || (w == x && l.name !in todo - {k})) {
      assert l in Get(more, w) <==> l in Get(links, w) || (w == x && l == own);
    }
    forall z ensures z in targets + [y] <==> IsTarget(more, z) {
      assert own in Get(more, x);
      if IsTarget(links, z) {
        var w, l :| l in Get(links, w) && l.value == z;
        assert l in Get(more, w);
      }
    }
  }

  /** A property that is no link changes nothing. */
  lemma SkipProp(insts: Instances, ordered: seq<Ref>, x: Ref, todo: set<string>, links: Links, targets: seq<Ref>,
      tally: Tally, k: string)
    requires Collecting(insts, ordered, x, todo, links, targets, tally) && x in insts && k in insts[x].props
    requires !(insts[x].props[k].RefValue? && IsLink(insts, x, Link(k, insts[x].props[k].ref)))
    ensures Collecting(insts, ordered, x, todo - {k}, links, targets, tally)
  {
  }

  /** The walk over the properties of one instance, in any order. */
  method CollectProperties(dom: Dom, x: Ref, links0: Links, tally0: Tally, ghost ordered: seq<Ref>,
      ghost targets0: seq<Ref>) returns (links: Links, tally: Tally, ghost targets: seq<Ref>)
    requires dom.Valid() && x in dom.insts && x !in ordered
    requires Collecting(dom.insts, ordered, x, dom.insts[x].props.Keys, links0, targets0, tally0)
    ensures Collecting(dom.insts, ordered, x, {}, links, targets, tally)
  {
    links, tally, targets := links0, tally0, targets0;
    var props := dom.insts[x].props;
    var todo := props.Keys;
    while todo != {}
      invariant todo <= props.Keys
      invariant Collecting(dom.insts, ordered, x, todo, links, targets, tally)
      decreases todo
    {
      var k :| k in todo;
      var value := props[k];
      if value.RefValue? && value.ref != NO_REF && value.ref in dom.insts {
        CollectLink(dom.insts, ordered, x, todo, links, targets, tally, k);
        links := Insert(links, x, Link(k, value.ref));
        targets := targets + [value.ref];
        tally := NoteTarget(dom, tally, value.ref);
      } else {
        SkipProp(dom.insts, ordered, x, todo, links, targets, tally, k);
      }
      todo := todo - {k};
    }
  }

  method NoteTarget(dom: Dom, tally: Tally, y: Ref) returns (r: Tally)
    requires y in dom.insts
    ensures r == Tallied(dom.insts, tally, y)
  {
    r := tally;
    var found := ExistingId(dom.insts[y]);
    if found.Some? {
      if found.value in r.ids && r.ids[found.value] != y {
        r := r.(rewrite := r.rewrite + {y});
      }
      r := r.(ids := r.ids[found.value := y]);
    } else {
      r := r.(rewrite := r.rewrite + {y});
    }
  }

  method CollectReferents(dom: Dom) returns (links: Links, rewrite: set<Ref>)
    requires dom.Valid()
    ensures exists reached, targets ::
      dom.root in reached && Closed(dom.insts, reached) && Collected(dom.insts, reached, links, targets, rewrite)
  {
    ghost var rank :| Ranked(dom.insts, rank);
    ghost var ordered := [];
    var tally := Tally(map[], {});
    links := map[];
    ghost var targets: seq<Ref> := [];
    var queue := [dom.root];
    WalkStarts(dom.insts, dom.root, rank);
    while queue != []
      invariant Walking(dom.insts, dom.root, rank, ordered, queue)
      invariant Gathered(dom.insts, ordered, links, targets, tally)
      decreases |dom.insts.Keys - Elements(ordered)|
    {
      var x := queue[0];
      WalkStep(dom.insts, dom.root, rank, ordered, queue);
      SomeLeft(dom.insts, ordered, x);
      queue := queue[1..] + dom.insts[x].children;
      GatheredBefore(dom.insts, ordered, x, links, targets, tally);
      links, tally, targets := CollectProperties(dom, x, links, tally, ordered, targets);
      GatheredAfter(dom.insts, ordered, x, links, targets, tally);
      ordered := ordered + [x];
    }
    WalkEnds(dom.insts, dom.root, rank, ordered);
    rewrite := tally.rewrite;
    assert Collected(dom.insts, Elements(ordered), links, targets, rewrite);
  }

  lemma GatheredBefore(insts: Instances, ordered: seq<Ref>, x: Ref, links: Links, targets: seq<Ref>, tally: Tally)
    requires Gathered(insts, ordered, links, targets, tally) && x in insts
    ensures Collecting(insts, ordered, x, insts[x].props.Keys, links, targets, tally)
  {
  }

  lemma GatheredAfter(insts: Instances, ordered: seq<Ref>, x: Ref, links: Links, targets: seq<Ref>, tally: Tally)
    requires Collecting(insts, ordered, x, {}, links, targets, tally)
    ensures Gathered(insts, ordered + [x], links, targets, tally)
  {
  }

  /** Between two instances. */
  ghost predicate Gathered(insts: Instances, ordered: seq<Ref>, links: Links, targets: seq<Ref>, tally: Tally) {
    && Proper(links)
    && (forall w, l :: l in Get(links, w) <==> IsLink(insts, w, l) && w in ordered)
    && (forall y :: y in targets ==> y in insts)
    && (forall y :: y in targets <==> IsTarget(links, y))
    && tally == Scan(insts, targets)
  }

  // ----- writing ids -----

  /** Do the attributes have the right kind, if there are any? Otherwise linking fails. */
  predicate AttributesFit(n: Instance) {
    ATTRIBUTES in n.props ==> n.props[ATTRIBUTES].Attributes?
  }

  function OwnAttributes(n: Instance): (r: map<string, Scalar>) {
    if AttributesOf(n.props).Some? then AttributesOf(n.props).value else map[]
  }

  function WithAttributes(n: Instance, attrs: map<string, Scalar>): (r: Instance) {
    n.(props := n.props[ATTRIBUTES := Attributes(attrs)])
  }

  /** The id an instance gets: the text of its unique id, or a generated one. */
  function WrittenId(n: Instance, generated: string): (r: string) {
    if UNIQUE_ID in n.props && n.props[UNIQUE_ID].Plain? && n.props[UNIQUE_ID].scalar.UniqueId?
    then n.props[UNIQUE_ID].scalar.printed
    else generated
  }

  function IdentifiedInstance(n: Instance, generated: string): (r: Instance)
    ensures ExistingId(r) == Some(WrittenId(n, generated))
  {
    WithAttributes(n, OwnAttributes(n)[ID_ATTRIBUTE := Str(WrittenId(n, generated))])
  }

  function Identified(insts: Instances, rewrite: set<Ref>, generated: Ref -> string): (r: Instances) {
    map x | x in insts :: if x in rewrite then IdentifiedInstance(insts[x], generated(x)) else insts[x]
  }

  /** Fails at a rewritten instance whose attributes have the wrong kind; those
      before it have their ids by then. */
  method WriteIdAttributes(dom: Dom, rewrite: set<Ref>, generated: Ref -> string) returns (ok: bool)
    modifies dom`insts
    ensures ok <==> forall x :: x in rewrite && x in old(dom.insts) && "Attributes" in old(dom.insts)[x].props ==>
      old(dom.insts)[x].props["Attributes"].Attributes?
    ensures ok ==> dom.insts == Identified(old(dom.insts), rewrite, generated)
    ensures !ok ==> exists done :: done <= rewrite && dom.insts == Identified(old(dom.insts), done, generated)
  {
    ghost var insts := dom.insts;
    var todo := rewrite;
    assert dom.insts == Identified(insts, rewrite - todo, generated);
    while todo != {}
      invariant todo <= rewrite
      invariant forall x :: x in rewrite - todo && x in insts ==> AttributesFit(insts[x])
      invariant dom.insts == Identified(insts, rewrite - todo, generated)
      decreases todo
    {
      var x :| x in todo;
      if x in dom.insts {
        var n := dom.insts[x];
        assert n == insts[x];
        var id := if UNIQUE_ID in n.props && n.props[UNIQUE_ID].Plain? && n.props[UNIQUE_ID].scalar.UniqueId?
                  then n.props[UNIQUE_ID].scalar.printed else generated(x);
        if ATTRIBUTES in n.props && !n.props[ATTRIBUTES].Attributes? {
          return false;
        }
        var attrs := if ATTRIBUTES in n.props then n.props[ATTRIBUTES].attrs else map[];
        attrs := attrs[ID_ATTRIBUTE := Str(id)];
        dom.insts := dom.insts[x := n.(props := n.props[ATTRIBUTES := Attributes(attrs)])];
      }
      todo := todo - {x};
      assert dom.insts == Identified(insts, rewrite - todo, generated);
    }
    ok := true;
  }

  // ----- writing pointers -----

  /** The pointers that still have a target, with the ids to write. */
  function FoundPointers(insts: Instances, list: seq<Link>): (r: seq<(string, string)>) {
    if list == [] then []
    else
      (if list[0].value in insts && ExistingId(insts[list[0].value]).Some?
       then [(list[0].name, ExistingId(insts[list[0].value]).value)] else [])
      + FoundPointers(insts, list[1..])
  }

  function CleanAttributes(attrs: map<string, Scalar>): (r: map<string, Scalar>) {
    map a | a in attrs && !IsPointerName(a) :: attrs[a]
  }

  function WithPointers(attrs: map<string, Scalar>, list: seq<(string, string)>): (r: map<string, Scalar>)
    decreases |list|
  {
    if list == [] then attrs else WithPointers(attrs[PointerName(list[0].0) := Str(list[0].1)], list[1..])
  }

  function PointedInstance(n: Instance, list: seq<(string, string)>): (r: Instance) {
    WithAttributes(n, WithPointers(CleanAttributes(OwnAttributes(n)), list))
  }

  /** The DOM and the pointers not handed out yet. */
  type Linking = (Instances, seq<(string, string)>)

  /** One linked instance. The pointers of an instance that is gone are carried over
      to the next one. `None` is the failure. */
  function LinkStep(now: Linking, links: Links, x: Ref): (r: Option<Linking>) {
    var list := now.1 + FoundPointers(now.0, Get(links, x));
    if x !in now.0 then Some((now.0, list))
    else if AttributesFit(now.0[x]) then Some((now.0[x := PointedInstance(now.0[x], list)], []))
    else None
  }

  /** The loop over the linked instances, in the given order. */
  function LinkRun(now: Linking, links: Links, order: seq<Ref>): (r: Option<Linking>)
    decreases |order|
  {
    if order == [] then Some(now)
    else
      var next := LinkStep(now, links, order[0]);
      if next.None? then None else LinkRun(next.value, links, order[1..])
  }

  /** The panic of `link_referents` is out of reach: live targets have ids by then. */
  ghost predicate TargetsHaveIds(insts: Instances, links: Links) {
    forall y :: IsTarget(links, y) && y in insts ==> ExistingId(insts[y]).Some?
  }

  lemma {:induction false} PointersKeep(attrs: map<string, Scalar>, list: seq<(string, string)>)
    ensures var r := WithPointers(attrs, list);
      && (forall a :: a in attrs ==> a in r)
      && (forall a :: a in attrs && !IsPointerName(a) ==> r[a] == attrs[a])
      && (forall a :: a in r ==> a in attrs || IsPointerName(a))
    decreases |list|
  {
    if list != [] {
      var more := attrs[PointerName(list[0].0) := Str(list[0].1)];
      PointersKeep(more, list[1..]);
      assert forall a :: a in attrs ==> a in more;
    }
  }

  /** Pointer attributes never touch an id. */
  lemma PointedKeepsId(n: Instance, list: seq<(string, string)>)
    requires AttributesFit(n)
    ensures ExistingId(PointedInstance(n, list)) == ExistingId(n)
  {
    PointersKeep(CleanAttributes(OwnAttributes(n)), list);
    assert !IsPointerName(ID_ATTRIBUTE) by {
      assert ID_ATTRIBUTE[5] != POINTER_PREFIX[5];
    }
  }

  method WritePointers(attrs0: map<string, Scalar>, list: seq<(string, string)>) returns (attrs: map<string, Scalar>)
    ensures attrs == WithPointers(attrs0, list)
  {
    attrs := attrs0;
    var rest := list;
    while rest != []
      invariant WithPointers(attrs, rest) == WithPointers(attrs0, list)
      decreases |rest|
    {
      attrs := attrs[PointerName(rest[0].0) := Str(rest[0].1)];
      rest := rest[1..];
    }
  }

  method FindPointers(dom: Dom, list: seq<Link>, carry: seq<(string, string)>) returns (found: seq<(string, string)>)
    requires forall l :: l in list && l.value in dom.insts ==> ExistingId(dom.insts[l.value]).Some?
    ensures found == carry + FoundPointers(dom.insts, list)
  {
    found := carry;
    var rest := list;
    while rest != []
      invariant forall l :: l in rest ==> l in list
      invariant found + FoundPointers(dom.insts, rest) == carry + FoundPointers(dom.insts, list)
      decreases |rest|
    {
      var link := rest[0];
      if link.value in dom.insts {
        var id := ExistingId(dom.insts[link.value]).value;
        assert (found + [(link.name, id)]) + FoundPointers(dom.insts, rest[1..]) ==
          found + FoundPointers(dom.insts, rest);
        found := found + [(link.name, id)];
      } else {
        assert [] + FoundPointers(dom.insts, rest[1..]) == FoundPointers(dom.insts, rest[1..]);
      }
      rest := rest[1..];
    }
  }

  /** A step keeps every id where it is. */
  lemma StepKeepsIds(now: Linking, links: Links, x: Ref)
    requires LinkStep(now, links, x).Some?
    ensures var next := LinkStep(now, links, x).value;
      && next.0.Keys == now.0.Keys
      && (forall y :: y in now.0 ==> ExistingId(next.0[y]) == ExistingId(now.0[y]))
      && (TargetsHaveIds(now.0, links) ==> TargetsHaveIds(next.0, links))
  {
    if x in now.0 {
      PointedKeepsId(now.0[x], now.1 + FoundPointers(now.0, Get(links, x)));
    }
  }

  /** What a failure leaves: the property has been taken out by then. */
  function WithoutAttributes(n: Instance): (r: Instance) {
    n.(props := n.props - {ATTRIBUTES})
  }

  method PointInstance(dom: Dom, x: Ref, list: seq<(string, string)>) returns (ok: bool)
    requires x in dom.insts
    modifies dom`insts
    ensures ok == AttributesFit(old(dom.insts)[x])
    ensures dom.insts == old(dom.insts)[x := if ok then PointedInstance(old(dom.insts)[x], list)
                                                else WithoutAttributes(old(dom.insts)[x])]
  {
    var n := dom.insts[x];
    if ATTRIBUTES in n.props && !n.props[ATTRIBUTES].Attributes? {
      dom.insts := dom.insts[x := n.(props := n.props - {ATTRIBUTES})];
      return false;
    }
    var kept := if ATTRIBUTES in n.props then n.props[ATTRIBUTES].attrs else map[];
    kept := map a | a in kept && !IsPointerName(a) :: kept[a];
    assert kept == CleanAttributes(OwnAttributes(n));
    kept := WritePointers(kept, list);
    dom.insts := dom.insts[x := n.(props := n.props[ATTRIBUTES := Attributes(kept)])];
    ok := true;
  }

  method LinkOne(dom: Dom, links: Links, x: Ref, carry0: seq<(string, string)>)
      returns (ok: bool, carry: seq<(string, string)>)
    requires TargetsHaveIds(dom.insts, links)
    modifies dom`insts
    ensures ok ==> LinkStep((old(dom.insts), carry0), links, x) == Some((dom.insts, carry))
    ensures ok ==> TargetsHaveIds(dom.insts, links)
    ensures !ok ==> LinkStep((old(dom.insts), carry0), links, x) == None
    ensures !ok ==> x in old(dom.insts) && dom.insts == old(dom.insts)[x := WithoutAttributes(old(dom.insts)[x])]
  {
    var list := if x in links then links[x] else [];
    assert forall l :: l in list ==> l in Get(links, x) && IsTarget(links, l.value);
    ok := true;
    carry := FindPointers(dom, list, carry0);
    if x in dom.insts {
      ghost var now := (dom.insts, carry0);
      ok := PointInstance(dom, x, carry);
      carry := [];
      if ok { StepKeepsIds(now, links, x); }
    }
  }

  method LinkAll(dom: Dom, links: Links) returns (ok: bool, ghost order: seq<Ref>, ghost carry: seq<(string, string)>)
    requires TargetsHaveIds(dom.insts, links)
    modifies dom`insts
    ensures NoDup(order) && Elements(order) <= links.Keys
    ensures ok ==>
      Elements(order) == links.Keys && LinkRun((old(dom.insts), []), links, order) == Some((dom.insts, carry))
    ensures !ok ==> LinkRun((old(dom.insts), []), links, order) == None
  {
    ghost var start: Linking := (dom.insts, []);
    order := [];
    ok := true;
    var todo, list := links.Keys, [];
    while todo != {}
      invariant todo <= links.Keys && NoDup(order) && Elements(order) == links.Keys - todo
      invariant TargetsHaveIds(dom.insts, links)
      invariant LinkRun(start, links, order) == Some((dom.insts, list))
      decreases todo
    {
      var x :| x in todo;
      ghost var now: Linking := (dom.insts, list);
      ok, list := LinkOne(dom, links, x, list);
      RunOneMore(start, links, order, now, x);
      order := order + [x];
      todo := todo - {x};
      if !ok {
        return false, order, [];
      }
    }
    carry := list;
  }

  lemma {:induction false} RunOneMore(start: Linking, links: Links, order: seq<Ref>, now: Linking, x: Ref)
    requires LinkRun(start, links, order) == Some(now)
    ensures LinkRun(start, links, order + [x]) == LinkStep(now, links, x)
    decreases |order|
  {
    if order != [] {
      RunOneMore(LinkStep(start, links, order[0]).value, links, order[1..], now, x);
      assert (order + [x])[1..] == order[1..] + [x];
    }
  }

  /** `link_referents` after `write_id_attributes`, in some order of the linked
      instances. */
  method LinkReferents(dom: Dom, links: Links, rewrite: set<Ref>, generated: Ref -> string)
    returns (ok: bool, ghost order: seq<Ref>, ghost carry: seq<(string, string)>)
    requires TargetsHaveIds(Identified(dom.insts, rewrite, generated), links)
    modifies dom`insts
    ensures NoDup(order) && (ok ==> Elements(order) == links.Keys)
    ensures ok ==>
      LinkRun((Identified(old(dom.insts), rewrite, generated), []), links, order) == Some((dom.insts, carry))
    ensures !ok ==>
      || (exists x :: x in rewrite && x in old(dom.insts) && !AttributesFit(old(dom.insts)[x]))
      || LinkRun((Identified(old(dom.insts), rewrite, generated), []), links, order) == None
  {
    order, carry := [], [];
    ok := WriteIdAttributes(dom, rewrite, generated);
    if ok {
      ok, order, carry := LinkAll(dom, links);
    }
  }
}
