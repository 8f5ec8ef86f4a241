/** What linking achieves: every surviving pointer names the id of its target, and
    when those ids tell the targets apart. */
module LinkFacts {
  import opened Basics
  import opened Values
  import opened MultiMaps
  import opened TreeModel
  import opened Doms
  import opened RefLinks

  // ----- the loop over the linked instances -----

  /** The pointers found do not depend on anything but the ids. */
  lemma {:induction false} FoundSame(insts: Instances, more: Instances, list: seq<Link>)
    requires more.Keys == insts.Keys && forall y :: y in insts ==> ExistingId(more[y]) == ExistingId(insts[y])
    ensures FoundPointers(more, list) == FoundPointers(insts, list)
  {
    if list != [] { FoundSame(insts, more, list[1..]); }
  }

  function Names(list: seq<(string, string)>): (r: set<string>) {
    set p | p in list :: p.0
  }

  /** What the instances that are gone could hand out, every linked instance that is
      left writes itself. */
  ghost predicate CarriedOwned(insts: Instances, links: Links, linked: set<Ref>) {
    forall x, y :: x in linked && y in linked && x !in insts && y in insts ==>
      Names(FoundPointers(insts, Get(links, x))) <= Names(FoundPointers(insts, Get(links, y)))
  }

  function Pointed(insts: Instances, links: Links, x: Ref): (r: Instance)
    requires x in insts
  {
    PointedInstance(insts[x], FoundPointers(insts, Get(links, x)))
  }

  ghost predicate AllPointed(insts: Instances, links: Links, linked: set<Ref>, r: Instances) {
    && r.Keys == insts.Keys
    && forall x :: x in insts ==> r[x] == if x in linked then Pointed(insts, links, x) else insts[x]
  }

  // ----- pointers that are written twice -----

  /** Attributes that differ at most at names still to be written end up equal. */
  lemma {:induction false} Overwritten(a: map<string, Scalar>, b: map<string, Scalar>, list: seq<(string, string)>)
    requires forall k :: (forall p :: p in list ==> PointerName(p.0) != k) ==>
      (k in a <==> k in b) && (k in a ==> a[k] == b[k])
    ensures WithPointers(a, list) == WithPointers(b, list)
    decreases |list|
  {
    if list == [] {
      assert forall k :: k in a <==> k in b;
    } else {
      var own := PointerName(list[0].0);
      var a', b' := a[own := Str(list[0].1)], b[own := Str(list[0].1)];
      forall k | forall p :: p in list[1..] ==> PointerName(p.0) != k
        ensures (k in a' <==> k in b') && (k in a' ==> a'[k] == b'[k])
      {
        assert k != own ==> forall p :: p in list ==> PointerName(p.0) != k;
      }
      Overwritten(a', b', list[1..]);
    }
  }

  lemma {:induction false} WrittenInTurn(attrs: map<string, Scalar>, a: seq<(string, string)>, b: seq<(string, string)>)
    ensures WithPointers(attrs, a + b) == WithPointers(WithPointers(attrs, a), b)
    decreases |a|
  {
    if a == [] {
      assert a + b == b;
    } else {
      assert (a + b)[0] == a[0] && (a + b)[1..] == a[1..] + b;
      WrittenInTurn(attrs[PointerName(a[0].0) := Str(a[0].1)], a[1..], b);
    }
  }

  /** Pointers with names that are written again leave no trace. */
  lemma Absorbed(attrs: map<string, Scalar>, carry: seq<(string, string)>, own: seq<(string, string)>)
    requires Names(carry) <= Names(own)
    ensures WithPointers(attrs, carry + own) == WithPointers(attrs, own)
  {
    WrittenInTurn(attrs, carry, own);
    var more := WithPointers(attrs, carry);
    forall k | forall p :: p in own ==> PointerName(p.0) != k
      ensures (k in attrs <==> k in more) && (k in attrs ==> attrs[k] == more[k])
    {
      assert forall p :: p in carry ==> p.0 in Names(own);
      assert forall p :: p in carry ==> PointerName(p.0) != k;
      NotWritten(attrs, carry, k);
    }
    Overwritten(more, attrs, own);
  }

  lemma {:induction false} NotWritten(attrs: map<string, Scalar>, list: seq<(string, string)>, k: string)
    requires forall p :: p in list ==> PointerName(p.0) != k
    ensures var r := WithPointers(attrs, list); (k in attrs <==> k in r) && (k in attrs ==> attrs[k] == r[k])
    decreases |list|
  {
    if list != [] {
      assert list[0] in list;
      NotWritten(attrs[PointerName(list[0].0) := Str(list[0].1)], list[1..], k);
    }
  }

  // ----- the whole loop -----

  /** The pointers in hand are all written by whoever comes. */
  ghost predicate CarryOwned(now: Linking, links: Links, order: seq<Ref>) {
    forall y :: y in order && y in now.0 ==> Names(now.1) <= Names(FoundPointers(now.0, Get(links, y)))
  }

  /** Nothing that is handed out leaves a trace: each linked instance gets its own
      pointers and nothing else changes. It succeeds exactly when all attributes have
      the right kind. */
  lemma {:induction false} RunPoints(now: Linking, links: Links, order: seq<Ref>)
    requires NoDup(order) && CarriedOwned(now.0, links, Elements(order)) && CarryOwned(now, links, order)
    ensures var run := LinkRun(now, links, order);
      && (run.Some? <==> forall x :: x in order && x in now.0 ==> AttributesFit(now.0[x]))
      && (run.Some? ==> AllPointed(now.0, links, Elements(order), run.value.0))
    decreases |order|
  {
    if order != [] {
      var x, rest := order[0], order[1..];
      var next := LinkStep(now, links, x);
      assert forall y :: y in order <==> y == x || y in rest;
      assert x !in rest && x in Elements(order);
      if next.Some? {
        StepPoints(now, links, order);
        RunPoints(next.value, links, rest);
        PointedOn(now.0, next.value.0, links, order, x);
      }
    }
  }

  lemma StepPoints(now: Linking, links: Links, order: seq<Ref>)
    requires order != [] && NoDup(order) && LinkStep(now, links, order[0]).Some?
    requires CarriedOwned(now.0, links, Elements(order)) && CarryOwned(now, links, order)
    ensures var x, rest := order[0], order[1..]; var next := LinkStep(now, links, x).value;
      && next.0 == (if x in now.0 then now.0[x := Pointed(now.0, links, x)] else now.0)
      && CarriedOwned(next.0, links, Elements(rest)) && CarryOwned(next, links, rest)
      && forall list :: FoundPointers(next.0, list) == FoundPointers(now.0, list)
  {
    var x, rest := order[0], order[1..];
    var next := LinkStep(now, links, x).value;
    var found := FoundPointers(now.0, Get(links, x));
    StepKeepsIds(now, links, x);
    forall list ensures FoundPointers(next.0, list) == FoundPointers(now.0, list) { FoundSame(now.0, next.0, list); }
    assert x in order && forall y :: y in rest ==> y in order;
    if x in now.0 {
      Absorbed(CleanAttributes(OwnAttributes(now.0[x])), now.1, found);
    } else {
      forall y | y in rest && y in next.0 ensures Names(now.1 + found) <= Names(FoundPointers(next.0, Get(links, y))) {
        assert y in Elements(order) && x in Elements(order);
        assert Names(now.1 + found) == Names(now.1) + Names(found);
      }
    }
  }

  lemma PointedOn(insts: Instances, more: Instances, links: Links, order: seq<Ref>, x: Ref)
    requires order != [] && order[0] == x && x !in order[1..]
    requires more == if x in insts then insts[x := Pointed(insts, links, x)] else insts
    requires forall list :: FoundPointers(more, list) == FoundPointers(insts, list)
    ensures forall r ::
      AllPointed(more, links, Elements(order[1..]), r) ==> AllPointed(insts, links, Elements(order), r)
  {
    assert forall y :: y in order <==> y == x || y in order[1..];
    forall r | AllPointed(more, links, Elements(order[1..]), r) ensures AllPointed(insts, links, Elements(order), r) {
      forall y | y in insts ensures r[y] == if y in Elements(order) then Pointed(insts, links, y) else insts[y] {
        assert y != x ==> more[y] == insts[y];
      }
    }
  }

  lemma {:induction false} OthersUntouched(now: Linking, links: Links, order: seq<Ref>, y: Ref)
    requires y !in order && y in now.0 && LinkRun(now, links, order).Some?
    ensures y in LinkRun(now, links, order).value.0 && LinkRun(now, links, order).value.0[y] == now.0[y]
    decreases |order|
  {
    if order != [] {
      OthersUntouched(LinkStep(now, links, order[0]).value, links, order[1..], y);
    }
  }

  lemma {:induction false} PointersWritten(attrs: map<string, Scalar>, list: seq<(string, string)>, k: string)
    requires k in Names(list)
    ensures PointerName(k) in WithPointers(attrs, list)
    decreases |list|
  {
    var more := attrs[PointerName(list[0].0) := Str(list[0].1)];
    if k in Names(list[1..]) {
      PointersWritten(more, list[1..], k);
    } else {
      assert forall p :: p in list ==> p == list[0] || p in list[1..];
      assert PointerName(k) in more;
      PointersKeep(more, list[1..]);
    }
  }

  /** Writing two lists onto clean attributes differs when one names more. */
  lemma NamesDecide(clean: map<string, Scalar>, more: seq<(string, string)>, less: seq<(string, string)>, k: string)
    requires k in Names(more) && k !in Names(less) && PointerName(k) !in clean
    ensures WithPointers(clean, more) != WithPointers(clean, less)
  {
    PointersWritten(clean, more, k);
    forall q | q in less ensures PointerName(q.0) != PointerName(k) {
      assert q.0 in Names(less);
      assert PointerName(q.0)[|POINTER_PREFIX|..] == q.0 && PointerName(k)[|POINTER_PREFIX|..] == k;
    }
    NotWritten(clean, less, PointerName(k));
  }

  /** Pointers of an instance that is gone land on the one visited next. */
  lemma StrayPointer(insts: Instances, links: Links, x: Ref, y: Ref, rest: seq<Ref>, k: string)
    requires x !in insts && y in insts && NoDup([x, y] + rest) && LinkRun((insts, []), links, [x, y] + rest).Some?
    requires k in Names(FoundPointers(insts, Get(links, x))) && k !in Names(FoundPointers(insts, Get(links, y)))
    ensures var r := LinkRun((insts, []), links, [x, y] + rest).value.0;
      y in r && r[y] != Pointed(insts, links, y)
  {
    var found, own := FoundPointers(insts, Get(links, x)), FoundPointers(insts, Get(links, y));
    var list := ([] + found) + own;
    var clean := CleanAttributes(OwnAttributes(insts[y]));
    assert ([x, y] + rest)[1..] == [y] + rest && ([y] + rest)[1..] == rest;
    assert y !in rest;
    var p :| p in found && p.0 == k;
    assert p in list && k in Names(list);
    NamesDecide(clean, list, own, k);
    var next := LinkStep((insts, [] + found), links, y).value;
    OthersUntouched(next, links, rest, y);
    assert OwnAttributes(Pointed(insts, links, y)) == WithPointers(clean, own);
    assert OwnAttributes(next.0[y]) == WithPointers(clean, list);
  }

  lemma {:induction false} Listed(s: set<Ref>) returns (list: seq<Ref>)
    ensures NoDup(list) && Elements(list) == s
    decreases s
  {
    list := [];
    if s != {} {
      var x :| x in s;
      var rest := Listed(s - {x});
      assert forall y :: y in rest <==> y in s - {x} by { assert forall y :: y in rest <==> y in Elements(rest); }
      list := [x] + rest;
    }
  }

  /** In this order, linking gives each instance exactly its own pointers. */
  ghost predicate LinksRight(insts: Instances, links: Links, order: seq<Ref>) {
    && LinkRun((insts, []), links, order).Some?
    && AllPointed(insts, links, links.Keys, LinkRun((insts, []), links, order).value.0)
  }

  /** Whatever order the linked instances come in, each ends with exactly its own
      pointers, if and only if every pointer of an instance that is gone has the name
      of a pointer of each linked instance that is left. */
  lemma EveryOrderLinksRight(insts: Instances, links: Links)
    requires forall x :: x in links && x in insts ==> AttributesFit(insts[x])
    ensures (forall order: seq<Ref> ::
      NoDup(order) && Elements(order) == links.Keys ==> LinksRight(insts, links, order))
      <==> CarriedOwned(insts, links, links.Keys)
  {
    if CarriedOwned(insts, links, links.Keys) {
      forall order: seq<Ref> | NoDup(order) && Elements(order) == links.Keys ensures LinksRight(insts, links, order) {
        assert forall x :: x in order <==> x in Elements(order);
        RunPoints((insts, []), links, order);
      }
    } else {
      var x, y :| x in links && y in links && x !in insts && y in insts
        && !(Names(FoundPointers(insts, Get(links, x))) <= Names(FoundPointers(insts, Get(links, y))));
      var order := StrayOrder(insts, links, x, y);
    }
  }

  lemma StrayOrder(insts: Instances, links: Links, x: Ref, y: Ref) returns (order: seq<Ref>)
    requires forall x :: x in links && x in insts ==> AttributesFit(insts[x])
    requires x in links && y in links && x !in insts && y in insts
    requires !(Names(FoundPointers(insts, Get(links, x))) <= Names(FoundPointers(insts, Get(links, y))))
    ensures NoDup(order) && Elements(order) == links.Keys && !LinksRight(insts, links, order)
  {
    var k :| k in Names(FoundPointers(insts, Get(links, x))) && k !in Names(FoundPointers(insts, Get(links, y)));
    var rest := Listed(links.Keys - {x, y});
    order := [x, y] + rest;
    FirstTwo(links.Keys, x, y, rest);
    assert forall z :: z in order <==> z in Elements(order);
    RunSucceeds((insts, []), links, order);
    StrayPointer(insts, links, x, y, rest, k);
  }

  lemma FirstTwo(s: set<Ref>, x: Ref, y: Ref, rest: seq<Ref>)
    requires x in s && y in s && x != y && NoDup(rest) && Elements(rest) == s - {x, y}
    ensures NoDup([x, y] + rest) && Elements([x, y] + rest) == s
  {
    assert forall z :: z in rest <==> z in Elements(rest);
  }

  /** Attributes of the right kind are all it takes not to fail. */
  lemma {:induction false} RunSucceeds(now: Linking, links: Links, order: seq<Ref>)
    requires NoDup(order) && forall x :: x in order && x in now.0 ==> AttributesFit(now.0[x])
    ensures LinkRun(now, links, order).Some?
    decreases |order|
  {
    if order != [] {
      var next := LinkStep(now, links, order[0]).value;
      assert order[0] in order && order[0] !in order[1..];
      forall x | x in order[1..] && x in next.0 ensures AttributesFit(next.0[x]) { assert x in order; }
      RunSucceeds(next, links, order[1..]);
    }
  }

  // ----- pointers agree with ids -----

  ghost predicate NamesApart(list: seq<Link>) {
    forall i, j :: 0 <= i < j < |list| ==> list[i].name != list[j].name
  }

  /** Another name leaves an attribute alone. */
  lemma {:induction false} PointerAbsent(attrs: map<string, Scalar>, list: seq<(string, string)>, k: string)
    requires forall p :: p in list ==> p.0 != k
    ensures var r := WithPointers(attrs, list);
      (PointerName(k) in r <==> PointerName(k) in attrs)
        && (PointerName(k) in r ==> r[PointerName(k)] == attrs[PointerName(k)])
    decreases |list|
  {
    if list != [] {
      var q := list[0].0;
      assert q in [q] && list[0] in list;
      assert PointerName(q)[|POINTER_PREFIX|..] == q && PointerName(k)[|POINTER_PREFIX|..] == k;
      PointerAbsent(attrs[PointerName(q) := Str(list[0].1)], list[1..], k);
    }
  }

  lemma {:induction false} FoundNames(insts: Instances, list: seq<Link>, k: string)
    requires forall l :: l in list ==> l.name != k
    ensures forall p :: p in FoundPointers(insts, list) ==> p.0 != k
  {
    if list != [] { FoundNames(insts, list[1..], k); }
  }

  lemma FirstPointer(attrs: map<string, Scalar>, w: (string, string), found: seq<(string, string)>)
    ensures WithPointers(attrs, [w] + found) == WithPointers(attrs[PointerName(w.0) := Str(w.1)], found)
  {
    assert ([w] + found)[0] == w && ([w] + found)[1..] == found;
  }

  /** The attribute for `k` is the id of the target of the link named `k`, if that
      target is live, and there is none for other names. */
  lemma {:induction false} PointerFor(insts: Instances, attrs: map<string, Scalar>, list: seq<Link>, k: string)
    requires NamesApart(list) && PointerName(k) !in attrs
    ensures var r := WithPointers(attrs, FoundPointers(insts, list));
      && (forall l :: l in list && l.name == k && l.value in insts && ExistingId(insts[l.value]).Some? ==>
            PointerName(k) in r && r[PointerName(k)] == Str(ExistingId(insts[l.value]).value))
      && (PointerName(k) in r ==>
        exists l :: l in list && l.name == k && l.value in insts && ExistingId(insts[l.value]).Some?)
    decreases |list|
  {
    if list != [] {
      var l, rest := list[0], list[1..];
      var found := FoundPointers(insts, rest);
      assert forall m :: m in list <==> m == l || m in rest;
      assert forall m :: m in rest ==> m.name != l.name;
      if l.value in insts && ExistingId(insts[l.value]).Some? {
        var u := ExistingId(insts[l.value]).value;
        var more := attrs[PointerName(l.name) := Str(u)];
        FirstPointer(attrs, (l.name, u), found);
        assert FoundPointers(insts, list) == [(l.name, u)] + found;
        assert PointerName(l.name)[|POINTER_PREFIX|..] == l.name && PointerName(k)[|POINTER_PREFIX|..] == k;
        if l.name == k {
          FoundNames(insts, rest, k);
          PointerAbsent(more, found, k);
        } else {
          PointerFor(insts, more, rest, k);
        }
      } else {
        assert [] + found == found;
        PointerFor(insts, attrs, rest, k);
      }
    }
  }

  // ----- from collecting to linking -----

  /** The DOM when it is linked: instances may have been destroyed and properties
      filtered out since collecting, but not the attributes. */
  ghost predicate Later(before: Instances, after: Instances) {
    && Shrunk(before, after)
    && forall x :: x in after ==>
         && (ATTRIBUTES in after[x].props <==> ATTRIBUTES in before[x].props)
         && (ATTRIBUTES in after[x].props ==> after[x].props[ATTRIBUTES] == before[x].props[ATTRIBUTES])
  }

  ghost predicate Shrunk(before: Instances, after: Instances) {
    && after.Keys <= before.Keys
    && forall x, c :: x in after && c in after[x].children ==> c in before[x].children
  }

  /** The id of each target in the end. */
  function FinalId(insts: Instances, rewrite: set<Ref>, generated: Ref -> string, y: Ref): (r: Option<string>)
    requires y in insts
  {
    if y in rewrite then Some(WrittenId(insts[y], generated(y))) else ExistingId(insts[y])
  }

  lemma CollectedTargets(before: Instances, reached: set<Ref>, links: Links, targets: seq<Ref>, rewrite: set<Ref>)
    requires Collected(before, reached, links, targets, rewrite)
    ensures TallyOk(before, targets, Scan(before, targets))
    ensures forall x :: NamesApart(Get(links, x))
  {
    ScanTallies(before, targets);
    forall x ensures NamesApart(Get(links, x)) {
      var list := Get(links, x);
      forall i, j | 0 <= i < j < |list| ensures list[i].name != list[j].name {
        assert IsLink(before, x, list[i]) && IsLink(before, x, list[j]);
        assert NoDup(list);
      }
    }
  }

  /** Collecting and writing ids leaves no live target without an id, so the panic of
      `link_referents` cannot happen. */
  lemma LinkingCannotPanic(before: Instances, reached: set<Ref>, links: Links, targets: seq<Ref>, rewrite: set<Ref>,
                           insts: Instances, generated: Ref -> string)
    requires Collected(before, reached, links, targets, rewrite) && Later(before, insts)
    ensures TargetsHaveIds(Identified(insts, rewrite, generated), links)
    ensures forall y :: y in insts ==>
      ExistingId(Identified(insts, rewrite, generated)[y]) == FinalId(insts, rewrite, generated, y)
  {
    KeptIdsStay(before, reached, links, targets, rewrite, insts);
    IdsAreFinal(insts, rewrite, generated);
  }

  lemma IdsAreFinal(insts: Instances, rewrite: set<Ref>, generated: Ref -> string)
    ensures forall y :: y in insts ==>
      ExistingId(Identified(insts, rewrite, generated)[y]) == FinalId(insts, rewrite, generated, y)
  {
  }

  /** A target that is not rewritten has an id of its own. */
  lemma KeptIdsStay(before: Instances, reached: set<Ref>, links: Links, targets: seq<Ref>, rewrite: set<Ref>,
      insts: Instances)
    requires Collected(before, reached, links, targets, rewrite) && Later(before, insts)
    ensures forall y :: IsTarget(links, y) && y in insts && y !in rewrite ==> ExistingId(insts[y]).Some?
  {
    CollectedTargets(before, reached, links, targets, rewrite);
    forall y | IsTarget(links, y) && y in insts && y !in rewrite ensures ExistingId(insts[y]).Some? {
      assert ExistingId(insts[y]) == ExistingId(before[y]);
    }
  }

  /** What the DOM is after linking, when nothing that is carried over can show. */
  ghost predicate LinkedTo(insts: Instances, links: Links, rewrite: set<Ref>, generated: Ref -> string, r: Instances) {
    exists order: seq<Ref>, carry: seq<(string, string)> :: NoDup(order) && Elements(order) == links.Keys
      && CarriedOwned(Identified(insts, rewrite, generated), links, links.Keys)
      && LinkRun((Identified(insts, rewrite, generated), []), links, order) == Some((r, carry))
  }

  lemma LinkedPointwise(insts: Instances, links: Links, rewrite: set<Ref>, generated: Ref -> string, r: Instances)
    requires LinkedTo(insts, links, rewrite, generated, r)
    ensures var mid := Identified(insts, rewrite, generated);
      && r.Keys == insts.Keys
      && (forall x :: x in insts ==> r[x] == if x in links then Pointed(mid, links, x) else mid[x])
      && (forall x :: x in insts ==> ExistingId(r[x]) == FinalId(insts, rewrite, generated, x))
      && (forall x :: x in insts && x in links ==> AttributesFit(mid[x]))
  {
    var mid := Identified(insts, rewrite, generated);
    var order: seq<Ref>, carry: seq<(string, string)> :| NoDup(order) && Elements(order) == links.Keys
      && CarriedOwned(mid, links, links.Keys) && LinkRun((mid, []), links, order) == Some((r, carry));
    RunPoints((mid, []), links, order);
    forall x | x in insts ensures x in order <==> x in links { assert x in Elements(order) <==> x in links.Keys; }
    forall x | x in insts ensures ExistingId(r[x]) == FinalId(insts, rewrite, generated, x) {
      assert ExistingId(mid[x]) == FinalId(insts, rewrite, generated, x);
      if x in links { PointedKeepsId(mid[x], FoundPointers(mid, Get(links, x))); }
    }
  }

  /** What the property `k` of `x` referred to, if that is still there. */
  function LiveTarget(before: Instances, x: Ref, k: string, insts: Instances): (r: Option<Ref>)
    ensures r.Some? ==> r.value in insts
    ensures r == None || (r.value in before ==> IsLink(before, x, Link(k, r.value)))
  {
    if x in before && k in before[x].props && before[x].props[k].RefValue?
       && before[x].props[k].ref != NO_REF && before[x].props[k].ref in insts
    then Some(before[x].props[k].ref) else None
  }

  /** Pointers and ids agree. Afterwards a linked instance has exactly the pointer
      attributes of those links whose targets are live, whatever pointer attributes it
      had, and each holds the id its target has. */
  lemma PointersNameTheirTargets(before: Instances, reached: set<Ref>, links: Links, targets: seq<Ref>,
      rewrite: set<Ref>, insts: Instances, generated: Ref -> string, r: Instances, x: Ref, k: string)
    requires Collected(before, reached, links, targets, rewrite) && Later(before, insts)
    requires LinkedTo(insts, links, rewrite, generated, r) && x in insts && x in links
    ensures r.Keys == insts.Keys && AttributesOf(r[x].props).Some?
    ensures var attrs := AttributesOf(r[x].props).value;
      var target := LiveTarget(before, x, k, insts);
      && (PointerName(k) in attrs <==> target.Some?)
      && (target.Some? ==>
        ExistingId(r[target.value]).Some? && attrs[PointerName(k)] == Str(ExistingId(r[target.value]).value))
  {
    var mid := Identified(insts, rewrite, generated);
    LinkingCannotPanic(before, reached, links, targets, rewrite, insts, generated);
    LinkedPointwise(insts, links, rewrite, generated, r);
    CollectedTargets(before, reached, links, targets, rewrite);
    OwnLink(before, reached, links, targets, rewrite, insts, x, k);
    forall l | l in Get(links, x) && l.value in insts ensures ExistingId(mid[l.value]).Some? {
      assert IsTarget(links, l.value);
    }
    OwnPointer(mid, links, x, k, LiveTarget(before, x, k, insts));
  }

  /** The pointer attribute under `k`, when at most one live link has that name. */
  lemma OwnPointer(mid: Instances, links: Links, x: Ref, k: string, target: Option<Ref>)
    requires x in mid && NamesApart(Get(links, x))
    requires target.Some? ==> Link(k, target.value) in Get(links, x) && target.value in mid
    requires forall l :: l in Get(links, x) && l.name == k && l.value in mid ==> target == Some(l.value)
    requires forall l :: l in Get(links, x) && l.value in mid ==> ExistingId(mid[l.value]).Some?
    ensures AttributesOf(Pointed(mid, links, x).props).Some?
    ensures var attrs := AttributesOf(Pointed(mid, links, x).props).value;
      && (PointerName(k) in attrs <==> target.Some?)
      && (target.Some? ==> attrs[PointerName(k)] == Str(ExistingId(mid[target.value]).value))
  {
    PointerFor(mid, CleanAttributes(OwnAttributes(mid[x])), Get(links, x), k);
  }

  /** The link of an instance for one property, if its target is live. */
  lemma OwnLink(before: Instances, reached: set<Ref>, links: Links, targets: seq<Ref>, rewrite: set<Ref>,
      insts: Instances, x: Ref, k: string)
    requires Collected(before, reached, links, targets, rewrite) && x in links && insts.Keys <= before.Keys
    ensures var target := LiveTarget(before, x, k, insts);
      && (target.Some? ==> Link(k, target.value) in Get(links, x))
      && (forall l :: l in Get(links, x) && l.name == k && l.value in insts ==> target == Some(l.value))
  {
    assert Get(links, x) != [] && Get(links, x)[0] in Get(links, x);
    var target := LiveTarget(before, x, k, insts);
    if target.Some? { assert IsLink(before, x, Link(k, target.value)); }
    forall l | l in Get(links, x) && l.name == k && l.value in insts ensures target == Some(l.value) {
      assert IsLink(before, x, l);
    }
  }

  /** Only attributes differ, and among them only pointers and, maybe, `Rojo_Id`. */
  ghost predicate KeptBut(n: Instance, m: Instance, idToo: bool) {
    && m.name == n.name && m.className == n.className && m.parent == n.parent && m.children == n.children
    && (forall k :: k != "Attributes" ==> AgreeAt(n.props, m.props, k))
    && (forall a :: !("Rojo_Target_" <= a) && (idToo ==> a != "Rojo_Id") ==> SameAttribute(n, m, a))
  }

  predicate HasAttribute(n: Instance, a: string, v: Scalar) {
    "Attributes" in n.props && n.props["Attributes"].Attributes?
      && a in n.props["Attributes"].attrs && n.props["Attributes"].attrs[a] == v
  }

  ghost predicate SameAttribute(n: Instance, m: Instance, a: string) {
    forall v :: HasAttribute(n, a, v) <==> HasAttribute(m, a, v)
  }

  lemma OwnAttributesHeld(n: Instance, a: string, v: Scalar)
    ensures HasAttribute(n, a, v) <==> a in OwnAttributes(n) && OwnAttributes(n)[a] == v
  {
  }

  lemma PointedKeeps(n: Instance, list: seq<(string, string)>)
    ensures KeptBut(n, PointedInstance(n, list), false)
  {
    PointersKeep(CleanAttributes(OwnAttributes(n)), list);
    var r := PointedInstance(n, list);
    assert OwnAttributes(r) == WithPointers(CleanAttributes(OwnAttributes(n)), list);
    forall a, v | !("Rojo_Target_" <= a) ensures HasAttribute(n, a, v) <==> HasAttribute(r, a, v) {
      OwnAttributesHeld(n, a, v);
      OwnAttributesHeld(r, a, v);
      assert a in CleanAttributes(OwnAttributes(n)) <==> a in OwnAttributes(n);
    }
  }

  lemma {:induction false} RunKeeps(now: Linking, links: Links, order: seq<Ref>, x: Ref)
    requires LinkRun(now, links, order).Some? && x in now.0
    ensures x in LinkRun(now, links, order).value.0
    ensures KeptBut(now.0[x], LinkRun(now, links, order).value.0[x], false)
    decreases |order|
  {
    if order != [] {
      var next := LinkStep(now, links, order[0]).value;
      if order[0] == x { PointedKeeps(now.0[x], now.1 + FoundPointers(now.0, Get(links, x))); }
      RunKeeps(next, links, order[1..], x);
      KeptOn(now.0[x], next.0[x], LinkRun(now, links, order).value.0[x], false);
    }
  }

  lemma KeptOn(a: Instance, b: Instance, c: Instance, idToo: bool)
    requires KeptBut(a, b, idToo) && KeptBut(b, c, false)
    ensures KeptBut(a, c, idToo)
  {
    forall k | k != "Attributes" ensures AgreeAt(a.props, c.props, k) {
      assert AgreeAt(a.props, b.props, k) && AgreeAt(b.props, c.props, k);
    }
    forall n | !("Rojo_Target_" <= n) && (idToo ==> n != "Rojo_Id") ensures SameAttribute(a, c, n) {
      assert SameAttribute(a, b, n) && SameAttribute(b, c, n);
    }
  }

  lemma IdentifiedKeeps(insts: Instances, rewrite: set<Ref>, generated: Ref -> string, x: Ref)
    requires x in insts
    ensures KeptBut(insts[x], Identified(insts, rewrite, generated)[x], x in rewrite)
  {
    var m := Identified(insts, rewrite, generated)[x];
    forall a, v | x in rewrite ==> a != "Rojo_Id" ensures HasAttribute(insts[x], a, v) <==> HasAttribute(m, a, v) {
      OwnAttributesHeld(insts[x], a, v);
      OwnAttributesHeld(m, a, v);
    }
  }

  /** Whatever the order and whatever is carried over, linking touches nothing but
      attributes: the other properties stay, and so do name, class, parent and children.
      Among the attributes it touches only pointers and, on rewritten instances,
      `Rojo_Id`. */
  lemma LinkingKeeps(insts: Instances, links: Links, rewrite: set<Ref>, generated: Ref -> string, order: seq<Ref>,
      x: Ref)
    requires LinkRun((Identified(insts, rewrite, generated), []), links, order).Some? && x in insts
    ensures var r := LinkRun((Identified(insts, rewrite, generated), []), links, order).value.0;
      && x in r && KeptBut(insts[x], r[x], x in rewrite)
      && (x !in rewrite && x !in order ==> r[x] == insts[x])
  {
    var mid := Identified(insts, rewrite, generated);
    RunKeeps((mid, []), links, order, x);
    IdentifiedKeeps(insts, rewrite, generated, x);
    KeptOn(insts[x], mid[x], LinkRun((mid, []), links, order).value.0[x], x in rewrite);
    if x !in order { OthersUntouched((mid, []), links, order, x); }
  }

  /** So no attribute of the user is lost. */
  lemma UserAttributesStay(insts: Instances, links: Links, rewrite: set<Ref>, generated: Ref -> string,
      r: Instances, x: Ref, a: string, v: Scalar)
    requires LinkedTo(insts, links, rewrite, generated, r) && x in insts
    requires !("Rojo_Target_" <= a) && (a == "Rojo_Id" ==> x !in rewrite)
    ensures x in r && (HasAttribute(r[x], a, v) <==> HasAttribute(insts[x], a, v))
  {
    var order: seq<Ref>, carry: seq<(string, string)> :|
      LinkRun((Identified(insts, rewrite, generated), []), links, order) == Some((r, carry));
    LinkingKeeps(insts, links, rewrite, generated, order, x);
    assert SameAttribute(insts[x], r[x], a);
  }

  /** The instance carries this id under `Rojo_Id`, as text. */
  ghost predicate CarriesId(n: Instance, text: string) {
    HasAttribute(n, "Rojo_Id", Str(text)) || HasAttribute(n, "Rojo_Id", Binary(Utf8(text)))
  }

  lemma CarriesExactly(n: Instance, text: string)
    ensures ExistingId(n) == Some(text) <==> CarriesId(n, text)
  {
  }

  /** A rewritten instance ends with the text of its unique id, or with what was generated
      for it when it has none. */
  lemma RewrittenCarry(insts: Instances, links: Links, rewrite: set<Ref>, generated: Ref -> string, order: seq<Ref>,
      x: Ref, text: string)
    requires LinkRun((Identified(insts, rewrite, generated), []), links, order).Some? && x in insts && x in rewrite
    requires if "UniqueId" in insts[x].props && insts[x].props["UniqueId"].Plain?
        && insts[x].props["UniqueId"].scalar.UniqueId?
      then insts[x].props["UniqueId"] == Plain(UniqueId(text)) else text == generated(x)
    ensures var r := LinkRun((Identified(insts, rewrite, generated), []), links, order).value.0;
      x in r && HasAttribute(r[x], "Rojo_Id", Str(text))
  {
    var mid := Identified(insts, rewrite, generated);
    RunKeeps((mid, []), links, order, x);
    assert HasAttribute(mid[x], "Rojo_Id", Str(text));
    assert !("Rojo_Target_" <= "Rojo_Id") by { assert "Rojo_Id"[5] != "Rojo_Target_"[5]; }
    assert SameAttribute(mid[x], LinkRun((mid, []), links, order).value.0[x], "Rojo_Id");
  }

  /** `PointersNameTheirTargets` in terms of properties and attributes alone. */
  lemma PointersHeld(before: Instances, reached: set<Ref>, links: Links, targets: seq<Ref>,
      rewrite: set<Ref>, insts: Instances, generated: Ref -> string, r: Instances, x: Ref, k: string)
    requires Collected(before, reached, links, targets, rewrite) && Later(before, insts)
    requires LinkedTo(insts, links, rewrite, generated, r) && x in insts && x in links
    ensures x in before && x in r
    ensures var v := if k in before[x].props then before[x].props[k] else RefValue(NO_REF);
      if v.RefValue? && v.ref != NO_REF && v.ref in insts
      then v.ref in r && exists text :: HasAttribute(r[x], "Rojo_Target_" + k, Str(text)) && CarriesId(r[v.ref], text)
      else forall w :: !HasAttribute(r[x], "Rojo_Target_" + k, w)
  {
    PointersNameTheirTargets(before, reached, links, targets, rewrite, insts, generated, r, x, k);
    assert PointerName(k) == "Rojo_Target_" + k;
    var target := LiveTarget(before, x, k, insts);
    if target.Some? {
      var text := ExistingId(r[target.value]).value;
      CarriesExactly(r[target.value], text);
      assert HasAttribute(r[x], "Rojo_Target_" + k, Str(text));
    }
  }

  /** When linking fails: at a linked instance whose attributes have the wrong kind. */
  lemma LinkingFailsExactly(insts: Instances, links: Links, rewrite: set<Ref>, generated: Ref -> string,
      order: seq<Ref>)
    requires NoDup(order) && CarriedOwned(Identified(insts, rewrite, generated), links, Elements(order))
    ensures LinkRun((Identified(insts, rewrite, generated), []), links, order).None? <==>
      exists x :: x in order && x in insts && x !in rewrite && "Attributes" in insts[x].props
                  && !insts[x].props["Attributes"].Attributes?
  {
    var mid := Identified(insts, rewrite, generated);
    RunPoints((mid, []), links, order);
    forall x | x in insts
      ensures AttributesFit(mid[x]) <==>
        (x !in rewrite && "Attributes" in insts[x].props ==> insts[x].props["Attributes"].Attributes?)
    {
    }
  }

  /** Pointer attributes are only cleared on instances that have links, so a reference
      that was set to nil keeps its old pointer. */
  lemma StalePointersStay(insts: Instances, links: Links, rewrite: set<Ref>, generated: Ref -> string, r: Instances,
      x: Ref, a: string)
    requires LinkedTo(insts, links, rewrite, generated, r) && x in insts && x !in links
    requires IsPointerName(a) && a in OwnAttributes(insts[x])
    ensures x in r && a in OwnAttributes(r[x]) && OwnAttributes(r[x])[a] == OwnAttributes(insts[x])[a]
  {
    LinkedPointwise(insts, links, rewrite, generated, r);
    assert !IsPointerName(ID_ATTRIBUTE) by {
      assert ID_ATTRIBUTE[5] != POINTER_PREFIX[5];
    }
  }

  // ----- do the ids tell the targets apart? -----

  /** The text of the unique id of an instance, if it has one. */
  function UniqueText(n: Instance): (r: Option<string>) {
    if UNIQUE_ID in n.props && n.props[UNIQUE_ID].Plain? && n.props[UNIQUE_ID].scalar.UniqueId?
    then Some(n.props[UNIQUE_ID].scalar.printed) else None
  }

  /** Ids that are generated are new and different. */
  ghost predicate GeneratedNew(insts: Instances, generated: Ref -> string) {
    && (forall y, z :: y != z ==> generated(y) != generated(z))
    && (forall y, z :: z in insts ==>
          UniqueText(insts[z]) != Some(generated(y)) && ExistingId(insts[z]) != Some(generated(y)))
  }

  /** The unique id of a target to be rewritten is neither that of another such target
      nor an id that another target keeps. */
  ghost predicate UniqueTextsApart(insts: Instances, targets: seq<Ref>, rewrite: set<Ref>) {
    forall y, z :: (y in targets && z in targets && y in insts && z in insts && y != z && y in rewrite
                    && UniqueText(insts[y]).Some?) ==>
      UniqueText(insts[y]) != if z in rewrite then UniqueText(insts[z]) else ExistingId(insts[z])
  }

  ghost predicate ToldApart(targets: seq<Ref>, ids: map<Ref, Option<string>>) {
    forall y, z :: y in targets && z in targets && y in ids && z in ids && ids[y] == ids[z] ==> y == z
  }

  function FinalIds(insts: Instances, rewrite: set<Ref>, generated: Ref -> string): (r: map<Ref, Option<string>>) {
    map y | y in insts :: FinalId(insts, rewrite, generated, y)
  }

  /** Targets that keep their ids have different ones. */
  lemma KeptApart(before: Instances, reached: set<Ref>, links: Links, targets: seq<Ref>, rewrite: set<Ref>,
      insts: Instances)
    requires Collected(before, reached, links, targets, rewrite) && Later(before, insts)
    ensures forall y, z ::
      (y in targets && z in targets && y in insts && z in insts && y !in rewrite && z !in rewrite
       && ExistingId(insts[y]) == ExistingId(insts[z])) ==> y == z
  {
    CollectedTargets(before, reached, links, targets, rewrite);
    forall y | y in insts ensures ExistingId(insts[y]) == ExistingId(before[y]) {}
  }

  /** Link uniqueness. When generated ids are new, distinct live targets end up with
      distinct ids, whatever duplicates there were, if and only if no unique id that
      is written is taken by another target. */
  lemma TargetsToldApart(before: Instances, reached: set<Ref>, links: Links, targets: seq<Ref>, rewrite: set<Ref>,
                         insts: Instances, generated: Ref -> string)
    requires Collected(before, reached, links, targets, rewrite) && Later(before, insts)
    requires GeneratedNew(insts, generated)
    ensures ToldApart(targets, FinalIds(insts, rewrite, generated)) <==> UniqueTextsApart(insts, targets, rewrite)
  {
    KeptApart(before, reached, links, targets, rewrite, insts);
    var final := FinalIds(insts, rewrite, generated);
    if UniqueTextsApart(insts, targets, rewrite) {
      forall y, z | y in targets && z in targets && y in insts && z in insts && final[y] == final[z] ensures y == z {
        if y in rewrite || z in rewrite {
          TwoToldApart(insts, targets, rewrite, generated, y, z);
        } else {
          assert ExistingId(insts[y]) == ExistingId(insts[z]);
        }
      }
    }
    if ToldApart(targets, final) { TextsToldApart(insts, targets, rewrite, generated); }
  }

  lemma TextsToldApart(insts: Instances, targets: seq<Ref>, rewrite: set<Ref>, generated: Ref -> string)
    requires ToldApart(targets, FinalIds(insts, rewrite, generated))
    ensures UniqueTextsApart(insts, targets, rewrite)
  {
    var final := FinalIds(insts, rewrite, generated);
    forall y, z | y in targets && z in targets && y in insts && z in insts && y != z && y in rewrite
      && UniqueText(insts[y]).Some?
      ensures UniqueText(insts[y]) != if z in rewrite then UniqueText(insts[z]) else ExistingId(insts[z])
    {
      assert final[y] != final[z];
    }
  }

  lemma TwoToldApart(insts: Instances, targets: seq<Ref>, rewrite: set<Ref>, generated: Ref -> string, y: Ref, z: Ref)
    requires UniqueTextsApart(insts, targets, rewrite) && GeneratedNew(insts, generated)
    requires y in targets && z in targets && y in insts && z in insts && (y in rewrite || z in rewrite)
    requires FinalId(insts, rewrite, generated, y) == FinalId(insts, rewrite, generated, z)
    ensures y == z
  {
    var a, b := if y in rewrite then y else z, if y in rewrite then z else y;
    assert UniqueText(insts[b]) != Some(generated(a)) && ExistingId(insts[b]) != Some(generated(a));
    assert UniqueText(insts[a]) != Some(generated(b));
  }

  /** After linking, `ExistingId` reads the final ids. */
  lemma LinkedIds(insts: Instances, links: Links, rewrite: set<Ref>, generated: Ref -> string, r: Instances)
    requires LinkedTo(insts, links, rewrite, generated, r)
    ensures r.Keys == insts.Keys && forall y :: y in r ==> ExistingId(r[y]) == FinalIds(insts, rewrite, generated)[y]
  {
    LinkedPointwise(insts, links, rewrite, generated, r);
  }

  /** The unique id of a rewritten target may be the very id a copy of it keeps: a
      folder refers to a part with that unique id and to a copy of the part, which
      carries the same `Rojo_Id`, and in the end both parts have one id. */
  lemma CopiesMayClash()
      returns (insts: Instances, reached: set<Ref>, links: Links, targets: seq<Ref>, rewrite: set<Ref>,
      generated: Ref -> string, r: Instances)
    ensures 1 in reached && TreeShaped(insts) && Closed(insts, reached) && GeneratedNew(insts, generated)
    ensures Collected(insts, reached, links, targets, rewrite) && LinkedTo(insts, links, rewrite, generated, r)
    ensures 2 in targets && 3 in targets && 2 in r && 3 in r && ExistingId(r[2]) == ExistingId(r[3])
  {
    var attrs := map[ID_ATTRIBUTE := Str("u")];
    var folder := Instance("F", "Folder", map["P" := RefValue(3), "Q" := RefValue(2)], NO_REF, [2, 3]);
    var original := Instance("A", "Part", map[ATTRIBUTES := Attributes(attrs), UNIQUE_ID := Plain(UniqueId("u"))],
      1, []);
    var copy := Instance("A", "Part", map[ATTRIBUTES := Attributes(attrs)], 1, []);
    insts := map[1 := folder, 2 := original, 3 := copy];
    reached, links, targets := {1, 2, 3}, map[1 := [Link("P", 3), Link("Q", 2)]], [3, 2];
    rewrite, generated := {2}, Letters;
    ClashIsTree(insts);
    ClashCollected(insts, links);
    LettersNew(insts);
    r := ClashLinked(insts, links, generated);
    LinkedIds(insts, links, rewrite, generated, r);
    assert FinalId(insts, rewrite, generated, 2) == Some("u") == FinalId(insts, rewrite, generated, 3);
  }

  function Letters(x: Ref): (r: string)
    ensures |r| == x + 1 && r[0] == 'g'
  {
    seq(x + 1, _ => 'g')
  }

  lemma LettersNew(insts: Instances)
    requires Clash(insts) && UniqueText(insts[2]) == Some("u") && UniqueText(insts[3]) == None
    ensures GeneratedNew(insts, Letters)
  {
  }

  ghost predicate Clash(insts: Instances) {
    && insts.Keys == {1, 2, 3} && insts[1].props == map["P" := RefValue(3), "Q" := RefValue(2)]
    && insts[1].children == [2, 3] && insts[2].children == [] && insts[3].children == []
    && insts[2].parent == 1 && insts[3].parent == 1
    && ExistingId(insts[2]) == Some("u") && ExistingId(insts[3]) == Some("u")
    && (forall k :: k in insts[2].props ==> !insts[2].props[k].RefValue?)
    && (forall k :: k in insts[3].props ==> !insts[3].props[k].RefValue?)
  }

  lemma ClashIsTree(insts: Instances)
    requires Clash(insts)
    ensures TreeShaped(insts)
  {
    var rank: map<Ref, nat> := map[1 := 0, 2 := 1, 3 := 1];
    forall x | x in insts ensures FamilyOk(insts, x) && RanksChildren(insts, rank, x) {}
    assert Ranked(insts, rank);
  }

  lemma ClashCollected(insts: Instances, links: Links)
    requires Clash(insts) && links == map[1 := [Link("P", 3), Link("Q", 2)]]
    ensures Collected(insts, {1, 2, 3}, links, [3, 2], {2})
  {
    forall x, l ensures l in Get(links, x) <==> x in {1, 2, 3} && IsLink(insts, x, l) {}
    forall y ensures y in [3, 2] <==> IsTarget(links, y) {
      assert Link("P", 3) in Get(links, 1) && Link("Q", 2) in Get(links, 1);
    }
    assert [3, 2][..1] == [3] && [3][..0] == [];
    assert Scan(insts, [3]) == Tally(map["u" := 3], {});
  }

  lemma ClashLinked(insts: Instances, links: Links, generated: Ref -> string) returns (r: Instances)
    requires Clash(insts) && links == map[1 := [Link("P", 3), Link("Q", 2)]]
    ensures LinkedTo(insts, links, {2}, generated, r)
  {
    var mid := Identified(insts, {2}, generated);
    var order: seq<Ref> := [1];
    assert Elements(order) == links.Keys;
    RunPoints((mid, []), links, order);
    assert AttributesFit(mid[1]);
    var done := LinkRun((mid, []), links, order).value;
    r := done.0;
    assert LinkRun((mid, []), links, order) == Some((r, done.1));
  }
}
