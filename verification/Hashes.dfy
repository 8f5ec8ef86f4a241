/** The order-insensitive hash of a DOM (src/syncback/hash/mod.rs). Digests and the
    text a value is hashed as are abstract; both are strings of bytes here. */
module Hashes {
  import opened Basics
  import opened Values
  import opened Ordering
  import opened TreeModel
  import opened Doms

  /** What the hash depends on besides the DOM. */
  datatype Hashing = Hashing(
    digest: string -> string,
    encode: Value -> string,
    defaults: string -> Option<Props>,
    serializes: (string, string) -> bool,
    scriptable: (string, string) -> bool,
    syncUnscriptable: bool)

  // ----- sorting -----

  predicate AtMost(a: string, b: string) {
    a == b || Less(a, b)
  }

  ghost predicate Ascending(s: seq<string>) {
    forall i, j :: 0 <= i < j < |s| ==> AtMost(s[i], s[j])
  }

  function Put(x: string, s: seq<string>): (r: seq<string>)
    ensures multiset(r) == multiset(s) + multiset{x}
  {
    if s == [] then [x]
    else if Less(s[0], x) then
      assert s == [s[0]] + s[1..];
      [s[0]] + Put(x, s[1..])
    else [x] + s
  }

  /** The library's sort: the only ascending list with the same elements. */
  function Arranged(s: seq<string>): (r: seq<string>)
    ensures multiset(r) == multiset(s)
  {
    if s == [] then []
    else
      assert s == [s[0]] + s[1..];
      Put(s[0], Arranged(s[1..]))
  }

  lemma {:induction false} PutAscending(x: string, s: seq<string>)
    requires Ascending(s)
    ensures Ascending(Put(x, s))
  {
    if s != [] {
      LessTotal(s[0], x);
      if Less(s[0], x) {
        PutAscending(x, s[1..]);
        var rest := Put(x, s[1..]);
        forall j | 0 <= j < |rest| ensures AtMost(s[0], rest[j]) {
          assert rest[j] in multiset(rest);
          assert rest[j] == x || rest[j] in s[1..];
        }
      } else {
        forall j | 0 <= j < |s| ensures AtMost(x, s[j]) {
          if x != s[0] && s[j] != s[0] { LessTransitive(x, s[0], s[j]); }
        }
      }
    }
  }

  lemma {:induction false} ArrangedAscending(s: seq<string>)
    ensures Ascending(Arranged(s))
  {
    if s != [] {
      ArrangedAscending(s[1..]);
      PutAscending(s[0], Arranged(s[1..]));
    }
  }

  lemma SameFirst(a: seq<string>, b: seq<string>)
    requires Ascending(a) && Ascending(b) && a != [] && b != [] && multiset(a) == multiset(b)
    ensures a[0] == b[0]
  {
    FirstIsLeast(a, b[0]);
    FirstIsLeast(b, a[0]);
    if a[0] != b[0] {
      LessTransitive(a[0], b[0], a[0]);
      LessIrreflexive(a[0]);
    }
  }

  lemma {:induction false} AscendingUnique(a: seq<string>, b: seq<string>)
    requires Ascending(a) && Ascending(b) && multiset(a) == multiset(b)
    ensures a == b
  {
    if a == [] {
      assert |multiset(b)| == 0;
    } else {
      assert |multiset(a)| == |a| && |multiset(b)| == |b|;
      SameFirst(a, b);
      DropFirst(a);
      DropFirst(b);
      AscendingUnique(a[1..], b[1..]);
      assert a == [a[0]] + a[1..] && b == [b[0]] + b[1..];
    }
  }

  lemma FirstIsLeast(a: seq<string>, x: string)
    requires Ascending(a) && a != []
    ensures x in multiset(a) ==> AtMost(a[0], x)
  {
  }

  lemma DropFirst(a: seq<string>)
    requires a != []
    ensures multiset(a[1..]) == multiset(a) - multiset{a[0]}
  {
    assert a == [a[0]] + a[1..];
  }

  /** Sorting forgets the order. */
  lemma SortingForgetsOrder(a: seq<string>, b: seq<string>)
    requires multiset(a) == multiset(b)
    ensures Arranged(a) == Arranged(b)
  {
    ArrangedAscending(a);
    ArrangedAscending(b);
    AscendingUnique(Arranged(a), Arranged(b));
  }

  lemma ArrangedSet(list: seq<string>, names: set<string>)
    requires NoDup(list) && forall x :: x in list <==> x in names
    ensures Arranged(list) == Sorted(names)
  {
    var r := Arranged(list);
    ArrangedAscending(list);
    forall x ensures x in r <==> x in names {
      assert x in r <==> x in multiset(r);
      assert x in list <==> x in multiset(list);
    }
    NoDupCounts(list);
    forall i, j | 0 <= i < j < |r| ensures Less(r[i], r[j]) {
      CountedOnce(r, i, j);
    }
    IncreasingUnique(r, Sorted(names));
  }

  lemma CountedOnce(r: seq<string>, i: nat, j: nat)
    requires i < j < |r| && multiset(r)[r[i]] <= 1
    ensures r[i] != r[j]
  {
    assert r == r[..j] + [r[j]] + r[j + 1..];
    assert r[i] in r[..j];
    assert r[i] == r[j] ==> multiset(r)[r[i]] >= 2;
  }

  lemma {:induction false} NoDupCounts(list: seq<string>)
    requires NoDup(list)
    ensures forall x :: multiset(list)[x] <= 1
  {
    if list != [] {
      NoDupCounts(list[1..]);
      assert list == [list[0]] + list[1..];
      assert list[0] !in list[1..];
    }
  }

  // ----- the specification -----

  /** Is this property left out, being a reference, a unique id, unserialized,
      unscriptable, or at its default? */
  predicate Skips(h: Hashing, className: string, k: string, v: Value) {
    || v.RefValue? || (v.Plain? && v.scalar.UniqueId?)
    || !h.serializes(className, k)
    || (!h.syncUnscriptable && h.defaults(className).Some? && !h.scriptable(className, k))
    || IsDefault(h, className, k, v)
  }

  predicate IsDefault(h: Hashing, className: string, k: string, v: Value) {
    h.defaults(className).Some? && k in h.defaults(className).value && VariantEq(v, h.defaults(className).value[k])
  }

  function Filtered(h: Hashing, className: string, props: Props): (r: Props) {
    map k | k in props && !Skips(h, className, k, props[k]) :: props[k]
  }

  /** One property's share: its name, and its value unless that is the default. */
  function PropText(h: Hashing, className: string, k: string, v: Value): (r: string) {
    var defaults := h.defaults(className);
    k + if defaults.Some? && k in defaults.value && VariantEq(defaults.value[k], v) then "" else h.encode(v)
  }

  function PropsText(h: Hashing, className: string, props: Props, names: seq<string>): (r: string)
    requires forall k :: k in names ==> k in props
  {
    if names == [] then ""
      else PropText(h, className, names[0], props[names[0]]) + PropsText(h, className, props, names[1..])
  }

  ghost function InstanceText(h: Hashing, name: string, className: string, props: Props): (r: string) {
    var kept := Filtered(h, className, props);
    name + className + PropsText(h, className, kept, Sorted(kept.Keys))
  }

  function Concat(ss: seq<string>): (r: string) {
    if ss == [] then "" else ss[0] + Concat(ss[1..])
  }

  ghost function HashOf(h: Hashing, s: Snapshot): (r: string)
    decreases s, 1
  {
    h.digest(InstanceText(h, s.name, s.className, s.props) + Concat(Arranged(HashesOf(h, s.children))))
  }

  ghost function HashesOf(h: Hashing, ss: seq<Snapshot>): (r: seq<string>)
    ensures |r| == |ss| && forall i :: 0 <= i < |ss| ==> r[i] == HashOf(h, ss[i])
    decreases ss, 0
  {
    if ss == [] then [] else [HashOf(h, ss[0])] + HashesOf(h, ss[1..])
  }

  // ----- canonicity -----

  /** Equal up to the order of children at every level and up to properties that are
      left out. */
  ghost predicate Similar(h: Hashing, a: Snapshot, b: Snapshot)
    decreases a, 1
  {
    && a.name == b.name && a.className == b.className
    && Filtered(h, a.className, a.props) == Filtered(h, b.className, b.props)
    && SimilarRows(h, a.children, b.children)
  }

  ghost predicate SimilarRows(h: Hashing, a: seq<Snapshot>, b: seq<Snapshot>)
    decreases a, 0
  {
    if a == [] then b == []
    else exists j :: 0 <= j < |b| && Similar(h, a[0], b[j]) && SimilarRows(h, a[1..], b[..j] + b[j + 1..])
  }

  /** Subtrees that are equal up to order have equal hashes. */
  lemma {:induction false} SimilarHashEqual(h: Hashing, a: Snapshot, b: Snapshot)
    requires Similar(h, a, b)
    ensures HashOf(h, a) == HashOf(h, b)
    decreases a, 1
  {
    SimilarRowsHashEqual(h, a.children, b.children);
    SortingForgetsOrder(HashesOf(h, a.children), HashesOf(h, b.children));
  }

  lemma {:induction false} SimilarRowsHashEqual(h: Hashing, a: seq<Snapshot>, b: seq<Snapshot>)
    requires SimilarRows(h, a, b)
    ensures multiset(HashesOf(h, a)) == multiset(HashesOf(h, b))
    decreases a, 0
  {
    if a != [] {
      var j := SimilarPartner(h, a, b);
      var rest := b[..j] + b[j + 1..];
      SimilarHashEqual(h, a[0], b[j]);
      SimilarRowsHashEqual(h, a[1..], rest);
      HashesWithout(h, b, j);
      FirstHash(h, a);
    }
  }

  lemma SimilarPartner(h: Hashing, a: seq<Snapshot>, b: seq<Snapshot>) returns (j: nat)
    requires SimilarRows(h, a, b) && a != []
    ensures j < |b| && Similar(h, a[0], b[j]) && SimilarRows(h, a[1..], b[..j] + b[j + 1..])
  {
    j :| 0 <= j < |b| && Similar(h, a[0], b[j]) && SimilarRows(h, a[1..], b[..j] + b[j + 1..]);
  }

  lemma FirstHash(h: Hashing, a: seq<Snapshot>)
    requires a != []
    ensures multiset(HashesOf(h, a)) == multiset{HashOf(h, a[0])} + multiset(HashesOf(h, a[1..]))
  {
    assert HashesOf(h, a) == [HashOf(h, a[0])] + HashesOf(h, a[1..]);
  }

  lemma HashesWithout(h: Hashing, b: seq<Snapshot>, j: nat)
    requires j < |b|
    ensures multiset(HashesOf(h, b)) == multiset(HashesOf(h, b[..j] + b[j + 1..])) + multiset{HashOf(h, b[j])}
  {
    assert b == b[..j] + ([b[j]] + b[j + 1..]);
    HashesAppend(h, b[..j], [b[j]] + b[j + 1..]);
    HashesAppend(h, b[..j], b[j + 1..]);
    HashesAppend(h, [b[j]], b[j + 1..]);
    assert HashesOf(h, [b[j]]) == [HashOf(h, b[j])];
  }

  lemma {:induction false} HashesAppend(h: Hashing, a: seq<Snapshot>, b: seq<Snapshot>)
    ensures HashesOf(h, a + b) == HashesOf(h, a) + HashesOf(h, b)
    decreases |a|
  {
    if a == [] {
      assert a + b == b;
    } else {
      assert (a + b)[0] == a[0] && (a + b)[1..] == a[1..] + b;
      HashesAppend(h, a[1..], b);
    }
  }

  // ----- the DOM as a tree of snapshots -----

  /** The DOM at `x` looks like `s`. */
  ghost predicate Pictured(insts: Instances, x: Ref, s: Snapshot)
    decreases s
  {
    && x in insts && s.name == insts[x].name && s.className == insts[x].className && s.props == insts[x].props
    && |s.children| == |insts[x].children|
    && forall i :: 0 <= i < |s.children| ==> Pictured(insts, insts[x].children[i], s.children[i])
  }

  ghost predicate HasPicture(insts: Instances, x: Ref) {
    exists s :: Pictured(insts, x, s)
  }

  ghost predicate Bounded(rank: map<Ref, nat>, bound: nat) {
    forall x :: x in rank ==> rank[x] < bound
  }

  lemma {:induction false} RanksBounded(rank: map<Ref, nat>) returns (bound: nat)
    ensures Bounded(rank, bound)
    decreases |rank|
  {
    if rank == map[] {
      bound := 0;
    } else {
      var x :| x in rank;
      var b := RanksBounded(rank - {x});
      bound := if rank[x] < b then b else rank[x] + 1;
      assert forall y :: y in rank ==> y == x || y in rank - {x};
    }
  }

  /** Every instance of a DOM looks like some tree. */
  lemma {:induction false} PictureExists(insts: Instances, rank: map<Ref, nat>, bound: nat, x: Ref)
    requires TreeShaped(insts) && Ranked(insts, rank) && Bounded(rank, bound) && x in insts
    ensures HasPicture(insts, x)
    decreases if x in rank then bound - rank[x] else bound, 1, 0
  {
    assert RanksChildren(insts, rank, x) && FamilyOk(insts, x);
    var n := insts[x];
    var ss := PicturesExist(insts, rank, bound, x, n.children);
    assert Pictured(insts, x, Snapshot(x, Metadata(false, [], None, []), n.name, n.className, n.props, ss));
  }

  lemma {:induction false} PicturesExist(insts: Instances, rank: map<Ref, nat>, bound: nat, x: Ref, xs: seq<Ref>)
      returns (ss: seq<Snapshot>)
    requires TreeShaped(insts) && Ranked(insts, rank) && Bounded(rank, bound) && x in insts && x in rank
    requires forall c :: c in xs ==> c in insts && c in rank && rank[x] < rank[c]
    ensures |ss| == |xs| && forall i :: 0 <= i < |xs| ==> Pictured(insts, xs[i], ss[i])
    decreases bound - rank[x], 0, |xs|
  {
    ss := [];
    if xs != [] {
      PictureExists(insts, rank, bound, xs[0]);
      var s :| Pictured(insts, xs[0], s);
      var rest := PicturesExist(insts, rank, bound, x, xs[1..]);
      ss := [s] + rest;
    }
  }

  lemma AllPictured(insts: Instances)
    requires TreeShaped(insts)
    ensures forall x :: x in insts ==> HasPicture(insts, x)
  {
    var rank :| Ranked(insts, rank);
    var bound := RanksBounded(rank);
    forall x | x in insts ensures HasPicture(insts, x) {
      PictureExists(insts, rank, bound, x);
    }
  }

  /** The table has the hash of whatever tree the instance looks like. */
  ghost predicate HashRight(h: Hashing, insts: Instances, hashes: map<Ref, string>, x: Ref) {
    x in hashes && IsHashOf(h, insts, x, hashes[x])
  }

  ghost predicate IsHashOf(h: Hashing, insts: Instances, x: Ref, own: string) {
    forall s :: Pictured(insts, x, s) ==> own == HashOf(h, s)
  }

  // ----- the computation -----

  method FilterProperties(h: Hashing, inst: Instance) returns (list: seq<string>)
    ensures NoDup(list) && forall k :: k in list <==> k in Filtered(h, inst.className, inst.props)
  {
    list := [];
    var todo := inst.props.Keys;
    while todo != {}
      invariant todo <= inst.props.Keys && NoDup(list)
      invariant forall k :: k in list <==> k in Filtered(h, inst.className, inst.props) && k !in todo
      decreases todo
    {
      var k :| k in todo;
      if !Skips(h, inst.className, k, inst.props[k]) {
        list := list + [k];
      }
      todo := todo - {k};
    }
  }

  /** Feeds name, class and the sorted properties to the hasher. */
  method HashInstance(h: Hashing, inst: Instance) returns (fed: string)
    ensures fed == InstanceText(h, inst.name, inst.className, inst.props)
  {
    var list := FilterProperties(h, inst);
    ghost var kept := Filtered(h, inst.className, inst.props);
    ArrangedSet(list, kept.Keys);
    list := Arranged(list);
    fed := inst.name + inst.className;
    ghost var start := fed;
    ghost var all := list;
    while list != []
      invariant forall k :: k in list ==> k in kept
      invariant fed + PropsText(h, inst.className, kept, list) == start + PropsText(h, inst.className, kept, all)
      decreases |list|
    {
      var k := list[0];
      assert k in kept && kept[k] == inst.props[k];
      fed := fed + PropText(h, inst.className, k, inst.props[k]);
      list := list[1..];
    }
  }

  function HashesAt(hashes: map<Ref, string>, xs: seq<Ref>): (r: seq<string>)
    requires forall x :: x in xs ==> x in hashes
    ensures |r| == |xs| && forall i :: 0 <= i < |xs| ==> r[i] == hashes[xs[i]]
  {
    if xs == [] then [] else [hashes[xs[0]]] + HashesAt(hashes, xs[1..])
  }

  /** Feeds the sorted hashes of the children. A child without a hash would be the
      panic of the original. */
  method AddChildren(inst: Instance, hashes: map<Ref, string>, fed0: string) returns (fed: string)
    requires forall c :: c in inst.children ==> c in hashes
    ensures fed == fed0 + Concat(Arranged(HashesAt(hashes, inst.children)))
  {
    var childHashes := ChildHashesOf(inst.children, hashes);
    fed := Feed(fed0, Arranged(childHashes));
  }

  method ChildHashesOf(xs: seq<Ref>, hashes: map<Ref, string>) returns (childHashes: seq<string>)
    requires forall x :: x in xs ==> x in hashes
    ensures childHashes == HashesAt(hashes, xs)
  {
    childHashes := [];
    for i := 0 to |xs|
      invariant |childHashes| == i && forall j :: 0 <= j < i ==> childHashes[j] == hashes[xs[j]]
    {
      childHashes := childHashes + [hashes[xs[i]]];
    }
  }

  method Feed(fed0: string, texts: seq<string>) returns (fed: string)
    ensures fed == fed0 + Concat(texts)
  {
    fed := fed0;
    var rest := texts;
    while rest != []
      invariant fed + Concat(rest) == fed0 + Concat(texts)
      decreases |rest|
    {
      fed := fed + rest[0];
      rest := rest[1..];
    }
  }

  method HashTree(h: Hashing, dom: Dom, start: Ref) returns (hashes: map<Ref, string>)
    requires dom.Valid() && start in dom.insts
    ensures start in hashes && Closed(dom.insts, hashes.Keys)
    ensures forall reached :: start in reached && Closed(dom.insts, reached) ==> hashes.Keys <= reached
    ensures forall x :: x in hashes ==>
      x in dom.insts && HasPicture(dom.insts, x) && HashRight(h, dom.insts, hashes, x)
  {
    var order := Descendants(dom, start);
    hashes := HashListed(h, dom, start, order);
    assert forall x :: x in order <==> x in Elements(order);
    AllPictured(dom.insts);
    forall reached | start in reached && Closed(dom.insts, reached) ensures hashes.Keys <= reached {
      ListingIsLeast(dom.insts, start, order, reached);
    }
  }

  /** Pops the list from its end, so children come before their parents. */
  method HashListed(h: Hashing, dom: Dom, start: Ref, all: seq<Ref>) returns (hashes: map<Ref, string>)
    requires Listing(dom.insts, start, all)
    ensures hashes.Keys == Elements(all)
    ensures forall x :: x in hashes ==> HashRight(h, dom.insts, hashes, x)
  {
    var order := all;
    hashes := map[];
    while order != []
      invariant order <= all && hashes.Keys == Elements(all[|order|..])
      invariant forall x :: x in hashes ==> HashRight(h, dom.insts, hashes, x)
      decreases |order|
    {
      var k := |order| - 1;
      var referent := order[k];
      order := order[..k];
      NextHashed(dom.insts, start, all, k);
      hashes := HashOne(h, dom, referent, hashes);
    }
  }

  lemma NextHashed(insts: Instances, start: Ref, all: seq<Ref>, k: nat)
    requires Listing(insts, start, all) && k < |all|
    ensures all[k] in insts && all[k] !in all[k + 1..]
    ensures forall c :: c in insts[all[k]].children ==> c in all[k + 1..]
    ensures Elements(all[k..]) == Elements(all[k + 1..]) + {all[k]}
  {
    SuffixElements(all, k);
    assert all[k] in all;
    forall c | c in insts[all[k]].children ensures c in all[k + 1..] { ChildrenCome(insts, start, all, k, c); }
  }

  method HashOne(h: Hashing, dom: Dom, referent: Ref, before: map<Ref, string>) returns (hashes: map<Ref, string>)
    requires referent in dom.insts && referent !in before
    requires forall y :: y in before ==> HashRight(h, dom.insts, before, y)
    requires forall c :: c in dom.insts[referent].children ==> c in before
    ensures hashes.Keys == before.Keys + {referent}
    ensures forall y :: y in hashes ==> HashRight(h, dom.insts, hashes, y)
  {
    var inst := dom.insts[referent];
    var fed := HashInstance(h, inst);
    fed := AddChildren(inst, before, fed);
    hashes := before[referent := h.digest(fed)];
    HashStep(h, dom.insts, before, referent, hashes[referent]);
  }

  lemma ChildrenCome(insts: Instances, start: Ref, all: seq<Ref>, k: nat, c: Ref)
    requires Listing(insts, start, all) && k < |all| && c in insts[all[k]].children
    ensures c in all[k + 1..]
  {
    assert c in Elements(all);
    var j :| 0 <= j < |all| && all[j] == c;
    assert k < j;
    assert all[k + 1..][j - k - 1] == c;
  }

  lemma HashStep(h: Hashing, insts: Instances, before: map<Ref, string>, x: Ref, own: string)
    requires x in insts && x !in before
    requires forall y :: y in before ==> HashRight(h, insts, before, y)
    requires forall c :: c in insts[x].children ==> c in before
    requires var n := insts[x];
      own == h.digest(InstanceText(h, n.name, n.className, n.props) + Concat(Arranged(HashesAt(before, n.children))))
    ensures forall y :: y in before || y == x ==> HashRight(h, insts, before[x := own], y)
  {
    forall c | c in insts[x].children ensures IsHashOf(h, insts, c, before[c]) {
      assert HashRight(h, insts, before, c);
    }
    OwnHash(h, insts, before, x, own);
    OtherHashes(h, insts, before, x, own);
  }

  lemma OtherHashes(h: Hashing, insts: Instances, before: map<Ref, string>, x: Ref, own: string)
    requires x !in before && forall y :: y in before ==> HashRight(h, insts, before, y)
    ensures forall y :: y in before ==> HashRight(h, insts, before[x := own], y)
  {
    forall y | y in before ensures HashRight(h, insts, before[x := own], y) {
      SameEntry(h, insts, before, before[x := own], y);
    }
  }

  lemma SameEntry(h: Hashing, insts: Instances, a: map<Ref, string>, b: map<Ref, string>, y: Ref)
    requires HashRight(h, insts, a, y) && y in b && b[y] == a[y]
    ensures HashRight(h, insts, b, y)
  {
  }

  lemma OwnHash(h: Hashing, insts: Instances, before: map<Ref, string>, x: Ref, own: string)
    requires x in insts && forall c :: c in insts[x].children ==> c in before && IsHashOf(h, insts, c, before[c])
    requires var n := insts[x];
      own == h.digest(InstanceText(h, n.name, n.className, n.props) + Concat(Arranged(HashesAt(before, n.children))))
    ensures IsHashOf(h, insts, x, own)
  {
    forall s | Pictured(insts, x, s) ensures own == HashOf(h, s) {
      ChildHashes(h, insts, before, insts[x].children, s.children);
    }
  }

  lemma {:induction false} ChildHashes(h: Hashing, insts: Instances, before: map<Ref, string>, xs: seq<Ref>,
      ss: seq<Snapshot>)
    requires |xs| == |ss| && forall x :: x in xs ==> x in before
    requires forall i :: 0 <= i < |xs| ==> IsHashOf(h, insts, xs[i], before[xs[i]]) && Pictured(insts, xs[i], ss[i])
    ensures HashesAt(before, xs) == HashesOf(h, ss)
    decreases |xs|
  {
    if xs != [] {
      forall i | 0 <= i < |xs[1..]|
        ensures IsHashOf(h, insts, xs[1..][i], before[xs[1..][i]]) && Pictured(insts, xs[1..][i], ss[1..][i])
      {
        assert xs[1..][i] == xs[i + 1] && ss[1..][i] == ss[i + 1];
      }
      assert xs[0] in xs;
      ChildHashes(h, insts, before, xs[1..], ss[1..]);
    }
  }

  /** Hash canonicity: subtrees of two DOMs that look alike up to order have the
      same entry in their tables. */
  lemma SimilarSubtreesHashEqual(h: Hashing, d: Instances, e: Instances, dh: map<Ref, string>, eh: map<Ref, string>,
                                 x: Ref, y: Ref, a: Snapshot, b: Snapshot)
    requires HashRight(h, d, dh, x) && HashRight(h, e, eh, y)
    requires Pictured(d, x, a) && Pictured(e, y, b) && Similar(h, a, b)
    ensures dh[x] == eh[y]
  {
    SimilarHashEqual(h, a, b);
  }
}
