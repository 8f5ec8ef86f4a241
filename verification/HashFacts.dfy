/** What the hash tells apart: one edit anywhere in a tree changes the hash of the whole
    tree (src/syncback/hash/mod.rs, src/syncback/property_filter.rs). */
module HashFacts {
  import opened Basics
  import opened Values
  import opened Ordering
  import opened TreeModel
  import opened Doms
  import opened Hashes

  // ----- what is hashed -----

  /** The property is hashed: it is no reference and no unique id, it serializes, it is
      scriptable unless that does not matter, and its value is not the default. */
  predicate Hashed(h: Hashing, className: string, k: string, v: Value) {
    && !v.RefValue? && !(v.Plain? && v.scalar.UniqueId?)
    && h.serializes(className, k)
    && (h.defaults(className).None?
        || ((h.syncUnscriptable || h.scriptable(className, k))
            && (k in h.defaults(className).value ==> !SameValue(v, h.defaults(className).value[k]))))
  }

  function HashedProps(h: Hashing, s: Snapshot): (r: Props) {
    map k | k in s.props && Hashed(h, s.className, k, s.props[k]) :: s.props[k]
  }

  lemma HashedExactly(h: Hashing, s: Snapshot)
    ensures Filtered(h, s.className, s.props) == HashedProps(h, s)
  {
    forall k | k in s.props ensures Skips(h, s.className, k, s.props[k]) <==> !Hashed(h, s.className, k, s.props[k]) {
      if h.defaults(s.className).Some? && k in h.defaults(s.className).value {
        EqualExactlyWhenSame(s.props[k], h.defaults(s.className).value[k]);
      }
    }
  }

  /** Names and values of these properties, one after the other. */
  function Listed(h: Hashing, props: Props, names: seq<string>): (r: string)
    requires forall k :: k in names ==> k in props
  {
    if names == [] then "" else names[0] + h.encode(props[names[0]]) + Listed(h, props, names[1..])
  }

  ghost function FedText(h: Hashing, s: Snapshot): (r: string) {
    var props := HashedProps(h, s);
    s.name + s.className + Listed(h, props, Sorted(props.Keys)) + Concat(Arranged(HashesOf(h, s.children)))
  }

  lemma {:induction false} ListedExactly(h: Hashing, className: string, props: Props, names: seq<string>)
    requires forall k :: k in names ==> k in props && Hashed(h, className, k, props[k])
    ensures PropsText(h, className, props, names) == Listed(h, props, names)
  {
    if names != [] {
      var k := names[0];
      if h.defaults(className).Some? && k in h.defaults(className).value {
        EqualExactlyWhenSame(h.defaults(className).value[k], props[k]);
      }
      ListedExactly(h, className, props, names[1..]);
    }
  }

  /** The hash is the digest of name, class, hashed properties in the order of their
      names, and sorted hashes of the children, one after the other. */
  lemma HashIsTheDigest(h: Hashing, s: Snapshot)
    ensures HashOf(h, s) == h.digest(FedText(h, s))
  {
    HashedExactly(h, s);
    var props := HashedProps(h, s);
    ListedExactly(h, s.className, props, Sorted(props.Keys));
  }

  // ----- one property -----

  lemma {:induction false} ListedAppend(h: Hashing, props: Props, a: seq<string>, b: seq<string>)
    requires forall k :: k in a || k in b ==> k in props
    ensures Listed(h, props, a + b) == Listed(h, props, a) + Listed(h, props, b)
    decreases |a|
  {
    if a == [] {
      assert a + b == b;
    } else {
      assert (a + b)[0] == a[0] && (a + b)[1..] == a[1..] + b;
      ListedAppend(h, props, a[1..], b);
    }
  }

  lemma {:induction false} ListedSame(h: Hashing, p: Props, q: Props, names: seq<string>)
    requires forall k :: k in names ==> k in p && k in q && p[k] == q[k]
    ensures Listed(h, p, names) == Listed(h, q, names)
  {
    if names != [] { ListedSame(h, p, q, names[1..]); }
  }

  lemma StillIncreasing(all: seq<string>, i: nat)
    requires Increasing(all) && i < |all|
    ensures Increasing(all[..i] + all[i + 1..])
    ensures forall x :: x in all[..i] + all[i + 1..] <==> x in all && x != all[i]
  {
    var rest := all[..i] + all[i + 1..];
    forall u | 0 <= u < |rest| ensures rest[u] == all[if u < i then u else u + 1] && rest[u] != all[i] {
      LessIrreflexive(all[i]);
    }
    forall x | x in all && x != all[i] ensures x in rest {
      var j :| 0 <= j < |all| && all[j] == x;
      assert rest[if j < i then j else j - 1] == x;
    }
  }

  /** A name stands between those that come before and after it. */
  lemma SortedAround(names: set<string>, k: string) returns (a: seq<string>, b: seq<string>)
    requires k in names
    ensures Sorted(names) == a + [k] + b && Sorted(names - {k}) == a + b
    ensures forall x :: x in a + b <==> x in names && x != k
  {
    a, b := SplitAt(Sorted(names), k);
    OnlySorted(a + b, names - {k});
  }

  lemma SplitAt(all: seq<string>, k: string) returns (a: seq<string>, b: seq<string>)
    requires k in all && Increasing(all)
    ensures all == a + [k] + b && Increasing(a + b)
    ensures forall x :: x in a + b <==> x in all && x != k
  {
    var i :| 0 <= i < |all| && all[i] == k;
    StillIncreasing(all, i);
    return all[..i], all[i + 1..];
  }

  lemma OnlySorted(list: seq<string>, names: set<string>)
    requires Increasing(list) && forall x :: x in list <==> x in names
    ensures list == Sorted(names)
  {
    IncreasingUnique(list, Sorted(names));
  }

  lemma ListedAround(h: Hashing, p: Props, a: seq<string>, k: string, b: seq<string>)
    requires k in p && forall x :: x in a + b ==> x in p
    ensures forall x :: x in a + [k] + b ==> x in p
    ensures Listed(h, p, a + [k] + b) == Listed(h, p, a) + (k + h.encode(p[k])) + Listed(h, p, b)
  {
    assert forall x :: x in a || x in b ==> x in a + b;
    ListedAppend(h, p, a + [k], b);
    ListedAppend(h, p, a, [k]);
    assert [k][1..] == [];
    assert Listed(h, p, [k]) == k + h.encode(p[k]) + "";
  }

  /** Equal but for the hashed property `k`, which one has and the other has not, or
      which they hold with different texts. */
  predicate OneProperty(h: Hashing, p: Props, q: Props, k: string) {
    && p - {k} == q - {k}
    && if k in p && k in q then h.encode(p[k]) != h.encode(q[k])
       else (k in p || k in q) && k != ""
  }

  lemma OnePropertyTold(h: Hashing, p: Props, q: Props, k: string)
    requires OneProperty(h, p, q, k)
    ensures Listed(h, p, Sorted(p.Keys)) != Listed(h, q, Sorted(q.Keys))
  {
    if k in p && k in q {
      OtherText(h, p, q, k);
    } else if k in p {
      assert q == q - {k};
      OneMore(h, p, k);
    } else {
      assert p == p - {k};
      OneMore(h, q, k);
    }
  }

  lemma OtherText(h: Hashing, p: Props, q: Props, k: string)
    requires k in p && k in q && p - {k} == q - {k} && h.encode(p[k]) != h.encode(q[k])
    ensures Listed(h, p, Sorted(p.Keys)) != Listed(h, q, Sorted(q.Keys))
  {
    assert p.Keys == (p - {k}).Keys + {k} == (q - {k}).Keys + {k} == q.Keys;
    var a, b := SortedAround(p.Keys, k);
    ListedAround(h, p, a, k, b);
    ListedAround(h, q, a, k, b);
    SameAround(h, p, q, k, a + b, a);
    SameAround(h, p, q, k, a + b, b);
    ValueTold(Listed(h, p, a), k, h.encode(p[k]), h.encode(q[k]), Listed(h, p, b));
  }

  lemma ValueTold(a: string, k: string, b: string, b': string, c: string)
    ensures a + (k + b) + c == a + (k + b') + c ==> b == b'
  {
    assert a + (k + b) + c == (a + k) + b + c && a + (k + b') + c == (a + k) + b' + c;
    MiddleTold(a + k, b, b', c);
  }

  lemma SameAround(h: Hashing, p: Props, q: Props, k: string, all: seq<string>, part: seq<string>)
    requires p - {k} == q - {k} && (forall x :: x in all ==> x in p && x in q && x != k)
    requires forall x :: x in part ==> x in all
    ensures Listed(h, p, part) == Listed(h, q, part)
  {
    forall x | x in part ensures p[x] == q[x] { assert (p - {k})[x] == (q - {k})[x]; }
    ListedSame(h, p, q, part);
  }

  lemma OneMore(h: Hashing, p: Props, k: string)
    requires k in p && k != ""
    ensures Listed(h, p, Sorted(p.Keys)) != Listed(h, p - {k}, Sorted((p - {k}).Keys))
  {
    var q := p - {k};
    var a, b := SortedAround(p.Keys, k);
    assert q.Keys == p.Keys - {k};
    ListedAround(h, p, a, k, b);
    ListedAppend(h, q, a, b);
    ListedSame(h, p, q, a);
    ListedSame(h, p, q, b);
    assert |Listed(h, p, Sorted(p.Keys))| > |Listed(h, q, a + b)|;
  }

  /** Equal parts before and after cancel. */
  lemma MiddleTold(a: string, b: string, b': string, c: string)
    ensures a + b + c == a + b' + c ==> b == b'
  {
    assert (a + b + c)[|a|..|a| + |b|] == b && (a + b' + c)[|a|..|a| + |b'|] == b';
  }

  // ----- the children -----

  /** All digests have the same length, which is not zero. */
  ghost predicate Sized(h: Hashing, size: nat) {
    0 < size && forall text :: |h.digest(text)| == size
  }

  predicate AllSized(list: seq<string>, size: nat) {
    forall i :: 0 <= i < |list| ==> |list[i]| == size
  }

  /** Texts of one length can be told apart when they are joined. */
  lemma {:induction false} JoinTold(a: seq<string>, b: seq<string>, size: nat)
    requires 0 < size && AllSized(a, size) && AllSized(b, size) && Concat(a) == Concat(b)
    ensures a == b
  {
    NoText(a, size);
    NoText(b, size);
    if a != [] {
      var rest, rest' := Concat(a[1..]), Concat(b[1..]);
      assert (a[0] + rest)[..size] == a[0] && (b[0] + rest')[..size] == b[0];
      assert (a[0] + rest)[size..] == rest && (b[0] + rest')[size..] == rest';
      JoinTold(a[1..], b[1..], size);
      assert a == [a[0]] + a[1..] && b == [b[0]] + b[1..];
    }
  }

  lemma NoText(list: seq<string>, size: nat)
    requires 0 < size && AllSized(list, size)
    ensures Concat(list) == "" <==> list == []
  {
    if list != [] { assert |Concat(list)| >= |list[0]|; }
  }

  lemma ArrangedSized(list: seq<string>, size: nat)
    requires AllSized(list, size)
    ensures AllSized(Arranged(list), size)
  {
    var r := Arranged(list);
    forall i | 0 <= i < |r| ensures |r[i]| == size {
      assert r[i] in multiset(r);
      assert r[i] in list;
    }
  }

  /** Different multisets of child hashes are fed as different texts. */
  lemma ChildrenTold(a: seq<string>, b: seq<string>, size: nat)
    requires 0 < size && AllSized(a, size) && AllSized(b, size) && multiset(a) != multiset(b)
    ensures Concat(Arranged(a)) != Concat(Arranged(b))
  {
    ArrangedSized(a, size);
    ArrangedSized(b, size);
    if Concat(Arranged(a)) == Concat(Arranged(b)) { JoinTold(Arranged(a), Arranged(b), size); }
  }

  // ----- one edit -----

  /** The same name, class and hashed properties. */
  predicate SameNode(h: Hashing, a: Snapshot, b: Snapshot) {
    a.name == b.name && a.className == b.className && HashedProps(h, a) == HashedProps(h, b)
  }

  /** One edit of a node: another name, another class, or another text, presence or
      absence of one hashed property. */
  ghost predicate NodeEdit(h: Hashing, a: Snapshot, b: Snapshot) {
    || (a.name != b.name && a.className == b.className && HashedProps(h, a) == HashedProps(h, b))
    || (a.name == b.name && a.className != b.className && HashedProps(h, a) == HashedProps(h, b))
    || (a.name == b.name && a.className == b.className
        && exists k :: OneProperty(h, HashedProps(h, a), HashedProps(h, b), k))
  }

  /** The list without its element at `i`. */
  function Without(ss: seq<Snapshot>, i: nat): (r: seq<Snapshot>)
    requires i < |ss|
  {
    ss[..i] + ss[i + 1..]
  }

  ghost predicate OneFewer(a: seq<Snapshot>, b: seq<Snapshot>) {
    exists i :: 0 <= i < |a| && b == Without(a, i)
  }

  /** One edit anywhere in the tree: of the node itself, of a whole child that comes or
      goes, or inside one child while the others stay. */
  ghost predicate OneEdit(h: Hashing, a: Snapshot, b: Snapshot)
    decreases a
  {
    || (NodeEdit(h, a, b) && a.children == b.children)
    || (SameNode(h, a, b) && (OneFewer(a.children, b.children) || OneFewer(b.children, a.children)))
    || (SameNode(h, a, b) && |a.children| == |b.children|
        && exists i :: 0 <= i < |a.children| && Without(a.children, i) == Without(b.children, i)
             && OneEdit(h, a.children[i], b.children[i]))
  }

  /** The text is fed for some node of the tree. */
  ghost predicate Feeds(h: Hashing, s: Snapshot, text: string)
    decreases s
  {
    text == FedText(h, s) || exists c :: c in s.children && Feeds(h, c, text)
  }

  /** No two different texts of these trees have the same digest. */
  ghost predicate NoCollision(h: Hashing, a: Snapshot, b: Snapshot) {
    forall p, q :: Feeds(h, a, p) && Feeds(h, b, q) && h.digest(p) == h.digest(q) ==> p == q
  }

  lemma NodeEditTold(h: Hashing, a: Snapshot, b: Snapshot)
    requires NodeEdit(h, a, b) && a.children == b.children
    ensures FedText(h, a) != FedText(h, b)
  {
    var p, q := HashedProps(h, a), HashedProps(h, b);
    if p != q {
      var k :| OneProperty(h, p, q, k);
      OnePropertyTold(h, p, q, k);
    }
    OnePartTold(a.name, b.name, a.className, b.className, Listed(h, p, Sorted(p.Keys)), Listed(h, q, Sorted(q.Keys)),
      Concat(Arranged(HashesOf(h, a.children))));
  }

  /** Joined texts that differ in one part differ. */
  lemma OnePartTold(a: string, a': string, b: string, b': string, c: string, c': string, d: string)
    requires (a != a' && b == b' && c == c') || (a == a' && b != b' && c == c') || (a == a' && b == b' && c != c')
    ensures a + b + c + d != a' + b' + c' + d
  {
    assert a + b + c + d == "" + a + (b + c + d) && a' + b' + c' + d == "" + a' + (b' + c' + d);
    assert a + b + c + d == a + b + (c + d) && a' + b' + c' + d == a' + b' + (c' + d);
    MiddleTold("", a, a', b + c + d);
    MiddleTold(a, b, b', c + d);
    MiddleTold(a + b, c, c', d);
  }

  lemma ChildHashesTold(h: Hashing, size: nat, a: Snapshot, b: Snapshot)
    requires Sized(h, size) && SameNode(h, a, b)
    requires multiset(HashesOf(h, a.children)) != multiset(HashesOf(h, b.children))
    ensures FedText(h, a) != FedText(h, b)
  {
    HashesSized(h, size, a.children);
    HashesSized(h, size, b.children);
    ChildrenTold(HashesOf(h, a.children), HashesOf(h, b.children), size);
    var props := HashedProps(h, a);
    MiddleTold(a.name + a.className + Listed(h, props, Sorted(props.Keys)),
      Concat(Arranged(HashesOf(h, a.children))), Concat(Arranged(HashesOf(h, b.children))), "");
    LastPart(a.name + a.className + Listed(h, props, Sorted(props.Keys)), Concat(Arranged(HashesOf(h, a.children))));
    LastPart(a.name + a.className + Listed(h, props, Sorted(props.Keys)), Concat(Arranged(HashesOf(h, b.children))));
  }

  lemma LastPart(a: string, b: string)
    ensures a + b + "" == a + b
  {
  }

  lemma HashesSized(h: Hashing, size: nat, ss: seq<Snapshot>)
    requires Sized(h, size)
    ensures AllSized(HashesOf(h, ss), size)
  {
    forall i | 0 <= i < |ss| ensures |HashesOf(h, ss)[i]| == size { HashIsTheDigest(h, ss[i]); }
  }

  lemma SomeTextTold(h: Hashing, a: Snapshot, b: Snapshot)
    requires NoCollision(h, a, b) && FedText(h, a) != FedText(h, b)
    ensures HashOf(h, a) != HashOf(h, b)
  {
    HashIsTheDigest(h, a);
    HashIsTheDigest(h, b);
    assert Feeds(h, a, FedText(h, a)) && Feeds(h, b, FedText(h, b));
  }

  lemma ChildCollision(h: Hashing, a: Snapshot, b: Snapshot, i: nat)
    requires NoCollision(h, a, b) && i < |a.children| && i < |b.children|
    ensures NoCollision(h, a.children[i], b.children[i])
  {
    assert a.children[i] in a.children && b.children[i] in b.children;
    forall p, q | Feeds(h, a.children[i], p) && Feeds(h, b.children[i], q) && h.digest(p) == h.digest(q)
      ensures p == q
    {
      assert Feeds(h, a, p) && Feeds(h, b, q);
    }
  }

  lemma FewerHashes(h: Hashing, a: seq<Snapshot>, b: seq<Snapshot>)
    requires OneFewer(a, b)
    ensures multiset(HashesOf(h, a)) != multiset(HashesOf(h, b))
  {
    assert |multiset(HashesOf(h, a))| == |a| && |multiset(HashesOf(h, b))| == |b|;
  }

  /** Whatever one edit is made, and wherever, the hash of the whole tree changes, unless
      two of the digests collide. */
  lemma {:induction false} OneEditTold(h: Hashing, size: nat, a: Snapshot, b: Snapshot)
    requires Sized(h, size) && NoCollision(h, a, b) && OneEdit(h, a, b)
    ensures HashOf(h, a) != HashOf(h, b)
    decreases a
  {
    if NodeEdit(h, a, b) && a.children == b.children {
      NodeEditTold(h, a, b);
    } else if OneFewer(a.children, b.children) {
      FewerHashes(h, a.children, b.children);
      ChildHashesTold(h, size, a, b);
    } else if OneFewer(b.children, a.children) {
      FewerHashes(h, b.children, a.children);
      ChildHashesTold(h, size, a, b);
    } else {
      var i :| 0 <= i < |a.children| && Without(a.children, i) == Without(b.children, i)
        && OneEdit(h, a.children[i], b.children[i]);
      ChildCollision(h, a, b, i);
      OneEditTold(h, size, a.children[i], b.children[i]);
      OtherHash(h, a.children, b.children, i);
      ChildHashesTold(h, size, a, b);
    }
    SomeTextTold(h, a, b);
  }

  lemma OtherHash(h: Hashing, a: seq<Snapshot>, b: seq<Snapshot>, i: nat)
    requires i < |a| == |b| && Without(a, i) == Without(b, i) && HashOf(h, a[i]) != HashOf(h, b[i])
    ensures multiset(HashesOf(h, a)) != multiset(HashesOf(h, b))
  {
    HashesWithout(h, a, i);
    HashesWithout(h, b, i);
    var rest := multiset(HashesOf(h, Without(a, i)));
    assert (rest + multiset{HashOf(h, a[i])})[HashOf(h, a[i])] > (rest + multiset{HashOf(h, b[i])})[HashOf(h, a[i])];
  }

  /** So it is for the entries of two tables, also when the edited tree is reordered. */
  lemma OneEditInTables(h: Hashing, size: nat, d: Instances, e: Instances, dh: map<Ref, string>, eh: map<Ref, string>,
                        x: Ref, y: Ref, a: Snapshot, b: Snapshot, c: Snapshot)
    requires HashRight(h, d, dh, x) && HashRight(h, e, eh, y) && Pictured(d, x, a) && Pictured(e, y, c)
    requires Sized(h, size) && NoCollision(h, a, b) && OneEdit(h, a, b) && Similar(h, b, c)
    ensures dh[x] != eh[y]
  {
    OneEditTold(h, size, a, b);
    SimilarHashEqual(h, b, c);
  }
}
