/** The DOM that syncback reads from a place file, and the order in which it walks
    one (src/syncback/mod.rs). */
module Doms {
  import opened Basics
  import opened TreeModel

  type Instances = map<Ref, Instance>

  ghost predicate FamilyOk(insts: Instances, x: Ref)
    requires x in insts
  {
    NoDup(insts[x].children) && forall c :: c in insts[x].children ==> c in insts && insts[c].parent == x
  }

  ghost predicate RanksChildren(insts: Instances, rank: map<Ref, nat>, x: Ref)
    requires x in insts
  {
    x in rank && forall c :: c in insts[x].children ==> c in rank && rank[x] < rank[c]
  }

  ghost predicate Ranked(insts: Instances, rank: map<Ref, nat>) {
    forall x {:trigger RanksChildren(insts, rank, x)} :: x in insts ==> RanksChildren(insts, rank, x)
  }

  /** Child and parent links agree, and no instance is below itself. */
  ghost predicate TreeShaped(insts: Instances) {
    (forall x {:trigger FamilyOk(insts, x)} :: x in insts ==> FamilyOk(insts, x)) &&
    exists rank :: Ranked(insts, rank)
  }

  class Dom {
    var root: Ref
    var insts: Instances

    ghost predicate Valid()
      reads this
    {
      root in insts && TreeShaped(insts)
    }

    constructor (root: Ref, insts: Instances)
      requires root in insts && TreeShaped(insts)
      ensures Valid() && this.root == root && this.insts == insts
    {
      this.root, this.insts := root, insts;
    }
  }

  /** Closed under children, so it holds everything below its members. */
  ghost predicate Closed(insts: Instances, reached: set<Ref>) {
    forall x, c :: x in reached && x in insts && c in insts[x].children ==> c in reached
  }

  /** The parent lists the instance among its children. */
  ghost predicate IsChild(insts: Instances, x: Ref) {
    x in insts && insts[x].parent in insts && x in insts[insts[x].parent].children
  }

  ghost predicate QueuedRight(insts: Instances, start: Ref, rank: map<Ref, nat>, ordered: seq<Ref>, x: Ref) {
    && x in insts
    && (x == start ||
        (IsChild(insts, x) && insts[x].parent in ordered && x in rank && start in rank && rank[start] < rank[x]))
  }

  /** The state of a breadth-first walk: `ordered` has been visited, `queue` is next. */
  ghost predicate Walking(insts: Instances, start: Ref, rank: map<Ref, nat>, ordered: seq<Ref>, queue: seq<Ref>) {
    && NoDup(ordered + queue)
    && (forall x {:trigger QueuedRight(insts, start, rank, ordered, x)} :: x in ordered + queue ==>
          QueuedRight(insts, start, rank, ordered, x))
    && (forall x, c :: x in ordered && x in insts && c in insts[x].children ==> c in ordered + queue)
    && ChildrenLater(insts, ordered)
    && start in ordered + queue
  }

  /** Every listed instance comes before those of its children that are listed. */
  ghost predicate ChildrenLater(insts: Instances, ordered: seq<Ref>) {
    forall i, j ::
      0 <= i < |ordered| && 0 <= j < |ordered|
      && ordered[i] in insts && ordered[j] in insts[ordered[i]].children
      ==> i < j
  }

  lemma WalkStep(insts: Instances, start: Ref, rank: map<Ref, nat>, ordered: seq<Ref>, queue: seq<Ref>)
    requires TreeShaped(insts) && Ranked(insts, rank) && Walking(insts, start, rank, ordered, queue) && queue != []
    ensures queue[0] in insts && queue[0] !in ordered
    ensures Walking(insts, start, rank, ordered + [queue[0]], queue[1..] + insts[queue[0]].children)
  {
    var x, all := queue[0], ordered + queue;
    assert all[|ordered|] == x;
    assert forall i :: 0 <= i < |ordered| ==> all[i] == ordered[i];
    assert x !in ordered;
    assert QueuedRight(insts, start, rank, ordered, x) && FamilyOk(insts, x) && RanksChildren(insts, rank, x);
    var kids := insts[x].children;
    var later := ordered + [x];
    assert x in later;
    assert later + queue[1..] == all;
    assert later + (queue[1..] + kids) == all + kids;
    forall c | c in kids ensures c !in all && QueuedRight(insts, start, rank, later, c) {
      assert c in all ==> QueuedRight(insts, start, rank, ordered, c);
      assert insts[c].parent == x;
    }
    NoDupAppend(all, kids);
    forall y | y in all ensures QueuedRight(insts, start, rank, later, y) {
      assert QueuedRight(insts, start, rank, ordered, y);
    }
    forall i, j | 0 <= i < |later| && 0 <= j < |later| && later[i] in insts && later[j] in insts[later[i]].children
      ensures i < j
    {
      assert later[j] in all;
    }
  }

  lemma SomeLeft(insts: Instances, ordered: seq<Ref>, x: Ref)
    requires x in insts && x !in ordered
    ensures |insts.Keys - Elements(ordered + [x])| < |insts.Keys - Elements(ordered)|
  {
    var before, after := insts.Keys - Elements(ordered), insts.Keys - Elements(ordered + [x]);
    assert after == before - {x};
  }

  /** Is the list exactly what lies below `start`, parents first? */
  ghost predicate Listing(insts: Instances, start: Ref, ordered: seq<Ref>) {
    && NoDup(ordered) && start in ordered
    && (forall x :: x in ordered ==> x in insts)
    && Closed(insts, Elements(ordered))
    && (forall x :: x in ordered ==> x == start || (IsChild(insts, x) && insts[x].parent in ordered))
    && ChildrenLater(insts, ordered)
  }

  lemma WalkEnds(insts: Instances, start: Ref, rank: map<Ref, nat>, ordered: seq<Ref>)
    requires Walking(insts, start, rank, ordered, [])
    ensures Listing(insts, start, ordered)
  {
    assert ordered + [] == ordered;
    forall x | x in ordered
      ensures x in insts && (x == start || (IsChild(insts, x) && insts[x].parent in ordered))
    {
      assert QueuedRight(insts, start, rank, ordered, x);
    }
  }

  /** A listing holds nothing but what lies below its start: it is within every closed
      set that has the start. */
  lemma ListingIsLeast(insts: Instances, start: Ref, ordered: seq<Ref>, reached: set<Ref>)
    requires Listing(insts, start, ordered) && start in reached && Closed(insts, reached)
    ensures Elements(ordered) <= reached
  {
    forall i | 0 <= i < |ordered| ensures ordered[i] in reached { ListedReached(insts, start, ordered, reached, i); }
  }

  lemma {:induction false} ListedReached(insts: Instances, start: Ref, ordered: seq<Ref>, reached: set<Ref>, i: nat)
    requires Listing(insts, start, ordered) && start in reached && Closed(insts, reached) && i < |ordered|
    ensures ordered[i] in reached
    decreases i
  {
    var x := ordered[i];
    assert x in ordered;
    if x != start {
      var j :| 0 <= j < |ordered| && ordered[j] == insts[x].parent;
      assert j < i;
      ListedReached(insts, start, ordered, reached, j);
    }
  }

  lemma WalkStarts(insts: Instances, start: Ref, rank: map<Ref, nat>)
    requires start in insts
    ensures Walking(insts, start, rank, [], [start])
  {
    assert QueuedRight(insts, start, rank, [], start);
  }

  method Descendants(dom: Dom, start: Ref) returns (ordered: seq<Ref>)
    requires dom.Valid() && start in dom.insts
    ensures Listing(dom.insts, start, ordered)
  {
    ghost var rank :| Ranked(dom.insts, rank);
    ordered := [];
    var queue := [start];
    WalkStarts(dom.insts, start, rank);
    while queue != []
      invariant Walking(dom.insts, start, rank, ordered, queue)
      decreases |dom.insts.Keys - Elements(ordered)|
    {
      var referent := queue[0];
      WalkStep(dom.insts, start, rank, ordered, queue);
      SomeLeft(dom.insts, ordered, referent);
      ordered := ordered + [referent];
      queue := queue[1..] + dom.insts[referent].children;
    }
    WalkEnds(dom.insts, start, rank, ordered);
  }
}
