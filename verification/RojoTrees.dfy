/** The tree the server keeps, with its metadata and its two indexes, edited in
    place (src/snapshot/tree.rs). */
module RojoTrees {
  import opened Basics
  import opened Values
  import opened MultiMaps
  import opened TreeModel
  import opened Doms

  /** The path index lists exactly the instances whose metadata mentions the path. */
  ghost predicate PathsAgree(meta: map<Ref, Metadata>, index: MultiMap<Path, Ref>) {
    && Proper(index)
    && forall p, id :: id in Get(index, p) <==> id in meta && p in meta[id].relevantPaths
  }

  /** The id index lists exactly the instances whose metadata carries the id. */
  ghost predicate IdsAgree(meta: map<Ref, Metadata>, index: MultiMap<string, Ref>) {
    && Proper(index)
    && forall s, id :: id in Get(index, s) <==> id in meta && meta[id].specifiedId == Some(s)
  }

  // ----- walking over a tree -----

  /** A tree is a shaped DOM, ranked by the order in which its ids were generated. */
  ghost function IdRank(t: Tree): (r: map<Ref, nat>) {
    map x: Ref | x in t.insts :: x
  }

  lemma TreeIsShaped(t: Tree)
    requires WellFormed(t)
    ensures TreeShaped(t.insts) && Ranked(t.insts, IdRank(t))
  {
    forall x | x in t.insts ensures FamilyOk(t.insts, x) && RanksChildren(t.insts, IdRank(t), x) {
      assert NodeOk(t, x);
    }
    assert Ranked(t.insts, IdRank(t));
  }

  /** What a walk from `id` lists is what lies below `id`. */
  lemma {:induction false} ListedIsBelow(t: Tree, id: Ref, ordered: seq<Ref>, x: Ref)
    requires WellFormed(t) && id in t.insts && Listing(t.insts, id, ordered)
    ensures x in ordered <==> Under(t, x, id)
    decreases x
  {
    if x in t.insts {
      assert NodeOk(t, x);
      var p := t.insts[x].parent;
      if x != id && x != t.root {
        assert NodeOk(t, p);
        ListedIsBelow(t, id, ordered, p);
        assert p in ordered ==> x in Elements(ordered) by { assert p in Elements(ordered) <==> p in ordered; }
      } else if x != id {
        LiveRange(t, NO_REF);
        assert !Under(t, p, id);
      }
    }
  }

  /** A walk over the tree, with the set of what it has visited. */
  ghost predicate TreeWalk(t: Tree, id: Ref, ordered: seq<Ref>, queue: seq<Ref>, done: set<Ref>) {
    && WellFormed(t) && id in t.insts && done == Elements(ordered)
    && Walking(t.insts, id, IdRank(t), ordered, queue)
  }

  lemma TreeWalkStarts(t: Tree, id: Ref)
    requires WellFormed(t) && id in t.insts
    ensures TreeWalk(t, id, [], [id], {})
  {
    WalkStarts(t.insts, id, IdRank(t));
  }

  lemma TreeWalkStep(t: Tree, id: Ref, ordered: seq<Ref>, queue: seq<Ref>, done: set<Ref>)
    requires TreeWalk(t, id, ordered, queue, done) && queue != []
    ensures queue[0] in t.insts && queue[0] !in done
    ensures TreeWalk(t, id, ordered + [queue[0]], queue[1..] + t.insts[queue[0]].children, done + {queue[0]})
    ensures t.insts.Keys - (done + {queue[0]}) < t.insts.Keys - done
    ensures id !in t.insts[queue[0]].children
  {
    var x := queue[0];
    TreeIsShaped(t);
    WalkStep(t.insts, id, IdRank(t), ordered, queue);
    assert Elements(ordered + [x]) == Elements(ordered) + {x};
    assert x in t.insts.Keys - done;
    assert x in ordered + queue && QueuedRight(t.insts, id, IdRank(t), ordered, x);
    assert NodeOk(t, x);
  }

  lemma TreeWalkEnds(t: Tree, id: Ref, ordered: seq<Ref>, done: set<Ref>)
    requires TreeWalk(t, id, ordered, [], done)
    ensures forall x :: x in done <==> Under(t, x, id)
  {
    WalkEnds(t.insts, id, IdRank(t), ordered);
    forall x ensures x in done <==> Under(t, x, id) { ListedIsBelow(t, id, ordered, x); }
  }

  lemma OnlyElement(s: seq<Ref>, x: Ref)
    requires NoDup(s) && forall y :: y in s <==> y == x
    ensures s == [x]
  {
    assert x in s;
    assert |s| > 0 && s[0] in s;
    var second := if |s| > 1 then s[1] else x;
    assert second in s;
    assert second == s[0];
  }

  class RojoTree {
    /** `inner`: the instances, their root, and the supply of references. */
    var root: Ref
    var insts: map<Ref, Instance>
    var next: Ref

    var metadata: map<Ref, Metadata>
    var pathToIds: MultiMap<Path, Ref>
    var specifiedIdToRefs: MultiMap<string, Ref>

    ghost function Model(): (t: Tree)
      reads this
    {
      Tree(root, insts, metadata, next)
    }

    ghost predicate Indexed()
      reads this
    {
      PathsAgree(metadata, pathToIds) && IdsAgree(metadata, specifiedIdToRefs)
    }

    ghost predicate Valid()
      reads this
    {
      WellFormed(Model()) && Indexed()
    }

    /** A tree for a whole snapshot. The root does not get the pivot special case. */
    constructor (snapshot: Snapshot)
      ensures Valid()
      ensures root == 1
      ensures Model() == InsertForest(
          Tree(1, map[1 := Instance(snapshot.name, snapshot.className, snapshot.props, NO_REF, [])],
            map[1 := snapshot.meta], 2),
          1, snapshot.children)
    {
      root, next := 1, 2;
      insts := map[1 := Instance(snapshot.name, snapshot.className, snapshot.props, NO_REF, [])];
      metadata, pathToIds, specifiedIdToRefs := map[], map[], map[];
      new;
      InsertMetadata(1, snapshot.meta);
      assert metadata == map[1 := snapshot.meta];
      assert WellFormed(Model()) by { assert NodeOk(Model(), 1); }
      InsertAll(1, snapshot.children);
    }

    method GetIdsAtPath(path: Path) returns (ids: seq<Ref>)
      requires Valid()
      ensures NoDup(ids)
      ensures forall id :: id in ids <==> id in insts && path in metadata[id].relevantPaths
    {
      ids := Get(pathToIds, path);
    }

    /** The instance behind a user-specified id, if exactly one carries it. */
    method GetSpecifiedId(specified: string) returns (r: Option<Ref>)
      requires Indexed()
      ensures r == SpecifiedRef(Model(), specified)
    {
      var bucket := Get(specifiedIdToRefs, specified);
      BucketIsCarriers(specified);
      r := if |bucket| == 1 then Some(bucket[0]) else None;
    }

    lemma BucketIsCarriers(specified: string)
      requires Indexed()
      ensures var bucket := Get(specifiedIdToRefs, specified);
        SpecifiedRef(Model(), specified) == if |bucket| == 1 then Some(bucket[0]) else None
    {
      var bucket := Get(specifiedIdToRefs, specified);
      var carriers := Carriers(Model(), specified);
      assert forall id :: id in bucket <==> id in carriers;
      if |bucket| == 1 {
        assert carriers == {bucket[0]};
      }
      if SpecifiedRef(Model(), specified).Some? {
        OnlyElement(bucket, SpecifiedRef(Model(), specified).value);
      }
    }

    method InsertInstance(parent: Ref, snapshot: Snapshot) returns (referent: Ref)
      requires Valid() && parent in insts
      modifies this
      ensures Valid()
      ensures referent == old(next) && Model() == InsertTree(old(Model()), parent, snapshot)
      decreases snapshot, 1
    {
      referent := InsertNode(parent, snapshot);
      InsertAll(referent, snapshot.children);
    }

    /** The instance itself, before its children. */
    method InsertNode(parent: Ref, snapshot: Snapshot) returns (referent: Ref)
      requires Valid() && parent in insts
      modifies this
      ensures Valid()
      ensures referent == old(next) && Model() == InsertOne(old(Model()), parent, snapshot)
    {
      InsertOneWellFormed(Model(), parent, snapshot);
      LiveRange(Model(), next);
      var needsPivot := ModelLike(snapshot.className) && PIVOT !in snapshot.props;
      var props := if needsPivot then snapshot.props[PIVOT := PIVOT_OFF] else snapshot.props;
      referent := next;
      var adopting := insts[parent].(children := insts[parent].children + [referent]);
      insts := insts[parent := adopting][referent := Instance(snapshot.name, snapshot.className, props, parent, [])];
      next := next + 1;
      InsertMetadata(referent, snapshot.meta);
    }

    method InsertAll(parent: Ref, snapshots: seq<Snapshot>)
      requires Valid() && parent in insts
      modifies this
      ensures Valid() && Model() == InsertForest(old(Model()), parent, snapshots)
      decreases snapshots, 0
    {
      var i := 0;
      while i < |snapshots|
        invariant 0 <= i <= |snapshots|
        invariant Valid() && parent in insts
        invariant InsertForest(Model(), parent, snapshots[i..]) == InsertForest(old(Model()), parent, snapshots)
      {
        assert snapshots[i..][1..] == snapshots[i + 1..];
        var _ := InsertInstance(parent, snapshots[i]);
        i := i + 1;
      }
    }

    /** Removes an instance and everything below it, metadata first. */
    method Remove(id: Ref)
      requires Valid() && id in insts && id != root
      modifies this
      ensures Valid() && Model() == RemoveSubtree(old(Model()), id)
    {
      ghost var t := Model();
      ghost var ordered: seq<Ref>, done: set<Ref> := [], {};
      var toMove := [id];
      TreeWalkStarts(t, id);
      while toMove != []
        invariant insts == t.insts && root == t.root && next == t.next
        invariant TreeWalk(t, id, ordered, toMove, done)
        invariant metadata == t.meta - done && Indexed()
        decreases t.insts.Keys - done
      {
        TreeWalkStep(t, id, ordered, toMove, done);
        var x := toMove[0];
        toMove := toMove[1..];
        RemoveMetadata(x);
        if x in insts {
          toMove := toMove + insts[x].children;
        }
        ordered, done := ordered + [x], done + {x};
        assert metadata == t.meta - done;
      }
      TreeWalkEnds(t, id, ordered, done);
      Destroy(t, id);
      RemoveWellFormed(t, id);
      assert metadata == RemoveSubtree(t, id).meta;
    }

    /** `WeakDom::destroy`: detaches an instance from its parent and drops its subtree. */
    method Destroy(ghost t: Tree, id: Ref)
      requires WellFormed(t) && insts == t.insts && root == t.root && id in insts && id != root
      modifies this`insts
      ensures insts == RemoveSubtree(t, id).insts
    {
      assert NodeOk(t, id);
      DetachedEverywhere(t, id);
      var parent := insts[id].parent;
      insts := insts[parent := insts[parent].(children := Keep(insts[parent].children, {id}))];
      ghost var detached := insts;
      assert forall x :: x in t.insts ==> detached[x] == Detach(t.insts[x], id);
      DropBelow(t, id, detached);
    }

    method DropBelow(ghost t: Tree, id: Ref, ghost detached: map<Ref, Instance>)
      requires WellFormed(t) && id in t.insts && insts == detached && detached.Keys == t.insts.Keys
      requires forall x :: x in t.insts ==> detached[x] == Detach(t.insts[x], id)
      modifies this`insts
      ensures insts == RemoveSubtree(t, id).insts
    {
      ghost var ordered: seq<Ref>, done: set<Ref> := [], {};
      var toRemove := [id];
      TreeWalkStarts(t, id);
      while toRemove != []
        invariant TreeWalk(t, id, ordered, toRemove, done)
        invariant insts == detached - done
        decreases t.insts.Keys - done
      {
        TreeWalkStep(t, id, ordered, toRemove, done);
        var x := toRemove[0];
        KeepAll(t.insts[x].children, {id});
        var kids := insts[x].children;
        insts := insts - {x};
        toRemove := toRemove[1..] + kids;
        ordered, done := ordered + [x], done + {x};
        assert insts == detached - done;
      }
      TreeWalkEnds(t, id, ordered, done);
      BelowDropped(t, id, detached, done);
    }

    lemma BelowDropped(t: Tree, id: Ref, detached: map<Ref, Instance>, done: set<Ref>)
      requires detached.Keys == t.insts.Keys && forall x :: x in t.insts ==> detached[x] == Detach(t.insts[x], id)
      requires forall x :: x in done <==> Under(t, x, id)
      ensures detached - done == RemoveSubtree(t, id).insts
    {
    }

    /** Only the parent lists the detached instance. */
    lemma DetachedEverywhere(t: Tree, id: Ref)
      requires WellFormed(t) && id in t.insts && id != t.root
      ensures forall x :: x in t.insts && x != t.insts[id].parent ==> Detach(t.insts[x], id) == t.insts[x]
    {
      forall x | x in t.insts && x != t.insts[id].parent ensures Detach(t.insts[x], id) == t.insts[x] {
        assert NodeOk(t, x);
        KeepAll(t.insts[x].children, {id});
      }
    }

    /** Replaces the metadata of an instance and keeps the indexes in step. For an id
        without metadata the new metadata is stored without being indexed. */
    method UpdateMetadata(id: Ref, meta: Metadata)
      requires Indexed()
      modifies this`metadata, this`pathToIds, this`specifiedIdToRefs
      ensures Model() == SetMetadata(old(Model()), id, meta)
      ensures old(id in metadata) ==> Indexed()
      ensures old(id !in metadata) ==> pathToIds == old(pathToIds) && specifiedIdToRefs == old(specifiedIdToRefs)
    {
      if id in metadata {
        var existing := metadata[id];
        if existing.relevantPaths != meta.relevantPaths {
          ReindexPaths(id, existing.relevantPaths, meta.relevantPaths);
        }
        if existing.specifiedId != meta.specifiedId {
          ReindexId(id, existing.specifiedId, meta.specifiedId);
        }
        metadata := metadata[id := meta];
      } else {
        metadata := metadata[id := meta];
      }
    }

    method ReindexPaths(id: Ref, existing: seq<Path>, paths: seq<Path>)
      requires Proper(pathToIds) && forall p :: id in Get(pathToIds, p) <==> p in existing
      modifies this`pathToIds
      ensures Proper(pathToIds)
      ensures forall p, x :: x in Get(pathToIds, p) <==> if x == id then p in paths else x in Get(old(pathToIds), p)
    {
      UnindexPaths(id, existing);
      IndexPaths(id, paths);
    }

    method ReindexId(id: Ref, existing: Option<string>, specified: Option<string>)
      requires Proper(specifiedIdToRefs) && existing != specified
      requires forall s :: id in Get(specifiedIdToRefs, s) <==> existing == Some(s)
      modifies this`specifiedIdToRefs
      ensures Proper(specifiedIdToRefs)
      ensures forall s, x :: x in Get(specifiedIdToRefs, s) <==>
        if x == id then specified == Some(s) else x in Get(old(specifiedIdToRefs), s)
    {
      if specified.Some? {
        InsertedContents(specifiedIdToRefs, specified.value, id);
        specifiedIdToRefs := Insert(specifiedIdToRefs, specified.value, id);
      }
      if existing.Some? {
        var index, _ := MultiMaps.Remove(specifiedIdToRefs, existing.value, id);
        specifiedIdToRefs := index;
      }
    }

    /** Moves an instance to another id; the old one is given up first. An id without
        metadata is entered in the index all the same, which then no longer agrees. */
    method SetSpecifiedId(id: Ref, specified: string)
      requires Indexed()
      modifies this`metadata, this`specifiedIdToRefs
      ensures Model() == TreeModel.SetSpecifiedId(old(Model()), id, specified)
      ensures id in old(metadata) ==> Indexed()
      ensures id !in old(metadata) ==> specifiedIdToRefs == Inserted(old(specifiedIdToRefs), specified, id)
    {
      if id in metadata {
        var replaced := metadata[id].specifiedId;
        metadata := metadata[id := metadata[id].(specifiedId := Some(specified))];
        UnindexId(id, replaced);
      }
      IndexId(id, specified);
    }

    method UnindexId(id: Ref, existing: Option<string>)
      requires Proper(specifiedIdToRefs)
      requires forall s :: id in Get(specifiedIdToRefs, s) <==> existing == Some(s)
      modifies this`specifiedIdToRefs
      ensures Proper(specifiedIdToRefs)
      ensures forall s, x :: x in Get(specifiedIdToRefs, s) <==> x in Get(old(specifiedIdToRefs), s) && x != id
    {
      if existing.Some? {
        var index, _ := MultiMaps.Remove(specifiedIdToRefs, existing.value, id);
        specifiedIdToRefs := index;
      }
    }

    method IndexId(id: Ref, specified: string)
      requires Proper(specifiedIdToRefs)
      modifies this`specifiedIdToRefs
      ensures Proper(specifiedIdToRefs)
      ensures specifiedIdToRefs == Inserted(old(specifiedIdToRefs), specified, id)
      ensures forall s, x :: x in Get(specifiedIdToRefs, s) <==>
        x in Get(old(specifiedIdToRefs), s) || (x == id && s == specified)
    {
      InsertedContents(specifiedIdToRefs, specified, id);
      specifiedIdToRefs := Insert(specifiedIdToRefs, specified, id);
    }

    method InsertMetadata(id: Ref, meta: Metadata)
      requires Indexed() && id !in metadata
      modifies this`metadata, this`pathToIds, this`specifiedIdToRefs
      ensures metadata == old(metadata)[id := meta] && Indexed()
    {
      IndexPaths(id, meta.relevantPaths);
      if meta.specifiedId.Some? {
        IndexId(id, meta.specifiedId.value);
      }
      metadata := metadata[id := meta];
    }

    method RemoveMetadata(id: Ref)
      requires Indexed() && id in metadata
      modifies this`metadata, this`pathToIds, this`specifiedIdToRefs
      ensures metadata == old(metadata) - {id} && Indexed()
    {
      var meta := metadata[id];
      metadata := metadata - {id};
      if meta.specifiedId.Some? {
        var index, _ := MultiMaps.Remove(specifiedIdToRefs, meta.specifiedId.value, id);
        specifiedIdToRefs := index;
      }
      UnindexPaths(id, meta.relevantPaths);
    }

    method IndexPaths(id: Ref, paths: seq<Path>)
      requires Proper(pathToIds)
      modifies this`pathToIds
      ensures Proper(pathToIds)
      ensures forall p, x :: x in Get(pathToIds, p) <==> x in Get(old(pathToIds), p) || (x == id && p in paths)
    {
      for i := 0 to |paths|
        invariant Proper(pathToIds)
        invariant forall p, x :: x in Get(pathToIds, p) <==> x in Get(old(pathToIds), p) || (x == id && p in paths[..i])
      {
        InsertedContents(pathToIds, paths[i], id);
        pathToIds := Insert(pathToIds, paths[i], id);
      }
    }

    method UnindexPaths(id: Ref, paths: seq<Path>)
      requires Proper(pathToIds)
      modifies this`pathToIds
      ensures Proper(pathToIds)
      ensures forall p, x :: x in Get(pathToIds, p) <==> x in Get(old(pathToIds), p) && !(x == id && p in paths)
    {
      for i := 0 to |paths|
        invariant Proper(pathToIds)
        invariant forall p, x ::
          x in Get(pathToIds, p) <==> x in Get(old(pathToIds), p) && !(x == id && p in paths[..i])
      {
        var index, _ := MultiMaps.Remove(pathToIds, paths[i], id);
        pathToIds := index;
      }
    }

    /** The nearest prefix of a path at which any instance is registered, and the
        instances registered there (src/change_processor.rs). */
    method NearestIds(path: Path) returns (ids: seq<Ref>, prefix: Path)
      requires Valid()
      ensures prefix <= path
      ensures forall id :: id in ids <==> id in insts && prefix in metadata[id].relevantPaths
      ensures forall q, id :: prefix < q && q <= path && id in insts ==> q !in metadata[id].relevantPaths
      ensures ids == [] ==> prefix == []
    {
      prefix := path;
      while true
        invariant prefix <= path
        invariant forall q, id :: prefix < q && q <= path && id in insts ==> q !in metadata[id].relevantPaths
        decreases |prefix|
      {
        ids := GetIdsAtPath(prefix);
        if ids != [] || prefix == [] {
          return;
        }
        ghost var longer := prefix;
        prefix := prefix[..|prefix| - 1];
        forall q, id | prefix < q && q <= path && id in insts ensures q !in metadata[id].relevantPaths {
          if |q| == |longer| { assert q == longer; } else { assert longer < q; }
        }
      }
    }
  }
}
