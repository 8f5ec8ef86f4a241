/** From a file system event to changes of the tree: the walk to the nearest path
    that still exists, and one patch for every instance found there
    (src/change_processor.rs). */
module ChangeProcessing {
  import opened Basics
  import opened TreeModel
  import opened PatchPlan
  import opened PlanFacts
  import opened PatchEffect
  import opened EffectFacts
  import opened Outcome
  import opened FinalTree
  import opened Reconciliation
  import opened RojoTrees
  import opened ComputePatch
  import opened ApplyPatch
  import opened Replica
  import opened Delivery

  // ----- canonical event paths -----

  datatype Lookup = Canonical(path: Path) | NotFound | Failed

  /** No longer prefix exists, and this one does unless it is the empty one. */
  ghost predicate IsLongest(canonicalize: Path -> Lookup, path: Path, n: int)
    requires 0 <= n <= |path|
  {
    && (forall m :: n < m <= |path| ==> canonicalize(path[..m]) == NotFound)
    && (canonicalize(path[..n]) == NotFound ==> n == 0)
  }

  /** So the result of the walk is determined. */
  lemma LongestIsUnique(canonicalize: Path -> Lookup, path: Path, a: nat, b: nat)
    requires a <= |path| && b <= |path| && IsLongest(canonicalize, path, a) && IsLongest(canonicalize, path, b)
    ensures a == b
  {
  }

  /** Rejoins the longest prefix that exists with the missing rest. Fails when looking
      up that prefix fails, or when no prefix exists at all. */
  method CanonicalizeEventPath(canonicalize: Path -> Lookup, path: Path) returns (r: Lookup)
    ensures exists n :: (0 <= n <= |path| && IsLongest(canonicalize, path, n)
                         && if canonicalize(path[..n]).Canonical?
                            then r == Canonical(canonicalize(path[..n]).path + path[n..])
                            else r == canonicalize(path[..n]))
  {
    var ancestor := path;
    assert path[..|path|] == path;
    while true
      invariant ancestor <= path
      invariant forall m :: |ancestor| < m <= |path| ==> canonicalize(path[..m]) == NotFound
      decreases |ancestor|
    {
      assert path[..|ancestor|] == ancestor;
      var found := canonicalize(ancestor);
      assert found != NotFound || ancestor == [] ==> IsLongest(canonicalize, path, |ancestor|);
      match found
      case Canonical(c) => return Canonical(c + path[|ancestor|..]);
      case Failed => return Failed;
      case NotFound =>
        if ancestor == [] {
          return NotFound;
        }
        ancestor := ancestor[..|ancestor| - 1];
    }
  }

  // ----- one change -----

  /** What the file system shows where an instance came from. */
  datatype Look = Unreadable | Vanished | Found(snapshot: Option<Snapshot>)

  /** The patch for an instance: a vanished source removes it. */
  ghost function PatchOf(t: Tree, id: Ref, look: Look): (r: Patch)
    requires WellFormed(t) && id in t.insts
  {
    match look
    case Unreadable => EMPTY_PATCH
    case Vanished => Patch([id], [], [])
    case Found(s) => PatchFor(t, s, id)
  }

  /** The source of the root does not vanish, for the root cannot be removed; nothing
      is asked of snapshots. */
  ghost predicate LookFits(t: Tree, id: Ref, look: Look) {
    look.Vanished? ==> id != t.root
  }

  lemma NothingApplied(t: Tree)
    ensures Finalized(State(t, EMPTY_CONTEXT.(applied := Applied([], [], [])))) == t
    ensures forall removed :: Finalized(State(t, EMPTY_CONTEXT.(applied := Applied(removed, [], [])))) == t
  {
    assert TranslateAdded(t, {}, map[]).insts == t.insts;
    assert ResolvePointers(t, map[]).insts == t.insts;
  }

  lemma RemovalApplies(t: Tree, id: Ref)
    requires WellFormed(t) && id in t.insts && id != t.root
    ensures Applicable(t, Patch([id], [], []))
    ensures PatchEffect.ApplyPatch(t, Patch([id], [], [])) == RemoveSubtree(t, id)
    ensures Applying(t, Patch([id], [], [])).ctx.applied == Applied([id], [], [])
  {
    var u := RemoveSubtree(t, id);
    assert RemoveAll(t, [id]) == RemoveAll(u, []) == u;
    assert Removable(u, []);
    assert Removable(t, [id]);
    NothingApplied(u);
  }

  lemma EmptyApplies(t: Tree)
    ensures Applicable(t, EMPTY_PATCH) && PatchEffect.ApplyPatch(t, EMPTY_PATCH) == t
    ensures Applying(t, EMPTY_PATCH).ctx.applied == NOTHING
  {
    assert RemoveAll(t, []) == t;
    NothingApplied(t);
  }

  /** The description of a patch that did nothing. */
  const NOTHING := Applied([], [], [])

  /** What one change may do: exactly the removed subtrees go, other old instances
      keep their parents, new ones come below the instance, and whatever is neither
      below it nor above it is left alone. */
  ghost predicate ChangesWithin(t: Tree, v: Tree, id: Ref, removed: seq<Ref>) {
    && WellFormed(v) && v.root == t.root && t.next <= v.next
    && (forall x :: x in v.insts ==> x in t.insts || (x >= t.next && Under(v, x, id)))
    && (forall x :: x in t.insts ==> (x in v.insts <==> !Dead(t, x, removed)))
    && (forall r :: r in removed ==> Under(t, r, id))
    && (forall x :: x in t.insts && (x == id || !Under(t, x, id)) && x in v.insts ==>
          v.insts[x].parent == t.insts[x].parent)
    && (forall x :: x in t.insts && !Under(t, x, id) && !Under(t, id, x) ==> Kept(t, v, x))
  }

  /** Whatever the source shows, but for a vanished root, the patch applies without a
      panic, the tree stays well formed, and the change stays within the subtree. */
  lemma ChangeApplies(t: Tree, id: Ref, look: Look)
    requires WellFormed(t) && id in t.insts
    ensures Applicable(t, PatchOf(t, id, look)) <==> LookFits(t, id, look)
    ensures var q := PatchOf(t, id, look); LookFits(t, id, look) ==>
      MetadataLive(t, q) && ChangesWithin(t, PatchEffect.ApplyPatch(t, q), id, q.removed)
  {
    var q := PatchOf(t, id, look);
    if !LookFits(t, id, look) {
      assert q.removed == [t.root];
    } else if q == Patch([id], [], []) && (look.Vanished? || id != t.root) {
      RemovalWithin(t, id);
    } else if look.Found? && look.snapshot.Some? {
      ComputedPatchApplicable(t, look.snapshot.value, id);
      ReconcileWithin(t, look.snapshot.value, id);
    } else {
      EmptyApplies(t);
    }
  }

  lemma RemovalWithin(t: Tree, id: Ref)
    requires WellFormed(t) && id in t.insts && id != t.root
    ensures var q := Patch([id], [], []);
      Applicable(t, q) && ChangesWithin(t, PatchEffect.ApplyPatch(t, q), id, q.removed)
  {
    RemovalApplies(t, id);
    RemoveWellFormed(t, id);
    forall x | x in t.insts && !Under(t, x, id) && !Under(t, id, x) ensures Kept(t, RemoveSubtree(t, id), x) {
      if id in t.insts[x].children { ChildUnder(t, x, id); }
      KeepAll(t.insts[x].children, {id});
    }
    assert forall x :: x in t.insts ==> (Dead(t, x, [id]) <==> Under(t, x, id));
  }

  lemma ReconcileWithin(t: Tree, s: Snapshot, id: Ref)
    requires WellFormed(t) && id in t.insts
    ensures var q := PatchFor(t, Some(s), id);
      Applicable(t, q) && ChangesWithin(t, PatchEffect.ApplyPatch(t, q), id, q.removed)
  {
    ReconcileMembers(t, s, id);
    PlanNodeFacts(t, s, id);
    var v := Reconciled(t, s, id);
    forall x | x in t.insts && !Under(t, x, id) ensures Kept(t, v, x) {
      ReconcileKeepsOutside(t, s, id, x);
    }
    forall x | x in v.insts && x !in t.insts ensures Under(v, x, id) { NewBelow(t, v, id, x); }
    OwnParent(t, v, id);
  }

  lemma OwnParent(t: Tree, v: Tree, id: Ref)
    requires WellFormed(t) && WellFormed(v) && v.root == t.root && id in t.insts && id in v.insts
    requires forall y :: y in t.insts && !Under(t, y, id) ==> Kept(t, v, y)
    ensures v.insts[id].parent == t.insts[id].parent
  {
    assert NodeOk(t, id) && NodeOk(v, id);
    if id != t.root {
      var p := t.insts[id].parent;
      assert NodeOk(t, p);
      if Under(t, p, id) { UnderOrder(t, p, id); }
      assert Kept(t, v, p) && NodeOk(v, p);
    }
  }

  lemma ChildOfKept(t: Tree, v: Tree, p: Ref, x: Ref)
    requires WellFormed(t) && WellFormed(v) && Kept(t, v, p) && x in v.insts && x in v.insts[p].children
    ensures x in t.insts && t.insts[x].parent == p
  {
    assert NodeOk(t, p);
  }

  /** When all outside a subtree is kept, everything else hangs on it. */
  lemma {:induction false} NewBelow(t: Tree, v: Tree, id: Ref, x: Ref)
    requires WellFormed(t) && WellFormed(v) && v.root == t.root && id in t.insts && id in v.insts
    requires forall y :: y in t.insts && !Under(t, y, id) ==> Kept(t, v, y)
    requires x in v.insts && (x in t.insts ==> Under(t, x, id))
    ensures Under(v, x, id)
    decreases x
  {
    assert NodeOk(v, x);
    if x != id {
      if x == v.root {
        UnderOrder(t, t.root, id);
        UnderRoot(t, id);
        UnderOrder(t, id, t.root);
      } else {
        var p := v.insts[x].parent;
        assert NodeOk(v, p);
        if p in t.insts && !Under(t, p, id) { ChildOfKept(t, v, p, x); }
        NewBelow(t, v, id, p);
      }
    }
  }

  ghost function Changed(t: Tree, id: Ref, look: Look): (v: Tree)
    requires WellFormed(t) && id in t.insts && LookFits(t, id, look)
    ensures ChangesWithin(t, v, id, PatchOf(t, id, look).removed)
  {
    ChangeApplies(t, id, look);
    PatchEffect.ApplyPatch(t, PatchOf(t, id, look))
  }

  // ----- one change after the other -----

  ghost predicate LooksFit(t: Tree, ids: seq<Ref>, look: map<Ref, Look>) {
    forall x :: x in ids ==> x in look && LookFits(t, x, look[x])
  }

  lemma LooksFitOn(t: Tree, v: Tree, ids: seq<Ref>, look: map<Ref, Look>)
    requires ids != [] && LooksFit(t, ids, look) && v.root == t.root
    ensures ids[0] in look && LookFits(t, ids[0], look[ids[0]]) && LooksFit(v, ids[1..], look)
  {
    assert ids[0] in ids;
    assert forall x :: x in ids[1..] ==> x in ids;
  }

  /** Every instance is still there when its turn comes, so none of the panics of the
      loop is reached. */
  ghost predicate Processable(t: Tree, ids: seq<Ref>, look: map<Ref, Look>)
    requires WellFormed(t)
    decreases |ids|
  {
    ids == [] ||
    (ids[0] in t.insts && ids[0] in look && LookFits(t, ids[0], look[ids[0]]) &&
     Processable(Changed(t, ids[0], look[ids[0]]), ids[1..], look))
  }

  ghost function Processed(t: Tree, ids: seq<Ref>, look: map<Ref, Look>): (v: Tree)
    requires WellFormed(t) && Processable(t, ids, look)
    ensures WellFormed(v)
    decreases |ids|
  {
    if ids == [] then t else Processed(Changed(t, ids[0], look[ids[0]]), ids[1..], look)
  }

  // ----- when the loop panics -----

  ghost predicate AllLive(t: Tree, ids: seq<Ref>) {
    forall x :: x in ids ==> x in t.insts
  }

  /** No turn's patch removes the instance of a later turn, or one above it. */
  ghost predicate NothingLost(t: Tree, ids: seq<Ref>, look: map<Ref, Look>)
    requires WellFormed(t) && AllLive(t, ids) && LooksFit(t, ids, look)
    decreases |ids|
  {
    ids == [] ||
    (var id, rest := ids[0], ids[1..];
     LooksFitOn(t, t, ids, look);
     && (forall x :: x in rest ==> !Dead(t, x, PatchOf(t, id, look[id]).removed))
     && (var v := Changed(t, id, look[id]);
         LooksFitOn(t, v, ids, look);
         assert AllLive(v, rest) by { assert forall x :: x in rest ==> x in ids; }
         NothingLost(v, rest, look)))
  }

  /** An instance that has gone stays away: new ones get new ids. */
  lemma {:induction false} GoneStays(t: Tree, ids: seq<Ref>, look: map<Ref, Look>, x: Ref)
    requires WellFormed(t) && x in ids && x !in t.insts && x < t.next
    ensures !Processable(t, ids, look)
    decreases |ids|
  {
    if Processable(t, ids, look) {
      GoneStays(Changed(t, ids[0], look[ids[0]]), ids[1..], look, x);
    }
  }

  /** Every turn of a loop that does not panic shows something that can be done. */
  lemma {:induction false} ProcessableFits(t: Tree, ids: seq<Ref>, look: map<Ref, Look>)
    requires WellFormed(t) && Processable(t, ids, look)
    ensures LooksFit(t, ids, look)
    decreases |ids|
  {
    if ids != [] { ProcessableFits(Changed(t, ids[0], look[ids[0]]), ids[1..], look); }
  }

  /** The loop panics if and only if the root is affected and its source has vanished,
      or some turn's patch removes the instance of a later turn. */
  lemma PanicsExactlyWhenLost(t: Tree, ids: seq<Ref>, look: map<Ref, Look>)
    requires WellFormed(t) && AllLive(t, ids) && forall x :: x in ids ==> x in look
    ensures Processable(t, ids, look) <==> LooksFit(t, ids, look) && NothingLost(t, ids, look)
  {
    if LooksFit(t, ids, look) {
      PanicsWhenLost(t, ids, look);
    } else if Processable(t, ids, look) {
      ProcessableFits(t, ids, look);
    }
  }

  lemma {:induction false} PanicsWhenLost(t: Tree, ids: seq<Ref>, look: map<Ref, Look>)
    requires WellFormed(t) && AllLive(t, ids) && LooksFit(t, ids, look)
    ensures Processable(t, ids, look) <==> NothingLost(t, ids, look)
    decreases |ids|
  {
    if ids != [] {
      var id, rest := ids[0], ids[1..];
      LooksFitOn(t, t, ids, look);
      var v := Changed(t, id, look[id]);
      LooksFitOn(t, v, ids, look);
      assert forall x :: x in rest ==> x in ids;
      if x :| x in rest && Dead(t, x, PatchOf(t, id, look[id]).removed) {
        LiveRange(t, x);
        GoneStays(v, rest, look, x);
      } else {
        PanicsWhenLost(v, rest, look);
      }
    }
  }

  /** For two instances this can be told from the first patch, before anything is
      changed. */
  lemma PairPanicsExactlyWhenLost(t: Tree, a: Ref, b: Ref, look: map<Ref, Look>)
    requires WellFormed(t) && AllLive(t, [a, b]) && a in look && b in look
    ensures a in t.insts
    ensures Processable(t, [a, b], look) <==>
      LookFits(t, b, look[b]) && !Dead(t, b, PatchOf(t, a, look[a]).removed)
  {
    assert a in [a, b] && b in [a, b] && [a, b][1..] == [b];
    PanicsExactlyWhenLost(t, [a, b], look);
    if !LookFits(t, a, look[a]) {
      UnderRoot(t, b);
      assert PatchOf(t, a, look[a]).removed == [t.root] && t.root in [t.root];
    } else if LookFits(t, b, look[b]) && !Dead(t, b, PatchOf(t, a, look[a]).removed) {
      var v := Changed(t, a, look[a]);
      assert LookFits(v, b, look[b]) && [b][1..] == [];
      assert Processable(Changed(v, b, look[b]), [], look);
      assert Processable(v, [b], look);
    }
  }

  // ----- when it cannot -----

  /** No instance lies below one that comes before it. */
  ghost predicate NoneBelowEarlier(t: Tree, ids: seq<Ref>) {
    AllLive(t, ids) && forall i, j :: 0 <= i < j < |ids| ==> !Under(t, ids[j], ids[i])
  }

  /** A change leaves the ancestors of what it does not touch alone. */
  lemma {:induction false} UnderStays(t: Tree, v: Tree, id: Ref, removed: seq<Ref>, x: Ref, a: Ref)
    requires WellFormed(t) && ChangesWithin(t, v, id, removed) && x in t.insts && !Under(t, x, id)
    ensures x in v.insts && (Under(v, x, a) <==> Under(t, x, a))
    decreases x
  {
    ParentStays(t, v, id, removed, x);
    LiveRange(t, NO_REF);
    LiveRange(v, NO_REF);
    if x != a && x != t.root { UnderStays(t, v, id, removed, t.insts[x].parent, a); }
  }

  lemma ParentStays(t: Tree, v: Tree, id: Ref, removed: seq<Ref>, x: Ref)
    requires WellFormed(t) && ChangesWithin(t, v, id, removed) && x in t.insts && !Under(t, x, id)
    ensures x in v.insts && v.insts[x].parent == t.insts[x].parent
    ensures if x == t.root then t.insts[x].parent == NO_REF
            else t.insts[x].parent < x && t.insts[x].parent in t.insts && !Under(t, t.insts[x].parent, id)
  {
    if Dead(t, x, removed) {
      var r :| r in removed && Under(t, x, r);
      UnderTransitive(t, x, r, id);
    }
    assert NodeOk(t, x);
    if x != t.root { assert NodeOk(t, t.insts[x].parent); }
  }

  lemma StillNoneBelow(t: Tree, ids: seq<Ref>, look: Look)
    requires WellFormed(t) && ids != [] && NoneBelowEarlier(t, ids) && LookFits(t, ids[0], look)
    requires ids[0] in t.insts
    ensures NoneBelowEarlier(Changed(t, ids[0], look), ids[1..])
  {
    var id, v, rest := ids[0], Changed(t, ids[0], look), ids[1..];
    var removed := PatchOf(t, id, look).removed;
    forall i | 0 <= i < |rest| ensures rest[i] in t.insts && !Under(t, rest[i], id) && rest[i] in v.insts {
      assert rest[i] == ids[i + 1] && ids[i + 1] in ids;
      UnderStays(t, v, id, removed, rest[i], id);
    }
    forall i, j | 0 <= i < j < |rest| ensures !Under(v, rest[j], rest[i]) {
      assert rest[i] == ids[i + 1] && rest[j] == ids[j + 1];
      UnderStays(t, v, id, removed, rest[j], rest[i]);
    }
  }

  /** When no affected instance lies below an earlier one, all of them are still there
      when their turn comes, whatever the sources show. */
  lemma {:induction false} UnrelatedAreProcessable(t: Tree, ids: seq<Ref>, look: map<Ref, Look>)
    requires WellFormed(t) && NoneBelowEarlier(t, ids) && LooksFit(t, ids, look)
    ensures Processable(t, ids, look)
    decreases |ids|
  {
    if ids != [] {
      assert ids[0] in ids;
      StillNoneBelow(t, ids, look[ids[0]]);
      LooksFitOn(t, Changed(t, ids[0], look[ids[0]]), ids, look);
      UnrelatedAreProcessable(Changed(t, ids[0], look[ids[0]]), ids[1..], look);
    }
  }

  /** Everything that is neither below nor above an affected instance is untouched. */
  lemma {:induction false} ProcessingKeepsTheRest(t: Tree, ids: seq<Ref>, look: map<Ref, Look>, x: Ref)
    requires WellFormed(t) && NoneBelowEarlier(t, ids) && LooksFit(t, ids, look)
    requires x in t.insts && forall i :: 0 <= i < |ids| ==> !Under(t, x, ids[i]) && !Under(t, ids[i], x)
    ensures Processable(t, ids, look) && Kept(t, Processed(t, ids, look), x)
    decreases |ids|
  {
    UnrelatedAreProcessable(t, ids, look);
    if ids != [] {
      assert ids[0] in ids;
      var id, v, rest := ids[0], Changed(t, ids[0], look[ids[0]]), ids[1..];
      StillNoneBelow(t, ids, look[id]);
      LooksFitOn(t, v, ids, look);
      forall i | 0 <= i < |rest| ensures !Under(v, x, rest[i]) && !Under(v, rest[i], x) {
        assert rest[i] == ids[i + 1] && ids[i + 1] in ids;
        UnderStays(t, v, id, PatchOf(t, id, look[id]).removed, x, rest[i]);
        UnderStays(t, v, id, PatchOf(t, id, look[id]).removed, rest[i], x);
      }
      ProcessingKeepsTheRest(v, rest, look, x);
    }
  }

  // ----- what is handed on to the clients -----

  /** What one turn did. */
  ghost function TurnApplied(t: Tree, id: Ref, look: Look): (r: Applied)
    requires WellFormed(t) && id in t.insts && LookFits(t, id, look)
  {
    ChangeApplies(t, id, look);
    Applying(t, PatchOf(t, id, look)).ctx.applied
  }

  /** The descriptions of the turns that did something, in order. */
  ghost function Descriptions(t: Tree, ids: seq<Ref>, look: map<Ref, Look>): (r: seq<Applied>)
    requires WellFormed(t) && Processable(t, ids, look)
    decreases |ids|
  {
    if ids == [] then []
    else
      var applied := TurnApplied(t, ids[0], look[ids[0]]);
      (if applied == NOTHING then [] else [applied]) + Descriptions(Changed(t, ids[0], look[ids[0]]), ids[1..], look)
  }

  /** The messages made of them when they are sent, all from one tree. */
  ghost function Broadcast(w: Tree, done: seq<Applied>): (r: seq<Message>)
    ensures |r| == |done| && forall i :: 0 <= i < |done| ==> r[i] == MessageFor(w, done[i])
  {
    seq(|done|, i requires 0 <= i < |done| => MessageFor(w, done[i]))
  }

  ghost predicate AllCompose(w: Tree, done: seq<Applied>) {
    forall d :: d in done ==> CanCompose(w, d)
  }

  /** The patches of all turns. */
  ghost function TurnPatches(t: Tree, ids: seq<Ref>, look: map<Ref, Look>): (r: seq<Patch>)
    requires WellFormed(t) && Processable(t, ids, look)
    decreases |ids|
  {
    if ids == [] then []
    else
      [PatchOf(t, ids[0], look[ids[0]])] + TurnPatches(Changed(t, ids[0], look[ids[0]]), ids[1..], look)
  }

  /** Leaving out a turn that did nothing changes no copy. */
  lemma NothingReplayed(c: Copy, v: Tree)
    ensures Replay(c, MessageFor(v, NOTHING)) == c
  {
    assert AddedRecords(v, []) == map[];
    assert DropAll(c, []) + map[] == c;
  }

  function WithoutNothing(done: seq<Applied>): (r: seq<Applied>) {
    if done == [] then [] else (if done[0] == NOTHING then [] else [done[0]]) + WithoutNothing(done[1..])
  }

  lemma {:induction false} WithoutNothingSame(c: Copy, w: Tree, done: seq<Applied>)
    ensures ReplayAll(c, Broadcast(w, WithoutNothing(done))) == ReplayAll(c, Broadcast(w, done))
    ensures AllCompose(w, WithoutNothing(done)) <==> AllCompose(w, done)
    decreases |done|
  {
    if done != [] {
      var d, rest := done[0], done[1..];
      WithoutNothingSame(Replay(c, MessageFor(w, d)), w, rest);
      BroadcastFirst(c, w, d, rest);
      assert [d] + rest == done;
      if d == NOTHING {
        NothingReplayed(c, w);
        assert [] + WithoutNothing(rest) == WithoutNothing(rest);
        assert CanCompose(w, NOTHING);
      } else {
        BroadcastFirst(c, w, d, WithoutNothing(rest));
      }
    }
  }

  lemma BroadcastFirst(c: Copy, w: Tree, d: Applied, rest: seq<Applied>)
    ensures ReplayAll(c, Broadcast(w, [d] + rest)) == ReplayAll(Replay(c, MessageFor(w, d)), Broadcast(w, rest))
    ensures AllCompose(w, [d] + rest) <==> CanCompose(w, d) && AllCompose(w, rest)
  {
    assert Broadcast(w, [d] + rest) == [MessageFor(w, d)] + Broadcast(w, rest);
    assert ([MessageFor(w, d)] + Broadcast(w, rest))[1..] == Broadcast(w, rest);
  }

  /** The turns as a timeline: what is handed on is what their patches did. */
  lemma {:induction false} TurnsInTime(t: Tree, ids: seq<Ref>, look: map<Ref, Look>)
    requires WellFormed(t) && Processable(t, ids, look) && RunApplies(t, TurnPatches(t, ids, look))
    ensures TreeAfter(t, TurnPatches(t, ids, look)) == Processed(t, ids, look)
    ensures Descriptions(t, ids, look) == WithoutNothing(TimelineOf(t, TurnPatches(t, ids, look)).done)
    decreases |ids|
  {
    if ids != [] {
      var q, v, rest := PatchOf(t, ids[0], look[ids[0]]), Changed(t, ids[0], look[ids[0]]), ids[1..];
      var later := TurnPatches(v, rest, look);
      assert ([q] + later)[0] == q && ([q] + later)[1..] == later;
      TurnsInTime(v, rest, look);
      DoneSplit(t, q, later, TurnApplied(t, ids[0], look[ids[0]]));
    }
  }

  lemma DoneSplit(t: Tree, q: Patch, later: seq<Patch>, applied: Applied)
    requires RunApplies(t, [q] + later) && Sendable(t, q) && applied == Applying(t, q).ctx.applied
    requires RunApplies(PatchEffect.ApplyPatch(t, q), later)
    ensures WithoutNothing(TimelineOf(t, [q] + later).done) == (if applied == NOTHING then [] else [applied])
      + WithoutNothing(TimelineOf(PatchEffect.ApplyPatch(t, q), later).done)
  {
    var rest := TimelineOf(PatchEffect.ApplyPatch(t, q), later).done;
    assert ([q] + later)[0] == q && ([q] + later)[1..] == later;
    assert TimelineOf(t, [q] + later).done == [applied] + rest;
    assert ([applied] + rest)[0] == applied && ([applied] + rest)[1..] == rest;
  }

  /** The whole batch is applied before any of its messages is composed. All of them can
      be composed if and only if no turn removes what an earlier one has added; then a
      client that replays them ends with the view of the processed tree, when the run of
      patches can be described. */
  lemma BroadcastFollows(t: Tree, ids: seq<Ref>, look: map<Ref, Look>)
    requires WellFormed(t) && Processable(t, ids, look) && RunSendable(t, TurnPatches(t, ids, look))
    ensures var w := Processed(t, ids, look); var done := Descriptions(t, ids, look);
      && (AllCompose(w, done) <==> NothingUndone(TimelineOf(t, TurnPatches(t, ids, look)), 0))
      && (AllCompose(w, done) ==> ReplayAll(View(t), Broadcast(w, done)) == View(w))
  {
    var patches, w := TurnPatches(t, ids, look), Processed(t, ids, look);
    var l := TimelineOf(t, patches);
    TurnsInTime(t, ids, look);
    TimelineOrdered(t, patches);
    WithoutNothingSame(View(t), w, l.done);
    BatchFollows(l);
  }

  /** The same for any timeline: the messages of all patches, composed at its end. */
  lemma BatchFollows(l: Timeline)
    requires Ordered(l) && AllTold(l)
    ensures var w := l.trees[|l.patches|];
      && (AllCompose(w, l.done) <==> NothingUndone(l, 0))
      && (AllCompose(w, l.done) ==> ReplayAll(View(l.trees[0]), Broadcast(w, l.done)) == View(w))
  {
    var n := |l.patches|;
    var w, ns := l.trees[n], seq(n, _ => n);
    OverlapIsHarmless(l, 0, 0);
    assert Deliverable(l, 0, 0, ns) <==> NothingUndone(l, 0);
    if Deliverable(l, 0, 0, ns) {
      forall d | d in l.done ensures CanCompose(w, d) {
        var k :| 0 <= k < n && l.done[k] == d;
        assert DeliverableAt(l, 0, 0, ns, k);
      }
      assert Sent(l, 0, 0, ns) == Broadcast(w, l.done);
    }
    if AllCompose(w, l.done) {
      forall k | 0 <= k < n ensures DeliverableAt(l, 0, 0, ns, k) { assert l.done[k] in l.done; }
    }
  }

  // ----- apart -----

  /** No affected instance lies below another. */
  ghost predicate Apart(t: Tree, ids: seq<Ref>) {
    AllLive(t, ids) && forall i, j :: 0 <= i < |ids| && 0 <= j < |ids| && i != j ==> !Under(t, ids[j], ids[i])
  }

  /** The i-th patch is a change at the i-th affected instance. */
  ghost predicate StepWithin(l: Timeline, ids: seq<Ref>, i: nat) {
    && i < |ids| == |l.patches| && |l.trees| == |ids| + 1
    && ChangesWithin(l.trees[i], l.trees[i + 1], ids[i], l.patches[i].removed)
  }

  ghost predicate AllWithin(l: Timeline, ids: seq<Ref>) {
    && Ordered(l) && |ids| == |l.patches|
    && forall i {:trigger StepWithin(l, ids, i)} :: 0 <= i < |ids| ==> StepWithin(l, ids, i)
  }

  /** A change leaves the relation between an instance outside it and another alone. */
  lemma StepKeepsUnder(l: Timeline, ids: seq<Ref>, i: nat, x: Ref, a: Ref)
    requires AllWithin(l, ids) && i < |ids| && x in l.trees[i].insts && !Under(l.trees[i], x, ids[i])
    ensures x in l.trees[i + 1].insts && (Under(l.trees[i + 1], x, a) <==> Under(l.trees[i], x, a))
  {
    assert StepWithin(l, ids, i);
    TreesWellFormed(l, i);
    UnderStays(l.trees[i], l.trees[i + 1], ids[i], l.patches[i].removed, x, a);
  }

  /** The affected instances are apart until their turn comes. */
  lemma {:induction false} StayApart(l: Timeline, ids: seq<Ref>, i: nat, j: nat, k: nat)
    requires AllWithin(l, ids) && Apart(l.trees[0], ids) && i <= j < |ids| && i <= k < |ids| && j != k
    ensures ids[j] in l.trees[i].insts && !Under(l.trees[i], ids[j], ids[k])
    decreases i
  {
    if i == 0 {
      assert ids[j] in ids;
    } else {
      StayApart(l, ids, i - 1, j, i - 1);
      StayApart(l, ids, i - 1, j, k);
      StepKeepsUnder(l, ids, i - 1, ids[j], ids[k]);
    }
  }

  /** What stands above the changed instance stood above it before. */
  lemma OldUnder(t: Tree, v: Tree, id: Ref, removed: seq<Ref>, a: Ref)
    requires WellFormed(t) && ChangesWithin(t, v, id, removed) && id in t.insts && Under(v, id, a)
    ensures Under(t, id, a)
  {
    UnderOrder(v, id, a);
    if id != a {
      var p := t.insts[id].parent;
      assert NodeOk(t, id);
      LiveRange(v, NO_REF);
      assert NodeOk(t, p);
      if Under(t, p, id) { UnderOrder(t, p, id); }
      UnderStays(t, v, id, removed, p, a);
    }
  }

  /** After its own turn, an affected instance is still apart from the later ones. */
  lemma {:induction false} ApartAfterwards(l: Timeline, ids: seq<Ref>, i: nat, j: nat, k: nat)
    requires AllWithin(l, ids) && Apart(l.trees[0], ids) && i < j <= k < |ids|
    requires ids[i] in l.trees[i + 1].insts
    ensures ids[i] in l.trees[j].insts && !Under(l.trees[j], ids[i], ids[k]) && !Under(l.trees[j], ids[k], ids[i])
    decreases j
  {
    StayApart(l, ids, i, k, i);
    StayApart(l, ids, i, i, k);
    if j == i + 1 {
      assert StepWithin(l, ids, i);
      TreesWellFormed(l, i);
      if Under(l.trees[j], ids[i], ids[k]) {
        OldUnder(l.trees[i], l.trees[j], ids[i], l.patches[i].removed, ids[k]);
      }
      StepKeepsUnder(l, ids, i, ids[k], ids[i]);
    } else {
      ApartAfterwards(l, ids, i, j - 1, k);
      ApartAfterwards(l, ids, i, j - 1, j - 1);
      StayApart(l, ids, j - 1, k, j - 1);
      StepKeepsUnder(l, ids, j - 1, ids[i], ids[k]);
      StepKeepsUnder(l, ids, j - 1, ids[k], ids[i]);
    }
  }

  /** What the i-th turn has added stays below its instance, and no later turn removes
      it. */
  lemma {:induction false} AddedIsSpared(l: Timeline, ids: seq<Ref>, i: nat, j: nat, x: Ref)
    requires AllWithin(l, ids) && Apart(l.trees[0], ids) && i < j < |ids| && NewWith(l, i, x)
    ensures Under(l.trees[j], x, ids[i]) && !Under(l.trees[j], x, ids[j]) && !KilledBy(l, j, x)
    decreases j
  {
    if j == i + 1 {
      assert StepWithin(l, ids, i);
      MembersOfNext(l, i, x);
      TreesWellFormed(l, i);
      LiveRange(l.trees[i], x);
    } else {
      AddedIsSpared(l, ids, i, j - 1, x);
      StepKeepsUnder(l, ids, j - 1, x, ids[i]);
    }
    BelowIsSpared(l, ids, i, j, x);
  }

  lemma BelowIsSpared(l: Timeline, ids: seq<Ref>, i: nat, j: nat, x: Ref)
    requires AllWithin(l, ids) && Apart(l.trees[0], ids) && i < j < |ids| && Under(l.trees[j], x, ids[i])
    ensures x in l.trees[j].insts && !Under(l.trees[j], x, ids[j]) && !KilledBy(l, j, x)
  {
    UnderOrder(l.trees[j], x, ids[i]);
    StillLives(l, ids, i, j, x);
    ApartAfterwards(l, ids, i, j, j);
    if Under(l.trees[j], x, ids[j]) { UnderLinear(l.trees[j], x, ids[i], ids[j]); }
    StepKeepsUnder(l, ids, j, x, ids[i]);
    assert StepWithin(l, ids, j);
  }

  lemma StillLives(l: Timeline, ids: seq<Ref>, i: nat, j: nat, x: Ref)
    requires AllWithin(l, ids) && i < j < |ids| && Under(l.trees[j], x, ids[i]) && Apart(l.trees[0], ids)
    ensures ids[i] in l.trees[i + 1].insts
  {
    StayApart(l, ids, i, i, j);
    StayApart(l, ids, i, j, i);
    UnderOrder(l.trees[j], x, ids[i]);
    TreesWellFormed(l, i);
    LiveRange(l.trees[i], ids[i]);
    MembersOfNext(l, i, ids[i]);
    WasThere(l, i + 1, j, ids[i]);
  }

  lemma {:induction false} WasThere(l: Timeline, i: nat, j: nat, x: Ref)
    requires Ordered(l) && i <= j < |l.trees| && x in l.trees[j].insts && x < l.trees[i].next
    ensures x in l.trees[i].insts
    decreases j - i
  {
    if i < j {
      MembersOfNext(l, i, x);
      WasThere(l, i + 1, j, x);
    }
  }

  lemma {:induction false} TurnsWithin(t: Tree, ids: seq<Ref>, look: map<Ref, Look>)
    requires WellFormed(t) && Processable(t, ids, look) && RunApplies(t, TurnPatches(t, ids, look))
    ensures AllWithin(TimelineOf(t, TurnPatches(t, ids, look)), ids)
    decreases |ids|
  {
    TimelineOrdered(t, TurnPatches(t, ids, look));
    if ids != [] {
      var q, v, rest := PatchOf(t, ids[0], look[ids[0]]), Changed(t, ids[0], look[ids[0]]), ids[1..];
      var later := TurnPatches(v, rest, look);
      assert ([q] + later)[0] == q && ([q] + later)[1..] == later;
      TurnsWithin(v, rest, look);
      WithinFirst(TimelineOf(t, [q] + later), TimelineOf(v, later), ids);
    }
  }

  lemma WithinFirst(l: Timeline, l': Timeline, ids: seq<Ref>)
    requires Ordered(l) && ids != [] && |l.trees| > 1 && |l.patches| == |l'.patches| + 1 && AllWithin(l', ids[1..])
    requires l.trees[1..] == l'.trees && l.patches[1..] == l'.patches
    requires ChangesWithin(l.trees[0], l.trees[1], ids[0], l.patches[0].removed)
    ensures AllWithin(l, ids)
  {
    forall i | 0 <= i < |ids| ensures StepWithin(l, ids, i) {
      if i > 0 { assert StepWithin(l', ids[1..], i - 1); }
    }
  }

  /** When no affected instance lies below another, every message can be composed. */
  lemma ApartCanBeSent(t: Tree, ids: seq<Ref>, look: map<Ref, Look>)
    requires WellFormed(t) && Processable(t, ids, look) && RunApplies(t, TurnPatches(t, ids, look)) && Apart(t, ids)
    ensures NothingUndone(TimelineOf(t, TurnPatches(t, ids, look)), 0)
  {
    var l := TimelineOf(t, TurnPatches(t, ids, look));
    TurnsWithin(t, ids, look);
    forall i | 0 <= i < |l.patches| ensures AddedStay(l, i, |l.patches|) {
      forall x, j | NewWith(l, i, x) && i < j < |l.patches| ensures !KilledBy(l, j, x) {
        AddedIsSpared(l, ids, i, j, x);
      }
    }
  }

  // ----- the program -----

  /** One patch. Reading the metadata of an instance that is gone is the panic. */
  method ComputeAndApplyChanges(tree: RojoTree, id: Ref, look: Look) returns (applied: Option<Applied>)
    requires tree.Valid() && id in tree.insts && LookFits(tree.Model(), id, look)
    modifies tree
    ensures tree.Valid() && tree.Model() == Changed(old(tree.Model()), id, look)
    ensures applied == if look.Unreadable? then None else Some(TurnApplied(old(tree.Model()), id, look))
    ensures look.Unreadable? ==> TurnApplied(old(tree.Model()), id, look) == NOTHING
  {
    applied := None;
    ChangeApplies(tree.Model(), id, look);
    match look
    case Unreadable =>
      EmptyApplies(tree.Model());
    case Vanished =>
      var done := ApplyPatchSet(tree, Patch([id], [], []));
      applied := Some(done);
    case Found(snapshot) =>
      var patch := ComputePatchSet(snapshot, tree, id);
      var done := ApplyPatchSet(tree, patch);
      applied := Some(done);
  }

  /** One patch for each affected instance, in order; what did something is handed on. */
  method ApplyPatches(tree: RojoTree, ids: seq<Ref>, look: map<Ref, Look>) returns (applied: seq<Applied>)
    requires tree.Valid() && Processable(tree.Model(), ids, look)
    modifies tree
    ensures tree.Valid() && tree.Model() == Processed(old(tree.Model()), ids, look)
    ensures applied == Descriptions(old(tree.Model()), ids, look)
  {
    applied := [];
    var rest := ids;
    ghost var final, all := Processed(tree.Model(), ids, look), Descriptions(tree.Model(), ids, look);
    while rest != []
      invariant tree.Valid() && OnTheWay(tree.Model(), rest, look, final, applied, all)
      decreases |rest|
    {
      ghost var t := tree.Model();
      var patch := ComputeAndApplyChanges(tree, rest[0], look[rest[0]]);
      OneTurn(t, rest, look, final, applied, all, tree.Model(), TurnApplied(t, rest[0], look[rest[0]]));
      if patch.Some? && patch.value != NOTHING {
        applied := applied + [patch.value];
      }
      rest := rest[1..];
    }
  }

  /** Between two turns. */
  ghost predicate OnTheWay(t: Tree, rest: seq<Ref>, look: map<Ref, Look>, final: Tree, done: seq<Applied>,
      all: seq<Applied>) {
    && WellFormed(t) && Processable(t, rest, look)
    && Processed(t, rest, look) == final && done + Descriptions(t, rest, look) == all
  }

  lemma OneTurn(t: Tree, rest: seq<Ref>, look: map<Ref, Look>, final: Tree, done: seq<Applied>, all: seq<Applied>,
                v: Tree, applied: Applied)
    requires rest != [] && OnTheWay(t, rest, look, final, done, all)
    requires v == Changed(t, rest[0], look[rest[0]]) && applied == TurnApplied(t, rest[0], look[rest[0]])
    ensures OnTheWay(v, rest[1..], look, final, if applied == NOTHING then done else done + [applied], all)
  {
    Regroup(done, applied, Descriptions(v, rest[1..], look));
  }

  lemma Regroup(done: seq<Applied>, applied: Applied, later: seq<Applied>)
    ensures done + ((if applied == NOTHING then [] else [applied]) + later)
      == (if applied == NOTHING then done else done + [applied]) + later
  {
    assert done + ([applied] + later) == (done + [applied]) + later;
  }
}
