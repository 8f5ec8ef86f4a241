/** What a batch of file changes leaves in the tree: every affected instance ends as its
    source shows (src/change_processor.rs). */
module BatchResults {
  import opened Basics
  import opened TreeModel
  import opened PatchEffect
  import opened FinalTree
  import opened Reconciliation
  import opened SpelledOut
  import opened QuietSubtrees
  import opened ChangeProcessing

  // ----- one turn -----

  /** The source is gone: nothing is found there, or no snapshot comes of it. */
  predicate Gone(t: Tree, id: Ref, look: Look) {
    look.Vanished? || (look == Found(None) && id != t.root)
  }

  /** The source says nothing: it cannot be read, or no snapshot of the root comes of it. */
  predicate Silent(t: Tree, id: Ref, look: Look) {
    look.Unreadable? || (look == Found(None) && id == t.root)
  }

  /** One turn. An instance whose source shows a snapshot becomes that snapshot, one
      whose source is gone is removed with all below it, and otherwise nothing changes. */
  lemma TurnFollowsTheSource(t: Tree, id: Ref, look: Look)
    requires WellFormed(t) && id in t.insts && LookFits(t, id, look)
    ensures look.Found? && look.snapshot.Some? && Clean(t, look.snapshot.value)
              && AllHonoured(t, look.snapshot.value, id) ==>
      && Same(Changed(t, id, look), id, look.snapshot.value, Destinations(t, look.snapshot.value, id))
      && IsTheSnapshot(Changed(t, id, look), id, look.snapshot.value, Destinations(t, look.snapshot.value, id))
    ensures Gone(t, id, look) ==> Changed(t, id, look) == RemoveSubtree(t, id)
    ensures Silent(t, id, look) ==> Changed(t, id, look) == t
  {
    if Gone(t, id, look) {
      RemovalApplies(t, id);
    } else if Silent(t, id, look) {
      EmptyApplies(t);
    } else if Clean(t, look.snapshot.value) && AllHonoured(t, look.snapshot.value, id) {
      ReconcileGivesTheSnapshot(t, look.snapshot.value, id);
      ReconcileSpelledOut(t, look.snapshot.value, id);
    }
  }

  /** What a turn hands on is the removal of an instance that is gone, and nothing when
      its source says nothing. */
  lemma TurnHandsOn(t: Tree, id: Ref, look: Look)
    requires WellFormed(t) && id in t.insts && LookFits(t, id, look)
    ensures Gone(t, id, look) ==> TurnApplied(t, id, look) == Applied([id], [], [])
    ensures Silent(t, id, look) ==> TurnApplied(t, id, look) == Applied([], [], [])
  {
    if Gone(t, id, look) {
      RemovalApplies(t, id);
    } else if Silent(t, id, look) {
      EmptyApplies(t);
    }
  }

  // ----- subtrees that are left alone -----

  /** A loop over instances apart from `a` leaves its subtree alone. */
  lemma QuietRun(t: Tree, ids: seq<Ref>, look: map<Ref, Look>, a: Ref)
    requires WellFormed(t) && NoneBelowEarlier(t, ids) && LooksFit(t, ids, look) && a in t.insts
    requires forall i :: 0 <= i < |ids| ==> !Under(t, a, ids[i]) && !Under(t, ids[i], a)
    ensures Processable(t, ids, look) && Quiet(t, Processed(t, ids, look), a)
  {
    UnrelatedAreProcessable(t, ids, look);
    var w := Processed(t, ids, look);
    forall x | Under(t, x, a) ensures Kept(t, w, x) {
      UnderOrder(t, x, a);
      forall i | 0 <= i < |ids| ensures !Under(t, x, ids[i]) && !Under(t, ids[i], x) {
        if Under(t, x, ids[i]) { UnderLinear(t, x, a, ids[i]); }
        if Under(t, ids[i], x) { UnderTransitive(t, ids[i], x, a); }
      }
      ProcessingKeepsTheRest(t, ids, look, x);
    }
    forall x | Under(t, x, a) ensures Under(w, x, a) { KeptUnder(t, w, x, a); }
  }

  // ----- the whole batch -----

  /** The tree when the i-th turn comes. */
  ghost function TreeAt(t: Tree, ids: seq<Ref>, look: map<Ref, Look>, i: nat): (u: Tree)
    requires WellFormed(t) && Processable(t, ids, look) && i <= |ids|
    ensures WellFormed(u) && u.root == t.root
    decreases |ids|
  {
    if i == 0 then t else TreeAt(Changed(t, ids[0], look[ids[0]]), ids[1..], look, i - 1)
  }

  lemma ApartNext(t: Tree, ids: seq<Ref>, look: Look, a: Ref)
    requires WellFormed(t) && ids != [] && Apart(t, ids) && ids[0] in t.insts && LookFits(t, ids[0], look)
    requires a in ids[1..]
    ensures a in t.insts && Quiet(t, Changed(t, ids[0], look), a)
  {
    var k :| 0 <= k < |ids[1..]| && ids[1..][k] == a;
    assert ids[k + 1] == a && a in ids;
    var id, v := ids[0], Changed(t, ids[0], look);
    assert !Under(t, a, id) && !Under(t, id, a);
    forall x | Under(t, x, a) ensures Kept(t, v, x) {
      UnderOrder(t, x, a);
      if Under(t, x, id) { UnderLinear(t, x, a, id); }
      if Under(t, id, x) { UnderTransitive(t, id, x, a); }
    }
    forall x | Under(t, x, a) ensures Under(v, x, a) { KeptUnder(t, v, x, a); }
  }

  lemma StillApart(t: Tree, ids: seq<Ref>, look: Look)
    requires WellFormed(t) && ids != [] && Apart(t, ids) && ids[0] in t.insts && LookFits(t, ids[0], look)
    ensures Apart(Changed(t, ids[0], look), ids[1..])
  {
    var id, v, rest := ids[0], Changed(t, ids[0], look), ids[1..];
    var removed := PatchOf(t, id, look).removed;
    forall i | 0 <= i < |rest| ensures rest[i] in t.insts && !Under(t, rest[i], id) && rest[i] in v.insts {
      assert rest[i] == ids[i + 1] && ids[i + 1] in ids;
      UnderStays(t, v, id, removed, rest[i], id);
    }
    forall i, j | 0 <= i < |rest| && 0 <= j < |rest| && i != j ensures !Under(v, rest[j], rest[i]) {
      assert rest[i] == ids[i + 1] && rest[j] == ids[j + 1];
      UnderStays(t, v, id, removed, rest[j], rest[i]);
    }
  }

  /** The turn of `x`: it and what lies below it are as before, and the turns from here
      on are `rest`. */
  ghost predicate Turn(t: Tree, u: Tree, x: Ref, rest: seq<Ref>, look: map<Ref, Look>, final: Tree) {
    && WellFormed(u) && x in t.insts && x in u.insts && Quiet(t, u, x)
    && rest != [] && rest[0] == x && Apart(u, rest)
    && Processable(u, rest, look) && Processed(u, rest, look) == final
  }

  /** When its turn comes, an affected instance and what lies below it are as before. */
  lemma {:induction false} UntilItsTurn(t: Tree, ids: seq<Ref>, look: map<Ref, Look>, i: nat)
    requires WellFormed(t) && Apart(t, ids) && Processable(t, ids, look) && i < |ids|
    ensures Turn(t, TreeAt(t, ids, look, i), ids[i], ids[i..], look, Processed(t, ids, look))
    decreases |ids|
  {
    assert ids[i] in ids;
    if i == 0 {
      assert ids[0..] == ids;
    } else {
      var v, rest := Changed(t, ids[0], look[ids[0]]), ids[1..];
      StillApart(t, ids, look[ids[0]]);
      UntilItsTurn(v, rest, look, i - 1);
      SameTail(ids, i);
      ApartNext(t, ids, look[ids[0]], ids[i]);
      TurnEarlier(t, v, TreeAt(t, ids, look, i), ids[i], ids[i..], look, Processed(t, ids, look));
    }
  }

  lemma SameTail(ids: seq<Ref>, i: nat)
    requires 0 < i < |ids|
    ensures ids[1..][i - 1] == ids[i] && ids[1..][i - 1..] == ids[i..] && ids[i] in ids[1..]
  {
    assert ids[1..][i - 1] in ids[1..];
  }

  lemma TurnEarlier(t: Tree, v: Tree, u: Tree, x: Ref, rest: seq<Ref>, look: map<Ref, Look>, final: Tree)
    requires Turn(v, u, x, rest, look, final) && Quiet(t, v, x) && x in t.insts
    ensures Turn(t, u, x, rest, look, final)
  {
    QuietOn(t, v, u, x);
  }

  /** After its turn, nothing touches an affected instance or what lies below it. */
  lemma AfterItsTurn(u: Tree, ids: seq<Ref>, look: map<Ref, Look>)
    requires WellFormed(u) && ids != [] && Apart(u, ids) && Processable(u, ids, look)
    ensures var v := Changed(u, ids[0], look[ids[0]]);
      ids[0] in v.insts ==> Quiet(v, Processed(u, ids, look), ids[0])
  {
    var id, v, rest := ids[0], Changed(u, ids[0], look[ids[0]]), ids[1..];
    var removed := PatchOf(u, id, look[id]).removed;
    StillApart(u, ids, look[id]);
    ProcessableFits(v, rest, look);
    if id in v.insts {
      forall i | 0 <= i < |rest| ensures !Under(v, id, rest[i]) && !Under(v, rest[i], id) {
        assert rest[i] == ids[i + 1] && ids[i + 1] in ids;
        UnderStays(u, v, id, removed, rest[i], id);
        if Under(v, id, rest[i]) { OldUnder(u, v, id, removed, rest[i]); }
      }
      QuietRun(v, rest, look, id);
    }
  }

  /** What is gone from a tree does not come back in the loop. */
  lemma {:induction false} GoneForGood(t: Tree, ids: seq<Ref>, look: map<Ref, Look>, x: Ref)
    requires WellFormed(t) && Processable(t, ids, look) && x !in t.insts && x < t.next
    ensures x !in Processed(t, ids, look).insts
    decreases |ids|
  {
    if ids != [] { GoneForGood(Changed(t, ids[0], look[ids[0]]), ids[1..], look, x); }
  }

  /** The tree follows the files. In the end of a batch of instances none of which lies
      below another, each whose source showed a snapshot is that snapshot, each whose
      source is gone has gone with all that was below it, and the others are as before.
      Whether a snapshot is honoured is told from the tree before the batch. */
  lemma BatchFollowsTheSources(t: Tree, ids: seq<Ref>, look: map<Ref, Look>, i: nat)
    requires WellFormed(t) && Apart(t, ids) && Processable(t, ids, look) && i < |ids|
    ensures ids[i] in t.insts && ids[i] in look
    ensures var x, w := ids[i], Processed(t, ids, look);
      && (look[x].Found? && look[x].snapshot.Some? ==>
            var s, u := look[x].snapshot.value, TreeAt(t, ids, look, i);
            x in u.insts
            && (Clean(u, s) && AllHonoured(t, s, x) ==> IsTheSnapshot(w, x, s, Destinations(u, s, x))))
      && (Gone(t, x, look[x]) ==> forall y :: Under(t, y, x) ==> y !in w.insts)
      && (Silent(t, x, look[x]) ==> Quiet(t, w, x))
  {
    UntilItsTurn(t, ids, look, i);
    var x, u, rest := ids[i], TreeAt(t, ids, look, i), ids[i..];
    TurnFollowsTheSource(u, x, look[x]);
    AfterItsTurn(u, rest, look);
    var v, w := Changed(u, x, look[x]), Processed(t, ids, look);
    if Gone(t, x, look[x]) {
      forall y | Under(t, y, x) ensures y !in w.insts {
        assert Under(u, y, x);
        UnderOrder(u, y, x);
        LiveRange(u, y);
        GoneForGood(v, rest[1..], look, y);
      }
    } else if Silent(t, x, look[x]) {
      QuietOn(t, u, w, x);
    } else {
      var s := look[x].snapshot.value;
      HonouredAlike(t, u, s, x);
      if Clean(u, s) && AllHonoured(t, s, x) {
        assert Under(v, x, x);
        MatchKept(v, w, x, x, s, Destinations(u, s, x));
      }
    }
  }
}
