/** The protocol and the copies together: what a client holds that reads the tree,
    opens a socket with the cursor of its read, and replays what it is sent
    (src/web/api.rs, src/change_processor.rs). */
module Sessions {
  import opened TreeModel
  import opened PatchPlan
  import opened Replica
  import opened LiveSync
  import opened Delivery

  // ----- prefixes of a run -----

  lemma {:induction false} TreesArePrefixes(t: Tree, patches: seq<Patch>, i: nat)
    requires RunApplies(t, patches) && i <= |patches|
    ensures RunApplies(t, patches[..i]) && TimelineOf(t, patches).trees[i] == TreeAfter(t, patches[..i])
    decreases i
  {
    if i > 0 {
      var v := PatchEffect.ApplyPatch(t, patches[0]);
      assert patches[..i][0] == patches[0] && patches[..i][1..] == patches[1..][..i - 1];
      TreesArePrefixes(v, patches[1..], i - 1);
    }
  }

  // ----- one session -----

  /** What later steps leave of a finished read and of an open socket. */
  ghost predicate KeepsSession<P>(y: System<P>, z: System<P>, r: nat, s: nat) {
    && r in y.readers && r in z.readers && z.readers[r] == y.readers[r]
    && s in y.subscribers && s in z.subscribers
    && z.subscribers[s].input == y.subscribers[s].input && z.subscribers[s].since == y.subscribers[s].since
  }

  lemma {:induction false} SessionKept<P>(y: System<P>, steps: seq<Step<P>>, r: nat, s: nat)
    requires Runs(y, steps) && r in y.readers && y.readers[r].Read? && s in y.subscribers
    ensures KeepsSession(y, After(y, steps), r, s)
    decreases |steps|
  {
    if steps != [] { SessionKept(Next(y, steps[0]), steps[1..], r, s); }
  }

  /** The whole run is right, and the session is one of a socket opened after the read
      with the cursor of the read. */
  ghost predicate InSession<P>(y: System<P>, r: nat, s: nat) {
    && Inv(y) && r in y.readers && y.readers[r].Read? && s in y.subscribers
    && y.subscribers[s].input == y.readers[r].cursor && |y.readers[r].view| <= y.subscribers[s].since
  }

  ghost function Opened<P>(y: System<P>, s: nat, cursor: nat): (z: System<P>)
    requires s !in y.subscribers
  {
    Next(y, Open(s, cursor))
  }

  /** A run in which the read `r` ends, the socket `s` is then opened with its cursor,
      and anything may follow. */
  ghost predicate Session<P>(before: seq<Step<P>>, later: seq<Step<P>>, r: nat, s: nat, y: System<P>) {
    && Runs(Start<P>(), before)
    && var y0 := After(Start<P>(), before);
       && r in y0.readers && y0.readers[r].Read? && s !in y0.subscribers
       && Runs(Opened(y0, s, y0.readers[r].cursor), later)
       && y == After(Opened(y0, s, y0.readers[r].cursor), later)
  }

  lemma SessionOpens<P>(before: seq<Step<P>>, later: seq<Step<P>>, r: nat, s: nat, y: System<P>)
    requires Session(before, later, r, s, y)
    ensures InSession(y, r, s)
  {
    StartInv<P>();
    RunInv(Start<P>(), before);
    var y0 := After(Start<P>(), before);
    var z := Opened(y0, s, y0.readers[r].cursor);
    NextInv(y0, Open(s, y0.readers[r].cursor));
    RunInv(z, later);
    SessionKept(z, later, r, s);
    assert ReaderOk(y0, y0.readers[r]);
  }

  /** What the session shows: the read, and the messages in the order of the log. */
  lemma SessionShape<P>(y: System<P>, r: nat, s: nat)
    requires InSession(y, r, s)
    ensures var d, b := y.readers[r], y.subscribers[s];
      && d.cursor <= |d.view| <= |y.applied| && d.view == y.applied[..|d.view|]
      && d.cursor <= b.cursor <= |y.log| && |b.composed| == |b.sent| == b.cursor - d.cursor
      && (forall k ::
        0 <= k < |b.composed| ==> |d.view| <= b.composed[k] <= |y.applied| && d.cursor + k < b.composed[k])
      && (forall k :: 0 <= k < |b.sent| ==> b.sent[k] == y.applied[d.cursor + k])
      && y.log[..b.cursor] == y.applied[..b.cursor]
  {
    var d, b := y.readers[r], y.subscribers[s];
    assert ReaderOk(y, d) && SentOk(y.log, b) && ComposedOk(y.applied, b) && FlowOk(y);
  }

  /** A message is composed without a panic exactly when no patch that the tree has by
      then removes what its own patch has added. */
  lemma SessionComposes(t: Tree, y: System<Patch>, r: nat, s: nat)
    requires InSession(y, r, s) && WellFormed(t) && RunApplies(t, y.applied)
    ensures var d, b, l := y.readers[r], y.subscribers[s], TimelineOf(t, y.applied);
      Deliverable(l, d.cursor, |d.view|, b.composed) <==> AllStay(l, d.cursor, b.composed)
  {
    var d, b, l := y.readers[r], y.subscribers[s], TimelineOf(t, y.applied);
    assert InTime(l, d.cursor, |d.view|, b.composed) by { SessionShape(y, r, s); }
    assert Ordered(l) by { TimelineOrdered(t, y.applied); }
    DeliverableExactly(l, d.cursor, |d.view|, b.composed);
  }

  /** In every run: a client that reads the tree, opens a socket with the cursor of its
      read and replays what it is sent holds the view of the tree after the log up to
      where it stands, unless a message or the read showed it a later tree; in that case
      it is ahead of that view and behind in nothing. */
  lemma ClientIsRight(t: Tree, y: System<Patch>, r: nat, s: nat)
    requires InSession(y, r, s) && WellFormed(t) && RunSendable(t, y.applied)
    requires Deliverable(TimelineOf(t, y.applied), y.readers[r].cursor, |y.readers[r].view|, y.subscribers[s].composed)
    ensures var d, b, l := y.readers[r], y.subscribers[s], TimelineOf(t, y.applied);
      && RunApplies(t, d.view) && View(l.trees[|d.view|]) == View(TreeAfter(t, d.view))
      && RunApplies(t, y.log[..b.cursor]) && b.cursor < |l.trees| && Ordered(l)
      && var copy := ClientCopy(l, d.cursor, |d.view|, b.composed);
         && Ahead(HistoryOf(l), copy, b.cursor, Max(b.cursor, |d.view|))
         && (|d.view| <= b.cursor && (forall n :: n in b.composed ==> n <= b.cursor) ==>
               copy == View(TreeAfter(t, y.log[..b.cursor])))
  {
    var d, b := y.readers[r], y.subscribers[s];
    SessionShape(y, r, s);
    TimelineOrdered(t, y.applied);
    TreesArePrefixes(t, y.applied, |d.view|);
    TreesArePrefixes(t, y.applied, b.cursor);
    ClientStands(TimelineOf(t, y.applied), d.cursor, |d.view|, b.composed);
  }

  /** The same for whole runs. When the writer has pushed all it has done, and the
      client has been sent all of the log, its copy is the view of the tree. */
  lemma SessionsEndRight(t: Tree, before: seq<Step<Patch>>, later: seq<Step<Patch>>, r: nat, s: nat, y: System<Patch>)
    requires Session(before, later, r, s, y) && WellFormed(t) && RunSendable(t, y.applied) && y.writer.Idle?
    ensures InSession(y, r, s)
    ensures var d, b, l := y.readers[r], y.subscribers[s], TimelineOf(t, y.applied);
      Deliverable(l, d.cursor, |d.view|, b.composed) && b.cursor == |y.log| ==>
        |d.view| < |l.trees| && ClientCopy(l, d.cursor, |d.view|, b.composed) == View(TreeAfter(t, y.applied))
  {
    SessionOpens(before, later, r, s, y);
    var d, b, l := y.readers[r], y.subscribers[s], TimelineOf(t, y.applied);
    SessionShape(y, r, s);
    assert FlowOk(y);
    if Deliverable(l, d.cursor, |d.view|, b.composed) && b.cursor == |y.log| {
      assert y.log[..b.cursor] == y.applied;
      forall n | n in b.composed ensures n <= b.cursor {
        var k :| 0 <= k < |b.composed| && b.composed[k] == n;
      }
      ClientIsRight(t, y, r, s);
    }
  }
}
