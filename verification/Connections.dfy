/** Clients, sockets and the registry as interleaved steps, one for each time a lock
    is held (src/client_registry.rs, src/web/api.rs). */
module Connections {
  import opened Basics
  import opened ClientRegistries

  /** `guards` maps the live subscription guards to the client ids they were made
      for; `handshakes` holds the ids taken but not yet recorded. `gone` is history:
      the ids whose record existed once and was dropped. */
  datatype System = System(
    clients: Clients,
    nextId: nat,
    handshakes: map<nat, Id>,
    guards: map<nat, Id>,
    gone: set<Id>)

  datatype Step =
    | Prune(now: nat)
    | TakeId(h: nat)
    | Record(h: nat, info: Handshake, addr: string, now: nat)
    | OpenGuard(g: nat, id: Id, now: nat)
    | DropGuard(g: nat)
    | See(id: Id, now: nat)

  const START := System(map[], 0, map[], map[], {})

  predicate Enabled(y: System, e: Step) {
    match e
    case TakeId(h) => h !in y.handshakes
    case Record(h, _, _, _) => h in y.handshakes
    case OpenGuard(g, _, _) => g !in y.guards
    case DropGuard(g) => g in y.guards
    case _ => true
  }

  function WithClients(y: System, clients: Clients): (r: System) {
    y.(clients := clients, gone := y.gone + (y.clients.Keys - clients.Keys))
  }

  /** A client may claim any id for its socket, even one never given out. */
  function Next(y: System, e: Step): (r: System)
    requires Enabled(y, e)
  {
    match e
    case Prune(now) => WithClients(y, Pruned(y.clients, now))
    case TakeId(h) => y.(nextId := y.nextId + 1, handshakes := y.handshakes[h := y.nextId])
    case Record(h, info, addr, now) =>
      var id := y.handshakes[h];
      WithClients(y, y.clients[id := NewClient(id, info, addr, now)]).(handshakes := y.handshakes - {h})
    case OpenGuard(g, id, now) => WithClients(y, Subscribed(y.clients, id, true, now)).(guards := y.guards[g := id])
    case DropGuard(g) => WithClients(y, y.clients - {y.guards[g]}).(guards := y.guards - {g})
    case See(id, now) => WithClients(y, Touched(y.clients, id, now))
  }

  // ----- the invariant -----

  /** Every subscribed record belongs to a live guard. */
  ghost predicate NoPhantom(y: System) {
    forall id :: id in y.clients && y.clients[id].subscribed ==> HasGuard(y, id)
  }

  ghost predicate HasGuard(y: System, id: Id) {
    exists g :: g in y.guards && y.guards[g] == id
  }

  /** Ids given out are below the counter, and each is in one place only. */
  ghost predicate IdsApart(y: System) {
    && (forall id :: id in y.clients ==> id < y.nextId && y.clients[id].id == id && id !in y.gone)
    && (forall h :: h in y.handshakes ==>
      y.handshakes[h] < y.nextId && y.handshakes[h] !in y.clients && y.handshakes[h] !in y.gone)
    && (forall h, i :: h in y.handshakes && i in y.handshakes && y.handshakes[h] == y.handshakes[i] ==> h == i)
    && (forall id :: id in y.gone ==> id < y.nextId)
  }

  ghost predicate Inv(y: System) {
    NoPhantom(y) && IdsApart(y)
  }

  lemma NextNoPhantom(y: System, e: Step)
    requires Inv(y) && Enabled(y, e)
    ensures NoPhantom(Next(y, e))
  {
    var z := Next(y, e);
    forall id | id in z.clients && z.clients[id].subscribed ensures HasGuard(z, id) {
      if e.OpenGuard? && e.id == id {
        assert z.guards[e.g] == id;
      } else {
        assert id in y.clients && y.clients[id].subscribed;
        var g :| g in y.guards && y.guards[g] == id;
        assert g in z.guards && z.guards[g] == id;
      }
    }
  }

  lemma NextIdsApart(y: System, e: Step)
    requires IdsApart(y) && Enabled(y, e)
    ensures IdsApart(Next(y, e))
  {
    var z := Next(y, e);
    assert e.Record? ==> y.handshakes[e.h] in z.clients;
  }

  // ----- whole runs -----

  ghost predicate Runs(y: System, steps: seq<Step>)
    decreases |steps|
  {
    steps == [] || (Enabled(y, steps[0]) && Runs(Next(y, steps[0]), steps[1..]))
  }

  ghost function After(y: System, steps: seq<Step>): (z: System)
    requires Runs(y, steps)
    decreases |steps|
  {
    if steps == [] then y else After(Next(y, steps[0]), steps[1..])
  }

  lemma {:induction false} RunKeeps(y: System, steps: seq<Step>)
    requires Inv(y) && Runs(y, steps)
    ensures Inv(After(y, steps)) && y.gone <= After(y, steps).gone && y.nextId <= After(y, steps).nextId
    decreases |steps|
  {
    if steps != [] {
      NextNoPhantom(y, steps[0]);
      NextIdsApart(y, steps[0]);
      RunKeeps(Next(y, steps[0]), steps[1..]);
    }
  }

  /** No phantom connection: in every run, whatever the clock and whatever ids the
      clients claim, a subscribed record belongs to a live guard, so the number of
      connected clients is at most the number of open sockets. */
  lemma ConnectedMeansLive(steps: seq<Step>)
    requires Runs(START, steps)
    ensures var y := After(START, steps);
      && (forall id :: id in y.clients && y.clients[id].subscribed ==> HasGuard(y, id))
      && |SubscribedIds(y.clients)| <= |y.guards|
  {
    RunKeeps(START, steps);
    var y := After(START, steps);
    CountGuards(SubscribedIds(y.clients), y.guards);
  }

  lemma {:induction false} CountGuards(ids: set<Id>, guards: map<nat, Id>)
    requires forall id :: id in ids ==> exists g :: g in guards && guards[g] == id
    ensures |ids| <= |guards|
    decreases ids
  {
    if ids != {} {
      var id :| id in ids;
      var g :| g in guards && guards[g] == id;
      var rest := guards - {g};
      forall j | j in ids - {id} ensures exists h :: h in rest && rest[h] == j {
        var h :| h in guards && guards[h] == j;
        assert h in rest;
      }
      CountGuards(ids - {id}, rest);
      assert |rest.Keys| == |guards.Keys - {g}| == |guards.Keys| - 1;
    }
  }

  /** Every prune comes less than a minute after the client was last seen, at first at
      `seen` and then whenever it makes a request. */
  predicate Lasts(steps: seq<Step>, id: Id, seen: nat) {
    if steps == [] then true
    else if steps[0].Prune? then steps[0].now < seen + 60 && Lasts(steps[1..], id, seen)
    else if steps[0].See? && steps[0].id == id then Lasts(steps[1..], id, steps[0].now)
    else Lasts(steps[1..], id, seen)
  }

  /** A client that holds no socket is remembered exactly as long as it keeps itself seen,
      in every run. */
  lemma {:induction false} RememberedExactly(y: System, steps: seq<Step>, id: Id)
    requires Inv(y) && Runs(y, steps) && id in y.clients && !HasGuard(y, id)
    requires forall e :: e in steps ==> !(e.OpenGuard? && e.id == id)
    ensures id in After(y, steps).clients <==> Lasts(steps, id, y.clients[id].lastSeen)
    decreases |steps|
  {
    if steps != [] {
      var e, rest := steps[0], steps[1..];
      var next := Next(y, e);
      NextNoPhantom(y, e);
      NextIdsApart(y, e);
      assert forall g :: g in next.guards ==> g in y.guards || (e.OpenGuard? && g == e.g);
      if id in next.clients {
        assert !HasGuard(next, id);
        RememberedExactly(next, rest, id);
      } else {
        assert id in next.gone;
        RunKeeps(next, rest);
      }
    }
  }

  /** Ids are never reused: an id whose record was dropped never has one again, and an
      id given out later was never seen before. */
  lemma IdsNeverReused(before: seq<Step>, later: seq<Step>)
    requires Runs(START, before) && Runs(After(START, before), later)
    ensures var y, z := After(START, before), After(After(START, before), later);
      && (forall id :: id in y.gone ==> id !in z.clients)
      && (forall h :: h in z.handshakes && z.handshakes[h] >= y.nextId ==>
        z.handshakes[h] !in y.clients && z.handshakes[h] !in y.gone)
      && (forall id :: id in z.clients && id < y.nextId ==>
        id in y.clients || exists h :: h in y.handshakes && y.handshakes[h] == id)
  {
    RunKeeps(START, before);
    RunKeeps(After(START, before), later);
    OldRecords(After(START, before), later);
  }

  /** A record for an old id was there before, or its handshake was under way. */
  lemma {:induction false} OldRecords(y: System, steps: seq<Step>)
    requires Inv(y) && Runs(y, steps)
    ensures forall id :: id in After(y, steps).clients && id < y.nextId ==> IsKnown(y, id)
    ensures forall h :: h in After(y, steps).handshakes && After(y, steps).handshakes[h] < y.nextId ==>
      IsKnown(y, After(y, steps).handshakes[h])
    decreases |steps|
  {
    if steps != [] {
      var next := Next(y, steps[0]);
      NextNoPhantom(y, steps[0]);
      NextIdsApart(y, steps[0]);
      OldRecords(next, steps[1..]);
      assert y.nextId <= next.nextId;
      forall id: Id | id < y.nextId && IsKnown(next, id) ensures IsKnown(y, id) {
        if id in next.clients {
          if id !in y.clients { assert y.handshakes[steps[0].h] == id; }
        } else {
          var h :| h in next.handshakes && next.handshakes[h] == id;
          assert h in y.handshakes && y.handshakes[h] == id;
        }
      }
    }
  }

  ghost predicate IsKnown(y: System, id: Id) {
    id in y.clients || exists h :: h in y.handshakes && y.handshakes[h] == id
  }

  /** A subscribed record only goes when a guard for its id is dropped; no prune
      drops it, whatever the clock says. */
  lemma OnlyDropsDisconnect(y: System, e: Step, id: Id)
    requires Inv(y) && Enabled(y, e) && id in y.clients && y.clients[id].subscribed
    ensures var z := Next(y, e);
      (id in z.clients && z.clients[id].subscribed) <==> !(e.DropGuard? && y.guards[e.g] == id)
  {
    if e.Record? { assert y.handshakes[e.h] !in y.clients; }
  }

  /** Opening a guard shows the client as connected exactly when it has a record by
      then, although a client that never shook hands is promised an entry. */
  lemma GuardShowsRecordOnly(y: System, g: nat, id: Id, now: nat)
    requires Inv(y) && Enabled(y, OpenGuard(g, id, now))
    ensures var z := Next(y, OpenGuard(g, id, now));
      HasGuard(z, id) && (id in SubscribedIds(z.clients) <==> id in y.clients)
  {
    var z := Next(y, OpenGuard(g, id, now));
    assert z.guards[g] == id;
  }

  // ----- who is shown -----

  predicate Shown(y: System, id: Id) {
    id in y.clients && y.clients[id].subscribed
  }

  /** The step closes a socket that was opened for the id, this one or another. */
  predicate Hides(y: System, e: Step, id: Id)
    requires Enabled(y, e)
  {
    e.DropGuard? && y.guards[e.g] == id
  }

  predicate Shows(y: System, e: Step, id: Id) {
    e.OpenGuard? && e.id == id && id in y.clients
  }

  /** A client is shown after a step exactly when the step opens a socket for its record,
      or it was shown and the step closes no socket of the id. */
  lemma ShownStep(y: System, e: Step, id: Id)
    requires Inv(y) && Enabled(y, e)
    ensures Shown(Next(y, e), id) <==> Shows(y, e, id) || (Shown(y, id) && !Hides(y, e, id))
  {
    if Shown(y, id) { OnlyDropsDisconnect(y, e, id); }
  }

  /** The i-th step opened a socket for the client's record, and no step since has closed
      a socket of the id. */
  ghost predicate ShownSince(y: System, steps: seq<Step>, id: Id, i: nat) {
    && Runs(y, steps) && i < |steps|
    && Runs(y, steps[..i]) && Shows(After(y, steps[..i]), steps[i], id)
    && forall j :: i < j < |steps| ==> KeepsShown(y, steps, id, j)
  }

  ghost predicate KeepsShown(y: System, steps: seq<Step>, id: Id, j: nat) {
    && j < |steps| && Runs(y, steps[..j]) && Enabled(After(y, steps[..j]), steps[j])
    && !Hides(After(y, steps[..j]), steps[j], id)
  }

  lemma {:induction false} RunLast(y: System, steps: seq<Step>, e: Step)
    requires Runs(y, steps + [e])
    ensures Runs(y, steps) && Enabled(After(y, steps), e)
    ensures After(y, steps + [e]) == Next(After(y, steps), e)
    decreases |steps|
  {
    if steps == [] {
      assert steps + [e] == [e] && [e][1..] == [];
    } else {
      assert (steps + [e])[0] == steps[0] && (steps + [e])[1..] == steps[1..] + [e];
      RunLast(Next(y, steps[0]), steps[1..], e);
    }
  }

  /** Over whole runs: a client is shown exactly when a socket was opened for its record
      and since then no socket of its id has been closed, although others may be open. */
  lemma {:induction false} ShownExactly(steps: seq<Step>, id: Id)
    requires Runs(START, steps)
    ensures Shown(After(START, steps), id) <==> exists i: nat :: ShownSince(START, steps, id, i)
    decreases |steps|
  {
    if steps != [] {
      var k := |steps| - 1;
      var before, e := steps[..k], steps[k];
      assert steps == before + [e];
      RunLast(START, before, e);
      RunKeeps(START, before);
      ShownStep(After(START, before), e, id);
      ShownExactly(before, id);
      ShownLast(steps, before, e, id);
    }
  }

  lemma ShownLast(steps: seq<Step>, before: seq<Step>, e: Step, id: Id)
    requires steps == before + [e] && Runs(START, steps) && Runs(START, before) && Enabled(After(START, before), e)
    ensures (exists i: nat :: ShownSince(START, steps, id, i)) <==>
      Shows(After(START, before), e, id)
      || ((exists i: nat :: ShownSince(START, before, id, i)) && !Hides(After(START, before), e, id))
  {
    var y, k := START, |before|;
    assert steps[..k] == before && steps[k] == e;
    forall j: nat | j < k ensures steps[..j] == before[..j] && steps[j] == before[j] {}
    forall j: nat | j < k ensures KeepsShown(y, steps, id, j) <==> KeepsShown(y, before, id, j) {
      assert steps[..j] == before[..j] && steps[j] == before[j];
    }
    assert KeepsShown(y, steps, id, k) <==> !Hides(After(y, before), e, id);
    forall i: nat | i < k
      ensures ShownSince(y, steps, id, i) <==> ShownSince(y, before, id, i) && !Hides(After(y, before), e, id)
    {
      LastOfSince(steps, before, e, id, i);
    }
    assert ShownSince(y, steps, id, k) <==> Shows(After(y, before), e, id);
  }

  lemma LastOfSince(steps: seq<Step>, before: seq<Step>, e: Step, id: Id, i: nat)
    requires steps == before + [e] && Runs(START, steps) && Runs(START, before) && Enabled(After(START, before), e)
    requires i < |before|
    ensures ShownSince(START, steps, id, i) <==> ShownSince(START, before, id, i) && !Hides(After(START, before), e, id)
  {
    var y, k := START, |before|;
    assert steps[..k] == before && steps[k] == e && steps[..i] == before[..i] && steps[i] == before[i];
    forall j: nat | j < k ensures KeepsShown(y, steps, id, j) <==> KeepsShown(y, before, id, j) {
      assert steps[..j] == before[..j] && steps[j] == before[j];
    }
    assert KeepsShown(y, steps, id, k) <==> !Hides(After(y, before), e, id);
  }

  /** Once a socket of a client is closed, the client is never shown again under its id,
      whatever other sockets it has or opens. */
  lemma ClosedForGood(before: seq<Step>, g: nat, later: seq<Step>)
    requires Runs(START, before) && g in After(START, before).guards
    requires After(START, before).guards[g] in After(START, before).clients
    requires Runs(Next(After(START, before), DropGuard(g)), later)
    ensures var y := After(START, before);
      y.guards[g] !in After(Next(y, DropGuard(g)), later).clients
  {
    RunKeeps(START, before);
    var y := After(START, before);
    NextNoPhantom(y, DropGuard(g));
    NextIdsApart(y, DropGuard(g));
    RunKeeps(Next(y, DropGuard(g)), later);
  }

  /** Such a client may well have an open socket: two are opened for one record, and the
      first is closed. */
  lemma LiveButNotShown()
    ensures exists steps: seq<Step> ::
      && Runs(START, steps)
      && HasGuard(After(START, steps), 0) && 0 in After(START, steps).gone && !Shown(After(START, steps), 0)
  {
    var info := Handshake(None, None, None, None, false, None);
    var y1 := Next(START, TakeId(0));
    var y2 := Next(y1, Record(0, info, "", 0));
    var y3 := Next(y2, OpenGuard(0, 0, 0));
    var y4 := Next(y3, OpenGuard(1, 0, 0));
    var y5 := Next(y4, DropGuard(0));
    var steps := [TakeId(0), Record(0, info, "", 0), OpenGuard(0, 0, 0), OpenGuard(1, 0, 0), DropGuard(0)];
    RunFirst(y4, steps[4..]);
    RunFirst(y3, steps[3..]);
    RunFirst(y2, steps[2..]);
    RunFirst(y1, steps[1..]);
    RunFirst(START, steps);
    assert After(START, steps) == y5;
    assert y5.guards[1] == 0;
  }

  lemma RunFirst(y: System, steps: seq<Step>)
    requires steps != [] && Enabled(y, steps[0])
    ensures Runs(y, steps) <==> Runs(Next(y, steps[0]), steps[1..])
    ensures Runs(y, steps) ==> After(y, steps) == After(Next(y, steps[0]), steps[1..])
  {
  }

  // ----- probes -----

  /** A probe or a verdict of a place, or a listing, which prunes as well. */
  datatype Look = Probe(key: ProbeKey, now: nat) | Listing(now: nat)

  /** A probe makes room for its place and then edits that entry alone. */
  ghost predicate Looked(before: Probes, l: Look, after: Probes) {
    match l
    case Probe(key, now) =>
      exists room: Probes :: RoomMade(before, key, now, room)
        && after.Keys == room.Keys && forall j :: j in room && j != key ==> after[j] == room[j]
    case Listing(now) => after == Unexpired(before, now)
  }

  ghost predicate LookRun(tables: seq<Probes>, looks: seq<Look>) {
    && |tables| == |looks| + 1 && tables[0] == map[]
    && forall i :: 0 <= i < |looks| ==> Looked(tables[i], looks[i], tables[i + 1])
  }

  /** Nothing that is unexpired is forgotten, or changed by another place. */
  ghost predicate Remembers(before: Probes, l: Look, after: Probes) {
    forall j :: j in Unexpired(before, l.now) ==>
      j in after && ((l.Probe? ==> j != l.key) ==> after[j] == before[j])
  }

  lemma {:induction false} TableBounded(tables: seq<Probes>, looks: seq<Look>, places: set<ProbeKey>, i: nat)
    requires LookRun(tables, looks) && i < |tables|
    requires forall l :: l in looks && l.Probe? ==> l.key in places
    ensures |tables[i]| <= MAX_PROBES && tables[i].Keys <= places
    decreases i
  {
    if i > 0 {
      TableBounded(tables, looks, places, i - 1);
      assert looks[i - 1] in looks;
      LookBounded(tables[i - 1], looks[i - 1], tables[i], places);
    }
  }

  /** The probe table never exceeds its bound, and as long as no more places than fit
      look at the server, it remembers all that is unexpired. */
  lemma ProbesBounded(tables: seq<Probes>, looks: seq<Look>, places: set<ProbeKey>, i: nat)
    requires LookRun(tables, looks) && i < |tables|
    requires forall l :: l in looks && l.Probe? ==> l.key in places
    ensures |tables[i]| <= MAX_PROBES && tables[i].Keys <= places
    ensures |places| <= MAX_PROBES && i < |looks| ==> Remembers(tables[i], looks[i], tables[i + 1])
  {
    TableBounded(tables, looks, places, i);
    if |places| <= MAX_PROBES && i < |looks| {
      assert looks[i] in looks;
      NothingForgotten(tables[i], looks[i], tables[i + 1], places);
    }
  }

  lemma LookBounded(before: Probes, l: Look, after: Probes, places: set<ProbeKey>)
    requires Looked(before, l, after) && |before| <= MAX_PROBES && before.Keys <= places
      && (l.Probe? ==> l.key in places)
    ensures |after| <= MAX_PROBES && after.Keys <= places
  {
    if l.Probe? {
      var room: Probes :| RoomMade(before, l.key, l.now, room) && after.Keys == room.Keys
        && forall j :: j in room && j != l.key ==> after[j] == room[j];
      RoomBounded(before, l.key, l.now, room);
      assert |after| == |after.Keys| == |room.Keys|;
    } else {
      SubsetSize(after.Keys, before.Keys);
    }
  }

  lemma NothingForgotten(before: Probes, l: Look, after: Probes, places: set<ProbeKey>)
    requires Looked(before, l, after) && before.Keys <= places && (l.Probe? ==> l.key in places)
    requires |places| <= MAX_PROBES
    ensures Remembers(before, l, after)
  {
    if l.Probe? {
      var kept := Unexpired(before, l.now);
      var room: Probes :| RoomMade(before, l.key, l.now, room) && after.Keys == room.Keys
        && forall j :: j in room && j != l.key ==> after[j] == room[j];
      if l.key !in kept {
        SubsetSize(kept.Keys + {l.key}, places);
        assert |kept.Keys + {l.key}| == |kept.Keys| + 1;
      }
    }
  }
}
