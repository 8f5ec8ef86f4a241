/** The registry of attached clients and of discovery probes
    (src/client_registry.rs). Clock readings are parameters. */
module ClientRegistries {
  import opened Basics

  type Id = nat

  /** What a client said about itself, kept as it came. */
  datatype Handshake = Handshake(
    placeId: Option<nat>,
    gameId: Option<nat>,
    clientName: Option<string>,
    clientVersion: Option<string>,
    autoConnected: bool,
    matchReason: Option<string>)

  datatype ClientInfo = ClientInfo(
    id: Id,
    handshake: Handshake,
    clientName: string,
    remoteAddr: string,
    connectedAt: nat,
    lastSeen: nat,
    subscribed: bool)

  type Clients = map<Id, ClientInfo>

  const UNSUBSCRIBED_TTL: nat := 60
  const PROBE_TTL: nat := 600
  const MAX_PROBES: nat := 16
  const MAX_REASON_CHARS: nat := 500
  const MAX_FIELD_CHARS: nat := 64

  function SaturatingSub(a: nat, b: nat): (r: nat)
    ensures r == 0 <==> a <= b
    ensures a >= b ==> r + b == a
  {
    if a < b then 0 else a - b
  }

  // ----- clients -----

  predicate IsStale(c: ClientInfo, now: nat) {
    !c.subscribed && SaturatingSub(now, c.lastSeen) >= UNSUBSCRIBED_TTL
  }

  function Pruned(clients: Clients, now: nat): (r: Clients) {
    map id | id in clients && !IsStale(clients[id], now) :: clients[id]
  }

  function NewClient(id: Id, h: Handshake, addr: string, now: nat): (r: ClientInfo) {
    ClientInfo(id, h, if h.clientName.Some? then h.clientName.value else "unknown", addr, now, now, false)
  }

  /** `set_subscribed`: without a record nothing happens. */
  function Subscribed(clients: Clients, id: Id, subscribed: bool, now: nat): (r: Clients) {
    if id in clients then clients[id := clients[id].(subscribed := subscribed, lastSeen := now)] else clients
  }

  function Touched(clients: Clients, id: Id, now: nat): (r: Clients) {
    if id in clients then clients[id := clients[id].(lastSeen := now)] else clients
  }

  ghost function SubscribedIds(clients: Clients): (r: set<Id>) {
    set id | id in clients && clients[id].subscribed
  }

  // ----- probes -----

  type ProbeKey = (Option<nat>, Option<nat>)

  datatype Verdict = Verdict(outcome: string, code: Option<string>, reason: string, ports: seq<nat>, reportedAt: nat)

  datatype ProbeInfo = ProbeInfo(
    placeId: Option<nat>,
    gameId: Option<nat>,
    clientVersion: Option<string>,
    remoteAddr: string,
    firstProbeAt: nat,
    lastProbeAt: nat,
    probeCount: nat,
    verdict: Option<Verdict>)

  datatype Report = Report(placeId: Option<nat>, gameId: Option<nat>, outcome: string, code: Option<string>,
      reason: string, ports: seq<nat>)

  type Probes = map<ProbeKey, ProbeInfo>

  function Clip(text: string, max: nat): (r: string)
    ensures r <= text && |r| == if |text| <= max then |text| else max
  {
    if |text| <= max then text else text[..max]
  }

  /** When a place was last heard of, by a probe or by a verdict. */
  function LastHeard(p: ProbeInfo): (r: nat) {
    if p.verdict.Some? && p.verdict.value.reportedAt > p.lastProbeAt then p.verdict.value.reportedAt else p.lastProbeAt
  }

  predicate IsExpired(p: ProbeInfo, now: nat) {
    SaturatingSub(now, LastHeard(p)) >= PROBE_TTL
  }

  function Unexpired(probes: Probes, now: nat): (r: Probes) {
    map k | k in probes && !IsExpired(probes[k], now) :: probes[k]
  }

  function NewProbe(k: ProbeKey, now: nat): (r: ProbeInfo) {
    ProbeInfo(k.0, k.1, None, "", now, now, 0, None)
  }

  /** Is this one of the entries with the oldest last probe? */
  ghost predicate IsOldest(probes: Probes, k: ProbeKey) {
    k in probes && forall j :: j in probes ==> probes[k].lastProbeAt <= probes[j].lastProbeAt
  }

  /** Making room for `key`: expired entries go, and when a new key finds the table
      full, one oldest entry goes as well; the rest is untouched. */
  ghost predicate RoomMade(before: Probes, key: ProbeKey, now: nat, after: Probes) {
    var kept := Unexpired(before, now);
    && (forall j :: j in kept && (key in kept || |kept| < MAX_PROBES) ==> j in after)
    && (forall j :: j in after && j != key ==> j in kept && after[j] == kept[j])
    && key in after && after[key] == (if key in kept then kept[key] else NewProbe(key, now))
    && (key !in kept && |kept| >= MAX_PROBES ==>
          exists v :: IsOldest(kept, v) && forall j :: j in kept ==> (j in after <==> j != v))
  }

  lemma RoomIsMade(before: Probes, kept: Probes, key: ProbeKey, now: nat, after: Probes)
    requires kept == Unexpired(before, now)
    requires
      if key in kept then after == kept
      else if |kept| < MAX_PROBES then after == kept[key := NewProbe(key, now)]
      else exists v :: IsOldest(kept, v) && after == (kept - {v})[key := NewProbe(key, now)]
    ensures RoomMade(before, key, now, after)
  {
    if key !in kept && |kept| >= MAX_PROBES {
      var v :| IsOldest(kept, v) && after == (kept - {v})[key := NewProbe(key, now)];
      assert forall j :: j in kept ==> (j in after <==> j != v);
    }
  }

  lemma RoomBounded(before: Probes, key: ProbeKey, now: nat, after: Probes)
    requires RoomMade(before, key, now, after) && |before| <= MAX_PROBES
    ensures |after| <= MAX_PROBES
  {
    var kept := Unexpired(before, now);
    assert kept.Keys <= before.Keys;
    SubsetSize(kept.Keys, before.Keys);
    if key in kept {
      SubsetSize(after.Keys, kept.Keys);
    } else if |kept| < MAX_PROBES {
      SubsetSize(after.Keys, kept.Keys + {key});
    } else {
      var v :| IsOldest(kept, v) && forall j :: j in kept ==> (j in after <==> j != v);
      assert v in kept.Keys;
      SubsetSize(after.Keys, (kept.Keys - {v}) + {key});
    }
  }

  lemma {:induction false} SubsetSize<T>(a: set<T>, b: set<T>)
    requires a <= b
    ensures |a| <= |b|
  {
    if a != {} {
      var x :| x in a;
      SubsetSize(a - {x}, b - {x});
    }
  }

  function ProbedEntry(p: ProbeInfo, h: Handshake, addr: string, now: nat): (r: ProbeInfo) {
    p.(lastProbeAt := now, probeCount := p.probeCount + 1, remoteAddr := addr,
       clientVersion := if h.clientVersion.Some? then Some(Clip(h.clientVersion.value, MAX_FIELD_CHARS))
         else p.clientVersion)
  }

  /** The address of a verdict only counts when no probe gave one. */
  function JudgedEntry(p: ProbeInfo, report: Report, addr: string, now: nat): (r: ProbeInfo) {
    p.(verdict := Some(ClippedVerdict(report, now)), remoteAddr := if p.remoteAddr == "" then addr else p.remoteAddr)
  }

  // ----- spelled out -----

  /** Heard of within the last ten minutes, by a probe or by a verdict. */
  predicate HeardLately(p: ProbeInfo, now: nat) {
    now < p.lastProbeAt + 600 || (p.verdict.Some? && now < p.verdict.value.reportedAt + 600)
  }

  ghost function Lately(probes: Probes, now: nat): (r: set<ProbeKey>) {
    set k | k in probes && HeardLately(probes[k], now)
  }

  lemma LatelyExactly(probes: Probes, now: nat)
    ensures Unexpired(probes, now).Keys == Lately(probes, now)
  {
  }

  /** The place has its entry, or a new one; whatever else the table holds was heard of
      lately and is as before. */
  ghost predicate HasPlace(before: Probes, key: ProbeKey, now: nat, after: Probes) {
    && key in after
    && (key in Lately(before, now) ==> after[key] == before[key])
    && (key !in Lately(before, now) ==> after[key] == ProbeInfo(key.0, key.1, None, "", now, now, 0, None))
    && (forall j :: j in after && j != key ==> j in Lately(before, now) && after[j] == before[j])
  }

  /** What making room comes to. While there are less than sixteen others, nothing that
      was heard of lately goes; otherwise a new place costs the one place whose last probe
      is the oldest. */
  lemma RoomSpelledOut(before: Probes, key: ProbeKey, now: nat, after: Probes)
    requires RoomMade(before, key, now, after)
    ensures HasPlace(before, key, now, after)
    ensures var lately := Lately(before, now);
      && (key in lately || |lately| < 16 ==> forall j :: j in lately ==> j in after)
      && (key !in lately && |lately| >= 16 ==>
            exists v :: v in lately && (forall j :: j in lately ==> before[v].lastProbeAt <= before[j].lastProbeAt)
                        && forall j :: j in lately ==> (j in after <==> j != v))
      && (|before| <= 16 ==> |after| <= 16)
  {
    if |before| <= 16 { RoomBounded(before, key, now, after); }
    var kept, lately := Unexpired(before, now), Lately(before, now);
    LatelyExactly(before, now);
    if key !in lately && |lately| >= 16 {
      var v :| IsOldest(kept, v) && forall j :: j in kept ==> (j in after <==> j != v);
      assert v in lately && forall j :: j in lately ==> before[v].lastProbeAt <= before[j].lastProbeAt;
    }
  }

  lemma RoomReady(before: Probes, kept: Probes, key: ProbeKey, now: nat, after: Probes)
    requires kept == Unexpired(before, now) && |before| <= MAX_PROBES
    requires
      if key in kept then after == kept
      else if |kept| < MAX_PROBES then after == kept[key := NewProbe(key, now)]
      else exists v :: IsOldest(kept, v) && after == (kept - {v})[key := NewProbe(key, now)]
    ensures RoomMade(before, key, now, after) && HasPlace(before, key, now, after) && |after| <= MAX_PROBES
  {
    RoomIsMade(before, kept, key, now, after);
    RoomBounded(before, key, now, after);
    RoomSpelledOut(before, key, now, after);
  }

  /** The entry of a place after a probe: one more probe, at this time and from this
      address, counted from one when the place was not heard of lately. */
  ghost predicate Probed(before: Probes, key: ProbeKey, h: Handshake, addr: string, now: nat, p: ProbeInfo) {
    && p.lastProbeAt == now && p.remoteAddr == addr
    && (if key in Lately(before, now)
        then p == before[key].(lastProbeAt := now, probeCount := before[key].probeCount + 1, remoteAddr := addr,
                               clientVersion := p.clientVersion)
        else p.probeCount == 1 && p.firstProbeAt == now && (p.placeId, p.gameId) == key && p.verdict == None)
    && (if h.clientVersion.Some?
        then p.clientVersion.Some? && FirstOf(p.clientVersion.value, h.clientVersion.value, 64)
        else p.clientVersion == if key in Lately(before, now) then before[key].clientVersion else None)
  }

  /** The entry of a place after a verdict, which is stored with this time and clipped
      texts; probes are not counted, and an address is only taken when there was none. */
  ghost predicate Judged(before: Probes, key: ProbeKey, report: Report, addr: string, now: nat, p: ProbeInfo) {
    && (if key in Lately(before, now)
        then p == before[key].(verdict := p.verdict, remoteAddr := p.remoteAddr)
          && p.remoteAddr == if before[key].remoteAddr == "" then addr else before[key].remoteAddr
        else p == ProbeInfo(key.0, key.1, None, addr, now, now, 0, p.verdict))
    && p.verdict.Some? && p.verdict.value.reportedAt == now
    && FirstOf(p.verdict.value.outcome, report.outcome, 64) && FirstOf(p.verdict.value.reason, report.reason, 500)
    && (report.code.None? <==> p.verdict.value.code.None?)
    && (report.code.Some? && p.verdict.value.code.Some? ==>
          FirstOf(p.verdict.value.code.value, report.code.value, 64))
    && p.verdict.value.ports <= report.ports
    && |p.verdict.value.ports| == if |report.ports| <= 16 then |report.ports| else 16
  }

  /** The first so many characters of a text, or all of it. */
  ghost predicate FirstOf(r: string, text: string, max: nat) {
    |r| == (if |text| <= max then |text| else max) && r == text[..|r|]
  }

  lemma EntriesHold(before: Probes, key: ProbeKey, now: nat, room: Probes)
    requires HasPlace(before, key, now, room)
    ensures forall h, addr :: Probed(before, key, h, addr, now, ProbedEntry(room[key], h, addr, now))
    ensures forall report, addr :: Judged(before, key, report, addr, now, JudgedEntry(room[key], report, addr, now))
  {
  }

  class ClientRegistry {
    var clients: Clients
    var nextId: nat
    var probes: Probes

    ghost predicate Valid()
      reads this
    {
      && (forall id :: id in clients ==> id < nextId && clients[id].id == id)
      && |probes| <= MAX_PROBES
    }

    constructor ()
      ensures Valid() && clients == map[] && nextId == 0 && probes == map[]
    {
      clients, nextId, probes := map[], 0, map[];
    }

    /** Ids are handed out in order, so none is handed out twice. */
    method AddHandshake(h: Handshake, addr: string, now: nat) returns (id: Id)
      requires Valid()
      modifies this
      ensures Valid() && id == old(nextId) && nextId == id + 1 && id !in old(clients)
      ensures clients == Pruned(old(clients), now)[id := NewClient(id, h, addr, now)] && probes == old(probes)
      ensures clients[id].handshake == h && clients[id].remoteAddr == addr && !clients[id].subscribed
      ensures clients[id].connectedAt == now && clients[id].lastSeen == now
      ensures if h.clientName.Some? then clients[id].clientName == h.clientName.value
              else clients[id].clientName == "unknown"
    {
      PruneStale(now);
      id := nextId;
      nextId := nextId + 1;
      clients := clients[id := NewClient(id, h, addr, now)];
    }

    /** The record of the id, if there is one, is marked and seen; no other changes, and
        none is made. */
    method SetSubscribed(id: Id, subscribed: bool, now: nat)
      requires Valid()
      modifies this`clients
      ensures Valid() && clients == Subscribed(old(clients), id, subscribed, now)
      ensures clients.Keys == old(clients).Keys
      ensures forall j :: j in clients && j != id ==> clients[j] == old(clients)[j]
      ensures id in clients ==> clients[id].subscribed == subscribed && clients[id].lastSeen == now
      ensures SubscribedIds(clients) ==
        if id !in old(clients) then SubscribedIds(old(clients))
        else if subscribed then SubscribedIds(old(clients)) + {id} else SubscribedIds(old(clients)) - {id}
    {
      if id in clients {
        clients := clients[id := clients[id].(subscribed := subscribed, lastSeen := now)];
      }
    }

    method Touch(id: Id, now: nat)
      requires Valid()
      modifies this`clients
      ensures Valid() && clients == Touched(old(clients), id, now)
      ensures clients.Keys == old(clients).Keys && forall j :: j in clients && j != id ==> clients[j] == old(clients)[j]
      ensures id in clients ==> clients[id] == old(clients)[id].(lastSeen := now)
    {
      if id in clients {
        clients := clients[id := clients[id].(lastSeen := now)];
      }
    }

    method Remove(id: Id)
      requires Valid()
      modifies this`clients
      ensures Valid() && clients == old(clients) - {id}
    {
      clients := clients - {id};
    }

    /** Drops exactly the unsubscribed records unseen for a minute. */
    method PruneStale(now: nat)
      requires Valid()
      modifies this`clients
      ensures Valid() && clients == Pruned(old(clients), now)
      ensures forall id :: id in clients <==>
        id in old(clients) && (old(clients)[id].subscribed || now < old(clients)[id].lastSeen + 60)
      ensures forall id :: id in clients ==> clients[id] == old(clients)[id]
    {
      var todo := clients.Keys;
      ghost var before := clients;
      while todo != {}
        invariant todo <= before.Keys
        invariant forall id :: id in clients <==> id in before && (id in todo || !IsStale(before[id], now))
        invariant forall id :: id in clients ==> clients[id] == before[id]
        decreases todo
      {
        var id :| id in todo;
        if !(clients[id].subscribed || SaturatingSub(now, clients[id].lastSeen) < UNSUBSCRIBED_TTL) {
          clients := clients - {id};
        }
        todo := todo - {id};
      }
    }

    method SubscribedCount() returns (n: nat)
      ensures n == |SubscribedIds(clients)|
    {
      n := 0;
      var todo := clients.Keys;
      ghost var counted: set<Id> := {};
      while todo != {}
        invariant todo <= clients.Keys && n == |counted|
        invariant forall id :: id in counted <==> id in clients && clients[id].subscribed && id !in todo
        decreases todo
      {
        var id :| id in todo;
        if clients[id].subscribed {
          n := n + 1;
          counted := counted + {id};
        }
        todo := todo - {id};
      }
      assert counted == SubscribedIds(clients);
    }

    method PruneProbes(now: nat)
      modifies this`probes
      ensures probes == Unexpired(old(probes), now)
      ensures probes.Keys == Lately(old(probes), now) && forall k :: k in probes ==> probes[k] == old(probes)[k]
    {
      var todo := probes.Keys;
      ghost var before := probes;
      while todo != {}
        invariant todo <= before.Keys
        invariant forall k :: k in probes <==> k in before && (k in todo || !IsExpired(before[k], now))
        invariant forall k :: k in probes ==> probes[k] == before[k]
        decreases todo
      {
        var k :| k in todo;
        if !(SaturatingSub(now, LastHeard(probes[k])) < PROBE_TTL) {
          probes := probes - {k};
        }
        todo := todo - {k};
      }
    }

    method FindOldest() returns (oldest: ProbeKey)
      requires |probes| > 0
      ensures IsOldest(probes, oldest)
    {
      assert probes.Keys != {};
      oldest :| oldest in probes;
      var todo := probes.Keys;
      while todo != {}
        invariant todo <= probes.Keys && oldest in probes
        invariant forall j :: j in probes && j !in todo ==> probes[oldest].lastProbeAt <= probes[j].lastProbeAt
        decreases todo
      {
        var k :| k in todo;
        if probes[k].lastProbeAt < probes[oldest].lastProbeAt {
          oldest := k;
        }
        todo := todo - {k};
      }
    }

    /** The entry for a place, made if there is none. */
    method ProbeEntry(key: ProbeKey, now: nat)
      requires Valid()
      modifies this`probes
      ensures Valid() && RoomMade(old(probes), key, now, probes)
      ensures HasPlace(old(probes), key, now, probes)
    {
      ghost var before := probes;
      PruneProbes(now);
      ghost var kept := probes;
      if key !in probes && |probes| >= MAX_PROBES {
        var oldest := FindOldest();
        probes := probes - {oldest};
      }
      if key !in probes {
        probes := probes[key := NewProbe(key, now)];
      }
      RoomReady(before, kept, key, now, probes);
    }

    method RecordProbe(h: Handshake, addr: string, now: nat)
      requires Valid()
      modifies this`probes
      ensures Valid()
      ensures var key := (h.placeId, h.gameId); exists room: Probes ::
        RoomMade(old(probes), key, now, room) && probes == room[key := ProbedEntry(room[key], h, addr, now)]
      ensures var key := (h.placeId, h.gameId); key in probes && Probed(old(probes), key, h, addr, now, probes[key])
    {
      var key := (h.placeId, h.gameId);
      ProbeEntry(key, now);
      ghost var room := probes;
      var entry := probes[key];
      entry := entry.(lastProbeAt := now, probeCount := entry.probeCount + 1, remoteAddr := addr);
      if h.clientVersion.Some? {
        entry := entry.(clientVersion := Some(Clip(h.clientVersion.value, MAX_FIELD_CHARS)));
      }
      EntriesHold(old(probes), key, now, room);
      probes := probes[key := entry];
      assert probes.Keys == room.Keys && |probes| == |probes.Keys| == |room.Keys| == |room|;
    }

    method RecordProbeVerdict(report: Report, addr: string, now: nat)
      requires Valid()
      modifies this`probes
      ensures Valid()
      ensures var key := (report.placeId, report.gameId); exists room: Probes ::
        RoomMade(old(probes), key, now, room) && probes == room[key := JudgedEntry(room[key], report, addr, now)]
      ensures var key := (report.placeId, report.gameId);
        key in probes && Judged(old(probes), key, report, addr, now, probes[key])
    {
      var key := (report.placeId, report.gameId);
      ProbeEntry(key, now);
      ghost var room := probes;
      var entry := probes[key];
      if entry.remoteAddr == "" {
        entry := entry.(remoteAddr := addr);
      }
      entry := entry.(verdict := Some(ClippedVerdict(report, now)));
      EntriesHold(old(probes), key, now, room);
      probes := probes[key := entry];
      assert probes.Keys == room.Keys && |probes| == |probes.Keys| == |room.Keys| == |room|;
    }
  }

  function ClippedVerdict(report: Report, now: nat): (r: Verdict) {
    Verdict(
      Clip(report.outcome, MAX_FIELD_CHARS),
      if report.code.Some? then Some(Clip(report.code.value, MAX_FIELD_CHARS)) else None,
      Clip(report.reason, MAX_REASON_CHARS),
      if |report.ports| <= MAX_PROBES then report.ports else report.ports[..MAX_PROBES],
      now)
  }
}
