/** Messages that are composed when they are sent, from the tree as it is by then, for
    a client whose copy may already contain what it is told (src/web/api.rs,
    src/web/interface.rs). */
module Delivery {
  import opened Basics
  import opened Values
  import opened TreeModel
  import opened PatchPlan
  import opened PatchEffect
  import opened EffectFacts
  import opened FinalTree
  import opened Replica

  // ----- copies -----

  /** Ids are below `n`, and parents are older than their children and present. */
  ghost predicate Grounded(c: Copy, n: Ref) {
    forall x :: x in c ==> 0 < x < n && (c[x].parent == NO_REF || (c[x].parent < x && c[x].parent in c))
  }

  // ----- dropping -----

  /** What is dropped is what lies below a removed instance. */
  lemma {:induction false} DropAllEffect(c: Copy, removed: seq<Ref>)
    ensures forall x :: x in DropAll(c, removed) <==> x in c && forall r :: r in removed ==> !Below(c, x, r)
    ensures forall x :: x in DropAll(c, removed) ==> DropAll(c, removed)[x] == c[x]
    decreases |removed|
  {
    if removed != [] {
      var d := DropBelow(c, removed[0]);
      DropAllEffect(d, removed[1..]);
      assert removed[0] in removed;
      forall x ensures x in DropAll(c, removed) <==> x in c && forall r :: r in removed ==> !Below(c, x, r) {
        if x in d {
          forall r ensures Below(d, x, r) <==> Below(c, x, r) { BelowAfterDrop(c, removed[0], x, r); }
        }
        assert forall r :: r in removed <==> r == removed[0] || r in removed[1..];
      }
    }
  }

  lemma {:induction false} BelowAfterDrop(c: Copy, gone: Ref, x: Ref, r: Ref)
    requires x in DropBelow(c, gone)
    ensures Below(DropBelow(c, gone), x, r) <==> Below(c, x, r)
    decreases x
  {
    if x != r && c[x].parent < x && c[x].parent in c { BelowAfterDrop(c, gone, c[x].parent, r); }
  }

  // ----- one message, instance by instance -----

  ghost predicate Survives(c: Copy, x: Ref, removed: seq<Ref>) {
    x in c && forall r :: r in removed ==> !Below(c, x, r)
  }

  /** A record after the updates that name it. */
  function ChangedBy(w: Wire, us: seq<WireUpdate>, x: Ref): (r: Wire)
    ensures r.parent == w.parent
    ensures (forall u :: u in us ==> u.id != x) ==> r == w
    decreases |us|
  {
    if us == [] then w
    else ChangedBy(if us[0].id == x then ChangedWire(w, us[0]) else w, us[1..], x)
  }

  lemma {:induction false} ChangeAllAt(c: Copy, us: seq<WireUpdate>, x: Ref)
    ensures x in ChangeAll(c, us) <==> x in c
    ensures x in c ==> ChangeAll(c, us)[x] == ChangedBy(c[x], us, x)
    decreases |us|
  {
    if us != [] {
      ChangeAllAt(if us[0].id in c then c[us[0].id := ChangedWire(c[us[0].id], us[0])] else c, us[1..], x);
    }
  }

  lemma ReplayAt(c: Copy, m: Message, x: Ref)
    ensures x in Replay(c, m) <==> x in m.added || Survives(c, x, m.removed)
    ensures x in m.added ==> Replay(c, m)[x] == ChangedBy(m.added[x], m.updated, x)
    ensures x !in m.added && Survives(c, x, m.removed) ==> Replay(c, m)[x] == ChangedBy(c[x], m.updated, x)
  {
    DropAllEffect(c, m.removed);
    ChangeAllAt(DropAll(c, m.removed) + m.added, m.updated, x);
  }

  // ----- a history of copies -----

  /** What a patch says on the wire, but for the records of what it adds. */
  datatype Turn = Turn(removed: seq<Ref>, updated: seq<WireUpdate>)

  /** One turn leads from `c` to `c'`; ids from `n` on are new with it. */
  ghost predicate Advances(c: Copy, n: Ref, turn: Turn, c': Copy, n': Ref) {
    && Grounded(c, n) && Grounded(c', n') && n <= n'
    && (forall r :: r in turn.removed ==> r in c)
    && (forall u :: u in turn.updated ==> u.id in c && u.id in c')
    && (forall x: Ref :: x in c' <==> Survives(c, x, turn.removed) || n <= x < n')
    && (forall x :: x in c && x in c' ==> c'[x] == ChangedBy(c[x], turn.updated, x))
  }

  /** The right copies between the turns, each with the bound of its ids. */
  datatype History = History(copies: seq<Copy>, bounds: seq<Ref>, turns: seq<Turn>)

  ghost predicate AdvancesAt(h: History, i: nat) {
    && |h.copies| == |h.bounds| == |h.turns| + 1 && i < |h.turns|
    && Advances(h.copies[i], h.bounds[i], h.turns[i], h.copies[i + 1], h.bounds[i + 1])
  }

  ghost predicate Recorded(h: History) {
    && |h.copies| == |h.bounds| == |h.turns| + 1
    && Grounded(h.copies[0], h.bounds[0])
    && forall i {:trigger AdvancesAt(h, i)} :: 0 <= i < |h.turns| ==> AdvancesAt(h, i)
  }

  ghost predicate Has(h: History, i: nat, x: Ref) {
    i < |h.copies| && x in h.copies[i]
  }

  lemma GroundedAt(h: History, i: nat)
    requires Recorded(h) && i < |h.copies|
    ensures i < |h.bounds| && Grounded(h.copies[i], h.bounds[i])
  {
    if i > 0 { assert AdvancesAt(h, i - 1); }
  }

  /** What a later copy has of the old instances was there all the time, at its place. */
  lemma {:induction false} StaysUntil(h: History, i: nat, j: nat, x: Ref)
    requires Recorded(h) && i <= j < |h.copies| && x in h.copies[j] && x < h.bounds[i]
    ensures x in h.copies[i] && h.copies[i][x].parent == h.copies[j][x].parent
    decreases j - i
  {
    if i < j {
      assert AdvancesAt(h, i);
      StaysUntil(h, i + 1, j, x);
    }
  }

  lemma BetweenTwo(h: History, i: nat, j: nat, m: nat, x: Ref)
    requires Recorded(h) && i <= j <= m && Has(h, i, x) && Has(h, m, x)
    ensures Has(h, j, x)
  {
    GroundedAt(h, i);
    BoundsGrow(h, i, j);
    StaysUntil(h, j, m, x);
  }

  lemma {:induction false} BoundsGrow(h: History, i: nat, j: nat)
    requires Recorded(h) && i <= j < |h.copies|
    ensures h.bounds[i] <= h.bounds[j]
    decreases j - i
  {
    if i < j {
      assert AdvancesAt(h, i);
      BoundsGrow(h, i + 1, j);
    }
  }

  /** An instance keeps its parent. */
  lemma SameParent(h: History, i: nat, j: nat, x: Ref)
    requires Recorded(h) && Has(h, i, x) && Has(h, j, x)
    ensures h.copies[i][x].parent == h.copies[j][x].parent
  {
    GroundedAt(h, i);
    GroundedAt(h, j);
    if i <= j { StaysUntil(h, i, j, x); } else { StaysUntil(h, j, i, x); }
  }

  /** Removed instances do not come back. */
  lemma GoneForGood(h: History, i: nat, m: nat, r: Ref)
    requires Recorded(h) && i < |h.turns| && r in h.turns[i].removed && i < m
    ensures !Has(h, m, r)
  {
    assert AdvancesAt(h, i);
    assert Below(h.copies[i], r, r);
    GroundedAt(h, i);
    if Has(h, m, r) {
      BoundsGrow(h, i, i + 1);
      StaysUntil(h, i + 1, m, r);
    }
  }

  // ----- fields -----

  datatype Field = Name | Class | Flag | Property(key: string)

  datatype FieldValue = Text(text: string) | Bit(bit: bool) | Held(value: Option<Value>)

  function FieldOf(w: Wire, f: Field): (r: FieldValue) {
    match f
    case Name => Text(w.name)
    case Class => Text(w.className)
    case Flag => Bit(w.ignoreUnknown)
    case Property(k) => Held(if k in w.props then Some(w.props[k]) else None)
  }

  lemma SameFields(a: Wire, b: Wire)
    requires a.parent == b.parent && forall f :: FieldOf(a, f) == FieldOf(b, f)
    ensures a == b
  {
    assert FieldOf(a, Name) == FieldOf(b, Name) && FieldOf(a, Class) == FieldOf(b, Class);
    assert FieldOf(a, Flag) == FieldOf(b, Flag);
    forall k ensures AgreeAt(a.props, b.props, k) { assert FieldOf(a, Property(k)) == FieldOf(b, Property(k)); }
    AgreeEverywhere(a.props, b.props);
  }

  /** An update that touches a field sets it to the same whatever it was. */
  lemma ChangedField(a: Wire, b: Wire, u: WireUpdate, f: Field)
    ensures FieldOf(ChangedWire(a, u), f) == FieldOf(ChangedWire(b, u), f)
      || (FieldOf(ChangedWire(a, u), f) == FieldOf(a, f) && FieldOf(ChangedWire(b, u), f) == FieldOf(b, f))
    ensures FieldOf(a, f) == FieldOf(b, f) ==> FieldOf(ChangedWire(a, u), f) == FieldOf(ChangedWire(b, u), f)
  {
  }

  lemma {:induction false} ChangedFields(a: Wire, b: Wire, us: seq<WireUpdate>, x: Ref, f: Field)
    ensures var a', b' := ChangedBy(a, us, x), ChangedBy(b, us, x);
      && (FieldOf(a', f) == FieldOf(b', f) || (FieldOf(a', f) == FieldOf(a, f) && FieldOf(b', f) == FieldOf(b, f)))
      && (FieldOf(a, f) == FieldOf(b, f) ==> FieldOf(a', f) == FieldOf(b', f))
    decreases |us|
  {
    if us != [] {
      if us[0].id == x {
        ChangedField(a, b, us[0], f);
        ChangedFields(ChangedWire(a, us[0]), ChangedWire(b, us[0]), us[1..], x, f);
      } else {
        ChangedFields(a, b, us[1..], x, f);
      }
    }
  }

  /** Some copy from the i-th on has the instance with this value in the field. */
  ghost predicate FieldComing(h: History, i: nat, x: Ref, f: Field, v: FieldValue) {
    exists m: nat :: i <= m && Has(h, m, x) && FieldOf(h.copies[m][x], f) == v
  }

  ghost predicate RecordComing(h: History, i: nat, x: Ref, w: Wire) {
    && (forall m: nat :: Has(h, m, x) ==> w.parent == h.copies[m][x].parent)
    && (forall f :: FieldComing(h, i, x, f, FieldOf(w, f)))
  }

  lemma RecordIsComing(h: History, i: nat, m: nat, x: Ref)
    requires Recorded(h) && i <= m && Has(h, m, x)
    ensures RecordComing(h, i, x, h.copies[m][x])
  {
    forall j: nat | Has(h, j, x) ensures h.copies[m][x].parent == h.copies[j][x].parent { SameParent(h, m, j, x); }
    forall f ensures FieldComing(h, i, x, f, FieldOf(h.copies[m][x], f)) {}
  }

  /** The record after a turn has nothing old but what the turn has left. */
  lemma RecordAdvances(h: History, i: nat, x: Ref, w: Wire)
    requires Recorded(h) && i < |h.turns| && RecordComing(h, i, x, w)
    requires Has(h, i, x) ==> Has(h, i + 1, x)
    ensures RecordComing(h, i + 1, x, ChangedBy(w, h.turns[i].updated, x))
  {
    assert AdvancesAt(h, i);
    var us := h.turns[i].updated;
    forall f ensures FieldComing(h, i + 1, x, f, FieldOf(ChangedBy(w, us, x), f)) {
      var m: nat :| i <= m && Has(h, m, x) && FieldOf(h.copies[m][x], f) == FieldOf(w, f);
      if Has(h, i, x) {
        ChangedFields(w, h.copies[i][x], us, x, f);
        assert FieldOf(h.copies[i + 1][x], f) == FieldOf(ChangedBy(h.copies[i][x], us, x), f);
      }
    }
  }

  // ----- a copy that is ahead -----

  ghost predicate Coming(h: History, lo: nat, x: Ref) {
    exists m: nat :: lo <= m && Has(h, m, x)
  }

  /** The copy stands at the i-th turn. It has all that the copy `lo` has, and nothing
      that is not there by then or later; no field is older than the i-th turn. */
  ghost predicate Ahead(h: History, d: Copy, i: nat, lo: nat) {
    && i <= lo < |h.copies|
    && (forall x :: x in d ==> Coming(h, lo, x) && RecordComing(h, i, x, d[x]))
    && (forall x :: x in h.copies[lo] ==> x in d)
  }

  /** In a copy that is ahead, what stands above a lasting instance lasts as well. */
  lemma {:induction false} ChainLasts(h: History, d: Copy, i: nat, lo: nat, m: nat, x: Ref, r: Ref)
    requires Recorded(h) && Ahead(h, d, i, lo) && Has(h, m, x) && Below(d, x, r)
    ensures Has(h, m, r)
    decreases x
  {
    if x != r {
      var p := d[x].parent;
      assert RecordComing(h, i, x, d[x]);
      GroundedAt(h, m);
      assert p == h.copies[m][x].parent;
      var j: nat :| lo <= j && Has(h, j, p);
      GroundedAt(h, j);
      ChainLasts(h, d, i, lo, m, p, r);
    }
  }

  /** A copy that has caught up has every chain of the right one. */
  lemma {:induction false} ChainThere(h: History, d: Copy, i: nat, x: Ref, r: Ref)
    requires Recorded(h) && Ahead(h, d, i, i) && Below(h.copies[i], x, r)
    ensures Below(d, x, r)
    decreases x
  {
    assert RecordComing(h, i, x, d[x]) && Has(h, i, x);
    if x != r { ChainThere(h, d, i, h.copies[i][x].parent, r); }
  }

  /** The message of the i-th turn, composed from the n-th copy: everything the turn
      adds is still there, with the data it has by then and whatever is below it. */
  ghost predicate ComposedFrom(h: History, i: nat, n: nat, m: Message) {
    && i < |h.turns| && |h.bounds| == |h.turns| + 1 && i < n < |h.copies|
    && m.removed == h.turns[i].removed && m.updated == h.turns[i].updated
    && (forall x :: x in m.added ==> h.bounds[i] <= x && x in h.copies[n] && m.added[x] == h.copies[n][x])
    && (forall x :: h.bounds[i] <= x < h.bounds[i + 1] ==> x in m.added)
  }

  function Max(a: nat, b: nat): (r: nat) {
    if a < b then b else a
  }

  lemma LastingSurvives(h: History, d: Copy, i: nat, lo: nat, x: Ref, m: nat)
    requires Recorded(h) && i < |h.turns| && Ahead(h, d, i, lo) && x in d && i < m && Has(h, m, x)
    ensures Survives(d, x, h.turns[i].removed)
  {
    forall r | r in h.turns[i].removed ensures !Below(d, x, r) {
      if Below(d, x, r) {
        ChainLasts(h, d, i, lo, m, x, r);
        GoneForGood(h, i, m, r);
      }
    }
  }

  /** Whoever goes with the turn goes from the copy too. */
  lemma SurvivesOnBoth(h: History, d: Copy, i: nat, x: Ref)
    requires Recorded(h) && i < |h.turns| && Ahead(h, d, i, i) && Has(h, i, x)
    requires Survives(d, x, h.turns[i].removed)
    ensures Has(h, i + 1, x)
  {
    assert AdvancesAt(h, i);
    forall r | r in h.turns[i].removed ensures !Below(h.copies[i], x, r) {
      if Below(h.copies[i], x, r) { ChainThere(h, d, i, x, r); }
    }
    assert Survives(h.copies[i], x, h.turns[i].removed);
  }

  lemma SurvivorLasts(h: History, d: Copy, i: nat, lo: nat, x: Ref)
    requires Recorded(h) && i < |h.turns| && Ahead(h, d, i, lo) && x in d && Survives(d, x, h.turns[i].removed)
    ensures Coming(h, Max(i + 1, lo), x)
    ensures Has(h, i, x) ==> Has(h, i + 1, x)
  {
    assert Coming(h, lo, x);
    var m: nat :| lo <= m && Has(h, m, x);
    if m == i {
      SurvivesOnBoth(h, d, i, x);
      assert Max(i + 1, lo) <= i + 1;
    } else {
      assert Max(i + 1, lo) <= m;
      if Has(h, i, x) { BetweenTwo(h, i, i + 1, m, x); }
    }
  }

  /** Replaying the message of a turn, composed at any later time, moves the copy on. */
  lemma ReplayAhead(h: History, d: Copy, i: nat, lo: nat, n: nat, m: Message)
    requires Recorded(h) && Ahead(h, d, i, lo) && ComposedFrom(h, i, n, m) && lo <= n
    ensures Ahead(h, Replay(d, m), i + 1, Max(i + 1, lo))
  {
    assert AdvancesAt(h, i);
    var d', lo' := Replay(d, m), Max(i + 1, lo);
    forall x | x in d' ensures Coming(h, lo', x) && RecordComing(h, i + 1, x, d'[x]) {
      ReplayAt(d, m, x);
      if x in m.added {
        NewRecord(h, i, n, m, x);
        assert Has(h, n, x);
      } else {
        SurvivorLasts(h, d, i, lo, x);
        RecordAdvances(h, i, x, d[x]);
      }
    }
    forall x | x in h.copies[lo'] ensures x in d' {
      ReplayAt(d, m, x);
      ReplayReaches(h, d, i, lo, n, m, x);
    }
  }

  lemma NewRecord(h: History, i: nat, n: nat, m: Message, x: Ref)
    requires Recorded(h) && ComposedFrom(h, i, n, m) && x in m.added
    ensures RecordComing(h, i + 1, x, ChangedBy(m.added[x], m.updated, x))
  {
    assert AdvancesAt(h, i);
    forall u | u in m.updated ensures u.id != x {}
    RecordIsComing(h, i + 1, n, x);
  }

  /** What is there after a turn and not new with it was there before. */
  lemma OldOnes(h: History, i: nat, x: Ref, m: Message)
    requires Recorded(h) && i < |h.turns| && Has(h, i + 1, x) && x !in m.added
    requires forall y :: h.bounds[i] <= y < h.bounds[i + 1] ==> y in m.added
    ensures Has(h, i, x)
  {
    assert AdvancesAt(h, i);
    assert Survives(h.copies[i], x, h.turns[i].removed);
  }

  lemma ReplayReaches(h: History, d: Copy, i: nat, lo: nat, n: nat, m: Message, x: Ref)
    requires Recorded(h) && Ahead(h, d, i, lo) && ComposedFrom(h, i, n, m) && lo <= n
    requires Has(h, Max(i + 1, lo), x)
    ensures x in m.added || Survives(d, x, m.removed)
  {
    if x !in m.added {
      if lo == i { OldOnes(h, i, x, m); }
      LastingSurvives(h, d, i, lo, x, Max(i + 1, lo));
    }
  }

  /** The k-th message is that of the turn `i + k`, composed when it was sent, and not
      before the copy `lo`. */
  ghost predicate ComposedAt(h: History, i: nat, lo: nat, ns: seq<nat>, ms: seq<Message>, k: nat) {
    k < |ns| == |ms| && ComposedFrom(h, i + k, ns[k], ms[k]) && lo <= ns[k]
  }

  ghost predicate AllComposed(h: History, i: nat, lo: nat, ns: seq<nat>, ms: seq<Message>) {
    |ns| == |ms| && forall k {:trigger ComposedAt(h, i, lo, ns, ms, k)} ::
      0 <= k < |ms| ==> ComposedAt(h, i, lo, ns, ms, k)
  }

  lemma ComposedTail(h: History, i: nat, lo: nat, ns: seq<nat>, ms: seq<Message>)
    requires AllComposed(h, i, lo, ns, ms) && ms != []
    ensures ComposedFrom(h, i, ns[0], ms[0]) && lo <= ns[0] && AllComposed(h, i + 1, lo, ns[1..], ms[1..])
  {
    var i', ns', ms' := i + 1, ns[1..], ms[1..];
    assert ComposedAt(h, i, lo, ns, ms, 0);
    forall k | 0 <= k < |ms'| ensures ComposedAt(h, i', lo, ns', ms', k) {
      assert ComposedAt(h, i, lo, ns, ms, k + 1);
    }
  }

  lemma {:induction false} AllAhead(h: History, d: Copy, i: nat, lo: nat, ns: seq<nat>, ms: seq<Message>)
    requires Recorded(h) && Ahead(h, d, i, Max(i, lo)) && AllComposed(h, i, lo, ns, ms)
    ensures Ahead(h, ReplayAll(d, ms), i + |ms|, Max(i + |ms|, lo))
    decreases |ms|
  {
    if ms != [] {
      ComposedTail(h, i, lo, ns, ms);
      OneMoreAhead(h, d, i, lo, ns[0], ms[0]);
      AllAhead(h, Replay(d, ms[0]), i + 1, lo, ns[1..], ms[1..]);
    }
  }

  lemma OneMoreAhead(h: History, d: Copy, i: nat, lo: nat, n: nat, m: Message)
    requires Recorded(h) && Ahead(h, d, i, Max(i, lo)) && ComposedFrom(h, i, n, m) && lo <= n
    ensures Ahead(h, Replay(d, m), i + 1, Max(i + 1, lo))
  {
    ReplayAhead(h, d, i, Max(i, lo), n, m);
    assert Max(i + 1, Max(i, lo)) == Max(i + 1, lo);
  }

  lemma AheadOfRead(h: History, d: Copy, c: nat, a: nat, ns: seq<nat>, ms: seq<Message>)
    requires Recorded(h) && Ahead(h, d, c, a) && AllComposed(h, c, a, ns, ms)
    ensures Ahead(h, ReplayAll(d, ms), c + |ms|, Max(c + |ms|, a))
  {
    assert Max(c, a) == a;
    AllAhead(h, d, c, a, ns, ms);
  }

  /** A copy that is ahead of the last turn of the history is the last copy. */
  lemma CaughtUp(h: History, d: Copy, i: nat)
    requires Recorded(h) && Ahead(h, d, i, i) && i + 1 == |h.copies|
    ensures d == h.copies[i]
  {
    forall x | x in d ensures x in h.copies[i] && d[x] == h.copies[i][x] {
      assert Coming(h, i, x) && RecordComing(h, i, x, d[x]);
      LastRecord(h, i, x, d[x]);
    }
  }

  lemma LastRecord(h: History, i: nat, x: Ref, w: Wire)
    requires i + 1 == |h.copies| && Coming(h, i, x) && RecordComing(h, i, x, w)
    ensures Has(h, i, x) && w == h.copies[i][x]
  {
    var m: nat :| i <= m && Has(h, m, x);
    forall f ensures FieldOf(w, f) == FieldOf(h.copies[i][x], f) {
      assert FieldComing(h, i, x, f, FieldOf(w, f));
    }
    SameFields(w, h.copies[i][x]);
  }

  // ----- trees -----

  lemma ViewGrounded(t: Tree)
    requires WellFormed(t)
    ensures Grounded(View(t), t.next)
  {
    forall x | x in t.insts
      ensures 0 < x < t.next && (t.insts[x].parent == NO_REF || (t.insts[x].parent < x && t.insts[x].parent in t.insts))
    {
      assert NodeOk(t, x);
      if x != t.root { assert NodeOk(t, t.insts[x].parent); }
    }
    assert t.meta.Keys == t.insts.Keys;
  }

  lemma AddedAreNew(v: Tree, n: Ref, size: nat, added: Copy)
    requires WellFormed(v) && v.next == n + size && added == AddedRecords(v, Range(n, size))
    ensures forall x :: x in added ==> n <= x < v.next
  {
    RecordsAreNew(v, n, size);
    forall x | x in added ensures n <= x < v.next { LiveRange(v, x); }
  }

  lemma RemovedInView(t: Tree, removed: seq<Ref>)
    requires WellFormed(t) && Removable(t, removed)
    ensures forall r :: r in removed ==> r in View(t)
  {
    ViewKeys(t);
    forall r | r in removed ensures r in View(t) { RemovedWereLive(t, removed, r); }
  }

  lemma UpdatesLive(t: Tree, q: Patch, m: Message)
    requires WellFormed(t) && Removable(t, q.removed) && m.removed == q.removed
    requires m.updated == UpdatesOnWire(DescribedAll(q.updated))
    requires forall u :: u in q.updated ==> u.id in RemoveAll(t, q.removed).insts
    ensures forall w :: w in m.updated ==> w.id in View(t) && w.id in Replay(View(t), m)
  {
    DescribedIds(q.updated);
    RemoveAllEffect(t, q.removed);
    DropsFollow(t, q.removed);
    var dropped := DropAll(View(t), q.removed);
    ChangeKeys(dropped + m.added, m.updated);
    forall w | w in m.updated ensures w.id in View(t) && w.id in dropped {
      var i :| 0 <= i < |m.updated| && m.updated[i] == w;
      assert q.updated[i] in q.updated;
    }
  }

  ghost function TurnOf(t: Tree, q: Patch): (r: Turn)
    requires Applicable(t, q)
  {
    var applied := Applying(t, q).ctx.applied;
    Turn(applied.removed, UpdatesOnWire(applied.updated))
  }

  /** Who is there after a patch. */
  lemma MembersAfter(t: Tree, q: Patch, x: Ref)
    requires Sendable(t, q)
    ensures var v := PatchEffect.ApplyPatch(t, q);
      x in v.insts <==> (x in t.insts && !Dead(t, x, q.removed)) || t.next <= x < v.next
  {
    var t1, t2 := ApplyingPhases(t, q);
    AppliedShape(t, q);
    var v := PatchEffect.ApplyPatch(t, q);
    assert v.insts.Keys == t2.insts.Keys;
    assert Adopted(t1, t2, q.added);
  }

  /** A patch that can be described advances the view. */
  lemma PatchAdvances(t: Tree, q: Patch)
    requires Sendable(t, q) && AllDescribable(t, q)
    ensures var v := PatchEffect.ApplyPatch(t, q);
      WellFormed(v) && Advances(View(t), t.next, TurnOf(t, q), View(v), v.next)
  {
    var v, m := PatchEffect.ApplyPatch(t, q), TurnMessage(t, q);
    AppliedShape(t, q);
    ReplayFollows(t, q);
    ViewGrounded(t);
    ViewGrounded(v);
    RemovedInView(t, q.removed);
    UpdatesLive(t, q, m);
    AddedAreNew(v, t.next, Total(q.added), m.added);
    forall x: Ref ensures x in View(v) <==> Survives(View(t), x, q.removed) || t.next <= x < v.next {
      MemberOfView(t, q, x);
    }
    forall x | x in View(t) && x in View(v) ensures View(v)[x] == ChangedBy(View(t)[x], m.updated, x) {
      ReplayAt(View(t), m, x);
    }
  }

  lemma MemberOfView(t: Tree, q: Patch, x: Ref)
    requires Sendable(t, q) && WellFormed(PatchEffect.ApplyPatch(t, q))
    ensures var v := PatchEffect.ApplyPatch(t, q);
      x in View(v) <==> Survives(View(t), x, q.removed) || t.next <= x < v.next
  {
    var v := PatchEffect.ApplyPatch(t, q);
    MembersAfter(t, q, x);
    ViewKeys(t);
    ViewKeys(v);
    forall r ensures Below(View(t), x, r) <==> Under(t, x, r) { BelowIsUnder(t, x, r); }
  }

  // ----- a tree and its patches over time -----

  /** `trees[i]` is the tree before the i-th patch, and `done[i]` what that patch did. */
  datatype Timeline = Timeline(trees: seq<Tree>, patches: seq<Patch>, done: seq<Applied>)

  ghost predicate StepAt(l: Timeline, i: nat) {
    && |l.trees| == |l.patches| + 1 == |l.done| + 1 && i < |l.patches|
    && Sendable(l.trees[i], l.patches[i])
    && l.trees[i + 1] == PatchEffect.ApplyPatch(l.trees[i], l.patches[i])
    && l.done[i] == Applying(l.trees[i], l.patches[i]).ctx.applied
  }

  ghost predicate Ordered(l: Timeline) {
    && |l.trees| == |l.patches| + 1 == |l.done| + 1 && WellFormed(l.trees[0])
    && forall i {:trigger StepAt(l, i)} :: 0 <= i < |l.patches| ==> StepAt(l, i)
  }

  ghost predicate DescribableAt(l: Timeline, i: nat) {
    i < |l.trees| && i < |l.patches| && AllDescribable(l.trees[i], l.patches[i])
  }

  ghost predicate AllTold(l: Timeline) {
    forall i {:trigger DescribableAt(l, i)} :: 0 <= i < |l.patches| ==> DescribableAt(l, i)
  }

  lemma TreesWellFormed(l: Timeline, i: nat)
    requires Ordered(l) && i < |l.trees|
    ensures WellFormed(l.trees[i])
  {
    if i > 0 {
      assert StepAt(l, i - 1);
      AppliedShape(l.trees[i - 1], l.patches[i - 1]);
    }
  }

  ghost function TurnAt(l: Timeline, i: nat): (r: Turn)
    requires i < |l.done|
  {
    Turn(l.done[i].removed, UpdatesOnWire(l.done[i].updated))
  }

  ghost function HistoryOf(l: Timeline): (h: History)
    requires Ordered(l)
    ensures |h.copies| == |h.bounds| == |h.turns| + 1 == |l.trees|
    ensures forall i :: 0 <= i < |l.trees| ==> h.copies[i] == View(l.trees[i]) && h.bounds[i] == l.trees[i].next
    ensures forall i :: 0 <= i < |l.done| ==> h.turns[i] == TurnAt(l, i)
  {
    History(seq(|l.trees|, i requires 0 <= i < |l.trees| => View(l.trees[i])),
            seq(|l.trees|, i requires 0 <= i < |l.trees| => l.trees[i].next),
            seq(|l.done|, i requires 0 <= i < |l.done| => TurnAt(l, i)))
  }

  lemma TimelineIsRecorded(l: Timeline)
    requires Ordered(l) && AllTold(l)
    ensures Recorded(HistoryOf(l))
  {
    var h := HistoryOf(l);
    ViewGrounded(l.trees[0]);
    forall i | 0 <= i < |l.patches| ensures AdvancesAt(h, i) {
      assert StepAt(l, i) && DescribableAt(l, i);
      PatchAdvances(l.trees[i], l.patches[i]);
    }
  }

  // ----- when a message can be composed -----

  /** The ids that are new with the i-th patch. */
  ghost predicate NewWith(l: Timeline, i: nat, x: Ref) {
    i + 1 < |l.trees| && l.trees[i].next <= x < l.trees[i + 1].next
  }

  ghost predicate KilledBy(l: Timeline, j: nat, x: Ref) {
    j < |l.trees| && j < |l.patches| && Dead(l.trees[j], x, l.patches[j].removed)
  }

  /** No patch after the i-th, up to the n-th tree, removes what the i-th has added. */
  ghost predicate AddedStay(l: Timeline, i: nat, n: nat) {
    forall x, j :: NewWith(l, i, x) && i < j < n ==> !KilledBy(l, j, x)
  }

  lemma MembersOfNext(l: Timeline, j: nat, x: Ref)
    requires Ordered(l) && j < |l.patches|
    ensures x in l.trees[j + 1].insts <==> (x in l.trees[j].insts && !KilledBy(l, j, x)) || NewWith(l, j, x)
    ensures l.trees[j].next <= l.trees[j + 1].next
  {
    assert StepAt(l, j);
    MembersAfter(l.trees[j], l.patches[j], x);
    AppliedShape(l.trees[j], l.patches[j]);
  }

  lemma {:induction false} StillThere(l: Timeline, i: nat, n: nat, x: Ref)
    requires Ordered(l) && i < n < |l.trees| && NewWith(l, i, x)
    ensures l.trees[i + 1].next <= l.trees[n].next
    ensures x in l.trees[n].insts <==> forall j :: i < j < n ==> !KilledBy(l, j, x)
    decreases n
  {
    MembersOfNext(l, n - 1, x);
    if n > i + 1 { StillThere(l, i, n - 1, x); }
  }

  lemma AddedIdsOf(l: Timeline, i: nat)
    requires Ordered(l) && i < |l.patches|
    ensures forall x: Ref :: x in l.done[i].added <==> NewWith(l, i, x)
    ensures l.done[i].removed == l.patches[i].removed
  {
    assert StepAt(l, i);
    var u, q := l.trees[i], l.patches[i];
    AppliedShape(u, q);
    forall x: Ref | NewWith(l, i, x) ensures x in Range(u.next, Total(q.added)) {
      assert Range(u.next, Total(q.added))[x - u.next] == x;
    }
  }

  /** The message of a patch can be composed from a later tree, without the panic on an
      added instance that is missing, if and only if no patch in between removes what
      the patch has added. */
  lemma ComposableExactly(l: Timeline, i: nat, n: nat)
    requires Ordered(l) && i < n < |l.trees|
    ensures CanCompose(l.trees[n], l.done[i]) <==> AddedStay(l, i, n)
  {
    AddedIdsOf(l, i);
    forall x: Ref | NewWith(l, i, x)
      ensures x in l.trees[n].insts <==> forall j :: i < j < n ==> !KilledBy(l, j, x)
    {
      StillThere(l, i, n, x);
    }
  }

  // ----- what replaying does -----

  /** The i-th message as it is composed from the n-th tree. */
  ghost function Composed(l: Timeline, i: nat, n: nat): (m: Message)
    requires i < |l.done| && n < |l.trees|
  {
    MessageFor(l.trees[n], l.done[i])
  }

  lemma ComposedIsFrom(l: Timeline, i: nat, n: nat)
    requires Ordered(l) && i < n < |l.trees| && CanCompose(l.trees[n], l.done[i])
    ensures ComposedFrom(HistoryOf(l), i, n, Composed(l, i, n))
  {
    TreesWellFormed(l, n);
    AddedIdsOf(l, i);
    ViewKeys(l.trees[n]);
    LateRecords(l.trees[n], l.done[i].added, l.trees[i].next, Composed(l, i, n).added);
    forall x: Ref | l.trees[i].next <= x < l.trees[i + 1].next ensures x in Composed(l, i, n).added {
      assert NewWith(l, i, x);
    }
  }

  lemma LateRecords(w: Tree, added: seq<Ref>, lo: Ref, records: Copy)
    requires WellFormed(w) && records == AddedRecords(w, added) && forall a :: a in added ==> lo <= a && a in w.insts
    ensures forall x :: x in records ==> lo <= x && x in View(w) && records[x] == View(w)[x]
    ensures forall a :: a in added ==> a in records
  {
    forall x | x in records ensures lo <= x {
      var a :| a in added && Under(w, x, a);
      UnderOrder(w, x, a);
    }
    forall a | a in added ensures a in records {
      assert Under(w, a, a);
      assert w.meta.Keys == w.insts.Keys;
    }
  }

  /** The k-th message sent to a client that reads `a` patches and starts at the cursor
      `c` is that of the patch `c + k`. It is composed from the tree `ns[k]`, after its
      patch and after the read, and it can be composed. */
  ghost predicate DeliverableAt(l: Timeline, c: nat, a: nat, ns: seq<nat>, k: nat) {
    && k < |ns| && c + k < |l.done| && c + k < ns[k] < |l.trees| && a <= ns[k]
    && CanCompose(l.trees[ns[k]], l.done[c + k])
  }

  ghost predicate Deliverable(l: Timeline, c: nat, a: nat, ns: seq<nat>) {
    forall k {:trigger DeliverableAt(l, c, a, ns, k)} :: 0 <= k < |ns| ==> DeliverableAt(l, c, a, ns, k)
  }

  ghost function Sent(l: Timeline, c: nat, a: nat, ns: seq<nat>): (ms: seq<Message>)
    requires Deliverable(l, c, a, ns)
    ensures |ms| == |ns|
  {
    seq(|ns|, k requires 0 <= k < |ns| =>
      assert DeliverableAt(l, c, a, ns, k);
      Composed(l, c + k, ns[k]))
  }

  lemma SentIsComposed(l: Timeline, c: nat, a: nat, ns: seq<nat>)
    requires Ordered(l) && Deliverable(l, c, a, ns)
    ensures AllComposed(HistoryOf(l), c, a, ns, Sent(l, c, a, ns))
  {
    var ms := Sent(l, c, a, ns);
    forall k | 0 <= k < |ns| ensures ComposedAt(HistoryOf(l), c, a, ns, ms, k) {
      assert DeliverableAt(l, c, a, ns, k);
      ComposedIsFrom(l, c + k, ns[k]);
    }
  }

  lemma ReadIsAhead(l: Timeline, c: nat, a: nat)
    requires Ordered(l) && AllTold(l) && c <= a < |l.trees|
    ensures Ahead(HistoryOf(l), View(l.trees[a]), c, a)
  {
    var h := HistoryOf(l);
    TimelineIsRecorded(l);
    forall x | x in h.copies[a] ensures Coming(h, a, x) && RecordComing(h, c, x, h.copies[a][x]) {
      assert Has(h, a, x);
      RecordIsComing(h, c, a, x);
    }
  }

  /** What a client holds that reads the tree when it has `a` patches, with a cursor `c`
      that may be behind, and replays the messages from there on. */
  ghost function ClientCopy(l: Timeline, c: nat, a: nat, ns: seq<nat>): (d: Copy)
    requires a < |l.trees| && Deliverable(l, c, a, ns)
  {
    ReplayAll(View(l.trees[a]), Sent(l, c, a, ns))
  }

  /** The copy of a client is nowhere behind where the client stands. */
  lemma DeliveryIsAhead(l: Timeline, c: nat, a: nat, ns: seq<nat>)
    requires Ordered(l) && AllTold(l) && c <= a < |l.trees| && c + |ns| < |l.trees| && Deliverable(l, c, a, ns)
    ensures Ahead(HistoryOf(l), ClientCopy(l, c, a, ns), c + |ns|, Max(c + |ns|, a))
  {
    var h, d, ms := HistoryOf(l), View(l.trees[a]), Sent(l, c, a, ns);
    assert Recorded(h) by { TimelineIsRecorded(l); }
    assert Ahead(h, d, c, a) by { ReadIsAhead(l, c, a); }
    assert AllComposed(h, c, a, ns, ms) by { SentIsComposed(l, c, a, ns); }
    AheadOfRead(h, d, c, a, ns, ms);
  }

  ghost function Until(l: Timeline, e: nat): (r: Timeline)
    requires e < |l.trees| && e <= |l.patches| && e <= |l.done|
  {
    Timeline(l.trees[..e + 1], l.patches[..e], l.done[..e])
  }

  lemma UntilOrdered(l: Timeline, e: nat)
    requires Ordered(l) && e < |l.trees|
    ensures Ordered(Until(l, e)) && (AllTold(l) ==> AllTold(Until(l, e)))
  {
    var r := Until(l, e);
    forall i | 0 <= i < e ensures StepAt(r, i) && (AllTold(l) ==> DescribableAt(r, i)) {
      assert StepAt(l, i);
      assert AllTold(l) ==> DescribableAt(l, i);
    }
  }

  lemma UntilSent(l: Timeline, e: nat, c: nat, a: nat, ns: seq<nat>)
    requires Ordered(l) && e < |l.trees| && c + |ns| <= e && Deliverable(l, c, a, ns)
    requires forall n :: n in ns ==> n <= e
    ensures Deliverable(Until(l, e), c, a, ns) && Sent(Until(l, e), c, a, ns) == Sent(l, c, a, ns)
  {
    var r := Until(l, e);
    forall k | 0 <= k < |ns| ensures DeliverableAt(r, c, a, ns, k) {
      assert DeliverableAt(l, c, a, ns, k) && ns[k] in ns;
    }
    var some, all := Sent(r, c, a, ns), Sent(l, c, a, ns);
    forall k | 0 <= k < |ns| ensures some[k] == all[k] {
      assert DeliverableAt(l, c, a, ns, k) && DeliverableAt(r, c, a, ns, k);
      assert some[k] == Composed(r, c + k, ns[k]) && all[k] == Composed(l, c + k, ns[k]);
    }
  }

  /** A client whose read and messages show no later tree than the one it stands at
      holds the view of that tree, although its read may have been ahead of its cursor
      and each message shows the tree as it was when the message was sent. */
  lemma DeliveryFollows(l: Timeline, c: nat, a: nat, ns: seq<nat>)
    requires Ordered(l) && AllTold(l) && c <= a <= c + |ns| < |l.trees| && Deliverable(l, c, a, ns)
    requires forall n :: n in ns ==> n <= c + |ns|
    ensures ClientCopy(l, c, a, ns) == View(l.trees[c + |ns|])
  {
    var e := c + |ns|;
    var r := Until(l, e);
    UntilOrdered(l, e);
    UntilSent(l, e, c, a, ns);
    DeliveryIsAhead(r, c, a, ns);
    TimelineIsRecorded(r);
    CaughtUp(HistoryOf(r), ClientCopy(r, c, a, ns), e);
  }

  /** Both for a client at any point: it is ahead, and right if it was shown no later
      tree. */
  lemma ClientStands(l: Timeline, c: nat, a: nat, ns: seq<nat>)
    requires Ordered(l) && AllTold(l) && c <= a < |l.trees| && c + |ns| < |l.trees| && Deliverable(l, c, a, ns)
    ensures Ahead(HistoryOf(l), ClientCopy(l, c, a, ns), c + |ns|, Max(c + |ns|, a))
    ensures a <= c + |ns| && (forall n :: n in ns ==> n <= c + |ns|) ==>
      ClientCopy(l, c, a, ns) == View(l.trees[c + |ns|])
  {
    DeliveryIsAhead(l, c, a, ns);
    if a <= c + |ns| && forall n :: n in ns ==> n <= c + |ns| { DeliveryFollows(l, c, a, ns); }
  }

  /** Each message is composed after its patch and after the read. */
  ghost predicate InTime(l: Timeline, c: nat, a: nat, ns: seq<nat>) {
    forall k :: 0 <= k < |ns| ==> c + k < ns[k] < |l.trees| && a <= ns[k]
  }

  /** No patch that a message is composed after removes what its own patch has added. */
  ghost predicate AllStay(l: Timeline, c: nat, ns: seq<nat>) {
    forall k :: 0 <= k < |ns| ==> AddedStay(l, c + k, ns[k])
  }

  /** When each message is composed at a possible time, all of them can be composed if
      and only if no patch removes too early what another has added. */
  lemma DeliverableExactly(l: Timeline, c: nat, a: nat, ns: seq<nat>)
    requires Ordered(l) && InTime(l, c, a, ns)
    ensures Deliverable(l, c, a, ns) <==> AllStay(l, c, ns)
  {
    forall k | 0 <= k < |ns| ensures DeliverableAt(l, c, a, ns, k) <==> AddedStay(l, c + k, ns[k]) {
      ComposableExactly(l, c + k, ns[k]);
    }
    if Deliverable(l, c, a, ns) {
      forall k | 0 <= k < |ns| ensures AddedStay(l, c + k, ns[k]) { assert DeliverableAt(l, c, a, ns, k); }
    }
  }

  // ----- a read that is ahead of its cursor -----

  /** No patch from the c-th on removes what another one since has added. */
  ghost predicate NothingUndone(l: Timeline, c: nat) {
    forall i :: c <= i < |l.patches| ==> AddedStay(l, i, |l.patches|)
  }

  /** A read that has `a` patches and then replays those after its cursor, all of them
      composed when the tree has all. The messages can be composed if and only if none
      of the patches removes what another has added since the cursor. Then replaying
      them gives the view of the tree, however far ahead the read was. */
  lemma OverlapIsHarmless(l: Timeline, c: nat, a: nat)
    requires Ordered(l) && c <= a <= |l.patches|
    ensures var n := |l.patches|; var ns := seq(n - c, _ => n);
      && (Deliverable(l, c, a, ns) <==> NothingUndone(l, c))
      && (AllTold(l) && Deliverable(l, c, a, ns) ==> ClientCopy(l, c, a, ns) == View(l.trees[n]))
  {
    var n := |l.patches|;
    var ns := seq(n - c, _ => n);
    forall k | 0 <= k < |ns| ensures DeliverableAt(l, c, a, ns, k) <==> AddedStay(l, c + k, n) {
      ComposableExactly(l, c + k, n);
    }
    if NothingUndone(l, c) {
      forall k | 0 <= k < |ns| ensures DeliverableAt(l, c, a, ns, k) { assert AddedStay(l, c + k, n); }
    }
    if Deliverable(l, c, a, ns) {
      forall i | c <= i < n ensures AddedStay(l, i, n) { assert DeliverableAt(l, c, a, ns, i - c); }
      if AllTold(l) { DeliveryFollows(l, c, a, ns); }
    }
  }

  // ----- runs of patches -----

  ghost function TimelineOf(t: Tree, patches: seq<Patch>): (l: Timeline)
    requires RunApplies(t, patches)
    ensures |l.trees| == |patches| + 1 == |l.done| + 1 && l.patches == patches && l.trees[0] == t
    decreases |patches|
  {
    if patches == [] then Timeline([t], [], [])
    else
      var rest := TimelineOf(PatchEffect.ApplyPatch(t, patches[0]), patches[1..]);
      Timeline([t] + rest.trees, patches, [Applying(t, patches[0]).ctx.applied] + rest.done)
  }

  lemma {:induction false} TimelineOrdered(t: Tree, patches: seq<Patch>)
    requires WellFormed(t) && RunApplies(t, patches)
    ensures Ordered(TimelineOf(t, patches)) && (RunDescribable(t, patches) ==> AllTold(TimelineOf(t, patches)))
    ensures TimelineOf(t, patches).trees[|patches|] == TreeAfter(t, patches)
    decreases |patches|
  {
    if patches != [] {
      var v := PatchEffect.ApplyPatch(t, patches[0]);
      var l, rest := TimelineOf(t, patches), TimelineOf(v, patches[1..]);
      AppliedShape(t, patches[0]);
      TimelineOrdered(v, patches[1..]);
      forall i | 0 <= i < |patches| ensures StepAt(l, i) && (RunDescribable(t, patches) ==> DescribableAt(l, i)) {
        if i > 0 {
          assert StepAt(rest, i - 1);
          assert RunDescribable(t, patches) ==> DescribableAt(rest, i - 1);
        }
      }
    }
  }
}
