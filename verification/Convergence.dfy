/** Reconciling makes the tree match the snapshot, and doing it again changes
    nothing (src/snapshot/patch_compute.rs, src/snapshot/patch_apply.rs). */
module Convergence {
  import opened Basics
  import opened Values
  import opened TreeModel
  import opened PatchPlan
  import opened PlanFacts
  import opened PatchEffect
  import opened EffectFacts
  import opened Outcome
  import opened FinalTree

  // ----- one instance -----

  /** The properties are those of the snapshot, references translated, plus the
      forced `NeedsPivotMigration` on model-like classes. Pointers decide the rest. */
  ghost predicate PropsSettled(actual: Props, s: Snapshot, ids: map<Ref, Ref>) {
    forall k :: k !in PointedBy(s.props) ==> PropSettled(actual, s, ids, k)
  }

  predicate PropSettled(actual: Props, s: Snapshot, ids: map<Ref, Ref>, k: string) {
    && (k in actual <==> k in s.props || PivotRuled(s, k))
    && (k in s.props && k in actual ==> VariantEq(Translate(ids, s.props[k]), actual[k]))
  }

  ghost predicate Settled(t: Tree, x: Ref, s: Snapshot, ids: map<Ref, Ref>) {
    && x in t.insts && x in t.meta
    && t.insts[x].name == s.name && t.insts[x].className == s.className
    && MetaSettled(t.meta[x], s)
    && PropsSettled(t.insts[x].props, s, ids)
  }

  /** Where the pivot rule decides. */
  predicate PivotRuled(s: Snapshot, k: string) {
    ModelLike(s.className) && k == PIVOT
  }

  /** A null reference is skipped, so it must be there already. */
  predicate NullThere(actual: Props, s: Snapshot, k: string)
    requires k in s.props
  {
    s.props[k] == RefValue(NO_REF) ==> k in actual && actual[k] == RefValue(NO_REF)
  }

  /** An explicit `NeedsPivotMigration` survives only when it is off, or a boolean
      that differs from what the instance has. */
  predicate PivotKept(actual: Props, s: Snapshot)
    requires PIVOT in s.props
  {
    var v := s.props[PIVOT];
    v == PIVOT_OFF || (v.Plain? && v.scalar.Bool? && PIVOT in actual && !VariantEq(v, actual[PIVOT]))
  }

  /** The two branches that override what a snapshot asks of an existing instance,
      seen from before the call. */
  predicate Honoured(actual: Props, s: Snapshot) {
    forall k :: k in s.props && k !in PointedBy(s.props) ==>
      if PivotRuled(s, k) then PivotKept(actual, s) else NullThere(actual, s, k)
  }

  /** Every reference the instance holds is outside the table. */
  ghost predicate OutsideTable(actual: Props, ids: map<Ref, Ref>) {
    forall k :: k in actual && actual[k].RefValue? ==> actual[k].ref !in ids
  }

  /** One property, away from the pivot rule. */
  lemma PropAfter(actual: Props, s: Snapshot, a: map<Ref, Ref>, b: map<Ref, Ref>, k: string)
    requires Composable(a, b) && NO_REF !in a && OutsideTable(actual, b + a)
    requires forall i :: i in a ==> a[i] != NO_REF
    requires !PivotRuled(s, k)
    ensures PropSettled(PropsAfter(actual, s, a, b), s, b + a, k) <==> (k in s.props ==> NullThere(actual, s, k))
  {
    var base := BaseChanges(s.props, actual);
    var changes := PivotRule(base, s.className, actual);
    assert (k in changes <==> k in base) && (k in base ==> changes[k] == base[k]) by {
      if k != PIVOT { PivotElsewhere(base, s.className, actual, k); }
    }
    var c := RewriteChanges(a, changes);
    var r := ChangedProps(actual, c, b);
    assert k in r <==> ChangedProp(actual, c, b, k).Some?;
    if k in s.props {
      var v := s.props[k];
      if k in base {
        TranslateTwice(a, b, v);
        VariantEqReflexive(Translate(b + a, v));
      }
    }
  }

  /** `NeedsPivotMigration` on a model-like class. */
  lemma PivotAfter(actual: Props, s: Snapshot, a: map<Ref, Ref>, b: map<Ref, Ref>)
    requires ModelLike(s.className)
    ensures PropSettled(PropsAfter(actual, s, a, b), s, b + a, PIVOT) <==> (PIVOT in s.props ==> PivotKept(actual, s))
  {
    var base := BaseChanges(s.props, actual);
    var c := RewriteChanges(a, PivotRule(base, s.className, actual));
    var r := ChangedProps(actual, c, b);
    assert PIVOT in r <==> ChangedProp(actual, c, b, PIVOT).Some?;
    assert PIVOT_OFF.Plain?;
  }

  /** Exactly the honoured instances end with the properties the snapshot wants. */
  lemma SettlesExactlyWhenHonoured(actual: Props, r: Props, s: Snapshot, a: map<Ref, Ref>, b: map<Ref, Ref>)
    requires Composable(a, b) && NO_REF !in a && OutsideTable(actual, b + a)
    requires forall i :: i in a ==> a[i] != NO_REF
    requires AgreeOff(r, PropsAfter(actual, s, a, b), PointedBy(s.props))
    ensures PropsSettled(r, s, b + a) <==> Honoured(actual, s)
  {
    var after := PropsAfter(actual, s, a, b);
    forall k | k !in PointedBy(s.props)
      ensures PropSettled(r, s, b + a, k) <==>
        (k in s.props ==> if PivotRuled(s, k) then PivotKept(actual, s) else NullThere(actual, s, k))
    {
      assert AgreeAt(r, after, k);
      if PivotRuled(s, k) { PivotAfter(actual, s, a, b); } else { PropAfter(actual, s, a, b, k); }
    }
  }

  // ----- a whole subtree -----

  /** The greedy pairing matches every child at `x` with a child of the snapshot and
      leaves none over, recursively. */
  ghost predicate Shaped(t: Tree, x: Ref, s: Snapshot)
    decreases s
  {
    && x in t.insts
    && (var kids := t.insts[x].children;
        var none := NonePaired(|kids|);
        && (forall j :: 0 <= j < |kids| ==> Final(t, kids, s.children, none)[j])
        && (forall i :: 0 <= i < |s.children| ==>
              var j := Pairing(t, kids, s.children, none)[i];
              j.Some? && Shaped(t, kids[j.value], s.children[i])))
  }

  /** The subtree at `x` is the snapshot: shaped like it and settled everywhere. */
  ghost predicate Mirrors(t: Tree, x: Ref, s: Snapshot, ids: map<Ref, Ref>)
    decreases s
  {
    && Shaped(t, x, s) && Settled(t, x, s, ids)
    && (var kids := t.insts[x].children;
        forall i :: 0 <= i < |s.children| ==>
          Mirrors(t, kids[Pairing(t, kids, s.children, NonePaired(|kids|))[i].value], s.children[i], ids))
  }

  /** Position in the filtered list of the element at index `j`. */
  function Rank(s: seq<Ref>, gone: set<Ref>, j: nat): (r: nat)
    requires j <= |s|
    ensures r <= |Keep(s, gone)|
    ensures j < |s| && s[j] !in gone ==> r < |Keep(s, gone)| && Keep(s, gone)[r] == s[j]
    decreases |s|
  {
    if j == 0 then 0
    else if s[0] in gone then Rank(s[1..], gone, j - 1)
    else 1 + Rank(s[1..], gone, j - 1)
  }

  lemma {:induction false} RankMonotone(s: seq<Ref>, gone: set<Ref>, j: nat, k: nat)
    requires j < k <= |s|
    ensures Rank(s, gone, j) <= Rank(s, gone, k)
    ensures s[j] !in gone ==> Rank(s, gone, j) < Rank(s, gone, k)
    decreases |s|
  {
    if j > 0 { RankMonotone(s[1..], gone, j - 1, k - 1); }
  }

  lemma {:induction false} RankOnto(s: seq<Ref>, gone: set<Ref>, q: nat) returns (j: nat)
    requires q < |Keep(s, gone)|
    ensures j < |s| && s[j] !in gone && Rank(s, gone, j) == q
    decreases |s|
  {
    if s[0] !in gone && q == 0 {
      j := 0;
    } else {
      var tail, first := s[1..], if s[0] in gone then 0 else 1;
      assert Keep(s, gone) == (if s[0] in gone then [] else [s[0]]) + Keep(tail, gone);
      j := RankOnto(tail, gone, q - first);
      assert Rank(s, gone, j + 1) == first + Rank(tail, gone, j);
      j := j + 1;
    }
  }

  /** The instance every snapshot child ends up as: its partner, or the next of the
      new instances. */
  function Targets(t: Tree, kids: seq<Ref>, ss: seq<Snapshot>, paired: seq<bool>, news: seq<Ref>): (r: seq<Ref>)
    requires |paired| == |kids| && |news| == |Unmatched(t, kids, ss, paired)|
    ensures |r| == |ss|
    decreases |ss|
  {
    if ss == [] then []
    else
      var j := FirstFit(t, kids, paired, ss[0], 0);
      if j.Some? then [kids[j.value]] + Targets(t, kids, ss[1..], Mark(paired, j), news)
      else [news[0]] + Targets(t, kids, ss[1..], Mark(paired, j), news[1..])
  }

  /** How far two runs of the pairing agree: over the old children, and over the
      children that were kept followed by the new ones, `done` of them used up. */
  ghost predicate InStep(kids: seq<Ref>, gone: set<Ref>, paired: seq<bool>, news: nat, paired': seq<bool>, done: nat)
    requires |paired| == |kids| && |paired'| == |Keep(kids, gone)| + news
  {
    && done <= news
    && (forall j :: 0 <= j < |kids| && kids[j] !in gone ==> paired'[Rank(kids, gone, j)] == paired[j])
    && (forall q :: |Keep(kids, gone)| <= q < |paired'| ==> paired'[q] == (q - |Keep(kids, gone)| < done))
  }

  /** The kept children have kept their names and classes. */
  ghost predicate KeysKept(t: Tree, v: Tree, kids: seq<Ref>, gone: set<Ref>) {
    forall k :: k in kids && k !in gone ==>
      k in t.insts && k in v.insts
      && v.insts[k].name == t.insts[k].name && v.insts[k].className == t.insts[k].className
  }

  /** Each new instance has the name and class of its snapshot. */
  ghost predicate KeysNew(v: Tree, news: seq<Ref>, ss: seq<Snapshot>) {
    |news| == |ss| && forall q :: 0 <= q < |news| ==> SameKey(v, news[q], ss[q])
  }

  lemma FitsKept(t: Tree, v: Tree, kids: seq<Ref>, gone: set<Ref>, news: seq<Ref>, paired: seq<bool>,
      paired': seq<bool>, done: nat, s: Snapshot, j: nat)
    requires |paired| == |kids| && |paired'| == |Keep(kids, gone)| + |news|
    requires InStep(kids, gone, paired, |news|, paired', done) && KeysKept(t, v, kids, gone)
    requires j < |kids| && kids[j] !in gone
    ensures Fits(v, Keep(kids, gone) + news, paired', s, Rank(kids, gone, j)) <==> Fits(t, kids, paired, s, j)
  {
    assert (Keep(kids, gone) + news)[Rank(kids, gone, j)] == kids[j];
  }

  lemma NoneFitsBefore(t: Tree, v: Tree, kids: seq<Ref>, gone: set<Ref>, news: seq<Ref>, paired: seq<bool>,
      paired': seq<bool>, done: nat, s: Snapshot, j: nat, q: nat)
    requires |paired| == |kids| && |paired'| == |Keep(kids, gone)| + |news|
    requires InStep(kids, gone, paired, |news|, paired', done) && KeysKept(t, v, kids, gone)
    requires j < |kids| && kids[j] !in gone && q < Rank(kids, gone, j)
    requires forall i :: 0 <= i < j ==> !Fits(t, kids, paired, s, i)
    ensures !Fits(v, Keep(kids, gone) + news, paired', s, q)
  {
    var i := RankOnto(kids, gone, q);
    if j < i { RankMonotone(kids, gone, j, i); }
    assert i < j;
    FitsKept(t, v, kids, gone, news, paired, paired', done, s, i);
  }

  /** A snapshot child that found a partner finds the same one the second time. */
  lemma StepPaired(t: Tree, v: Tree, kids: seq<Ref>, gone: set<Ref>, news: seq<Ref>, paired: seq<bool>,
      paired': seq<bool>, done: nat, s: Snapshot, j: nat)
    requires |paired| == |kids| && |paired'| == |Keep(kids, gone)| + |news|
    requires InStep(kids, gone, paired, |news|, paired', done) && KeysKept(t, v, kids, gone)
    requires FirstFit(t, kids, paired, s, 0) == Some(j) && kids[j] !in gone && NoDup(kids)
    ensures var r := Rank(kids, gone, j);
      && FirstFit(v, Keep(kids, gone) + news, paired', s, 0) == Some(r)
      && InStep(kids, gone, paired[j := true], |news|, paired'[r := true], done)
  {
    var r := Rank(kids, gone, j);
    var f := FirstFit(v, Keep(kids, gone) + news, paired', s, 0);
    FitsKept(t, v, kids, gone, news, paired, paired', done, s, j);
    assert f.Some? && f.value <= r;
    if f.value < r { NoneFitsBefore(t, v, kids, gone, news, paired, paired', done, s, j, f.value); }
    MarkBoth(kids, gone, news, paired, paired', done, j);
  }

  lemma MarkBoth(kids: seq<Ref>, gone: set<Ref>, news: seq<Ref>, paired: seq<bool>, paired': seq<bool>, done: nat,
      j: nat)
    requires |paired| == |kids| && |paired'| == |Keep(kids, gone)| + |news|
    requires InStep(kids, gone, paired, |news|, paired', done) && j < |kids| && kids[j] !in gone
    ensures InStep(kids, gone, paired[j := true], |news|, paired'[Rank(kids, gone, j) := true], done)
  {
    forall i | 0 <= i < |kids| && kids[i] !in gone
      ensures paired'[Rank(kids, gone, j) := true][Rank(kids, gone, i)] == paired[j := true][i]
    {
      if i < j { RankMonotone(kids, gone, i, j); }
      if j < i { RankMonotone(kids, gone, j, i); }
    }
  }

  /** A snapshot child without a partner finds the instance made for it. */
  lemma StepNew(t: Tree, v: Tree, kids: seq<Ref>, gone: set<Ref>, news: seq<Ref>, paired: seq<bool>, paired': seq<bool>,
                done: nat, s: Snapshot)
    requires |paired| == |kids| && |paired'| == |Keep(kids, gone)| + |news|
    requires InStep(kids, gone, paired, |news|, paired', done) && KeysKept(t, v, kids, gone)
    requires FirstFit(t, kids, paired, s, 0) == None && done < |news| && SameKey(v, news[done], s)
    ensures var r := |Keep(kids, gone)| + done;
      && FirstFit(v, Keep(kids, gone) + news, paired', s, 0) == Some(r)
      && InStep(kids, gone, paired, |news|, paired'[r := true], done + 1)
  {
    var kept := Keep(kids, gone);
    var r := |kept| + done;
    var f := FirstFit(v, kept + news, paired', s, 0);
    assert Fits(v, kept + news, paired', s, r);
    if f.value < |kept| {
      var i := RankOnto(kids, gone, f.value);
      FitsKept(t, v, kids, gone, news, paired, paired', done, s, i);
    }
    forall i | 0 <= i < |kids| && kids[i] !in gone
      ensures paired'[r := true][Rank(kids, gone, i)] == paired[i]
    {
    }
  }

  /** The pairing sends every snapshot child to its target. */
  ghost predicate Sends(all: seq<Ref>, pairing: seq<Option<nat>>, targets: seq<Ref>) {
    && |pairing| == |targets|
    && forall i :: 0 <= i < |pairing| ==>
         pairing[i].Some? && pairing[i].value < |all| && all[pairing[i].value] == targets[i]
  }

  lemma SendsFirst(all: seq<Ref>, r: nat, pairing: seq<Option<nat>>, targets: seq<Ref>)
    requires r < |all| && Sends(all, pairing, targets)
    ensures Sends(all, [Some(r)] + pairing, [all[r]] + targets)
  {
  }

  /** The second run of the pairing pairs every snapshot child with its target and
      leaves no child over. */
  ghost predicate SecondRun(t: Tree, v: Tree, kids: seq<Ref>, gone: set<Ref>, ss: seq<Snapshot>,
                            paired: seq<bool>, news: seq<Ref>, paired': seq<bool>, done: nat)
    requires |paired| == |kids| && |paired'| == |Keep(kids, gone)| + |news| && done <= |news|
    requires |news| - done == |Unmatched(t, kids, ss, paired)|
  {
    var all := Keep(kids, gone) + news;
    && Sends(all, Pairing(v, all, ss, paired'), Targets(t, kids, ss, paired, news[done..]))
    && InStep(kids, gone, Final(t, kids, ss, paired), |news|, Final(v, all, ss, paired'), |news|)
  }

  lemma SecondRunPaired(t: Tree, v: Tree, kids: seq<Ref>, gone: set<Ref>, ss: seq<Snapshot>,
                        paired: seq<bool>, news: seq<Ref>, paired': seq<bool>, done: nat, j: nat, r: nat)
    requires |paired| == |kids| && |paired'| == |Keep(kids, gone)| + |news| && done <= |news| && ss != []
    requires FirstFit(t, kids, paired, ss[0], 0) == Some(j)
    requires |news| - done == |Unmatched(t, kids, ss, paired)|
    requires FirstFit(v, Keep(kids, gone) + news, paired', ss[0], 0) == Some(r)
    requires (Keep(kids, gone) + news)[r] == kids[j]
    requires SecondRun(t, v, kids, gone, ss[1..], paired[j := true], news, paired'[r := true], done)
    ensures SecondRun(t, v, kids, gone, ss, paired, news, paired', done)
  {
    var all := Keep(kids, gone) + news;
    TargetsSplit(t, kids, ss, paired, news[done..]);
    SendsFirst(all, r, Pairing(v, all, ss[1..], paired'[r := true]),
      Targets(t, kids, ss[1..], paired[j := true], news[done..]));
  }

  lemma SecondRunNew(t: Tree, v: Tree, kids: seq<Ref>, gone: set<Ref>, ss: seq<Snapshot>,
                     paired: seq<bool>, news: seq<Ref>, paired': seq<bool>, done: nat, r: nat)
    requires |paired| == |kids| && |paired'| == |Keep(kids, gone)| + |news| && done < |news| && ss != []
    requires FirstFit(t, kids, paired, ss[0], 0) == None
    requires |news| - done == |Unmatched(t, kids, ss, paired)|
    requires FirstFit(v, Keep(kids, gone) + news, paired', ss[0], 0) == Some(r)
    requires (Keep(kids, gone) + news)[r] == news[done]
    requires SecondRun(t, v, kids, gone, ss[1..], paired, news, paired'[r := true], done + 1)
    ensures SecondRun(t, v, kids, gone, ss, paired, news, paired', done)
  {
    var all := Keep(kids, gone) + news;
    assert news[done..][1..] == news[done + 1..] && news[done..][0] == news[done];
    TargetsSplit(t, kids, ss, paired, news[done..]);
    SendsFirst(all, r, Pairing(v, all, ss[1..], paired'[r := true]),
      Targets(t, kids, ss[1..], paired, news[done + 1..]));
  }

  lemma {:induction false} SecondPairing(t: Tree, v: Tree, kids: seq<Ref>, gone: set<Ref>, ss: seq<Snapshot>,
                                         paired: seq<bool>, news: seq<Ref>, paired': seq<bool>, done: nat)
    requires |paired| == |kids| && |paired'| == |Keep(kids, gone)| + |news| && done <= |news|
    requires InStep(kids, gone, paired, |news|, paired', done) && KeysKept(t, v, kids, gone) && NoDup(kids)
    requires KeysNew(v, news[done..], Unmatched(t, kids, ss, paired))
    requires forall j :: 0 <= j < |kids| && !paired[j] ==> (kids[j] in gone <==> !Final(t, kids, ss, paired)[j])
    ensures SecondRun(t, v, kids, gone, ss, paired, news, paired', done)
    decreases |ss|
  {
    if ss != [] {
      var j := FirstFit(t, kids, paired, ss[0], 0);
      if j.Some? {
        assert kids[j.value] !in gone;
        StepPaired(t, v, kids, gone, news, paired, paired', done, ss[0], j.value);
        var r := Rank(kids, gone, j.value);
        SecondPairing(t, v, kids, gone, ss[1..], paired[j.value := true], news, paired'[r := true], done);
        SecondRunPaired(t, v, kids, gone, ss, paired, news, paired', done, j.value, r);
      } else {
        assert news[done..][0] == news[done];
        StepNew(t, v, kids, gone, news, paired, paired', done, ss[0]);
        var r := |Keep(kids, gone)| + done;
        KeysNewTail(t, v, kids, ss, paired, news, done);
        SecondPairing(t, v, kids, gone, ss[1..], paired, news, paired'[r := true], done + 1);
        SecondRunNew(t, v, kids, gone, ss, paired, news, paired', done, r);
      }
    }
  }

  lemma KeysNewTail(t: Tree, v: Tree, kids: seq<Ref>, ss: seq<Snapshot>, paired: seq<bool>, news: seq<Ref>, done: nat)
    requires |paired| == |kids| && done < |news| && ss != [] && FirstFit(t, kids, paired, ss[0], 0) == None
    requires KeysNew(v, news[done..], Unmatched(t, kids, ss, paired))
    ensures KeysNew(v, news[done + 1..], Unmatched(t, kids, ss[1..], paired))
  {
    forall q | 0 <= q < |news[done + 1..]|
      ensures SameKey(v, news[done + 1..][q], Unmatched(t, kids, ss[1..], paired)[q])
    {
      assert news[done + 1..][q] == news[done..][q + 1];
    }
  }

  // ----- the new instances -----

  lemma {:induction false} NothingToPair(t: Tree, ss: seq<Snapshot>, news: seq<Ref>)
    requires |news| == |ss|
    ensures Unmatched(t, [], ss, []) == ss
    ensures Targets(t, [], ss, [], news) == news
  {
    if ss != [] {
      NothingToPair(t, ss[1..], news[1..]);
      assert Mark([], None) == [];
    }
  }

  /** Newly made children are paired in order. */
  lemma FreshPairing(v: Tree, ss: seq<Snapshot>, news: seq<Ref>)
    requires KeysNew(v, news, ss)
    ensures var none := NonePaired(|news|);
      && (forall j :: 0 <= j < |news| ==> Final(v, news, ss, none)[j])
      && (forall i :: 0 <= i < |ss| ==>
            Pairing(v, news, ss, none)[i].Some? && news[Pairing(v, news, ss, none)[i].value] == news[i])
  {
    NothingToPair(v, ss, news);
    assert news[0..] == news;
    assert Keep([], {}) + news == news;
    SecondPairing(v, v, [], {}, ss, [], news, NonePaired(|news|), 0);
  }

  lemma {:induction false} StandingKeys(v: Tree, n: Ref, parent: Ref, ss: seq<Snapshot>, ids: map<Ref, Ref>)
    requires StandingAll(v, n, parent, ss, ids)
    ensures KeysNew(v, Bases(n, ss), ss)
    ensures forall i :: 0 <= i < |ss| ==> Standing(v, Bases(n, ss)[i], parent, ss[i], ids)
    decreases ss
  {
    if ss != [] {
      var later := Bases(n + Size(ss[0]), ss[1..]);
      StandingKeys(v, n + Size(ss[0]), parent, ss[1..], ids);
      assert Bases(n, ss) == [n] + later;
      forall i | 0 <= i < |ss| ensures SameKey(v, Bases(n, ss)[i], ss[i])
        && Standing(v, Bases(n, ss)[i], parent, ss[i], ids) {
        assert i > 0 ==> Bases(n, ss)[i] == later[i - 1] && ss[i] == ss[1..][i - 1];
      }
    }
  }

  lemma StandingSettled(v: Tree, n: Ref, parent: Ref, s: Snapshot, ids: map<Ref, Ref>)
    requires StandsOne(v, n, parent, s, ids)
    ensures Settled(v, n, s, ids)
  {
    var plain := StandingInstance(n, parent, s, ids).props;
    forall k | k !in PointedBy(s.props) ensures PropSettled(v.insts[n].props, s, ids, k) {
      assert AgreeAt(v.insts[n].props, plain, k);
      if k in s.props { VariantEqReflexive(Translate(ids, s.props[k])); }
    }
  }

  lemma {:induction false} StandingMirrors(v: Tree, n: Ref, parent: Ref, s: Snapshot, ids: map<Ref, Ref>)
    requires Standing(v, n, parent, s, ids)
    ensures Mirrors(v, n, s, ids)
    decreases s
  {
    var kids := Bases(n + 1, s.children);
    assert v.insts[n].children == kids;
    StandingKeys(v, n + 1, n, s.children, ids);
    FreshPairing(v, s.children, kids);
    StandingSettled(v, n, parent, s, ids);
    forall i | 0 <= i < |s.children| ensures Mirrors(v, kids[i], s.children[i], ids) {
      assert s.children[i] in s.children;
      StandingMirrors(v, kids[i], n, s.children[i], ids);
    }
  }

  lemma {:induction false} RowKids(v: Tree, n: Ref, added: seq<Add>, x: Ref, ids: map<Ref, Ref>)
    requires RowStanding(v, n, added, ids)
    ensures var news := NewKids(added, x, n);
      && KeysNew(v, news, AddsFor(added, x))
      && (forall q :: 0 <= q < |news| ==> Standing(v, news[q], x, AddsFor(added, x)[q], ids))
    decreases |added|
  {
    if added != [] {
      var rest := NewKids(added[1..], x, n + Size(added[0].snap));
      RowKids(v, n + Size(added[0].snap), added[1..], x, ids);
      if added[0].parent == x {
        assert NewKids(added, x, n) == [n] + rest;
        assert AddsFor(added, x) == [added[0].snap] + AddsFor(added[1..], x);
      } else {
        assert NewKids(added, x, n) == rest;
        assert AddsFor(added, x) == AddsFor(added[1..], x);
      }
    }
  }

  // ----- the paired instances -----

  /** A child that ends up paired is the partner of some snapshot child. */
  lemma {:induction false} FinalPartner(t: Tree, kids: seq<Ref>, ss: seq<Snapshot>, paired: seq<bool>, j: nat)
      returns (i: nat)
    requires |paired| == |kids| && j < |kids| && !paired[j] && Final(t, kids, ss, paired)[j]
    ensures i < |ss| && Pairing(t, kids, ss, paired)[i] == Some(j)
    decreases |ss|
  {
    var f := FirstFit(t, kids, paired, ss[0], 0);
    if f == Some(j) {
      i := 0;
    } else {
      i := FinalPartner(t, kids, ss[1..], Mark(paired, f), j);
      i := i + 1;
    }
  }

  /** The partner of a snapshot child is its target; a child without a partner has
      one of the new instances as its target. */
  lemma {:induction false} TargetOf(t: Tree, kids: seq<Ref>, ss: seq<Snapshot>, paired: seq<bool>, news: seq<Ref>,
      i: nat) returns (q: nat)
    requires |paired| == |kids| && |news| == |Unmatched(t, kids, ss, paired)| && i < |ss|
    ensures Lands(kids, ss, Pairing(t, kids, ss, paired), Targets(t, kids, ss, paired, news), news,
      Unmatched(t, kids, ss, paired), i, q)
    decreases |ss|
  {
    var f := FirstFit(t, kids, paired, ss[0], 0);
    var marked, rest := Mark(paired, f), if f.Some? then news else news[1..];
    TargetsSplit(t, kids, ss, paired, news);
    if i == 0 {
      q := 0;
    } else {
      q := TargetOf(t, kids, ss[1..], marked, rest, i - 1);
      q := OneLater(kids, ss, f, Pairing(t, kids, ss[1..], marked), Targets(t, kids, ss[1..], marked, rest), news,
        Unmatched(t, kids, ss[1..], marked), i, q);
    }
  }

  /** The target of a snapshot child: its partner, or the new instance in its turn. */
  ghost predicate Lands(kids: seq<Ref>, ss: seq<Snapshot>, pairing: seq<Option<nat>>, targets: seq<Ref>,
      news: seq<Ref>, left: seq<Snapshot>, i: nat, q: nat) {
    && i < |ss| == |pairing| == |targets| && |news| == |left|
    && if pairing[i].Some? then pairing[i].value < |kids| && targets[i] == kids[pairing[i].value]
       else q < |news| && targets[i] == news[q] && left[q] == ss[i]
  }

  lemma OneLater(kids: seq<Ref>, ss: seq<Snapshot>, f: Option<nat>, pairing: seq<Option<nat>>, targets: seq<Ref>,
      news: seq<Ref>, left: seq<Snapshot>, i: nat, q: nat) returns (q': nat)
    requires 0 < i < |ss| && (f.Some? ==> f.value < |kids|) && (f.None? ==> news != [])
    requires Lands(kids, ss[1..], pairing, targets, if f.Some? then news else news[1..], left, i - 1, q)
    ensures if f.Some? then Lands(kids, ss, [f] + pairing, [kids[f.value]] + targets, news, left, i, q')
      else Lands(kids, ss, [f] + pairing, [news[0]] + targets, news, [ss[0]] + left, i, q')
  {
    q' := if f.Some? then q else q + 1;
  }

  lemma TargetsSplit(t: Tree, kids: seq<Ref>, ss: seq<Snapshot>, paired: seq<bool>, news: seq<Ref>)
    requires |paired| == |kids| && |news| == |Unmatched(t, kids, ss, paired)| && ss != []
    ensures var f := FirstFit(t, kids, paired, ss[0], 0); var marked := Mark(paired, f);
      && Pairing(t, kids, ss, paired) == [f] + Pairing(t, kids, ss[1..], marked)
      && (f.Some? ==>
            (Targets(t, kids, ss, paired, news) == [kids[f.value]] + Targets(t, kids, ss[1..], marked, news)
            && Unmatched(t, kids, ss, paired) == Unmatched(t, kids, ss[1..], marked)))
      && (f.None? ==>
            (news != [] && |news[1..]| == |Unmatched(t, kids, ss[1..], marked)|
            && Targets(t, kids, ss, paired, news) == [news[0]] + Targets(t, kids, ss[1..], marked, news[1..])
            && Unmatched(t, kids, ss, paired) == [ss[0]] + Unmatched(t, kids, ss[1..], marked)))
  {
  }

  /** Everything known about a reconciliation, for the lemmas below. */
  ghost predicate Settling(t: Tree, v: Tree, p: Plan, s: Snapshot) {
    && WellFormed(t) && GoodPlan(t, s, p) && AllLocal(t, p) && Done(t, v, p)
  }

  /** A pairing that is complete on both sides and sends child `i` to `targets[i]`. */
  ghost predicate PairsAll(v: Tree, all: seq<Ref>, ss: seq<Snapshot>, targets: seq<Ref>)
    requires |targets| == |ss|
  {
    var none := NonePaired(|all|);
    && (forall j :: 0 <= j < |all| ==> Final(v, all, ss, none)[j])
    && (forall i :: 0 <= i < |ss| ==>
          Pairing(v, all, ss, none)[i].Some? && all[Pairing(v, all, ss, none)[i].value] == targets[i])
  }

  lemma TwoRuns(t: Tree, v: Tree, kids: seq<Ref>, gone: set<Ref>, ss: seq<Snapshot>, news: seq<Ref>)
    requires KeysKept(t, v, kids, gone) && NoDup(kids)
    requires KeysNew(v, news, Unmatched(t, kids, ss, NonePaired(|kids|)))
    requires forall j :: 0 <= j < |kids| ==> (kids[j] in gone <==> !Final(t, kids, ss, NonePaired(|kids|))[j])
    ensures PairsAll(v, Keep(kids, gone) + news, ss, Targets(t, kids, ss, NonePaired(|kids|), news))
  {
    var none := NonePaired(|kids|);
    assert news[0..] == news;
    var none' := NonePaired(|Keep(kids, gone)| + |news|);
    SecondPairing(t, v, kids, gone, ss, none, news, none', 0);
    var all := Keep(kids, gone) + news;
    assert none' == NonePaired(|all|);
    forall j | 0 <= j < |all| ensures Final(v, all, ss, none')[j] {
      if j < |Keep(kids, gone)| {
        var i := RankOnto(kids, gone, j);
        assert kids[i] !in gone;
      }
    }
  }

  /** The children of a visited instance after reconciling: paired with exactly the
      targets of the first pairing. */
  lemma PairedChildren(t: Tree, v: Tree, p: Plan, root: Snapshot, x: Ref, s: Snapshot)
    requires Settling(t, v, p, root) && (x, s) in p.pairs
    ensures x in t.insts && x in v.insts
    ensures var kids := t.insts[x].children;
      var none := NonePaired(|kids|);
      var news := NewKids(p.patch.added, x, t.next);
      && |news| == |Unmatched(t, kids, s.children, none)|
      && (forall q :: 0 <= q < |news| ==>
            Standing(v, news[q], x, Unmatched(t, kids, s.children, none)[q], Table(p, t.next)))
      && PairsAll(v, v.insts[x].children, s.children, Targets(t, kids, s.children, none, news))
  {
    ChildrenAfter(t, v, p, root, x, s);
    assert NodeOk(t, x);
    PairedRow(t, v, t.insts[x].children, p.patch.removed, s.children, p.patch.added, x, t.next, Table(p, t.next));
  }

  lemma PairedRow(t: Tree, v: Tree, kids: seq<Ref>, removed: seq<Ref>, ss: seq<Snapshot>, added: seq<Add>, x: Ref,
      n: Ref, ids: map<Ref, Ref>)
    requires KeysKept(t, v, kids, Elements(removed)) && NoDup(kids) && RowStanding(v, n, added, ids)
    requires AddsFor(added, x) == Unmatched(t, kids, ss, NonePaired(|kids|))
    requires forall j :: 0 <= j < |kids| ==> (kids[j] in removed <==> !Final(t, kids, ss, NonePaired(|kids|))[j])
    ensures var none, news := NonePaired(|kids|), NewKids(added, x, n);
      && |news| == |Unmatched(t, kids, ss, none)|
      && (forall q :: 0 <= q < |news| ==> Standing(v, news[q], x, Unmatched(t, kids, ss, none)[q], ids))
      && PairsAll(v, Keep(kids, Elements(removed)) + news, ss, Targets(t, kids, ss, none, news))
  {
    RowKids(v, n, added, x, ids);
    TwoRuns(t, v, kids, Elements(removed), ss, NewKids(added, x, n));
  }

  lemma ChildrenAfter(t: Tree, v: Tree, p: Plan, root: Snapshot, x: Ref, s: Snapshot)
    requires Settling(t, v, p, root) && (x, s) in p.pairs
    ensures WellFormed(t) && x in t.insts && x in v.insts && Local(t, p, x, s)
    ensures v.insts[x].children ==
      Keep(t.insts[x].children, Elements(p.patch.removed)) + NewKids(p.patch.added, x, t.next)
    ensures RowStanding(v, t.next, p.patch.added, Table(p, t.next))
    ensures KeysKept(t, v, t.insts[x].children, Elements(p.patch.removed))
  {
    assert (x, s).0 in t.insts && PairDone(t, v, p, (x, s).0, (x, s).1) && Local(t, p, (x, s).0, (x, s).1);
    PartnersKeepKeys(t, v, p, x, s);
  }

  lemma PartnersKeepKeys(t: Tree, v: Tree, p: Plan, x: Ref, s: Snapshot)
    requires WellFormed(t) && x in t.insts && Local(t, p, x, s)
    requires forall y :: y in p.pairs ==> y.0 in t.insts && PairDone(t, v, p, y.0, y.1)
    ensures KeysKept(t, v, t.insts[x].children, Elements(p.patch.removed))
  {
    var kids := t.insts[x].children;
    var none := NonePaired(|kids|);
    forall k | k in kids && k !in p.patch.removed
      ensures k in t.insts && k in v.insts
        && v.insts[k].name == t.insts[k].name && v.insts[k].className == t.insts[k].className
    {
      var j :| 0 <= j < |kids| && kids[j] == k;
      var i := FinalPartner(t, kids, s.children, none, j);
      assert SameKey(t, k, s.children[i]);
      assert (k, s.children[i]) in p.pairs;
      assert PairDone(t, v, p, (k, s.children[i]).0, (k, s.children[i]).1);
    }
  }
}
