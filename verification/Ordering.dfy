/** The order of strings, and listing a set of strings in that order. */
module Ordering {

  predicate Less(a: string, b: string) {
    b != [] && (a == [] || a[0] < b[0] || (a[0] == b[0] && Less(a[1..], b[1..])))
  }

  /** The first difference decides, and a text comes before what it is the start of. */
  ghost predicate Precedes(a: string, b: string) {
    (a <= b && |a| < |b|) || exists n :: 0 <= n < |a| && n < |b| && a[..n] == b[..n] && a[n] < b[n]
  }

  lemma {:induction false} LessSpelledOut(a: string, b: string)
    ensures Less(a, b) <==> Precedes(a, b)
  {
    if a != [] && b != [] && a[0] == b[0] {
      LessSpelledOut(a[1..], b[1..]);
      PrecedesFrom(a, b);
      PrecedesOn(a, b);
    } else if a != [] && b != [] && a[0] < b[0] {
      assert a[..0] == b[..0];
    } else if a != [] && b != [] {
      assert forall n :: 0 < n < |a| && n < |b| && a[..n] == b[..n] ==> a[..n][0] == b[..n][0];
    }
  }

  lemma PrecedesFrom(a: string, b: string)
    requires a != [] && b != [] && a[0] == b[0]
    ensures Precedes(a, b) ==> Precedes(a[1..], b[1..])
  {
    if n :| 0 <= n < |a| && n < |b| && a[..n] == b[..n] && a[n] < b[n] {
      assert a[1..][..n - 1] == a[..n][1..] && b[1..][..n - 1] == b[..n][1..];
    }
  }

  lemma PrecedesOn(a: string, b: string)
    requires a != [] && b != [] && a[0] == b[0]
    ensures Precedes(a[1..], b[1..]) ==> Precedes(a, b)
  {
    assert a == [a[0]] + a[1..] && b == [b[0]] + b[1..];
    if n :| 0 <= n < |a[1..]| && n < |b[1..]| && a[1..][..n] == b[1..][..n] && a[1..][n] < b[1..][n] {
      assert a[..n + 1] == [a[0]] + a[1..][..n] && b[..n + 1] == [b[0]] + b[1..][..n];
    }
  }

  lemma {:induction false} LessIrreflexive(a: string)
    ensures !Less(a, a)
  {
    if a != [] { LessIrreflexive(a[1..]); }
  }

  lemma {:induction false} LessTransitive(a: string, b: string, c: string)
    requires Less(a, b) && Less(b, c)
    ensures Less(a, c)
  {
    if a != [] && a[0] == b[0] == c[0] { LessTransitive(a[1..], b[1..], c[1..]); }
  }

  lemma {:induction false} LessTotal(a: string, b: string)
    ensures Less(a, b) || a == b || Less(b, a)
  {
    if a != [] && b != [] && a[0] == b[0] {
      LessTotal(a[1..], b[1..]);
      assert a == [a[0]] + a[1..] && b == [b[0]] + b[1..];
    }
  }

  ghost predicate Increasing(s: seq<string>) {
    forall i, j :: 0 <= i < j < |s| ==> Less(s[i], s[j])
  }

  ghost function Least(s: set<string>): (m: string)
    requires s != {}
    ensures m in s && forall x :: x in s ==> x == m || Less(m, x)
  {
    var x :| x in s;
    if s == {x} then x
    else
      var m := Least(s - {x});
      LessTotal(x, m);
      assert Less(x, m) ==> forall y :: y in s && Less(m, y) ==> Less(x, y) by {
        forall y | Less(x, m) && Less(m, y) ensures Less(x, y) { LessTransitive(x, m, y); }
      }
      if Less(x, m) then x else m
  }

  /** The elements of a set of strings in increasing order. */
  ghost function Sorted(s: set<string>): (r: seq<string>)
    ensures Increasing(r)
    ensures forall x :: x in r <==> x in s
  {
    if s == {} then []
    else
      var m := Least(s);
      var rest := Sorted(s - {m});
      assert forall j :: 0 <= j < |rest| ==> rest[j] in rest;
      [m] + rest
  }

  /** Only one increasing list has a given set of elements. */
  lemma {:induction false} IncreasingUnique(a: seq<string>, b: seq<string>)
    requires Increasing(a) && Increasing(b)
    requires forall x :: x in a <==> x in b
    ensures a == b
  {
    if a == [] {
      assert forall i :: 0 <= i < |b| ==> b[i] in b;
    } else {
      assert a[0] in b;
      if a[0] != b[0] {
        assert b[0] in a;
        LessTransitive(a[0], b[0], a[0]);
        LessIrreflexive(a[0]);
      }
      forall x ensures x in a[1..] <==> x in b[1..] {
        LessIrreflexive(a[0]);
        assert x in a[1..] ==> x in a && x != a[0];
        assert x in b[1..] ==> x in b && x != b[0];
      }
      IncreasingUnique(a[1..], b[1..]);
    }
  }

  /** The order in which a `BTreeMap` hands out its keys. */
  method SortNames(names: set<string>) returns (r: seq<string>)
    ensures r == Sorted(names)
  {
    r := [];
    var rest := names;
    while rest != {}
      invariant rest <= names
      invariant Increasing(r)
      invariant forall x :: x in r <==> x in names && x !in rest
      invariant forall x, y :: x in r && y in rest ==> Less(x, y)
      decreases rest
    {
      LeastExists(rest);
      var m :| m in rest && forall x :: x in rest ==> x == m || Less(m, x);
      r := r + [m];
      rest := rest - {m};
    }
    IncreasingUnique(r, Sorted(names));
  }

  lemma LeastExists(names: set<string>)
    requires names != {}
    ensures exists m :: m in names && forall x :: x in names ==> x == m || Less(m, x)
  {
    var m := Least(names);
    assert m in names;
  }
}
