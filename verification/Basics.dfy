/** Small vocabulary shared by every module: options, references, and facts about
    sequences without repetition. */
module Basics {
  datatype Option<+T> = None | Some(value: T)

  /** A `Ref` is modelled by its order of generation: the n-th reference ever
      generated is n. Zero is the null reference. */
  type Ref = nat

  const NO_REF: Ref := 0

  ghost predicate NoDup<T>(s: seq<T>) {
    forall i, j :: 0 <= i < j < |s| ==> s[i] != s[j]
  }

  lemma NoDupAppend<T>(a: seq<T>, b: seq<T>)
    requires NoDup(a) && NoDup(b)
    requires forall x | x in a :: x !in b
    ensures NoDup(a + b)
  {
    forall i, j | 0 <= i < j < |a + b| ensures (a + b)[i] != (a + b)[j] {
      if i < |a| <= j { assert a[i] in a; }
    }
  }

  /** The elements of `s` that are not in `gone`, in their original order. */
  function Keep<T(==,!new)>(s: seq<T>, gone: set<T>): (r: seq<T>)
    ensures forall x :: x in r <==> x in s && x !in gone
  {
    if s == [] then []
    else if s[0] in gone then Keep(s[1..], gone)
    else [s[0]] + Keep(s[1..], gone)
  }

  /** A sequence without repetition, from position `k` on. */
  lemma SuffixElements<T(!new)>(s: seq<T>, k: nat)
    requires NoDup(s) && k < |s|
    ensures s[k] !in s[k + 1..] && Elements(s[k..]) == Elements(s[k + 1..]) + {s[k]}
  {
    assert s[k..] == [s[k]] + s[k + 1..];
    var tail := s[k + 1..];
    forall i | 0 <= i < |tail| ensures tail[i] != s[k] { assert tail[i] == s[k + 1 + i]; }
    forall x ensures x in Elements(s[k..]) <==> x in Elements(s[k + 1..]) + {s[k]} {
      assert x in s[k..] <==> x in s[k + 1..] || x == s[k];
    }
  }

  function Elements<T(==,!new)>(s: seq<T>): (r: set<T>)
    ensures forall x :: x in r <==> x in s
  {
    set x | x in s
  }

  lemma {:induction false} KeepNoDup<T(!new)>(s: seq<T>, gone: set<T>)
    requires NoDup(s)
    ensures NoDup(Keep(s, gone))
  {
    if s != [] {
      KeepNoDup(s[1..], gone);
      assert s[0] !in s[1..];
    }
  }

  /** Removing in two rounds is removing the union. */
  lemma {:induction false} KeepKeep<T(!new)>(s: seq<T>, a: set<T>, b: set<T>)
    ensures Keep(Keep(s, a), b) == Keep(s, a + b)
  {
    if s != [] {
      KeepKeep(s[1..], a, b);
      if s[0] !in a {
        assert ([s[0]] + Keep(s[1..], a))[1..] == Keep(s[1..], a);
      }
    }
  }

  lemma {:induction false} KeepAll<T(!new)>(s: seq<T>, gone: set<T>)
    requires forall x :: x in s ==> x !in gone
    ensures Keep(s, gone) == s
  {
    if s != [] {
      forall x | x in s[1..] ensures x !in gone {
        assert x in s;
      }
      KeepAll(s[1..], gone);
    }
  }
}
