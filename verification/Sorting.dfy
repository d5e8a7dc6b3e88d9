/**
 Stable sorting by a total preorder. The program sorts lyrics by time and artists by name and role
 with the standard library's stable sort; here that sort is insertion, shown to be sorted, a
 permutation, and to keep equivalent elements in their original order, which together
 determine it.
 */
module Sorting {

  /** Inserts after every element that may precede it. */
  function InsertBy<T>(s: seq<T>, x: T, le: (T, T) -> bool): (r: seq<T>)
    ensures |r| == |s| + 1
  {
    if s == [] then [x]
    else if le(s[|s| - 1], x) then s + [x]
    else InsertBy(s[..|s| - 1], x, le) + [s[|s| - 1]]
  }

  function SortBy<T>(s: seq<T>, le: (T, T) -> bool): (r: seq<T>)
    ensures |r| == |s|
  {
    if s == [] then [] else InsertBy(SortBy(s[..|s| - 1], le), s[|s| - 1], le)
  }

  ghost predicate TotalPreorder<T(!new)>(le: (T, T) -> bool) {
    (forall x, y :: le(x, y) || le(y, x)) && forall x, y, z :: le(x, y) && le(y, z) ==> le(x, z)
  }

  ghost predicate SortedBy<T>(s: seq<T>, le: (T, T) -> bool) {
    forall i, j :: 0 <= i < j < |s| ==> le(s[i], s[j])
  }

  predicate Equivalent<T>(x: T, y: T, le: (T, T) -> bool) {
    le(x, y) && le(y, x)
  }

  /** The elements equivalent to `x`, in order. */
  function Alike<T>(s: seq<T>, x: T, le: (T, T) -> bool): (r: seq<T>)
    ensures |r| <= |s|
  {
    if s == [] then [] else
      var init, last := Alike(s[..|s| - 1], x, le), s[|s| - 1];
      if Equivalent(x, last, le) then init + [last] else init
  }

  lemma AlikeSnoc<T>(s: seq<T>, last: T, x: T, le: (T, T) -> bool)
    ensures Alike(s + [last], x, le) == if Equivalent(x, last, le) then Alike(s, x, le) + [last] else Alike(s, x, le)
  {
    assert (s + [last])[..|s|] == s;
  }

  // ---- insertion -------------------------------------------------------

  lemma {:induction false} InsertPermutes<T>(s: seq<T>, x: T, le: (T, T) -> bool)
    ensures multiset(InsertBy(s, x, le)) == multiset(s) + multiset{x}
    decreases |s|
  {
    if s != [] {
      assert s == s[..|s| - 1] + [s[|s| - 1]];
      InsertPermutes(s[..|s| - 1], x, le);
    }
  }

  lemma Bounded<T>(all: seq<T>, init: seq<T>, x: T, top: T, le: (T, T) -> bool)
    requires multiset(all) == multiset(init) + multiset{x} && le(x, top)
    requires forall k :: 0 <= k < |init| ==> le(init[k], top)
    ensures forall k :: 0 <= k < |all| ==> le(all[k], top)
  {
    forall k | 0 <= k < |all| ensures le(all[k], top) {
      assert all[k] in multiset(all);
      assert all[k] in init || all[k] == x;
    }
  }

  lemma {:induction false} InsertSorts<T(!new)>(s: seq<T>, x: T, le: (T, T) -> bool)
    requires TotalPreorder(le) && SortedBy(s, le)
    ensures SortedBy(InsertBy(s, x, le), le)
    decreases |s|
  {
    if s != [] {
      var init, last := s[..|s| - 1], s[|s| - 1];
      if le(last, x) {
        forall k | 0 <= k < |s| ensures le(s[k], x) {
          assert k < |s| - 1 ==> le(s[k], last);
        }
      } else {
        InsertSorts(init, x, le);
        InsertPermutes(init, x, le);
        Bounded(InsertBy(init, x, le), init, x, last, le);
      }
    }
  }

  lemma {:induction false} InsertKeepsAlike<T(!new)>(s: seq<T>, x: T, y: T, le: (T, T) -> bool)
    requires TotalPreorder(le)
    ensures Alike(InsertBy(s, x, le), y, le) == if Equivalent(y, x, le) then Alike(s, y, le) + [x] else Alike(s, y, le)
    decreases |s|
  {
    hide Alike;
    if s == [] {
      AlikeSnoc([], x, y, le);
      assert [] + [x] == [x];
    } else {
      var init, last := s[..|s| - 1], s[|s| - 1];
      assert s == init + [last];
      AlikeSnoc(s, x, y, le);
      if !le(last, x) {
        InsertKeepsAlike(init, x, y, le);
        AlikeSnoc(init, last, y, le);
        AlikeSnoc(InsertBy(init, x, le), last, y, le);
      }
    }
  }

  // ---- sorting ---------------------------------------------------------

  lemma {:induction false} SortPermutes<T>(s: seq<T>, le: (T, T) -> bool)
    ensures multiset(SortBy(s, le)) == multiset(s)
  {
    if s != [] {
      SortPermutes(s[..|s| - 1], le);
      InsertPermutes(SortBy(s[..|s| - 1], le), s[|s| - 1], le);
      assert s == s[..|s| - 1] + [s[|s| - 1]];
    }
  }

  lemma {:induction false} SortSorts<T(!new)>(s: seq<T>, le: (T, T) -> bool)
    requires TotalPreorder(le)
    ensures SortedBy(SortBy(s, le), le)
  {
    if s != [] {
      SortSorts(s[..|s| - 1], le);
      InsertSorts(SortBy(s[..|s| - 1], le), s[|s| - 1], le);
    }
  }

  /** Equivalent elements keep their order. */
  lemma {:induction false} SortIsStable<T(!new)>(s: seq<T>, x: T, le: (T, T) -> bool)
    requires TotalPreorder(le)
    ensures Alike(SortBy(s, le), x, le) == Alike(s, x, le)
  {
    hide Alike;
    if s != [] {
      var init, last := s[..|s| - 1], s[|s| - 1];
      SortIsStable(init, x, le);
      InsertKeepsAlike(SortBy(init, le), last, x, le);
      AlikeSnoc(init, last, x, le);
      assert s == init + [last];
    }
  }

  // ---- the result is determined ----------------------------------------

  /** Equivalent members are equal. */
  ghost predicate Antisymmetric<T(!new)>(a: seq<T>, le: (T, T) -> bool) {
    forall x, y :: x in a && y in a && Equivalent(x, y, le) ==> x == y
  }

  /** Sorted permutations of each other are equal when equivalent members are. */
  lemma {:induction false} SortedUnique<T(!new)>(a: seq<T>, b: seq<T>, le: (T, T) -> bool)
    requires TotalPreorder(le) && SortedBy(a, le) && SortedBy(b, le) && multiset(a) == multiset(b)
    requires Antisymmetric(a, le)
    ensures a == b
    decreases |a|
  {
    hide TotalPreorder, SortedBy, Antisymmetric;
    SameSize(a, b);
    if a != [] {
      LastEqual(a, b, le);
      InitSorted(a, le);
      InitSorted(b, le);
      DropLast(a);
      DropLast(b);
      InitAntisymmetric(a, le);
      SortedUnique(a[..|a| - 1], b[..|b| - 1], le);
      assert a == a[..|a| - 1] + [a[|a| - 1]] && b == b[..|b| - 1] + [b[|b| - 1]];
    }
  }

  lemma SameSize<T>(a: seq<T>, b: seq<T>)
    requires multiset(a) == multiset(b)
    ensures |a| == |b|
  {
    assert |multiset(a)| == |multiset(b)|;
  }

  lemma LastEqual<T(!new)>(a: seq<T>, b: seq<T>, le: (T, T) -> bool)
    requires TotalPreorder(le) && SortedBy(a, le) && SortedBy(b, le) && multiset(a) == multiset(b)
      && Antisymmetric(a, le)
    requires a != [] && b != []
    ensures a[|a| - 1] == b[|b| - 1]
  {
    hide TotalPreorder, SortedBy;
    var x, y := a[|a| - 1], b[|b| - 1];
    assert y in multiset(b) && x in multiset(a);
    LastIsTop(a, y, le);
    LastIsTop(b, x, le);
    assert x in a && y in a && Equivalent(x, y, le);
  }

  lemma DropLast<T>(a: seq<T>)
    requires a != []
    ensures multiset(a[..|a| - 1]) == multiset(a) - multiset{a[|a| - 1]}
  {
    assert a == a[..|a| - 1] + [a[|a| - 1]];
  }

  lemma InitAntisymmetric<T(!new)>(a: seq<T>, le: (T, T) -> bool)
    requires Antisymmetric(a, le) && a != []
    ensures Antisymmetric(a[..|a| - 1], le)
  {
    assert forall x :: x in a[..|a| - 1] ==> x in a;
  }

  lemma InitSorted<T>(a: seq<T>, le: (T, T) -> bool)
    requires SortedBy(a, le) && a != []
    ensures SortedBy(a[..|a| - 1], le)
  {}

  lemma LastIsTop<T(!new)>(a: seq<T>, y: T, le: (T, T) -> bool)
    requires TotalPreorder(le) && SortedBy(a, le) && a != [] && y in multiset(a)
    ensures le(y, a[|a| - 1]) && y in a
  {
    var k :| 0 <= k < |a| && a[k] == y;
  }

  /** Sorted sequences with the same equivalent elements in the same order are equal. */
  lemma {:induction false} StableUnique<T(!new)>(a: seq<T>, b: seq<T>, le: (T, T) -> bool)
    requires TotalPreorder(le) && SortedBy(a, le) && SortedBy(b, le)
    requires forall x :: Alike(a, x, le) == Alike(b, x, le)
    ensures a == b
    decreases |a|
  {
    hide Alike;
    if a == [] {
      NoneAlike(b, le);
    } else {
      if b == [] { NoneAlike(a, le); }
      var x, y := a[|a| - 1], b[|b| - 1];
      LastBounds(a, b, le);
      LastBounds(b, a, le);
      var a', b' := a[..|a| - 1], b[..|b| - 1];
      assert a == a' + [x] && b == b' + [y];
      SnocAgree(a', x, b', y, x, le);
      forall z ensures Alike(a', z, le) == Alike(b', z, le) {
        SnocAgree(a', x, b', y, z, le);
      }
      StableUnique(a', b', le);
    }
  }

  lemma {:induction false} AlikeMembers<T(!new)>(s: seq<T>, x: T, le: (T, T) -> bool)
    ensures Alike(s, x, le) == [] <==> forall k :: 0 <= k < |s| ==> !Equivalent(x, s[k], le)
  {
    if s != [] {
      AlikeMembers(s[..|s| - 1], x, le);
      assert s == s[..|s| - 1] + [s[|s| - 1]];
    }
  }

  lemma NoneAlike<T(!new)>(b: seq<T>, le: (T, T) -> bool)
    requires TotalPreorder(le) && forall x :: Alike(b, x, le) == Alike([], x, le)
    ensures b == []
  {
    if b != [] { AlikeMembers(b, b[0], le); }
  }

  lemma LastBounds<T(!new)>(a: seq<T>, b: seq<T>, le: (T, T) -> bool)
    requires TotalPreorder(le) && SortedBy(a, le) && a != [] && b != []
    requires forall x :: Alike(a, x, le) == Alike(b, x, le)
    ensures le(b[|b| - 1], a[|a| - 1])
  {
    hide TotalPreorder, SortedBy, Alike;
    var y := b[|b| - 1];
    AlikeMembers(a, y, le);
    AlikeMembers(b, y, le);
    Reflexive(y, le);
    assert Alike(a, y, le) == Alike(b, y, le);
    var k :| 0 <= k < |a| && Equivalent(y, a[k], le);
    AtMostLast(a, k, le);
    Transitive(y, a[k], a[|a| - 1], le);
  }

  lemma Reflexive<T(!new)>(x: T, le: (T, T) -> bool)
    requires TotalPreorder(le)
    ensures le(x, x)
  {}

  lemma Transitive<T(!new)>(x: T, y: T, z: T, le: (T, T) -> bool)
    requires TotalPreorder(le) && le(x, y) && le(y, z)
    ensures le(x, z)
  {}

  lemma AtMostLast<T(!new)>(a: seq<T>, k: nat, le: (T, T) -> bool)
    requires TotalPreorder(le) && SortedBy(a, le) && k < |a|
    ensures le(a[k], a[|a| - 1])
  {
    if k == |a| - 1 { Reflexive(a[k], le); }
  }

  lemma SnocAgree<T(!new)>(a: seq<T>, x: T, b: seq<T>, y: T, z: T, le: (T, T) -> bool)
    requires TotalPreorder(le) && Equivalent(x, y, le) && Alike(a + [x], z, le) == Alike(b + [y], z, le)
    ensures Alike(a, z, le) == Alike(b, z, le) && (Equivalent(z, x, le) ==> x == y)
  {
    AlikeSnoc(a, x, z, le);
    AlikeSnoc(b, y, z, le);
    if Equivalent(z, x, le) {
      var s, t := Alike(a, z, le), Alike(b, z, le);
      assert (s + [x])[|s|] == x && (t + [y])[|t|] == y;
      assert s == (s + [x])[..|s|] && t == (t + [y])[..|t|];
    }
  }
}
