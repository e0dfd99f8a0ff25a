/** A stable sort, and why sorting has one outcome when the order tells the elements apart. */
module StableSort {
  /** Any two values are comparable, and the order is transitive. */
  ghost predicate TotalPreorder<T(!new)>(le: (T, T) -> bool) {
    && (forall x, y :: le(x, y) || le(y, x))
    && (forall x, y, z :: le(x, y) && le(y, z) ==> le(x, z))
  }

  ghost predicate Ordered<T(!new)>(s: seq<T>, le: (T, T) -> bool) {
    forall i, j :: 0 <= i < j < |s| ==> le(s[i], s[j])
  }

  /** Elements the order does not tell apart are equal. */
  ghost predicate Decides<T(!new)>(s: seq<T>, le: (T, T) -> bool) {
    forall i, j :: 0 <= i < |s| && 0 <= j < |s| && le(s[i], s[j]) && le(s[j], s[i]) ==> s[i] == s[j]
  }

  /** Inserts `x` behind every element that is not greater. */
  function Inserted<T>(x: T, s: seq<T>, le: (T, T) -> bool): seq<T> {
    if s == [] then [x]
    else if le(s[|s| - 1], x) then s + [x]
    else Inserted(x, s[..|s| - 1], le) + [s[|s| - 1]]
  }

  function Sorted<T>(s: seq<T>, le: (T, T) -> bool): seq<T> {
    if s == [] then [] else Inserted(s[|s| - 1], Sorted(s[..|s| - 1], le), le)
  }

  lemma {:induction false} InsertedStaysBelow<T(!new)>(x: T, s: seq<T>, le: (T, T) -> bool, bound: T)
    requires le(x, bound) && forall i :: 0 <= i < |s| ==> le(s[i], bound)
    ensures forall i :: 0 <= i < |Inserted(x, s, le)| ==> le(Inserted(x, s, le)[i], bound)
  {
    if s != [] && !le(s[|s| - 1], x) {
      InsertedStaysBelow(x, s[..|s| - 1], le, bound);
    }
  }

  lemma {:induction false} InsertedIsOrdered<T(!new)>(x: T, s: seq<T>, le: (T, T) -> bool)
    requires TotalPreorder(le) && Ordered(s, le)
    ensures Ordered(Inserted(x, s, le), le)
  {
    if s != [] {
      var last, front := s[|s| - 1], s[..|s| - 1];
      if le(last, x) {
        forall i | 0 <= i < |s| ensures le(s[i], x) { assert i < |s| - 1 ==> le(s[i], last); }
      } else {
        InsertedIsOrdered(x, front, le);
        InsertedStaysBelow(x, front, le, last);
      }
    }
  }

  lemma {:induction false} InsertedHoldsBoth<T(!new)>(x: T, s: seq<T>, le: (T, T) -> bool)
    ensures multiset(Inserted(x, s, le)) == multiset(s) + multiset{x}
  {
    if s != [] && !le(s[|s| - 1], x) {
      InsertedHoldsBoth(x, s[..|s| - 1], le);
      LastOf(s);
    }
  }

  lemma LastOf<T>(s: seq<T>)
    requires s != []
    ensures multiset(s) == multiset(s[..|s| - 1]) + multiset{s[|s| - 1]}
  {
    assert s == s[..|s| - 1] + [s[|s| - 1]];
  }

  lemma {:induction false} SortedHoldsTheSame<T(!new)>(s: seq<T>, le: (T, T) -> bool)
    ensures multiset(Sorted(s, le)) == multiset(s)
  {
    if s != [] {
      var last, front := s[|s| - 1], s[..|s| - 1];
      SortedHoldsTheSame(front, le);
      InsertedHoldsBoth(last, Sorted(front, le), le);
      LastOf(s);
    }
  }

  lemma {:induction false} SortedIsOrdered<T(!new)>(s: seq<T>, le: (T, T) -> bool)
    requires TotalPreorder(le)
    ensures Ordered(Sorted(s, le), le)
  {
    if s != [] {
      SortedIsOrdered(s[..|s| - 1], le);
      InsertedIsOrdered(s[|s| - 1], Sorted(s[..|s| - 1], le), le);
    }
  }

  /** Sorting orders the elements and keeps every one of them. */
  lemma SortedIsAnOrderedPermutation<T(!new)>(s: seq<T>, le: (T, T) -> bool)
    requires TotalPreorder(le)
    ensures multiset(Sorted(s, le)) == multiset(s) && Ordered(Sorted(s, le), le)
  {
    SortedHoldsTheSame(s, le);
    SortedIsOrdered(s, le);
  }

  lemma SameFirst<T(!new)>(s: seq<T>, t: seq<T>, le: (T, T) -> bool)
    requires TotalPreorder(le) && multiset(s) == multiset(t) && Ordered(s, le) && Ordered(t, le) && Decides(s, le)
    requires s != [] && t != []
    ensures s[0] == t[0]
  {
    assert t[0] in multiset(s) && s[0] in multiset(t);
    var i :| 0 <= i < |s| && s[i] == t[0];
    var j :| 0 <= j < |t| && t[j] == s[0];
    assert le(s[0], s[i]) && le(t[0], t[j]);
  }

  /** Two orderings of the same elements are one when the order tells them apart. */
  lemma {:induction false} OneOrdering<T(!new)>(s: seq<T>, t: seq<T>, le: (T, T) -> bool)
    requires TotalPreorder(le) && multiset(s) == multiset(t) && Ordered(s, le) && Ordered(t, le) && Decides(s, le)
    ensures s == t
  {
    assert |multiset(s)| == |s| && |multiset(t)| == |t|;
    if s != [] {
      SameFirst(s, t, le);
      RestOf(s);
      RestOf(t);
      RestIsOrdered(s, le);
      RestIsOrdered(t, le);
      OneOrdering(s[1..], t[1..], le);
    }
  }

  lemma RestOf<T>(s: seq<T>)
    requires s != []
    ensures s == [s[0]] + s[1..] && multiset(s[1..]) == multiset(s) - multiset{s[0]}
  {
    assert s == [s[0]] + s[1..];
  }

  lemma RestIsOrdered<T(!new)>(s: seq<T>, le: (T, T) -> bool)
    requires s != [] && Ordered(s, le)
    ensures Ordered(s[1..], le)
    ensures Decides(s, le) ==> Decides(s[1..], le)
  {
    forall i, j | 0 <= i < j < |s[1..]| ensures le(s[1..][i], s[1..][j]) {
      assert s[1..][i] == s[i + 1] && s[1..][j] == s[j + 1];
    }
  }

  lemma DecidesAnyOrder<T(!new)>(s: seq<T>, t: seq<T>, le: (T, T) -> bool)
    requires multiset(s) == multiset(t) && Decides(s, le)
    ensures Decides(t, le)
  {
    forall i, j | 0 <= i < |t| && 0 <= j < |t| && le(t[i], t[j]) && le(t[j], t[i]) ensures t[i] == t[j] {
      assert t[i] in multiset(s) && t[j] in multiset(s);
    }
  }

  /** What sorting gives does not depend on the order the elements came in. */
  lemma SortIsCanonical<T(!new)>(s: seq<T>, t: seq<T>, le: (T, T) -> bool)
    requires TotalPreorder(le) && multiset(s) == multiset(t) && Decides(s, le)
    ensures Sorted(s, le) == Sorted(t, le)
  {
    SortedIsAnOrderedPermutation(s, le);
    SortedIsAnOrderedPermutation(t, le);
    DecidesAnyOrder(s, Sorted(s, le), le);
    OneOrdering(Sorted(s, le), Sorted(t, le), le);
  }
}
