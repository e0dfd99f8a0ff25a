/** Vocabulary the other modules share. */
module Common {
  datatype Option<+T> = None | Some(value: T)

  /** No value occurs at two places of `s`. */
  ghost predicate Distinct<T(!new)>(s: seq<T>) {
    forall i, j :: 0 <= i < j < |s| ==> s[i] != s[j]
  }

  /** The values of `s`. */
  function Elements<T>(s: seq<T>): (r: set<T>) {
    set x | x in s
  }

  /** Some member of `s`. */
  ghost function MemberOf<T>(s: set<T>): (x: T)
    requires s != {}
    ensures x in s
  {
    var x :| x in s; x
  }

  lemma Associative<T>(a: seq<T>, b: seq<T>, c: seq<T>)
    ensures a + b + c == a + (b + c)
  {}

  /** A place at which `s` holds `x`. */
  lemma {:induction false} PlaceOf<T>(s: seq<T>, x: T) returns (k: nat)
    requires x in s
    ensures k < |s| && s[k] == x
  {
    if s[0] == x {
      k := 0;
    } else {
      var later := PlaceOf(s[1..], x);
      k := later + 1;
    }
  }

  lemma SubsetIsNoLarger<T>(a: set<T>, b: set<T>)
    requires a <= b
    ensures |a| <= |b|
  {
    assert b == a + (b - a);
  }

  function Min(a: nat, b: nat): nat {
    if a < b then a else b
  }

  /** Why the registry of pending writes rejects a write. */
  datatype WriteRejection = ReadOnlySession | ShuttingDown

  /** A UTC day, as a number of days. */
  type Day = int

  /** The days a delete removed from an archive. */
  datatype PrunedDays = All | Before(cutoff: Day) {
    predicate Covers(day: Day) {
      match this
      case All => true
      case Before(cutoff) => day < cutoff
    }
  }

  /** `s` without the values in `dropped`, in the order of `s`: what `retain` leaves. */
  function Without<T(==,!new)>(s: seq<T>, dropped: set<T>): seq<T> {
    if s == [] then []
    else if s[0] in dropped then Without(s[1..], dropped)
    else [s[0]] + Without(s[1..], dropped)
  }

  /** Retaining keeps or removes all the copies of a value together. */
  lemma {:induction false} WithoutCounts<T(!new)>(s: seq<T>, dropped: set<T>, x: T)
    ensures multiset(Without(s, dropped))[x] == if x in dropped then 0 else multiset(s)[x]
  {
    if s != [] {
      WithoutCounts(s[1..], dropped, x);
      assert s == [s[0]] + s[1..];
    }
  }

  lemma {:induction false} WithoutOfConcatenation<T(!new)>(a: seq<T>, b: seq<T>, dropped: set<T>)
    ensures Without(a + b, dropped) == Without(a, dropped) + Without(b, dropped)
  {
    if a == [] {
      assert a + b == b;
    } else {
      assert (a + b)[1..] == a[1..] + b;
      WithoutOfConcatenation(a[1..], b, dropped);
    }
  }

  lemma {:induction false} WithoutNothingToDrop<T(!new)>(s: seq<T>, dropped: set<T>)
    requires forall x :: x in s ==> x !in dropped
    ensures Without(s, dropped) == s
  {
    if s != [] {
      assert s[0] in s;
      forall x | x in s[1..] ensures x !in dropped { assert x in s; }
      WithoutNothingToDrop(s[1..], dropped);
    }
  }

  lemma {:induction false} WithoutEverything<T(!new)>(s: seq<T>, dropped: set<T>)
    requires forall x :: x in s ==> x in dropped
    ensures Without(s, dropped) == []
  {
    if s != [] {
      assert s[0] in s;
      forall x | x in s[1..] ensures x in dropped { assert x in s; }
      WithoutEverything(s[1..], dropped);
    }
  }

  /** A sequence is duplicate-free exactly when no value is counted twice. */
  lemma DistinctByCounts<T(!new)>(s: seq<T>)
    ensures Distinct(s) <==> forall x :: multiset(s)[x] <= 1
  {
    if Distinct(s) {
      forall x ensures multiset(s)[x] <= 1 { DistinctCountsOnce(s, x); }
    }
    forall i, j | 0 <= i < j < |s| && s[i] == s[j]
      ensures multiset(s)[s[i]] >= 2
    {
      assert s == s[..i] + [s[i]] + s[i + 1..j] + [s[j]] + s[j + 1..];
    }
  }

  lemma {:induction false} DistinctCountsOnce<T(!new)>(s: seq<T>, x: T)
    requires Distinct(s)
    ensures multiset(s)[x] == if x in s then 1 else 0
  {
    if s != [] {
      assert s == [s[0]] + s[1..];
      DistinctCountsOnce(s[1..], x);
    }
  }
}
