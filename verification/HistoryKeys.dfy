/**
 What each column of the History list sorts by, stated on keys of its own: a name, a time that may be
 absent, or an amount.
 */
module HistoryKeys {
  import opened Common
  import opened StableSort
  import opened HistorySort

  datatype Key = Name(text: string) | Time(at: Option<int>) | Amount(n: int)

  /** The text a recording's identity is shown as, without the marker of an automatic one, in lower case. */
  function ShownName(identity: string, lower: char -> string): string {
    var shown := if |identity| >= 5 && identity[..5] == "auto:" then identity[5..] else identity;
    Joined(seq(|shown|, i requires 0 <= i < |shown| => lower(shown[i])))
  }

  function Joined(parts: seq<string>): string {
    if parts == [] then [] else parts[0] + Joined(parts[1..])
  }

  function KeyOf(column: SortColumn, e: RecordingEntry, lower: char -> string): Key {
    match column
    case Identity => Name(ShownName(e.ref.identity, lower))
    case Date => Time(if e.timeRange.None? then None else Some(e.timeRange.value.startUs))
    case Duration => Time(if e.timeRange.None? then None else Some(e.timeRange.value.durationUs))
    case Points => Amount(e.points)
    case Size => Amount(e.size)
    case Logs => Amount(e.logs)
  }

  /** `a` comes before `b` in a dictionary. */
  ghost predicate Before(a: string, b: string) {
    exists k: nat :: BeforeAt(a, b, k)
  }

  /** The two agree up to `k`, where `a` ends or holds the smaller character. */
  predicate BeforeAt(a: string, b: string, k: nat) {
    k <= |a| && k < |b| && a[..k] == b[..k] && (k < |a| ==> a[k] < b[k])
  }

  /** `a` is a smaller key than `b` of the same column. An absent time is the smallest. */
  ghost predicate Smaller(a: Key, b: Key) {
    match (a, b)
    case (Name(x), Name(y)) => Before(x, y)
    case (Time(None), Time(Some(_))) => true
    case (Time(Some(x)), Time(Some(y))) => x < y
    case (Amount(x), Amount(y)) => x < y
    case _ => false
  }

  ghost predicate RefBefore(a: DatabaseRef, b: DatabaseRef) {
    Before(a.identity, b.identity) || (a.identity == b.identity && Before(a.groupName, b.groupName))
  }

  // ----- The comparison is that of the keys -----

  lemma {:induction false} CompareStringsExactly(a: string, b: string)
    ensures CompareStrings(a, b).Less? <==> Before(a, b)
    ensures CompareStrings(a, b).Equal? <==> a == b
  {
    if a == [] || b == [] {
      if a == [] && b != [] { assert BeforeAt(a, b, 0); }
    } else if a[0] == b[0] {
      CompareStringsExactly(a[1..], b[1..]);
      assert a == [a[0]] + a[1..] && b == [b[0]] + b[1..];
      BehindTheFirst(a, b);
    } else {
      if a[0] < b[0] { assert BeforeAt(a, b, 0); }
      forall k: nat | BeforeAt(a, b, k) ensures a[0] < b[0] {
        if k > 0 { assert a[..k][0] == b[..k][0]; }
      }
    }
  }

  lemma BehindTheFirst(a: string, b: string)
    requires a != [] && b != [] && a[0] == b[0]
    ensures Before(a, b) <==> Before(a[1..], b[1..])
  {
    if k: nat :| BeforeAt(a, b, k) {
      assert k > 0;
      assert a[1..][..k - 1] == a[..k][1..] && b[1..][..k - 1] == b[..k][1..];
      assert BeforeAt(a[1..], b[1..], k - 1);
    }
    if k: nat :| BeforeAt(a[1..], b[1..], k) {
      assert a[..k + 1] == [a[0]] + a[1..][..k] && b[..k + 1] == [b[0]] + b[1..][..k];
      assert BeforeAt(a, b, k + 1);
    }
  }

  lemma {:induction false} LoweredIsJoined(s: string, lower: char -> string)
    ensures Lowered(s, lower) == Joined(seq(|s|, i requires 0 <= i < |s| => lower(s[i])))
  {
    if s != [] {
      LoweredIsJoined(s[1..], lower);
      var parts := seq(|s|, i requires 0 <= i < |s| => lower(s[i]));
      assert parts[1..] == seq(|s| - 1, i requires 0 <= i < |s| - 1 => lower(s[1..][i]));
    }
  }

  lemma ShownNameIsCompared(identity: string, lower: char -> string)
    ensures Lowered(DisplayIdentity(identity), lower) == ShownName(identity, lower)
  {
    LoweredIsJoined(DisplayIdentity(identity), lower);
  }

  lemma ColumnComparesKeys(column: SortColumn, a: RecordingEntry, b: RecordingEntry, lower: char -> string)
    ensures CompareColumn(column, a, b, lower).Less? <==> Smaller(KeyOf(column, a, lower), KeyOf(column, b, lower))
    ensures CompareColumn(column, a, b, lower).Equal? <==> KeyOf(column, a, lower) == KeyOf(column, b, lower)
  {
    if column.Identity? {
      ShownNameIsCompared(a.ref.identity, lower);
      ShownNameIsCompared(b.ref.identity, lower);
      CompareStringsExactly(ShownName(a.ref.identity, lower), ShownName(b.ref.identity, lower));
    }
  }

  lemma RefsCompareExactly(a: DatabaseRef, b: DatabaseRef)
    ensures CompareRefs(a, b).Less? <==> RefBefore(a, b)
  {
    CompareStringsExactly(a.identity, b.identity);
    CompareStringsExactly(a.groupName, b.groupName);
  }

  /** Two entries in the order the list shows them. */
  ghost predicate InOrder(column: SortColumn, direction: SortDirection, first: RecordingEntry, second: RecordingEntry,
                          lower: char -> string)
  {
    var a, b := KeyOf(column, first, lower), KeyOf(column, second, lower);
    if a == b then !RefBefore(second.ref, first.ref)
    else if direction.Ascending? then Smaller(a, b)
    else Smaller(b, a)
  }

  lemma NotGreaterIsInOrder(sort: Sort, a: RecordingEntry, b: RecordingEntry, lower: char -> string)
    ensures !Compare(sort, a, b, lower).Greater? <==> InOrder(sort.column, sort.direction, a, b, lower)
  {
    ColumnComparesKeys(sort.column, a, b, lower);
    ColumnComparesKeys(sort.column, b, a, lower);
    ColumnIsCoherent(sort.column, a, b, b, lower);
    RefsCompareExactly(b.ref, a.ref);
    RefsAreCoherent(a.ref, b.ref, b.ref);
  }

  /**
   The list shows the entries by the key of the column, growing or falling with the direction, and
   entries with one key by identity and then group name, whichever the direction.
   */
  lemma SortedByTheKeys(sort: Sort, entries: seq<RecordingEntry>, lower: char -> string)
    ensures var sorted := SortedEntries(sort, entries, lower);
            && multiset(sorted) == multiset(entries)
            && forall i, j :: 0 <= i < j < |sorted| ==> InOrder(sort.column, sort.direction, sorted[i], sorted[j], lower)
  {
    SortedEntriesAreOrdered(sort, entries, lower);
    var sorted := SortedEntries(sort, entries, lower);
    forall i, j | 0 <= i < j < |sorted| ensures InOrder(sort.column, sort.direction, sorted[i], sorted[j], lower) {
      NotGreaterIsInOrder(sort, sorted[i], sorted[j], lower);
    }
  }
}
