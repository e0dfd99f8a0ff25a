/** The order of the History list: by a column in either direction, ties by the unique database reference. */
module HistorySort {
  import opened Common
  import opened StableSort

  datatype Ordering = Less | Equal | Greater {
    function Reverse(): Ordering {
      match this case Less => Greater case Equal => Equal case Greater => Less
    }

    /** `next` decides where this comparison does not. */
    function Then(next: Ordering): Ordering {
      if this.Equal? then next else this
    }
  }

  datatype DatabaseRef = DatabaseRef(identity: string, groupName: string)

  datatype TimeRange = TimeRange(startUs: int, durationUs: nat)

  datatype RecordingEntry = RecordingEntry(
    ref: DatabaseRef, timeRange: Option<TimeRange>, points: nat, size: nat, logs: nat)

  datatype SortColumn = Identity | Date | Duration | Points | Size | Logs

  datatype SortDirection = Ascending | Descending

  datatype Sort = Sort(column: SortColumn, direction: SortDirection)

  function CompareInts(a: int, b: int): Ordering {
    if a < b then Less else if a == b then Equal else Greater
  }

  /** An absent value comes first. */
  function CompareOptions(a: Option<int>, b: Option<int>): Ordering {
    match (a, b)
    case (None, None) => Equal
    case (None, _) => Less
    case (_, None) => Greater
    case (Some(x), Some(y)) => CompareInts(x, y)
  }

  function CompareStrings(a: string, b: string): Ordering {
    if a == [] && b == [] then Equal
    else if a == [] then Less
    else if b == [] then Greater
    else if a[0] < b[0] then Less
    else if a[0] == b[0] then CompareStrings(a[1..], b[1..])
    else Greater
  }

  const AUTO_PREFIX := "auto:"

  function DisplayIdentity(identity: string): string {
    if AUTO_PREFIX <= identity then identity[|AUTO_PREFIX|..] else identity
  }

  /** `s` with every character replaced by its lowercase form, which can be several characters. */
  function Lowered(s: string, lower: char -> string): string {
    if s == [] then [] else lower(s[0]) + Lowered(s[1..], lower)
  }

  function CompareIdentities(a: string, b: string, lower: char -> string): Ordering {
    CompareStrings(Lowered(DisplayIdentity(a), lower), Lowered(DisplayIdentity(b), lower))
  }

  function StartOf(e: RecordingEntry): Option<int> {
    match e.timeRange case None => None case Some(range) => Some(range.startUs)
  }

  function DurationOf(e: RecordingEntry): Option<int> {
    match e.timeRange case None => None case Some(range) => Some(range.durationUs)
  }

  function CompareColumn(column: SortColumn, a: RecordingEntry, b: RecordingEntry, lower: char -> string): Ordering {
    match column
    case Identity => CompareIdentities(a.ref.identity, b.ref.identity, lower)
    case Date => CompareOptions(StartOf(a), StartOf(b))
    case Duration => CompareOptions(DurationOf(a), DurationOf(b))
    case Points => CompareInts(a.points, b.points)
    case Size => CompareInts(a.size, b.size)
    case Logs => CompareInts(a.logs, b.logs)
  }

  function CompareRefs(a: DatabaseRef, b: DatabaseRef): Ordering {
    CompareStrings(a.identity, b.identity).Then(CompareStrings(a.groupName, b.groupName))
  }

  function Compare(sort: Sort, a: RecordingEntry, b: RecordingEntry, lower: char -> string): Ordering {
    var byColumn := CompareColumn(sort.column, a, b, lower);
    (if sort.direction.Ascending? then byColumn else byColumn.Reverse()).Then(CompareRefs(a.ref, b.ref))
  }

  /** The order `sort_by` sorts by. */
  function NotGreater(sort: Sort, lower: char -> string): (RecordingEntry, RecordingEntry) -> bool {
    (a, b) => !Compare(sort, a, b, lower).Greater?
  }

  function SortedEntries(sort: Sort, entries: seq<RecordingEntry>, lower: char -> string): seq<RecordingEntry> {
    Sorted(entries, NotGreater(sort, lower))
  }

  /** No entry is greater than one behind it. */
  predicate NeverGreater(sort: Sort, entries: seq<RecordingEntry>, lower: char -> string) {
    forall i, j :: 0 <= i < j < |entries| ==> !Compare(sort, entries[i], entries[j], lower).Greater?
  }

  /** Orders `entries` in place. The sort is the standard library's. */
  method Apply(sort: Sort, entries: array<RecordingEntry>, lower: char -> string)
    modifies entries
    ensures entries[..] == SortedEntries(sort, old(entries[..]), lower)
    ensures multiset(entries[..]) == multiset(old(entries[..])) && NeverGreater(sort, entries[..], lower)
  {
    var listed := entries[..];
    var sorted := SortedEntries(sort, listed, lower);
    SortedEntriesAreOrdered(sort, listed, lower);
    assert |multiset(sorted)| == |sorted| && |multiset(listed)| == |listed|;
    forall i | 0 <= i < entries.Length {
      entries[i] := sorted[i];
    }
    assert entries[..] == sorted;
  }

  // ----- The comparisons are orders -----

  /** What a comparison of three values has to satisfy. */
  predicate Coherent(xy: Ordering, yx: Ordering, yz: Ordering, xz: Ordering) {
    && yx == xy.Reverse()
    && (!xy.Greater? && !yz.Greater? ==> !xz.Greater? && (xz.Equal? <==> xy.Equal? && yz.Equal?))
    && (!xy.Less? && !yz.Less? ==> !xz.Less? && (xz.Equal? <==> xy.Equal? && yz.Equal?))
  }

  lemma {:induction false} StringsAreCoherent(x: string, y: string, z: string)
    ensures Coherent(CompareStrings(x, y), CompareStrings(y, x), CompareStrings(y, z), CompareStrings(x, z))
    ensures CompareStrings(x, y).Equal? <==> x == y
  {
    if x != [] && y != [] {
      StringsAreCoherent(x[1..], y[1..], if z == [] then [] else z[1..]);
      assert x == [x[0]] + x[1..] && y == [y[0]] + y[1..];
    }
  }

  lemma ColumnIsCoherent(column: SortColumn, x: RecordingEntry, y: RecordingEntry, z: RecordingEntry,
                         lower: char -> string)
    ensures Coherent(CompareColumn(column, x, y, lower), CompareColumn(column, y, x, lower),
                     CompareColumn(column, y, z, lower), CompareColumn(column, x, z, lower))
  {
    if column.Identity? {
      StringsAreCoherent(Lowered(DisplayIdentity(x.ref.identity), lower),
                         Lowered(DisplayIdentity(y.ref.identity), lower),
                         Lowered(DisplayIdentity(z.ref.identity), lower));
    }
  }

  lemma RefsAreCoherent(x: DatabaseRef, y: DatabaseRef, z: DatabaseRef)
    ensures Coherent(CompareRefs(x, y), CompareRefs(y, x), CompareRefs(y, z), CompareRefs(x, z))
    ensures CompareRefs(x, y).Equal? <==> x == y
  {
    StringsAreCoherent(x.identity, y.identity, z.identity);
    StringsAreCoherent(x.groupName, y.groupName, z.groupName);
  }

  lemma CompareIsCoherent(sort: Sort, x: RecordingEntry, y: RecordingEntry, z: RecordingEntry, lower: char -> string)
    ensures Coherent(Compare(sort, x, y, lower), Compare(sort, y, x, lower),
                     Compare(sort, y, z, lower), Compare(sort, x, z, lower))
    ensures Compare(sort, x, y, lower).Equal? ==> x.ref == y.ref
  {
    ColumnIsCoherent(sort.column, x, y, z, lower);
    RefsAreCoherent(x.ref, y.ref, z.ref);
  }

  lemma CompareIsATotalPreorder(sort: Sort, lower: char -> string)
    ensures TotalPreorder(NotGreater(sort, lower))
  {
    var le := NotGreater(sort, lower);
    forall x, y ensures le(x, y) || le(y, x) { CompareIsCoherent(sort, x, y, y, lower); }
    forall x, y, z | le(x, y) && le(y, z) ensures le(x, z) { CompareIsCoherent(sort, x, y, z, lower); }
  }

  lemma SortedEntriesAreOrdered(sort: Sort, entries: seq<RecordingEntry>, lower: char -> string)
    ensures var sorted := SortedEntries(sort, entries, lower);
            multiset(sorted) == multiset(entries) && NeverGreater(sort, sorted, lower)
  {
    CompareIsATotalPreorder(sort, lower);
    SortedIsAnOrderedPermutation(entries, NotGreater(sort, lower));
    var sorted := SortedEntries(sort, entries, lower);
    forall i, j | 0 <= i < j < |sorted| ensures !Compare(sort, sorted[i], sorted[j], lower).Greater? {
      assert NotGreater(sort, lower)(sorted[i], sorted[j]);
    }
  }

  /** A reference names one entry. */
  ghost predicate UniqueRefs(entries: seq<RecordingEntry>) {
    forall i, j :: 0 <= i < |entries| && 0 <= j < |entries| && entries[i].ref == entries[j].ref ==> i == j
  }

  lemma UniqueRefsDecide(sort: Sort, entries: seq<RecordingEntry>, lower: char -> string)
    requires UniqueRefs(entries)
    ensures Decides(entries, NotGreater(sort, lower))
  {
    var le := NotGreater(sort, lower);
    forall i, j | 0 <= i < |entries| && 0 <= j < |entries| && le(entries[i], entries[j]) && le(entries[j], entries[i])
      ensures entries[i] == entries[j]
    {
      CompareIsCoherent(sort, entries[i], entries[j], entries[j], lower);
    }
  }

  /** The sorted list is one permutation of the entries, whatever order the database listed them in. */
  lemma SortedListIsCanonical(sort: Sort, listed: seq<RecordingEntry>, relisted: seq<RecordingEntry>,
                              lower: char -> string)
    requires UniqueRefs(listed) && multiset(listed) == multiset(relisted)
    ensures var sorted := SortedEntries(sort, listed, lower);
            && sorted == SortedEntries(sort, relisted, lower)
            && multiset(sorted) == multiset(listed)
            && NeverGreater(sort, sorted, lower)
  {
    CompareIsATotalPreorder(sort, lower);
    UniqueRefsDecide(sort, listed, lower);
    SortIsCanonical(listed, relisted, NotGreater(sort, lower));
    SortedEntriesAreOrdered(sort, listed, lower);
  }

  /**
   Reversing the direction reverses entries whose column values differ, and keeps the order of those
   tied in the column.
   */
  lemma ReversalKeepsTies(column: SortColumn, entries: seq<RecordingEntry>, lower: char -> string,
                          i: nat, j: nat, k: nat, l: nat)
    requires UniqueRefs(entries)
    requires var up := SortedEntries(Sort(column, Ascending), entries, lower);
             var down := SortedEntries(Sort(column, Descending), entries, lower);
             i < j < |up| && k < |down| && l < |down| && down[k] == up[i] && down[l] == up[j] && up[i].ref != up[j].ref
    ensures var up := SortedEntries(Sort(column, Ascending), entries, lower);
            k < l <==> CompareColumn(column, up[i], up[j], lower).Equal?
  {
    var up := SortedEntries(Sort(column, Ascending), entries, lower);
    var down := SortedEntries(Sort(column, Descending), entries, lower);
    SortedListIsCanonical(Sort(column, Ascending), entries, entries, lower);
    SortedListIsCanonical(Sort(column, Descending), entries, entries, lower);
    var x, y := up[i], up[j];
    ColumnIsCoherent(column, x, y, y, lower);
    RefsAreCoherent(x.ref, y.ref, y.ref);
    assert k != l;
    if k < l {
      assert !Compare(Sort(column, Descending), down[k], down[l], lower).Greater?;
    } else {
      assert !Compare(Sort(column, Descending), down[l], down[k], lower).Greater?;
    }
  }
}
