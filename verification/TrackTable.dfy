/**
 A stored recording: its nav points and the table of the tracks they fall into. Deleting tracks
 compacts the points and range-shifts the table, and a deleted row stays as an empty tombstone so
 that the rows after it keep their numbers.
 */
module TrackTable {
  import opened Common

  type Point = int

  datatype TrackState = Deleted | Live | Shelved

  datatype TrackRange = TrackRange(start: nat, end: nat, state: TrackState)

  datatype Recording = Recording(points: seq<Point>, tracks: seq<TrackRange>)

  /** Where the first `n` rows end. */
  function End(tracks: seq<TrackRange>, n: nat): nat
    requires n <= |tracks|
  {
    if n == 0 then 0 else tracks[n - 1].end
  }

  /** Row `r` starts where the rows before it end, and is empty where it is a tombstone. */
  predicate TilesAt(rec: Recording, r: nat)
    requires r < |rec.tracks|
  {
    && rec.tracks[r].start == End(rec.tracks, r) <= rec.tracks[r].end
    && (rec.tracks[r].state.Deleted? ==> rec.tracks[r].start == rec.tracks[r].end)
  }

  /** The rows follow each other without a gap from the first point to the last, tombstones empty. */
  ghost predicate Tiles(rec: Recording) {
    && (forall r: nat :: r < |rec.tracks| ==> TilesAt(rec, r))
    && End(rec.tracks, |rec.tracks|) == |rec.points|
  }

  /** What row `r` of a recording denotes. */
  datatype Row = Row(state: TrackState, points: seq<Point>)

  const TOMBSTONE := Row(Deleted, [])

  /** Row `r`, with no points where its range is not one of the recording's. */
  function RowOf(rec: Recording, r: nat): Row
    requires r < |rec.tracks|
  {
    var t := rec.tracks[r];
    Row(t.state, if t.start <= t.end <= |rec.points| then rec.points[t.start..t.end] else [])
  }

  lemma {:induction false} EndIsMonotone(rec: Recording, m: nat, n: nat)
    requires Tiles(rec) && m <= n <= |rec.tracks|
    ensures End(rec.tracks, m) <= End(rec.tracks, n) <= |rec.points|
    decreases |rec.tracks| - m
  {
    if m < n {
      assert TilesAt(rec, m);
      EndIsMonotone(rec, m + 1, n);
    } else if n < |rec.tracks| {
      assert TilesAt(rec, n);
      EndIsMonotone(rec, n + 1, n + 1);
    }
  }

  lemma RowInBounds(rec: Recording, r: nat)
    requires Tiles(rec) && r < |rec.tracks|
    ensures TilesAt(rec, r) && rec.tracks[r].end <= |rec.points|
  {
    assert TilesAt(rec, r);
    EndIsMonotone(rec, r + 1, r + 1);
  }

  // ----- Compacting the points -----

  /** Some row of `drop` covers the point at `p`. */
  ghost predicate Dropped(tracks: seq<TrackRange>, drop: set<nat>, p: nat) {
    exists r: nat :: r < |tracks| && r in drop && tracks[r].start <= p < tracks[r].end
  }

  /** What re-encoding leaves of the first `n` points: those in no dropped range. */
  ghost function Compacted(rec: Recording, drop: set<nat>, n: nat): seq<Point>
    requires n <= |rec.points|
  {
    if n == 0 then []
    else Compacted(rec, drop, n - 1) + if Dropped(rec.tracks, drop, n - 1) then [] else [rec.points[n - 1]]
  }

  /** How many points a row denotes, with the subtraction saturating at 0. */
  function Length(t: TrackRange): nat {
    if t.end < t.start then 0 else t.end - t.start
  }

  function Tombstoned(tracks: seq<TrackRange>, drop: set<nat>, r: nat): bool
    requires r < |tracks|
  {
    r in drop || tracks[r].state.Deleted?
  }

  /** The first `n` rows of the table, shifted onto the compacted points. */
  function Shifted(tracks: seq<TrackRange>, drop: set<nat>, n: nat): (shifted: seq<TrackRange>)
    requires n <= |tracks|
    ensures |shifted| == n
  {
    if n == 0 then []
    else
      var front := Shifted(tracks, drop, n - 1);
      var cursor := End(front, n - 1);
      var t := tracks[n - 1];
      front + [if Tombstoned(tracks, drop, n - 1) then TrackRange(cursor, cursor, Deleted)
               else TrackRange(cursor, cursor + Length(t), t.state)]
  }

  /** The recording with the rows of `drop` deleted. */
  ghost function Purged(rec: Recording, drop: set<nat>): Recording {
    Recording(Compacted(rec, drop, |rec.points|), Shifted(rec.tracks, drop, |rec.tracks|))
  }

  /** A point in row `r` of a tiling table is dropped exactly with that row. */
  lemma DroppedWithItsRow(rec: Recording, drop: set<nat>, r: nat, p: nat)
    requires Tiles(rec) && r < |rec.tracks| && rec.tracks[r].start <= p < rec.tracks[r].end
    ensures Dropped(rec.tracks, drop, p) <==> r in drop
  {
    forall other: nat | other < |rec.tracks| && rec.tracks[other].start <= p < rec.tracks[other].end
      ensures other == r
    {
      assert TilesAt(rec, r) && TilesAt(rec, other);
      if other < r {
        EndIsMonotone(rec, other + 1, r);
      } else if r < other {
        EndIsMonotone(rec, r + 1, other);
      }
    }
  }

  lemma {:induction false} CompactedRow(rec: Recording, drop: set<nat>, r: nat, p: nat)
    requires Tiles(rec) && r < |rec.tracks| && rec.tracks[r].start <= p <= rec.tracks[r].end <= |rec.points|
    ensures Compacted(rec, drop, p)
         == Compacted(rec, drop, rec.tracks[r].start)
            + if r in drop then [] else rec.points[rec.tracks[r].start..p]
    decreases p
  {
    var start := rec.tracks[r].start;
    if p > start {
      CompactedRow(rec, drop, r, p - 1);
      DroppedWithItsRow(rec, drop, r, p - 1);
      assert rec.points[start..p] == rec.points[start..p - 1] + [rec.points[p - 1]];
    }
  }

  lemma {:induction false} CompactedGrows(rec: Recording, drop: set<nat>, m: nat, n: nat)
    requires m <= n <= |rec.points|
    ensures Compacted(rec, drop, m) <= Compacted(rec, drop, n)
    decreases n - m
  {
    if m < n {
      CompactedGrows(rec, drop, m, n - 1);
    }
  }

  lemma {:induction false} ShiftedGrows(tracks: seq<TrackRange>, drop: set<nat>, m: nat, n: nat)
    requires m <= n <= |tracks|
    ensures Shifted(tracks, drop, m) == Shifted(tracks, drop, n)[..m]
    decreases n - m
  {
    if m < n {
      ShiftedGrows(tracks, drop, m, n - 1);
    }
  }

  /** The cursor of the shifted table stands where the compacted points of the rows before it end. */
  lemma {:induction false} CursorIsTheCompactedLength(rec: Recording, drop: set<nat>, n: nat)
    requires Tiles(rec) && n <= |rec.tracks|
    ensures End(rec.tracks, n) <= |rec.points|
    ensures |Compacted(rec, drop, End(rec.tracks, n))| == End(Shifted(rec.tracks, drop, n), n)
  {
    EndIsMonotone(rec, n, n);
    if n > 0 {
      CursorIsTheCompactedLength(rec, drop, n - 1);
      CursorMovesByTheRow(rec, drop, n - 1);
    }
  }

  lemma CursorMovesByTheRow(rec: Recording, drop: set<nat>, r: nat)
    requires Tiles(rec) && r < |rec.tracks|
    ensures rec.tracks[r].start == End(rec.tracks, r) <= End(rec.tracks, r + 1) <= |rec.points|
    ensures |Compacted(rec, drop, End(rec.tracks, r + 1))| - |Compacted(rec, drop, End(rec.tracks, r))|
         == if Tombstoned(rec.tracks, drop, r) then 0 else Length(rec.tracks[r])
  {
    RowInBounds(rec, r);
    CompactedRow(rec, drop, r, rec.tracks[r].end);
    assert |rec.points[rec.tracks[r].start..rec.tracks[r].end]| == Length(rec.tracks[r]);
  }

  /** Purging keeps the table tiling, the number of every row, and what every row it keeps denotes. */
  lemma PurgedRows(rec: Recording, drop: set<nat>)
    requires Tiles(rec)
    ensures Tiles(Purged(rec, drop)) && |Purged(rec, drop).tracks| == |rec.tracks|
    ensures forall r: nat :: r < |rec.tracks| ==>
              RowOf(Purged(rec, drop), r) == if r in drop then TOMBSTONE else RowOf(rec, r)
  {
    CursorIsTheCompactedLength(rec, drop, |rec.tracks|);
    forall r: nat | r < |rec.tracks|
      ensures TilesAt(Purged(rec, drop), r)
      ensures RowOf(Purged(rec, drop), r) == if r in drop then TOMBSTONE else RowOf(rec, r)
    {
      PurgedRow(rec, drop, r);
    }
  }

  lemma ShiftedRow(tracks: seq<TrackRange>, drop: set<nat>, r: nat)
    requires r < |tracks|
    ensures var shifted, cursor := Shifted(tracks, drop, |tracks|), End(Shifted(tracks, drop, r), r);
            && End(shifted, r) == cursor
            && shifted[r] == if Tombstoned(tracks, drop, r) then TrackRange(cursor, cursor, Deleted)
                             else TrackRange(cursor, cursor + Length(tracks[r]), tracks[r].state)
  {
    ShiftedGrows(tracks, drop, r, |tracks|);
    ShiftedGrows(tracks, drop, r + 1, |tracks|);
    assert Shifted(tracks, drop, |tracks|)[r] == Shifted(tracks, drop, r + 1)[r];
  }

  lemma PurgedRow(rec: Recording, drop: set<nat>, r: nat)
    requires Tiles(rec) && r < |rec.tracks|
    ensures TilesAt(Purged(rec, drop), r)
    ensures RowOf(Purged(rec, drop), r) == if r in drop then TOMBSTONE else RowOf(rec, r)
  {
    var purged, start, end := Purged(rec, drop), rec.tracks[r].start, rec.tracks[r].end;
    RowInBounds(rec, r);
    ShiftedRow(rec.tracks, drop, r);
    CursorIsTheCompactedLength(rec, drop, r);
    CompactedRow(rec, drop, r, end);
    CompactedGrows(rec, drop, end, |rec.points|);
    var before, kept := Compacted(rec, drop, start), if r in drop then [] else rec.points[start..end];
    assert |before| == purged.tracks[r].start && |before + kept| == purged.tracks[r].end;
    assert before + kept <= purged.points;
    assert (before + kept)[|before|..] == kept;
    assert purged.points[purged.tracks[r].start..purged.tracks[r].end] == kept;
  }

  /** A tiling recording is determined by what its rows denote. */
  lemma {:induction false} RowsDetermine(a: Recording, b: Recording, n: nat)
    requires Tiles(a) && Tiles(b) && |a.tracks| == |b.tracks| && n <= |a.tracks|
    requires forall r: nat :: r < n ==> RowOf(a, r) == RowOf(b, r)
    ensures End(a.tracks, n) == End(b.tracks, n) <= |a.points| && End(b.tracks, n) <= |b.points|
    ensures a.tracks[..n] == b.tracks[..n]
    ensures a.points[..End(a.tracks, n)] == b.points[..End(b.tracks, n)]
  {
    if n > 0 {
      RowsDetermine(a, b, n - 1);
      var r: nat := n - 1;
      RowInBounds(a, r);
      RowInBounds(b, r);
      var start := End(a.tracks, r);
      assert RowOf(a, r) == RowOf(b, r);
      assert a.points[start..a.tracks[r].end] == b.points[start..b.tracks[r].end];
      assert |a.points[start..a.tracks[r].end]| == |b.points[start..b.tracks[r].end]|;
      assert a.tracks[r] == b.tracks[r];
      assert a.points[..a.tracks[r].end] == a.points[..start] + a.points[start..a.tracks[r].end];
      assert b.points[..b.tracks[r].end] == b.points[..start] + b.points[start..b.tracks[r].end];
      assert a.tracks[..n] == a.tracks[..r] + [a.tracks[r]] && b.tracks[..n] == b.tracks[..r] + [b.tracks[r]];
    }
  }

  lemma SameRowsSameRecording(a: Recording, b: Recording)
    requires Tiles(a) && Tiles(b) && |a.tracks| == |b.tracks|
    requires forall r: nat :: r < |a.tracks| ==> RowOf(a, r) == RowOf(b, r)
    ensures a == b
  {
    RowsDetermine(a, b, |a.tracks|);
    assert a.tracks[..|a.tracks|] == a.tracks && b.tracks[..|b.tracks|] == b.tracks;
    assert a.points[..|a.points|] == a.points && b.points[..|b.points|] == b.points;
  }

  /** Deleting rows in two requests leaves exactly what deleting them in one leaves. */
  lemma PurgesCompose(rec: Recording, first: set<nat>, second: set<nat>)
    requires Tiles(rec)
    ensures Purged(Purged(rec, first), second) == Purged(rec, first + second)
  {
    var once, twice, both := Purged(rec, first), Purged(Purged(rec, first), second), Purged(rec, first + second);
    PurgedRows(rec, first);
    PurgedRows(once, second);
    PurgedRows(rec, first + second);
    forall r: nat | r < |rec.tracks| ensures RowOf(twice, r) == RowOf(both, r) {
      assert RowOf(once, r) == if r in first then TOMBSTONE else RowOf(rec, r);
      assert RowOf(twice, r) == if r in second then TOMBSTONE else RowOf(once, r);
    }
    SameRowsSameRecording(twice, both);
  }

  lemma PurgesCommute(rec: Recording, first: set<nat>, second: set<nat>)
    requires Tiles(rec)
    ensures Purged(Purged(rec, first), second) == Purged(Purged(rec, second), first)
  {
    PurgesCompose(rec, first, second);
    PurgesCompose(rec, second, first);
    assert first + second == second + first;
  }

  /** The points of the first `n` rows that are in `drop`. */
  function DroppedLength(tracks: seq<TrackRange>, drop: set<nat>, n: nat): nat
    requires n <= |tracks|
  {
    if n == 0 then 0
    else DroppedLength(tracks, drop, n - 1) + if n - 1 in drop then Length(tracks[n - 1]) else 0
  }

  /** A purge removes as many points as the rows it drops denoted. */
  lemma PurgeRemovesTheDroppedLengths(rec: Recording, drop: set<nat>)
    requires Tiles(rec)
    ensures |Purged(rec, drop).points| + DroppedLength(rec.tracks, drop, |rec.tracks|) == |rec.points|
  {
    CursorIsTheCompactedLength(rec, drop, |rec.tracks|);
    DroppedLengthsAddUp(rec, drop, |rec.tracks|);
  }

  lemma {:induction false} DroppedLengthsAddUp(rec: Recording, drop: set<nat>, n: nat)
    requires Tiles(rec) && n <= |rec.tracks|
    ensures End(Shifted(rec.tracks, drop, n), n) + DroppedLength(rec.tracks, drop, n) == End(rec.tracks, n)
  {
    if n > 0 {
      DroppedLengthsAddUp(rec, drop, n - 1);
      assert TilesAt(rec, n - 1);
    }
  }

  /** Dropping nothing, the cursor reproduces the table exactly where it tiles. */
  lemma {:induction false} CursorReproducesTilingRowsExactly(rec: Recording, n: nat)
    requires n <= |rec.tracks|
    ensures Shifted(rec.tracks, {}, n) == rec.tracks[..n] <==> forall r: nat :: r < n ==> TilesAt(rec, r)
  {
    if n > 0 {
      CursorReproducesTilingRowsExactly(rec, n - 1);
      var front := Shifted(rec.tracks, {}, n - 1);
      var shifted, table := Shifted(rec.tracks, {}, n), rec.tracks[..n];
      assert shifted[..n - 1] == front && table[..n - 1] == rec.tracks[..n - 1];
      if front == rec.tracks[..n - 1] {
        assert End(front, n - 1) == End(rec.tracks, n - 1);
        assert shifted[n - 1] == rec.tracks[n - 1] <==> TilesAt(rec, n - 1);
        assert shifted == front + [shifted[n - 1]] && table == front + [rec.tracks[n - 1]];
      }
    }
  }

  /** Over a table with a gap a purge makes a surviving row denote other points: the cursor skips the gap. */
  lemma GappedTablesAreMisread(first: Point, lost: Point, last: Point)
    requires lost != last
    ensures var rec := Recording([first, lost, last], [TrackRange(0, 1, Live), TrackRange(2, 3, Live)]);
            && !Tiles(rec)
            && RowOf(rec, 1) == Row(Live, [last]) && RowOf(Purged(rec, {0}), 1) == Row(Live, [lost])
            && RowOf(rec, 1) != RowOf(Purged(rec, {0}), 1)
  {
    var rec := Recording([first, lost, last], [TrackRange(0, 1, Live), TrackRange(2, 3, Live)]);
    assert !TilesAt(rec, 1);
    assert Dropped(rec.tracks, {0}, 0) by { assert rec.tracks[0].start <= 0 < rec.tracks[0].end; }
    assert Compacted(rec, {0}, 1) == [];
    assert Compacted(rec, {0}, 2) == [lost];
    assert Compacted(rec, {0}, 3) == [lost, last];
    assert Shifted(rec.tracks, {0}, 1) == [TrackRange(0, 0, Deleted)];
    assert Shifted(rec.tracks, {0}, 2) == [TrackRange(0, 0, Deleted), TrackRange(0, 1, Live)];
  }
}
