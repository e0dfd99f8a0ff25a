/** What any run of deletes, shelves, unshelves and sweeps keeps, and what a sweep leaves. */
module TrackPurgeProperties {
  import opened Common
  import opened TrackTable
  import opened TrackPurge

  datatype Write =
    | Delete(rows: seq<nat>, storage: Verdict)
    | SetShelved(rows: seq<nat>, shelved: bool, storage: Verdict)
    | Sweep(storage: Verdict)

  /** One write to the recording at `ref`, which may be gone. */
  ghost function Written(db: Db, ref: Ref, write: Write): Db {
    if ref !in db then db
    else
      match write
      case Delete(rows, storage) => TracksDeleted(db, ref, rows, storage).0
      case SetShelved(rows, shelved, storage) => TracksShelved(db, ref, rows, shelved, storage).0
      case Sweep(storage) => Swept(db, ref, storage).0
  }

  ghost function AllWritten(db: Db, ref: Ref, writes: seq<Write>): Db
    decreases |writes|
  {
    if writes == [] then db else AllWritten(Written(db, ref, writes[0]), ref, writes[1..])
  }

  /** Every row of `later` is a tombstone or denotes the points the row denoted in `rec`. */
  ghost predicate RowsKept(rec: Recording, later: Recording) {
    && Tiles(later)
    && |later.tracks| == |rec.tracks|
    && forall r: nat :: r < |rec.tracks| ==>
         && (RowOf(later, r).state.Deleted? ==> RowOf(later, r) == TOMBSTONE)
         && (!RowOf(later, r).state.Deleted? ==> !RowOf(rec, r).state.Deleted?
                                                 && RowOf(later, r).points == RowOf(rec, r).points)
  }

  lemma RowsKeptThenKept(rec: Recording, later: Recording, last: Recording)
    requires RowsKept(rec, later) && RowsKept(later, last)
    ensures RowsKept(rec, last)
  {}

  lemma TombstonesAreEmpty(rec: Recording, r: nat)
    requires Tiles(rec) && r < |rec.tracks| && rec.tracks[r].state.Deleted?
    ensures RowOf(rec, r) == TOMBSTONE
  {
    RowInBounds(rec, r);
  }

  lemma TilingKeepsItself(rec: Recording)
    requires Tiles(rec)
    ensures RowsKept(rec, rec)
  {
    forall r: nat | r < |rec.tracks| && rec.tracks[r].state.Deleted? ensures RowOf(rec, r) == TOMBSTONE {
      TombstonesAreEmpty(rec, r);
    }
  }

  lemma PurgeKeepsRows(rec: Recording, drop: set<nat>)
    requires Tiles(rec)
    ensures RowsKept(rec, Purged(rec, drop))
  {
    PurgedRows(rec, drop);
    TilingKeepsItself(rec);
    forall r: nat | r < |rec.tracks|
      ensures RowOf(Purged(rec, drop), r) == if r in drop then TOMBSTONE else RowOf(rec, r) {}
  }

  lemma ShelvingKeepsRows(rec: Recording, rows: seq<nat>, state: TrackState)
    requires Tiles(rec) && !state.Deleted?
    ensures RowsKept(rec, rec.(tracks := ShelvedTo(rec.tracks, rows, state)))
  {
    TilingKeepsItself(rec);
    var later := rec.(tracks := ShelvedTo(rec.tracks, rows, state));
    forall r: nat | r < |rec.tracks|
      ensures TilesAt(later, r) && RowOf(later, r).points == RowOf(rec, r).points
      ensures RowOf(later, r).state.Deleted? <==> RowOf(rec, r).state.Deleted?
    {
      ShelvedRowStays(rec, rows, state, r);
    }
    assert End(later.tracks, |later.tracks|) == End(rec.tracks, |rec.tracks|);
  }

  lemma ShelvedRowStays(rec: Recording, rows: seq<nat>, state: TrackState, r: nat)
    requires Tiles(rec) && !state.Deleted? && r < |rec.tracks|
    ensures var later := rec.(tracks := ShelvedTo(rec.tracks, rows, state));
            && TilesAt(later, r) && RowOf(later, r).points == RowOf(rec, r).points
            && (RowOf(later, r).state.Deleted? <==> RowOf(rec, r).state.Deleted?)
  {
    assert TilesAt(rec, r);
    var tracks := ShelvedTo(rec.tracks, rows, state);
    assert tracks[r].start == rec.tracks[r].start && tracks[r].end == rec.tracks[r].end;
    assert r > 0 ==> tracks[r - 1].end == rec.tracks[r - 1].end;
    assert End(tracks, r) == End(rec.tracks, r);
  }

  /** One write keeps every surviving row, or removes the recording. */
  lemma WriteKeepsRows(db: Db, ref: Ref, write: Write)
    requires ref in db && Tiles(db[ref])
    ensures ref in Written(db, ref, write) ==> RowsKept(db[ref], Written(db, ref, write)[ref])
    ensures Written(db, ref, write) - {ref} == db - {ref}
  {
    var rec := db[ref];
    TilingKeepsItself(rec);
    match write
    case Delete(rows, _) => PurgeKeepsRows(rec, Elements(rows));
    case SetShelved(rows, shelved, _) => ShelvingKeepsRows(rec, rows, if shelved then Shelved else Live);
    case Sweep(_) => PurgeKeepsRows(rec, Elements(ShelvedRows(rec.tracks, |rec.tracks|)));
  }

  lemma GoneStaysGone(db: Db, ref: Ref, writes: seq<Write>)
    requires ref !in db
    ensures AllWritten(db, ref, writes) == db
    decreases |writes|
  {
    if writes != [] {
      GoneStaysGone(db, ref, writes[1..]);
    }
  }

  /**
   Over any run of writes, accepted or rejected, a recording keeps its row count and its tiling, its
   tombstones stay empty and deleted, and every surviving row denotes the points it first denoted.
   */
  lemma {:induction false} RunKeepsRows(db: Db, ref: Ref, writes: seq<Write>)
    requires ref in db && Tiles(db[ref])
    ensures ref in AllWritten(db, ref, writes) ==> RowsKept(db[ref], AllWritten(db, ref, writes)[ref])
    decreases |writes|
  {
    TilingKeepsItself(db[ref]);
    if writes != [] {
      var next := Written(db, ref, writes[0]);
      WriteKeepsRows(db, ref, writes[0]);
      if ref in next {
        RunKeepsRows(next, ref, writes[1..]);
        if ref in AllWritten(db, ref, writes) {
          RowsKeptThenKept(db[ref], next[ref], AllWritten(db, ref, writes)[ref]);
        }
      } else {
        GoneStaysGone(next, ref, writes[1..]);
      }
    }
  }

  // ----- Rejections -----

  lemma {:induction false} FirstUnusableExactly(tracks: seq<TrackRange>, rows: seq<nat>)
    ensures FirstUnusable(tracks, rows).None?
            <==> forall i :: 0 <= i < |rows| ==> rows[i] < |tracks| && !tracks[rows[i]].state.Deleted?
    ensures FirstUnusable(tracks, rows).Some? ==>
              exists i :: 0 <= i < |rows| && FirstUnusable(tracks, rows) == Unusable(tracks, rows[i])
                          && forall k :: 0 <= k < i ==> Unusable(tracks, rows[k]).None?
  {
    if rows != [] {
      FirstUnusableExactly(tracks, rows[1..]);
      forall i | 0 <= i < |rows[1..]| ensures rows[1..][i] == rows[i + 1] {}
      if Unusable(tracks, rows[0]).None? && FirstUnusable(tracks, rows).Some? {
        var i :| 0 <= i < |rows[1..]| && FirstUnusable(tracks, rows[1..]) == Unusable(tracks, rows[1..][i])
                 && forall k :: 0 <= k < i ==> Unusable(tracks, rows[1..][k]).None?;
        assert forall k :: 0 <= k < i + 1 ==> k == 0 || rows[k] == rows[1..][k - 1];
        assert FirstUnusable(tracks, rows) == Unusable(tracks, rows[i + 1]);
      }
      if forall i :: 0 <= i < |rows| ==> rows[i] < |tracks| && !tracks[rows[i]].state.Deleted? {
        assert Unusable(tracks, rows[0]).None?;
      }
    }
  }

  /**
   A delete is rejected exactly for an unusable row or a failing store, and then changes nothing. An
   accepted one removes the recording exactly when no track survives.
   */
  lemma DeleteIsRejectedExactly(db: Db, ref: Ref, rows: seq<nat>, storage: Verdict)
    requires ref in db
    ensures var tracks, (after, result) := db[ref].tracks, TracksDeleted(db, ref, rows, storage);
            && (result.Err? ==> after == db)
            && (result.Ok? <==>
                  && (forall i :: 0 <= i < |rows| ==> rows[i] < |tracks| && !tracks[rows[i]].state.Deleted?)
                  && (storage.Accepts? || (rows == [] && Survives(tracks, {}))))
            && (result.Ok? ==> (ref in after <==> Survives(tracks, Elements(rows))))
  {
    FirstUnusableExactly(db[ref].tracks, rows);
    if rows == [] { assert Elements(rows) == {}; }
  }

  lemma PurgedStates(rec: Recording, drop: set<nat>)
    requires Tiles(rec)
    ensures var purged := Purged(rec, drop).tracks;
            |purged| == |rec.tracks|
            && forall r: nat :: r < |purged| ==> purged[r].state == if r in drop then Deleted else rec.tracks[r].state
  {
    PurgedRows(rec, drop);
    forall r: nat | r < |rec.tracks|
      ensures Purged(rec, drop).tracks[r].state == if r in drop then Deleted else rec.tracks[r].state
    {
      assert RowOf(Purged(rec, drop), r) == if r in drop then TOMBSTONE else RowOf(rec, r);
    }
  }

  lemma UsableAfterPurge(rec: Recording, first: seq<nat>, second: seq<nat>)
    requires Tiles(rec)
    requires FirstUnusable(rec.tracks, first).None?
    requires FirstUnusable(Purged(rec, Elements(first)).tracks, second).None?
    ensures FirstUnusable(rec.tracks, first + second).None?
  {
    PurgedStates(rec, Elements(first));
    FirstUnusableExactly(rec.tracks, first);
    FirstUnusableExactly(Purged(rec, Elements(first)).tracks, second);
    FirstUnusableExactly(rec.tracks, first + second);
    forall i | 0 <= i < |first + second|
      ensures (first + second)[i] < |rec.tracks| && !rec.tracks[(first + second)[i]].state.Deleted?
    {
      assert i >= |first| ==> (first + second)[i] == second[i - |first|];
    }
  }

  lemma SurvivesBothPurges(rec: Recording, first: set<nat>, second: set<nat>)
    requires Tiles(rec) && Survives(Purged(rec, first).tracks, second)
    ensures Survives(rec.tracks, first + second)
  {
    PurgedStates(rec, first);
    var r: nat :| r < |rec.tracks| && r !in second && !Purged(rec, first).tracks[r].state.Deleted?;
    assert r !in first + second && !rec.tracks[r].state.Deleted?;
  }

  /** Two accepted deletes that leave a track are one accepted delete of all their rows. */
  lemma AcceptedDeletesCompose(db: Db, ref: Ref, first: seq<nat>, second: seq<nat>)
    requires ref in db && Tiles(db[ref])
    requires TracksDeleted(db, ref, first, Accepts).1.Ok? && ref in TracksDeleted(db, ref, first, Accepts).0
    requires var once := TracksDeleted(db, ref, first, Accepts).0;
             TracksDeleted(once, ref, second, Accepts).1.Ok? && ref in TracksDeleted(once, ref, second, Accepts).0
    ensures var once, both := TracksDeleted(db, ref, first, Accepts).0, Elements(first) + Elements(second);
            && TracksDeleted(once, ref, second, Accepts) == TracksDeleted(db, ref, first + second, Accepts)
            && TracksDeleted(once, ref, second, Accepts) == (db[ref := Purged(db[ref], both)], Ok(()))
  {
    var rec, d1, d2 := db[ref], Elements(first), Elements(second);
    PurgedRows(rec, d1);
    DeletedOnce(db, ref, first);
    var once := db[ref := Purged(rec, d1)];
    assert TracksDeleted(db, ref, first, Accepts).0 == once && once[ref] == Purged(rec, d1);
    DeletedOnce(once, ref, second);
    PurgesCompose(rec, d1, d2);
    assert once[ref := Purged(rec, d1 + d2)] == db[ref := Purged(rec, d1 + d2)];
    UsableAfterPurge(rec, first, second);
    SurvivesBothPurges(rec, d1, d2);
    assert Elements(first + second) == d1 + d2;
    DeletedOnce(db, ref, first + second);
  }

  /** An accepted delete that keeps the recording stores the purged one. */
  lemma DeletedOnce(db: Db, ref: Ref, rows: seq<nat>)
    requires ref in db && Tiles(db[ref])
    requires (FirstUnusable(db[ref].tracks, rows).None? && Survives(db[ref].tracks, Elements(rows)))
             || (TracksDeleted(db, ref, rows, Accepts).1.Ok? && ref in TracksDeleted(db, ref, rows, Accepts).0)
    ensures Survives(db[ref].tracks, Elements(rows)) && FirstUnusable(db[ref].tracks, rows).None?
    ensures TracksDeleted(db, ref, rows, Accepts) == (db[ref := Purged(db[ref], Elements(rows))], Ok(()))
  {
    if rows == [] {
      assert Elements(rows) == {};
      PurgedRows(db[ref], {});
      forall r: nat | r < |db[ref].tracks| ensures RowOf(Purged(db[ref], {}), r) == RowOf(db[ref], r) {}
      SameRowsSameRecording(Purged(db[ref], {}), db[ref]);
      assert db == db[ref := db[ref]];
    }
  }
}
