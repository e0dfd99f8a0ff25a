/**
 The writes of the recordings database that delete, shelve and unshelve tracks.

 The functions say what a write leaves of the database, and the methods of `Recordings` run it as
 the worker does and are proved to leave that. Whether the storage layer takes the re-encoded bytes
 is a parameter of each write.
 */
module TrackPurge {
  import opened Common
  import opened TrackTable

  type Ref = nat

  datatype DbError =
    | TrackIndexOutOfRange(index: nat, storedTrackCount: nat)
    | TrackAlreadyDeleted(index: nat)
    | NotStored
    | Backend

  datatype Result<T> = Ok(value: T) | Err(error: DbError)

  /** How the storage layer answers the write of a recording. One that fails leaves the recording as it was. */
  datatype Verdict = Accepts | Fails

  type Db = map<Ref, Recording>

  /** Which recordings a delete of shelved tracks covers. */
  datatype Scope = EveryRecording | OneRecording(ref: Ref)

  /**
   How the storage layer answers one write: the order it lists the recordings in, unless the listing
   fails, how it answers the rewrite of each recording, and after how many references it gives up a
   delete of several recordings, if it does.
   */
  datatype Storage = Storage(order: Option<seq<Ref>>, verdict: Ref -> Verdict, givesUpAfter: Option<nat>)

  function Unusable(tracks: seq<TrackRange>, row: nat): Option<DbError> {
    if row >= |tracks| then Some(TrackIndexOutOfRange(row, |tracks|))
    else if tracks[row].state.Deleted? then Some(TrackAlreadyDeleted(row))
    else None
  }

  /** Why the first row of `rows` that holds no track is rejected. */
  function FirstUnusable(tracks: seq<TrackRange>, rows: seq<nat>): Option<DbError> {
    if rows == [] then None
    else if Unusable(tracks, rows[0]).Some? then Unusable(tracks, rows[0])
    else FirstUnusable(tracks, rows[1..])
  }

  /** Some row outside `drop` still holds a track. */
  predicate Survives(tracks: seq<TrackRange>, drop: set<nat>) {
    exists r :: 0 <= r < |tracks| && r !in drop && !tracks[r].state.Deleted?
  }

  /** What deleting the tracks in `rows` of the recording at `ref` leaves. */
  ghost function TracksDeleted(db: Db, ref: Ref, rows: seq<nat>, storage: Verdict): (Db, Result<()>)
    requires ref in db
  {
    var rec, drop := db[ref], Elements(rows);
    match FirstUnusable(rec.tracks, rows)
    case Some(error) => (db, Err(error))
    case None =>
      if Survives(rec.tracks, drop) && rows == [] then (db, Ok(()))
      else if storage.Fails? then (db, Err(Backend))
      else if !Survives(rec.tracks, drop) then (db - {ref}, Ok(()))
      else (db[ref := Purged(rec, drop)], Ok(()))
  }

  function ShelvedTo(tracks: seq<TrackRange>, rows: seq<nat>, state: TrackState): seq<TrackRange> {
    seq(|tracks|, r requires 0 <= r < |tracks| =>
      if r in rows && !tracks[r].state.Deleted? then tracks[r].(state := state) else tracks[r])
  }

  /** What shelving or unshelving leaves. It skips rows past the table and tombstones. */
  function TracksShelved(db: Db, ref: Ref, rows: seq<nat>, shelved: bool, storage: Verdict): (Db, Result<()>)
    requires ref in db
  {
    if storage.Fails? then (db, Err(Backend))
    else
      var tracks := ShelvedTo(db[ref].tracks, rows, if shelved then Shelved else Live);
      (db[ref := db[ref].(tracks := tracks)], Ok(()))
  }

  /** The shelved rows among the first `n`, ascending. */
  function ShelvedRows(tracks: seq<TrackRange>, n: nat): seq<nat>
    requires n <= |tracks|
  {
    if n == 0 then []
    else ShelvedRows(tracks, n - 1) + if tracks[n - 1].state.Shelved? then [n - 1] else []
  }

  /** What sweeping the shelved tracks of one recording leaves. */
  ghost function Swept(db: Db, ref: Ref, storage: Verdict): (Db, Result<nat>)
    requires ref in db
  {
    var rows := ShelvedRows(db[ref].tracks, |db[ref].tracks|);
    if rows == [] then (db, Ok(0))
    else
      match TracksDeleted(db, ref, rows, storage)
      case (after, Ok(_)) => (after, Ok(|rows|))
      case (after, Err(error)) => (after, Err(error))
  }

  /** What sweeping `refs` in turn leaves, ending at the first that fails. */
  ghost function SweptAll(db: Db, refs: seq<Ref>, storage: Ref -> Verdict): (Db, Result<nat>)
    decreases |refs|
  {
    if refs == [] then (db, Ok(0))
    else if refs[0] !in db then (db, Err(NotStored))
    else
      var (after, one) := Swept(db, refs[0], storage(refs[0]));
      if one.Err? then (after, one)
      else
        Adding(one.value, SweptAll(after, refs[1..], storage))
  }

  /** A sweep that had removed `count` tracks before. */
  function Adding(count: nat, rest: (Db, Result<nat>)): (Db, Result<nat>) {
    (rest.0, if rest.1.Ok? then Ok(count + rest.1.value) else rest.1)
  }

  /** The stored recordings in the given order, each once. */
  function Listing(db: Db, order: seq<Ref>): seq<Ref> {
    if order == [] then []
    else
      var front, ref := Listing(db, order[..|order| - 1]), order[|order| - 1];
      if ref in db && ref !in front then front + [ref] else front
  }

  lemma {:induction false} ListingExactly(db: Db, order: seq<Ref>)
    ensures Stored(db, Listing(db, order))
    ensures Elements(Listing(db, order)) == db.Keys * Elements(order)
  {
    if order != [] {
      var front, ref := order[..|order| - 1], order[|order| - 1];
      ListingExactly(db, front);
      assert order == front + [ref];
      assert Elements(order) == Elements(front) + {ref};
      var listed := Listing(db, front);
      if ref in db && ref !in listed {
        assert Elements(listed + [ref]) == Elements(listed) + {ref};
      } else if ref in db {
        assert ref in Elements(listed);
      }
    }
  }

  /** `refs` name stored recordings, each once. */
  ghost predicate Stored(db: Db, refs: seq<Ref>) {
    Distinct(refs) && forall i :: 0 <= i < |refs| ==> refs[i] in db
  }

  lemma {:induction false} ListingOfStored(db: Db, refs: seq<Ref>)
    requires Stored(db, refs)
    ensures Listing(db, refs) == refs
  {
    if refs != [] {
      var front, ref := refs[..|refs| - 1], refs[|refs| - 1];
      ListingOfStored(db, front);
      assert refs == front + [ref];
    }
  }

  /** What deleting the shelved tracks of the recordings in `scope` leaves. */
  ghost function SweptScope(db: Db, scope: Scope, storage: Storage): (Db, Result<nat>) {
    match scope
    case OneRecording(ref) => if ref in db then Swept(db, ref, storage.verdict(ref)) else (db, Err(NotStored))
    case EveryRecording =>
      match storage.order
      case None => (db, Err(Backend))
      case Some(order) => SweptAll(db, Listing(db, order), storage.verdict)
  }

  class Recordings {
    var db: Db

    constructor (stored: Db)
      ensures db == stored
    {
      db := stored;
    }

    method SetTracksShelved(ref: Ref, rows: seq<nat>, shelved: bool, storage: Verdict) returns (result: Result<()>)
      modifies this
      ensures ref !in old(db) ==> db == old(db) && result == Err(NotStored)
      ensures ref in old(db) ==> (db, result) == TracksShelved(old(db), ref, rows, shelved, storage)
    {
      if ref !in db {
        return Err(NotStored);
      }
      if storage.Fails? {
        return Err(Backend);
      }
      var stored := db[ref];
      db := db[ref := stored.(tracks := ShelvedTo(stored.tracks, rows, if shelved then Shelved else Live))];
      result := Ok(());
    }

    method PurgeTracks(ref: Ref, rows: seq<nat>, storage: Verdict) returns (result: Result<()>)
      modifies this
      ensures ref !in old(db) ==> db == old(db) && result == Err(NotStored)
      ensures ref in old(db) ==> (db, result) == TracksDeleted(old(db), ref, rows, storage)
    {
      if ref !in db {
        return Err(NotStored);
      }
      result := PurgeTracksWithStored(ref, db[ref], rows, storage);
    }

    /** `stored` is what was just read at `ref`. */
    method PurgeTracksWithStored(ref: Ref, stored: Recording, rows: seq<nat>, storage: Verdict)
      returns (result: Result<()>)
      requires ref in db && db[ref] == stored
      modifies this
      ensures (db, result) == TracksDeleted(old(db), ref, rows, storage)
    {
      var unusable := CheckRows(stored.tracks, rows);
      if unusable.Some? {
        return Err(unusable.value);
      }
      var drop := Elements(rows);
      if !Survives(stored.tracks, drop) {
        if storage.Fails? {
          return Err(Backend);
        }
        db := db - {ref};
        return Ok(());
      }
      if rows == [] {
        return Ok(());
      }
      if storage.Fails? {
        return Err(Backend);
      }
      var tracks := ShiftTable(stored.tracks, drop);
      var kept := Reencode(stored, drop);
      db := db[ref := Recording(kept, tracks)];
      result := Ok(());
    }

    method PurgeTheShelvedTracksOf(ref: Ref, storage: Verdict) returns (result: Result<nat>)
      modifies this
      ensures ref !in old(db) ==> db == old(db) && result == Err(NotStored)
      ensures ref in old(db) ==> (db, result) == Swept(old(db), ref, storage)
    {
      if ref !in db {
        return Err(NotStored);
      }
      var stored := db[ref];
      var rows := ShelvedRows(stored.tracks, |stored.tracks|);
      if rows == [] {
        return Ok(0);
      }
      var purged := PurgeTracksWithStored(ref, stored, rows, storage);
      result := match purged case Ok(_) => Ok(|rows|) case Err(error) => Err(error);
    }

    method PurgeShelvedTracks(scope: Scope, storage: Storage) returns (result: Result<nat>)
      modifies this
      ensures (db, result) == SweptScope(old(db), scope, storage)
    {
      if scope.OneRecording? {
        result := PurgeTheShelvedTracksOf(scope.ref, storage.verdict(scope.ref));
        return;
      }
      if storage.order.None? {
        return Err(Backend);
      }
      ListingExactly(db, storage.order.value);
      result := SweepListed(Listing(db, storage.order.value), storage.verdict);
    }

    /** Skips a recording the listing counts no shelved track for: nothing of it is read. */
    method SweepListedRecording(ref: Ref, shelvedTracks: nat, storage: Verdict) returns (result: Result<nat>)
      requires ref in db && shelvedTracks == |ShelvedRows(db[ref].tracks, |db[ref].tracks|)|
      modifies this
      ensures (db, result) == Swept(old(db), ref, storage)
    {
      if shelvedTracks == 0 {
        return Ok(0);
      }
      result := PurgeTheShelvedTracksOf(ref, storage);
    }

    /** Sweeps every recording of `listing`, which counts the shelved tracks as they were when it was made. */
    method SweepListed(listing: seq<Ref>, storage: Ref -> Verdict) returns (result: Result<nat>)
      requires Stored(db, listing)
      modifies this
      ensures (db, result) == SweptAll(old(db), listing, storage)
    {
      ghost var before, whole := db, SweptAll(db, listing, storage);
      var shelvedTracks := map ref | ref in db :: |ShelvedRows(db[ref].tracks, |db[ref].tracks|)|;
      var deleted: nat := 0;
      SweepStarts(db, listing, storage);
      for i := 0 to |listing|
        invariant Sweeping(whole, before, db, listing, i, storage, deleted)
      {
        ghost var held := db;
        StillAsListed(before, db, listing, i);
        var one := SweepListedRecording(listing[i], shelvedTracks[listing[i]], storage(listing[i]));
        SweepGoesOn(whole, before, held, db, one, listing, i, storage, deleted);
        if one.Err? {
          return one;
        }
        deleted := deleted + one.value;
      }
      SweepEnds(whole, before, db, listing, storage, deleted);
      result := Ok(deleted);
    }
  }

  /**
   The sweep that started from `listed` and leaves `whole` has removed `deleted` tracks and stands
   before the `i`th recording.
   */
  ghost predicate Sweeping(whole: (Db, Result<nat>), listed: Db, db: Db, listing: seq<Ref>, i: nat,
                           storage: Ref -> Verdict, deleted: nat)
    requires i <= |listing|
  {
    SameFrom(listed, db, listing, i) && whole == Adding(deleted, SweptAll(db, listing[i..], storage))
  }

  lemma SweepStarts(db: Db, listing: seq<Ref>, storage: Ref -> Verdict)
    requires Stored(db, listing)
    ensures Sweeping(SweptAll(db, listing, storage), db, db, listing, 0, storage, 0)
  {
    assert listing[0..] == listing;
  }

  lemma StillAsListed(listed: Db, db: Db, listing: seq<Ref>, i: nat)
    requires SameFrom(listed, db, listing, i) && i < |listing|
    ensures listing[i] in db && listing[i] in listed && db[listing[i]] == listed[listing[i]]
  {}

  /** A sweep of the next recording, which left `after`, goes on behind it or ends the whole sweep. */
  lemma SweepGoesOn(whole: (Db, Result<nat>), listed: Db, db: Db, after: Db, one: Result<nat>, listing: seq<Ref>,
                    i: nat, storage: Ref -> Verdict, deleted: nat)
    requires Stored(listed, listing) && i < |listing| && Sweeping(whole, listed, db, listing, i, storage, deleted)
    requires listing[i] in db && (after, one) == Swept(db, listing[i], storage(listing[i]))
    ensures if one.Err? then whole == (after, one)
            else Sweeping(whole, listed, after, listing, i + 1, storage, deleted + one.value)
  {
    assert listing[i..][0] == listing[i] && listing[i..][1..] == listing[i + 1..];
    SweepLeavesTheRest(listed, db, listing, i, storage(listing[i]));
    SweepUnfolds(db, listing[i..], storage, deleted);
  }

  lemma SweepEnds(whole: (Db, Result<nat>), listed: Db, db: Db, listing: seq<Ref>, storage: Ref -> Verdict,
                  deleted: nat)
    requires Sweeping(whole, listed, db, listing, |listing|, storage, deleted)
    ensures whole == (db, Ok(deleted))
  {
    assert listing[|listing|..] == [];
  }

  /** A sweep that had removed `count` tracks comes to the first of `refs`. */
  lemma SweepUnfolds(db: Db, refs: seq<Ref>, storage: Ref -> Verdict, count: nat)
    requires refs != [] && refs[0] in db
    ensures var (after, one) := Swept(db, refs[0], storage(refs[0]));
            Adding(count, SweptAll(db, refs, storage))
            == if one.Err? then (after, one) else Adding(count + one.value, SweptAll(after, refs[1..], storage))
  {
    var (after, one) := Swept(db, refs[0], storage(refs[0]));
    if one.Ok? {
      var rest := SweptAll(after, refs[1..], storage);
      assert SweptAll(db, refs, storage) == Adding(one.value, rest);
      AddingAdds(count, one.value, rest);
    }
  }

  lemma AddingAdds(count: nat, more: nat, rest: (Db, Result<nat>))
    ensures Adding(count, Adding(more, rest)) == Adding(count + more, rest)
  {}

  /** The recordings from the `i`th listed one on are stored as they were listed. */
  ghost predicate SameFrom(listed: Db, db: Db, listing: seq<Ref>, i: nat) {
    forall k :: i <= k < |listing| ==> listing[k] in db && listing[k] in listed && db[listing[k]] == listed[listing[k]]
  }

  lemma SweepLeavesTheRest(listed: Db, db: Db, listing: seq<Ref>, i: nat, storage: Verdict)
    requires Distinct(listing) && i < |listing| && SameFrom(listed, db, listing, i)
    ensures listing[i] in db && listing[i] in listed && db[listing[i]] == listed[listing[i]]
    ensures SameFrom(listed, Swept(db, listing[i], storage).0, listing, i + 1)
  {
    SweepTouchesOnly(db, listing[i], storage);
    var after := Swept(db, listing[i], storage).0;
    forall k | i + 1 <= k < |listing|
      ensures listing[k] in after && listing[k] in listed && after[listing[k]] == listed[listing[k]]
    {
      assert listing[k] != listing[i] && listing[k] in db - {listing[i]};
    }
  }

  lemma SweepTouchesOnly(db: Db, ref: Ref, storage: Verdict)
    requires ref in db
    ensures Swept(db, ref, storage).0 - {ref} == db - {ref}
  {}

  /** The check of the requested rows, before anything is changed. */
  method CheckRows(tracks: seq<TrackRange>, rows: seq<nat>) returns (unusable: Option<DbError>)
    ensures unusable == FirstUnusable(tracks, rows)
  {
    assert rows[0..] == rows;
    for i := 0 to |rows|
      invariant FirstUnusable(tracks, rows) == FirstUnusable(tracks, rows[i..])
    {
      assert rows[i..][0] == rows[i] && rows[i..][1..] == rows[i + 1..];
      unusable := Unusable(tracks, rows[i]);
      if unusable.Some? {
        return;
      }
    }
    unusable := None;
  }

  /** The loop that range-shifts the table onto the compacted points. */
  method ShiftTable(tracks: seq<TrackRange>, drop: set<nat>) returns (shifted: seq<TrackRange>)
    ensures shifted == Shifted(tracks, drop, |tracks|)
  {
    var cursor: nat := 0;
    shifted := [];
    for row := 0 to |tracks|
      invariant shifted == Shifted(tracks, drop, row) && cursor == End(shifted, row)
    {
      var t := tracks[row];
      var deleted := row in drop || t.state.Deleted?;
      var len := if deleted || t.end < t.start then 0 else t.end - t.start;
      shifted := shifted + [TrackRange(cursor, cursor + len, if deleted then Deleted else t.state)];
      cursor := cursor + len;
    }
  }

  /** The points in no dropped range. The ranges are those of the rows in `drop`. */
  method Reencode(stored: Recording, drop: set<nat>) returns (kept: seq<Point>)
    ensures kept == Compacted(stored, drop, |stored.points|)
  {
    kept := [];
    for p := 0 to |stored.points|
      invariant kept == Compacted(stored, drop, p)
    {
      var dropped := exists r :: 0 <= r < |stored.tracks| && r in drop && stored.tracks[r].start <= p < stored.tracks[r].end;
      if !dropped {
        kept := kept + [stored.points[p]];
      }
    }
  }
}
