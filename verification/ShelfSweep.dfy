/** What a sweep of the shelved tracks leaves of the database. */
module ShelfSweep {
  import opened Common
  import opened TrackTable
  import opened TrackPurge
  import opened TrackPurgeProperties

  function ShelvedOf(rec: Recording): seq<nat> {
    ShelvedRows(rec.tracks, |rec.tracks|)
  }

  predicate HasLive(rec: Recording) {
    exists r :: 0 <= r < |rec.tracks| && rec.tracks[r].state.Live?
  }

  lemma {:induction false} ShelvedRowsExactly(tracks: seq<TrackRange>, n: nat)
    requires n <= |tracks|
    ensures var rows := ShelvedRows(tracks, n);
            && (forall r: nat :: r in rows <==> r < n && tracks[r].state.Shelved?)
            && Distinct(rows)
  {
    if n > 0 {
      ShelvedRowsExactly(tracks, n - 1);
    }
  }

  /** What a successful sweep leaves of one recording. */
  ghost function SweptRecording(rec: Recording): Option<Recording> {
    if ShelvedOf(rec) == [] then Some(rec)
    else if !HasLive(rec) then None
    else Some(Purged(rec, Elements(ShelvedOf(rec))))
  }

  /** A sweep of one recording that succeeds leaves `SweptRecording` and counts the shelved rows. */
  lemma SweptExactly(db: Db, ref: Ref, storage: Verdict)
    requires ref in db
    ensures var (after, result) := Swept(db, ref, storage);
            && (result.Err? ==> after == db)
            && (result.Ok? ==>
                  && result.value == |ShelvedOf(db[ref])|
                  && after == match SweptRecording(db[ref]) case None => db - {ref} case Some(rec) => db[ref := rec])
  {
    var rec := db[ref];
    var rows := ShelvedOf(rec);
    ShelvedRowsExactly(rec.tracks, |rec.tracks|);
    if rows == [] {
      assert db == db[ref := rec];
    } else {
      FirstUnusableExactly(rec.tracks, rows);
      forall i | 0 <= i < |rows| ensures rows[i] < |rec.tracks| && rec.tracks[rows[i]].state.Shelved? {
        assert rows[i] in rows;
      }
      SurvivesExactlyWithALiveRow(rec);
    }
  }

  lemma SurvivesExactlyWithALiveRow(rec: Recording)
    ensures Survives(rec.tracks, Elements(ShelvedOf(rec))) <==> HasLive(rec)
  {
    ShelvedRowsExactly(rec.tracks, |rec.tracks|);
    forall r: nat | r < |rec.tracks|
      ensures r !in Elements(ShelvedOf(rec)) && !rec.tracks[r].state.Deleted? <==> rec.tracks[r].state.Live? {}
  }

  /** A swept recording has no shelved row left and denotes in every live row what it denoted. */
  lemma SweepKeepsLiveRows(rec: Recording)
    requires Tiles(rec)
    ensures SweptRecording(rec).None? <==> ShelvedOf(rec) != [] && !HasLive(rec)
    ensures SweptRecording(rec).Some? ==>
              var swept := SweptRecording(rec).value;
              && RowsKept(rec, swept)
              && ShelvedOf(swept) == []
              && forall r: nat :: r < |rec.tracks| && rec.tracks[r].state.Live? ==> RowOf(swept, r) == RowOf(rec, r)
  {
    TilingKeepsItself(rec);
    ShelvedRowsExactly(rec.tracks, |rec.tracks|);
    if SweptRecording(rec).Some? && ShelvedOf(rec) != [] {
      var drop, swept := Elements(ShelvedOf(rec)), SweptRecording(rec).value;
      PurgeKeepsRows(rec, drop);
      PurgedRows(rec, drop);
      PurgedStates(rec, drop);
      forall r: nat | r < |swept.tracks| ensures !swept.tracks[r].state.Shelved? {
        assert r in drop <==> rec.tracks[r].state.Shelved?;
      }
      NoShelvedRows(swept.tracks, |swept.tracks|);
    }
  }

  lemma {:induction false} NoShelvedRows(tracks: seq<TrackRange>, n: nat)
    requires n <= |tracks| && forall r: nat :: r < n ==> !tracks[r].state.Shelved?
    ensures ShelvedRows(tracks, n) == []
  {
    if n > 0 {
      NoShelvedRows(tracks, n - 1);
    }
  }

  /** How many shelved rows the recordings at `refs` hold. */
  function ShelvedCount(db: Db, refs: seq<Ref>): nat
    requires forall i :: 0 <= i < |refs| ==> refs[i] in db
  {
    if refs == [] then 0 else |ShelvedOf(db[refs[0]])| + ShelvedCount(db, refs[1..])
  }

  lemma {:induction false} ShelvedCountOfTheSame(db: Db, other: Db, refs: seq<Ref>)
    requires forall i :: 0 <= i < |refs| ==> refs[i] in db && refs[i] in other && db[refs[i]] == other[refs[i]]
    ensures ShelvedCount(db, refs) == ShelvedCount(other, refs)
  {
    if refs != [] {
      ShelvedCountOfTheSame(db, other, refs[1..]);
    }
  }

  /** What the sweep leaves at one reference. */
  ghost predicate SweptAt(db: Db, end: Db, ref: Ref)
    requires ref in db
  {
    match SweptRecording(db[ref])
    case None => ref !in end
    case Some(rec) => ref in end && end[ref] == rec
  }

  /**
   A successful sweep counts the shelved rows in its scope, leaves every recording in scope swept
   and touches no other. A recording without shelved rows is left as it was.
   */
  lemma {:induction false} SweepExactly(db: Db, refs: seq<Ref>, storage: Ref -> Verdict)
    requires Stored(db, refs)
    requires SweptAll(db, refs, storage).1.Ok?
    ensures var (end, result) := SweptAll(db, refs, storage);
            && result.value == ShelvedCount(db, refs)
            && (forall i :: 0 <= i < |refs| ==> SweptAt(db, end, refs[i]))
            && SameOutside(db, end, refs)
    decreases |refs|
  {
    if refs != [] {
      var ref, rest := refs[0], refs[1..];
      SweptExactly(db, ref, storage(ref));
      RestIsStored(db, refs, storage(ref));
      SweepTouchesOnly(db, ref, storage(ref));
      var after := Swept(db, ref, storage(ref)).0;
      SweepExactly(after, rest, storage);
      ShelvedCountOfTheSame(after, db, rest);
      SweptThenTheRest(db, after, SweptAll(after, rest, storage).0, refs);
    }
  }

  /** Outside `refs` both hold the same recordings. */
  ghost predicate SameOutside(db: Db, end: Db, refs: seq<Ref>) {
    forall ref :: ref !in refs ==> (ref in end <==> ref in db) && (ref in db ==> end[ref] == db[ref])
  }

  lemma SweptThenTheRest(db: Db, after: Db, end: Db, refs: seq<Ref>)
    requires Stored(db, refs) && refs != [] && SweptAt(db, after, refs[0]) && after - {refs[0]} == db - {refs[0]}
    requires forall i :: 0 <= i < |refs[1..]| ==> refs[1..][i] in after && after[refs[1..][i]] == db[refs[1..][i]]
                                                  && SweptAt(after, end, refs[1..][i])
    requires SameOutside(after, end, refs[1..])
    ensures (forall i :: 0 <= i < |refs| ==> SweptAt(db, end, refs[i])) && SameOutside(db, end, refs)
  {
    var ref, rest := refs[0], refs[1..];
    assert refs == [ref] + rest;
    forall i | 0 <= i < |refs| ensures SweptAt(db, end, refs[i]) {
      if i > 0 {
        assert refs[i] == rest[i - 1];
      } else {
        assert ref !in rest;
      }
    }
    forall other | other !in refs
      ensures (other in end <==> other in db) && (other in db ==> end[other] == db[other])
    {
      assert other !in rest && other != ref;
      assert other in after - {ref} <==> other in db - {ref};
      assert other in db ==> (after - {ref})[other] == (db - {ref})[other];
    }
  }

  /** Sweeping recordings that hold no shelved row removes nothing and counts 0. */
  lemma {:induction false} NothingToSweep(db: Db, refs: seq<Ref>, storage: Ref -> Verdict)
    requires forall i :: 0 <= i < |refs| ==> refs[i] in db && ShelvedOf(db[refs[i]]) == []
    ensures SweptAll(db, refs, storage) == (db, Ok(0))
    decreases |refs|
  {
    if refs != [] {
      NothingToSweep(db, refs[1..], storage);
    }
  }

  /** A second sweep over what is left finds nothing. */
  lemma SweepIsIdempotent(db: Db, refs: seq<Ref>, again: seq<Ref>, storage: Ref -> Verdict, retried: Ref -> Verdict)
    requires Stored(db, refs) && forall i :: 0 <= i < |refs| ==> Tiles(db[refs[i]])
    requires SweptAll(db, refs, storage).1.Ok?
    requires forall i :: 0 <= i < |again| ==> again[i] in refs && again[i] in SweptAll(db, refs, storage).0
    ensures var end := SweptAll(db, refs, storage).0;
            SweptAll(end, again, retried) == (end, Ok(0))
  {
    SweepExactly(db, refs, storage);
    var end := SweptAll(db, refs, storage).0;
    forall i | 0 <= i < |again| ensures ShelvedOf(end[again[i]]) == [] {
      var k := PlaceOf(refs, again[i]);
      assert SweptAt(db, end, refs[k]);
      SweepKeepsLiveRows(db[refs[k]]);
    }
    NothingToSweep(end, again, retried);
  }

  /** A successful sweep of a full listing leaves exactly the swept recordings, none with a shelved row. */
  lemma EveryRecordingIsSwept(db: Db, storage: Storage)
    requires storage.order.Some? && db.Keys <= Elements(storage.order.value)
    requires forall ref :: ref in db ==> Tiles(db[ref])
    requires SweptScope(db, EveryRecording, storage).1.Ok?
    ensures var (end, result) := SweptScope(db, EveryRecording, storage);
            && (forall ref :: ref in end <==> ref in db && SweptRecording(db[ref]).Some?)
            && (forall ref :: ref in end ==> ref in db && Some(end[ref]) == SweptRecording(db[ref])
                                             && ShelvedOf(end[ref]) == [])
  {
    var listing := Listing(db, storage.order.value);
    ListingExactly(db, storage.order.value);
    SweepExactly(db, listing, storage.verdict);
    var end := SweptAll(db, listing, storage.verdict).0;
    forall ref
      ensures ref in end <==> ref in db && SweptRecording(db[ref]).Some?
      ensures ref in end ==> ref in db && Some(end[ref]) == SweptRecording(db[ref]) && ShelvedOf(end[ref]) == []
    {
      if ref in db {
        assert ref in Elements(listing);
        var k := PlaceOf(listing, ref);
        assert SweptAt(db, end, listing[k]);
        SweepKeepsLiveRows(db[ref]);
      } else {
        assert ref !in Elements(listing);
      }
    }
  }

  // ----- A sweep that fails -----

  /** A sweep fails at a recording exactly when it holds shelved rows and the store rejects what is left. */
  predicate FailsAt(db: Db, ref: Ref, storage: Ref -> Verdict)
    requires ref in db
  {
    ShelvedOf(db[ref]) != [] && storage(ref).Fails?
  }

  /** How many of `refs` a sweep is done with when it fails or ends. */
  function Reached(db: Db, refs: seq<Ref>, storage: Ref -> Verdict): (k: nat)
    requires forall i :: 0 <= i < |refs| ==> refs[i] in db
    ensures k <= |refs|
  {
    if refs == [] || FailsAt(db, refs[0], storage) then 0 else 1 + Reached(db, refs[1..], storage)
  }

  lemma SweepFailsExactly(db: Db, ref: Ref, storage: Ref -> Verdict)
    requires ref in db
    ensures Swept(db, ref, storage(ref)).1.Err? <==> FailsAt(db, ref, storage)
    ensures FailsAt(db, ref, storage) ==> Swept(db, ref, storage(ref)) == (db, Err(Backend))
  {
    var rec, rows := db[ref], ShelvedOf(db[ref]);
    ShelvedRowsExactly(rec.tracks, |rec.tracks|);
    FirstUnusableExactly(rec.tracks, rows);
    forall i | 0 <= i < |rows| ensures rows[i] < |rec.tracks| && rec.tracks[rows[i]].state.Shelved? {
      assert rows[i] in rows;
    }
  }

  lemma {:induction false} ReachedOfTheSame(db: Db, other: Db, refs: seq<Ref>, storage: Ref -> Verdict)
    requires forall i :: 0 <= i < |refs| ==> refs[i] in db && refs[i] in other && db[refs[i]] == other[refs[i]]
    ensures Reached(db, refs, storage) == Reached(other, refs, storage)
  {
    if refs != [] {
      ReachedOfTheSame(db, other, refs[1..], storage);
    }
  }

  /** The recordings behind the first are stored as they were once the first is swept. */
  lemma RestIsStored(db: Db, refs: seq<Ref>, verdict: Verdict)
    requires Stored(db, refs) && refs != []
    ensures var after := Swept(db, refs[0], verdict).0;
            Stored(after, refs[1..])
            && forall i :: 0 <= i < |refs[1..]| ==> refs[1..][i] in db && after[refs[1..][i]] == db[refs[1..][i]]
  {
    var after, rest := Swept(db, refs[0], verdict).0, refs[1..];
    SweepTouchesOnly(db, refs[0], verdict);
    forall i | 0 <= i < |rest| ensures rest[i] in after && rest[i] in db && after[rest[i]] == db[rest[i]] {
      assert rest[i] == refs[i + 1] && rest[i] != refs[0];
      assert rest[i] in db - {refs[0]};
    }
    forall i, j | 0 <= i < j < |rest| ensures rest[i] != rest[j] {
      assert rest[i] == refs[i + 1] && rest[j] == refs[j + 1];
    }
  }

  /** A sweep that fails keeps what it did to the recordings before the failing one, and only that. */
  lemma {:induction false} FailedSweepKeepsItsPrefix(db: Db, refs: seq<Ref>, storage: Ref -> Verdict)
    requires Stored(db, refs)
    ensures var k := Reached(db, refs, storage);
            && SweptAll(db, refs[..k], storage).1.Ok?
            && SweptAll(db, refs, storage).0 == SweptAll(db, refs[..k], storage).0
            && (SweptAll(db, refs, storage).1.Err? <==> k < |refs|)
            && (k < |refs| ==> FailsAt(db, refs[k], storage) && SweptAll(db, refs, storage).1 == Err(Backend))
    decreases |refs|
  {
    if refs != [] {
      var ref, rest := refs[0], refs[1..];
      SweepFailsExactly(db, ref, storage);
      if !FailsAt(db, ref, storage) {
        var after := Swept(db, ref, storage(ref)).0;
        RestIsStored(db, refs, storage(ref));
        FailedSweepKeepsItsPrefix(after, rest, storage);
        ReachedOfTheSame(db, after, rest, storage);
        var k := Reached(db, refs, storage);
        assert refs[..k][0] == ref && refs[..k][1..] == rest[..k - 1];
      }
    }
  }

  /** A sweep that deletes the shelved rows of a recording changes or removes it. */
  lemma SweptDiffers(rec: Recording)
    requires ShelvedOf(rec) != []
    ensures SweptRecording(rec) != Some(rec)
  {
    var rows := ShelvedOf(rec);
    ShelvedRowsExactly(rec.tracks, |rec.tracks|);
    assert rows[0] in rows;
    ShiftedRow(rec.tracks, Elements(rows), rows[0]);
  }

  /**
   A sweep, failed or not, leaves the database alone exactly when no recording listed before the one
   it fails at holds a shelved row.
   */
  lemma SweepChangesNothingExactly(db: Db, refs: seq<Ref>, storage: Ref -> Verdict)
    requires Stored(db, refs)
    ensures SweptAll(db, refs, storage).0 == db
            <==> forall i :: 0 <= i < Reached(db, refs, storage) ==> ShelvedOf(db[refs[i]]) == []
  {
    var done := refs[..Reached(db, refs, storage)];
    FailedSweepKeepsItsPrefix(db, refs, storage);
    forall i | 0 <= i < |done| ensures done[i] == refs[i] && done[i] in db {}
    if forall i :: 0 <= i < |done| ==> ShelvedOf(db[refs[i]]) == [] {
      NothingToSweep(db, done, storage);
    } else {
      var i :| 0 <= i < |done| && ShelvedOf(db[refs[i]]) != [];
      SweepExactly(db, done, storage);
      var end := SweptAll(db, done, storage).0;
      assert SweptAt(db, end, done[i]);
      SweptDiffers(db[done[i]]);
    }
  }
}
