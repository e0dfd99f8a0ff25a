/** What the worker answers to each request, and what the request leaves of the database. */
module WorkerAnswers {
  import opened Common
  import opened TrackTable
  import opened TrackPurge
  import opened TrackPurgeProperties
  import opened ShelfSweep
  import opened Shelving
  import opened HistoryWorker

  /** A read answers what is stored. A rejected write is handed back. Neither touches the database. */
  lemma ReadsAndRejectionsAreAnswered(db: Db, request: Request, admission: Admission)
    ensures request.Open? ==>
              var (after, response) := Handled(db, Job(request, admission));
              && after == db && response.Opened? && response.ref == request.ref
              && (response.recording.Some? <==> request.ref in db)
              && (request.ref in db ==> response.recording.value == db[request.ref])
    ensures request.Write? && admission.Rejected? ==>
              var (after, response) := Handled(db, Job(request, admission));
              after == db && response.WriteRejected? && response.write == request.write
              && response.rejection == admission.rejection
    ensures request.Write? && admission.Admitted? ==>
              Handled(db, Job(request, admission)) == WriteHandled(db, request.write, admission.storage)
  {}

  /**
   A shelve or unshelve answers with the number of rows requested. It fails exactly for a recording
   that is not stored or a store that fails, and otherwise sets the requested rows.
   */
  lemma ShelvesAreAnswered(db: Db, ref: Ref, rows: seq<nat>, shelved: bool, storage: Storage)
    ensures var (after, response) := WriteHandled(db, SetTracksShelved(ref, rows, shelved), storage);
            && response.Mutated?
            && response.op == (if shelved then DbOp.TracksShelved(|rows|) else TracksUnshelved(|rows|, ref))
            && response.result == (if ref !in db then Err(NotStored)
                                   else if storage.verdict(ref).Fails? then Err(Backend) else Ok(()))
            && (response.result.Err? ==> after == db)
            && (response.result.Ok? ==>
                  && ref in after && OnlyAt(db, after, ref) && |after[ref].tracks| == |db[ref].tracks|
                  && forall r: nat :: r < |db[ref].tracks| ==>
                       after[ref].tracks[r].state == StateSet(db[ref].tracks[r].state, r in rows, shelved))
  {
    if ref in db {
      ShelveSetsExactlyTheRows(db, ref, rows, shelved, storage.verdict(ref));
    }
  }

  /** A delete of tracks answers with the number of rows requested and the reason it was rejected. */
  lemma DeletesAreAnswered(db: Db, ref: Ref, rows: seq<nat>, storage: Storage)
    requires ref in db ==> Tiles(db[ref])
    ensures var (after, response) := WriteHandled(db, DeleteTracks(ref, rows), storage);
            && response.Mutated? && response.op == TracksDeleted(|rows|)
            && (ref !in db ==> response.result == Err(NotStored))
            && (response.result.Err? ==> after == db)
            && (ref in db && (forall i: nat :: i < |rows| ==> !FirstBad(db[ref].tracks, rows, i)) && rows != [] ==>
                  response.result == (if storage.verdict(ref).Fails? then Err(Backend) else Ok(())))
            && (ref in db ==> forall i: nat :: FirstBad(db[ref].tracks, rows, i) ==>
                  response.result == Err(if rows[i] >= |db[ref].tracks|
                                         then TrackIndexOutOfRange(rows[i], |db[ref].tracks|)
                                         else TrackAlreadyDeleted(rows[i])))
            && (ref in after && ref in db && response.result.Ok? ==>
                  |after[ref].tracks| == |db[ref].tracks|
                  && forall r: nat :: r < |db[ref].tracks| ==>
                       RowOf(after[ref], r) == if r in rows then TOMBSTONE else RowOf(db[ref], r))
  {
    if ref in db {
      DeleteIsRejectedExactly(db, ref, rows, storage.verdict(ref));
      forall i: nat | FirstBad(db[ref].tracks, rows, i)
        ensures WriteHandled(db, DeleteTracks(ref, rows), storage).1.result
             == Err(if rows[i] >= |db[ref].tracks| then TrackIndexOutOfRange(rows[i], |db[ref].tracks|)
                    else TrackAlreadyDeleted(rows[i]))
      {
        RejectionNamesTheRow(db, ref, rows, storage.verdict(ref), i);
      }
      if rows != [] && forall i: nat :: i < |rows| ==> !FirstBad(db[ref].tracks, rows, i) {
        NoFirstBad(db[ref].tracks, rows);
        DeleteDropsExactlyTheRows(db, ref, rows, storage.verdict(ref));
      } else if rows != [] {
        var i: nat :| i < |rows| && FirstBad(db[ref].tracks, rows, i);
        RejectionNamesTheRow(db, ref, rows, storage.verdict(ref), i);
      }
    }
  }

  lemma NoFirstBad(tracks: seq<TrackRange>, rows: seq<nat>)
    requires forall i: nat :: i < |rows| ==> !FirstBad(tracks, rows, i)
    ensures forall i :: 0 <= i < |rows| ==> rows[i] < |tracks| && !tracks[rows[i]].state.Deleted?
  {
    var n := 0;
    while n < |rows|
      invariant n <= |rows| && forall k :: 0 <= k < n ==> rows[k] < |tracks| && !tracks[rows[k]].state.Deleted?
    {
      assert !FirstBad(tracks, rows, n);
      n := n + 1;
    }
  }

  /** A delete of shelved tracks answers with the number of tracks it deleted, or with 0 where it failed. */
  lemma SweepsAreAnswered(db: Db, scope: Scope, storage: Storage)
    ensures var (after, response) := WriteHandled(db, DeleteShelvedTracks(scope), storage);
            && response.Mutated? && response.op.TracksDeleted?
            && (after, response.result.Ok?) == (SweptScope(db, scope, storage).0, SweptScope(db, scope, storage).1.Ok?)
            && (response.result.Err? ==>
                  response.op.count == 0
                  && response.result.error == (if scope.OneRecording? && scope.ref !in db then NotStored else Backend))
            && (response.result.Ok? && scope.OneRecording? ==>
                  scope.ref in db && response.op.count == |ShelvedOf(db[scope.ref])|)
            && (response.result.Ok? && scope.EveryRecording? ==>
                  storage.order.Some? && Stored(db, Listing(db, storage.order.value))
                  && response.op.count == ShelvedCount(db, Listing(db, storage.order.value)))
  {
    match scope
    case OneRecording(ref) => OneRecordingIsSwept(db, ref, storage);
    case EveryRecording =>
      if storage.order.Some? {
        var listing := Listing(db, storage.order.value);
        ListingExactly(db, storage.order.value);
        if SweptAll(db, listing, storage.verdict).1.Ok? {
          SweepExactly(db, listing, storage.verdict);
        } else {
          FailedSweepKeepsItsPrefix(db, listing, storage.verdict);
        }
      }
  }

  /** The first `n` of `refs`. */
  ghost predicate AmongTheFirst(refs: seq<Ref>, n: nat, ref: Ref) {
    exists i :: 0 <= i < n && i < |refs| && refs[i] == ref
  }

  /**
   A delete of recordings answers with the number requested. It removes exactly those, or exactly the
   ones before it was given up, and keeps every other recording as it was.
   */
  lemma RecordingDeletesAreAnswered(db: Db, refs: seq<Ref>, storage: Storage)
    ensures var (after, response) := WriteHandled(db, DeleteRecordings(refs), storage);
            var done := if storage.givesUpAfter.None? then |refs| else storage.givesUpAfter.value;
            && response == Mutated(RecordingsDeleted(|refs|), if storage.givesUpAfter.None? then Ok(()) else Err(Backend))
            && forall ref :: (ref in after <==> ref in db && !AmongTheFirst(refs, done, ref))
                             && (ref in after ==> after[ref] == db[ref])
  {
    var done := if storage.givesUpAfter.None? then |refs| else storage.givesUpAfter.value;
    var removed := Removed(refs, storage);
    assert removed == refs[..Min(done, |refs|)];
    forall ref ensures ref in Elements(removed) <==> AmongTheFirst(refs, done, ref) {
      if ref in removed { var i := PlaceOf(removed, ref); assert refs[i] == ref; }
      if AmongTheFirst(refs, done, ref) {
        var i :| 0 <= i < done && i < |refs| && refs[i] == ref;
        assert removed[i] == ref;
      }
    }
  }
}
