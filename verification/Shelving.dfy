/** Which rows a delete, a shelve and an unshelve change, and what a later sweep makes of them. */
module Shelving {
  import opened Common
  import opened TrackTable
  import opened TrackPurge
  import opened TrackPurgeProperties
  import opened ShelfSweep

  /** Every recording but the one at `ref` is as it was. */
  ghost predicate OnlyAt(db: Db, after: Db, ref: Ref) {
    after - {ref} == db - {ref}
  }

  /** What one row of the table becomes: tombstones stay, requested rows get the requested state. */
  function StateSet(state: TrackState, requested: bool, shelved: bool): TrackState {
    match state
    case Deleted => Deleted
    case Live => if requested && shelved then Shelved else Live
    case Shelved => if requested && !shelved then Live else Shelved
  }

  /**
   An accepted shelve or unshelve sets exactly the requested rows that hold a track, and leaves every
   range, every point and every other recording as they were. A failing store changes nothing.
   */
  lemma ShelveSetsExactlyTheRows(db: Db, ref: Ref, rows: seq<nat>, shelved: bool, storage: Verdict)
    requires ref in db
    ensures var (after, result) := TracksShelved(db, ref, rows, shelved, storage);
            if storage.Fails? then after == db && result == Err(Backend)
            else
              && result == Ok(()) && ref in after && OnlyAt(db, after, ref)
              && after[ref].points == db[ref].points && |after[ref].tracks| == |db[ref].tracks|
              && forall r: nat :: r < |db[ref].tracks| ==>
                   && after[ref].tracks[r].start == db[ref].tracks[r].start
                   && after[ref].tracks[r].end == db[ref].tracks[r].end
                   && after[ref].tracks[r].state == StateSet(db[ref].tracks[r].state, r in rows, shelved)
  {}

  /** Unshelving the rows of a shelve undoes it when no requested row was shelved before. */
  lemma UnshelveUndoesShelveExactly(db: Db, ref: Ref, rows: seq<nat>)
    requires ref in db
    ensures var shelved := TracksShelved(db, ref, rows, true, Accepts).0;
            TracksShelved(shelved, ref, rows, false, Accepts).0 == db
            <==> forall r: nat :: r < |db[ref].tracks| && r in rows ==> !db[ref].tracks[r].state.Shelved?
  {
    ShelveSetsExactlyTheRows(db, ref, rows, true, Accepts);
    var shelved := TracksShelved(db, ref, rows, true, Accepts).0;
    ShelveSetsExactlyTheRows(shelved, ref, rows, false, Accepts);
    var back := TracksShelved(shelved, ref, rows, false, Accepts).0;
    if forall r: nat :: r < |db[ref].tracks| && r in rows ==> !db[ref].tracks[r].state.Shelved? {
      assert back[ref].tracks == db[ref].tracks;
      OnlyOneDiffers(db, back, ref);
    } else {
      var r: nat :| r < |db[ref].tracks| && r in rows && db[ref].tracks[r].state.Shelved?;
      assert back[ref].tracks[r].state == Live;
    }
  }

  lemma OnlyOneDiffers(db: Db, after: Db, ref: Ref)
    requires ref in db && ref in after && OnlyAt(db, after, ref) && after[ref] == db[ref]
    ensures after == db
  {
    forall other ensures (other in after <==> other in db) && (other in db ==> after[other] == db[other]) {
      if other != ref {
        assert other in after - {ref} <==> other in db - {ref};
        assert other in db ==> (after - {ref})[other] == (db - {ref})[other];
      }
    }
  }

  /** The state a run of shelves and unshelves leaves a row in: the last accepted one that names it decides. */
  function LastSet(state: TrackState, writes: seq<Write>, r: nat): TrackState {
    if writes == [] then state
    else
      var front := LastSet(state, writes[..|writes| - 1], r);
      match writes[|writes| - 1]
      case SetShelved(rows, shelved, Accepts) => StateSet(front, r in rows, shelved)
      case _ => front
  }

  lemma {:induction false} AllWrittenOneMore(db: Db, ref: Ref, writes: seq<Write>, last: Write)
    ensures AllWritten(db, ref, writes + [last]) == Written(AllWritten(db, ref, writes), ref, last)
    decreases |writes|
  {
    if writes == [] {
      assert writes + [last] == [last] && [last][1..] == [];
    } else {
      assert (writes + [last])[1..] == writes[1..] + [last];
      AllWrittenOneMore(Written(db, ref, writes[0]), ref, writes[1..], last);
    }
  }

  /** What runs of shelves and unshelves leave of one recording: its points and ranges, and the last states. */
  ghost predicate LastSets(rec: Recording, later: Recording, writes: seq<Write>) {
    && later.points == rec.points && |later.tracks| == |rec.tracks|
    && forall r: nat :: r < |rec.tracks| ==>
         && later.tracks[r].start == rec.tracks[r].start && later.tracks[r].end == rec.tracks[r].end
         && later.tracks[r].state == LastSet(rec.tracks[r].state, writes, r)
  }

  lemma {:induction false} ShelvesSetTheLast(db: Db, ref: Ref, writes: seq<Write>)
    requires ref in db && forall i :: 0 <= i < |writes| ==> writes[i].SetShelved?
    ensures ref in AllWritten(db, ref, writes) && LastSets(db[ref], AllWritten(db, ref, writes)[ref], writes)
  {
    if writes != [] {
      var front, last := writes[..|writes| - 1], writes[|writes| - 1];
      ShelvesSetTheLast(db, ref, front);
      assert writes == front + [last];
      AllWrittenOneMore(db, ref, front, last);
      ShelveSetsExactlyTheRows(AllWritten(db, ref, front), ref, last.rows, last.shelved, last.storage);
    }
  }

  /** A row was shelved and none is live: nothing of the recording is left to keep. */
  ghost predicate NothingLeft(states: seq<TrackState>) {
    Shelved in states && Live !in states
  }

  /** The states of a table. */
  function States(tracks: seq<TrackRange>): seq<TrackState> {
    seq(|tracks|, r requires 0 <= r < |tracks| => tracks[r].state)
  }

  /**
   A sweep turns exactly the shelved rows into tombstones and keeps every other row on its points. The
   recording goes exactly when nothing is left.
   */
  lemma SweepDeletesExactlyTheShelved(db: Db, ref: Ref)
    requires ref in db && Tiles(db[ref])
    ensures var swept, rec := Swept(db, ref, Accepts).0, db[ref];
            && (ref !in swept <==> NothingLeft(States(rec.tracks)))
            && (ref in swept ==>
                  && Tiles(swept[ref]) && |swept[ref].tracks| == |rec.tracks|
                  && forall r: nat :: r < |rec.tracks| ==>
                       RowOf(swept[ref], r) == if rec.tracks[r].state.Shelved? then TOMBSTONE else RowOf(rec, r))
  {
    var rec := db[ref];
    AcceptedSweepSucceeds(db, ref);
    SweptExactly(db, ref, Accepts);
    SweptRows(rec);
    ShelvedExactly(rec);
  }

  lemma ShelvedExactly(rec: Recording)
    ensures ShelvedOf(rec) != [] <==> Shelved in States(rec.tracks)
    ensures HasLive(rec) <==> Live in States(rec.tracks)
  {
    var rows := ShelvedOf(rec);
    ShelvedRowsExactly(rec.tracks, |rec.tracks|);
    if rows != [] {
      assert rows[0] in rows;
      StateAt(rec.tracks, rows[0]);
    }
    if Shelved in States(rec.tracks) {
      var r := PlaceOf(States(rec.tracks), Shelved);
      assert r in rows;
    }
    if HasLive(rec) {
      var r: nat :| r < |rec.tracks| && rec.tracks[r].state.Live?;
      StateAt(rec.tracks, r);
    }
  }

  lemma StateAt(tracks: seq<TrackRange>, r: nat)
    requires r < |tracks|
    ensures tracks[r].state in States(tracks)
  {
    assert States(tracks)[r] == tracks[r].state;
  }

  /** The states a run of shelves and unshelves leaves. */
  function LastStates(tracks: seq<TrackRange>, writes: seq<Write>): seq<TrackState> {
    seq(|tracks|, r requires 0 <= r < |tracks| => LastSet(tracks[r].state, writes, r))
  }

  /**
   After any run of shelves and unshelves, a sweep deletes exactly the rows that were last set to
   shelved, or were shelved before and not named since. Every other row keeps its points.
   */
  lemma SweepDeletesTheLastShelved(db: Db, ref: Ref, writes: seq<Write>)
    requires ref in db && Tiles(db[ref]) && forall i :: 0 <= i < |writes| ==> writes[i].SetShelved?
    ensures ref in AllWritten(db, ref, writes)
    ensures var swept, last := Swept(AllWritten(db, ref, writes), ref, Accepts).0, LastStates(db[ref].tracks, writes);
            && (ref !in swept <==> NothingLeft(last))
            && (ref in swept ==>
                  && Tiles(swept[ref]) && |swept[ref].tracks| == |last|
                  && forall r: nat :: r < |last| ==>
                       RowOf(swept[ref], r) == if last[r].Shelved? then TOMBSTONE
                                               else Row(last[r], RowOf(db[ref], r).points))
  {
    ShelvesSetTheLast(db, ref, writes);
    var rec := AllWritten(db, ref, writes)[ref];
    RunKeepsRows(db, ref, writes);
    assert States(rec.tracks) == LastStates(db[ref].tracks, writes);
    SweepDeletesExactlyTheShelved(AllWritten(db, ref, writes), ref);
    forall r: nat | r < |rec.tracks| ensures RowOf(rec, r) == Row(rec.tracks[r].state, RowOf(db[ref], r).points) {}
  }

  lemma AcceptedSweepSucceeds(db: Db, ref: Ref)
    requires ref in db
    ensures Swept(db, ref, Accepts).1.Ok?
  {
    SweepFailsExactly(db, ref, _ => Accepts);
  }

  /** What a sweep leaves in each row of one recording. */
  lemma SweptRows(rec: Recording)
    requires Tiles(rec)
    ensures SweptRecording(rec).None? <==> ShelvedOf(rec) != [] && !HasLive(rec)
    ensures SweptRecording(rec).Some? ==>
              var swept := SweptRecording(rec).value;
              && Tiles(swept) && |swept.tracks| == |rec.tracks|
              && forall r: nat :: r < |rec.tracks| ==>
                   RowOf(swept, r) == if rec.tracks[r].state.Shelved? then TOMBSTONE else RowOf(rec, r)
  {
    ShelvedRowsExactly(rec.tracks, |rec.tracks|);
    if SweptRecording(rec).Some? {
      if ShelvedOf(rec) == [] {
        forall r: nat | r < |rec.tracks| ensures !rec.tracks[r].state.Shelved? {
          assert r !in ShelvedOf(rec);
        }
      } else {
        PurgedRows(rec, Elements(ShelvedOf(rec)));
        forall r: nat | r < |rec.tracks|
          ensures r in Elements(ShelvedOf(rec)) <==> rec.tracks[r].state.Shelved? {}
      }
    }
  }

  // ----- Deletes -----

  /** The first row of `rows` that holds no track, if any. */
  ghost predicate FirstBad(tracks: seq<TrackRange>, rows: seq<nat>, i: nat) {
    && i < |rows| && (rows[i] >= |tracks| || tracks[rows[i]].state.Deleted?)
    && forall k :: 0 <= k < i ==> rows[k] < |tracks| && !tracks[rows[k]].state.Deleted?
  }

  /** A rejected delete names the first row that holds no track, and says whether it is past the table. */
  lemma RejectionNamesTheRow(db: Db, ref: Ref, rows: seq<nat>, storage: Verdict, i: nat)
    requires ref in db && FirstBad(db[ref].tracks, rows, i)
    ensures TracksDeleted(db, ref, rows, storage)
         == (db, Err(if rows[i] >= |db[ref].tracks| then TrackIndexOutOfRange(rows[i], |db[ref].tracks|)
                     else TrackAlreadyDeleted(rows[i])))
  {
    FirstBadDecides(db[ref].tracks, rows, i);
  }

  lemma {:induction false} FirstBadDecides(tracks: seq<TrackRange>, rows: seq<nat>, i: nat)
    requires FirstBad(tracks, rows, i)
    ensures FirstUnusable(tracks, rows)
         == Some(if rows[i] >= |tracks| then TrackIndexOutOfRange(rows[i], |tracks|) else TrackAlreadyDeleted(rows[i]))
    decreases |rows|
  {
    if i > 0 {
      assert rows[0] < |tracks| && !tracks[rows[0]].state.Deleted?;
      forall k | 0 <= k < i - 1 ensures rows[1..][k] < |tracks| && !tracks[rows[1..][k]].state.Deleted? {
        assert rows[1..][k] == rows[k + 1];
      }
      FirstBadDecides(tracks, rows[1..], i - 1);
    }
  }

  /**
   An accepted delete that leaves a track turns exactly the requested rows into tombstones, keeps every
   other row on its points, and touches no other recording. Without a bad row it fails exactly when the
   store does, and then changes nothing.
   */
  lemma DeleteDropsExactlyTheRows(db: Db, ref: Ref, rows: seq<nat>, storage: Verdict)
    requires ref in db && Tiles(db[ref])
    requires forall i :: 0 <= i < |rows| ==> rows[i] < |db[ref].tracks| && !db[ref].tracks[rows[i]].state.Deleted?
    requires rows != []
    ensures var (after, result) := TracksDeleted(db, ref, rows, storage);
            if storage.Fails? then (after, result) == (db, Err(Backend))
            else
              && result == Ok(()) && OnlyAt(db, after, ref)
              && (ref in after <==>
                    exists r: nat :: r < |db[ref].tracks| && r !in rows && !db[ref].tracks[r].state.Deleted?)
              && (ref in after ==>
                    && Tiles(after[ref]) && |after[ref].tracks| == |db[ref].tracks|
                    && forall r: nat :: r < |db[ref].tracks| ==>
                         RowOf(after[ref], r) == if r in rows then TOMBSTONE else RowOf(db[ref], r))
  {
    FirstUnusableExactly(db[ref].tracks, rows);
    PurgedRows(db[ref], Elements(rows));
    forall r: nat ensures r in Elements(rows) <==> r in rows {}
  }

  /** A sweep of one recording touches that one alone, and fails for one that is not stored. */
  lemma OneRecordingIsSwept(db: Db, ref: Ref, storage: Storage)
    ensures var (after, result) := SweptScope(db, OneRecording(ref), storage);
            && OnlyAt(db, after, ref)
            && (ref !in db ==> (after, result) == (db, Err(NotStored)))
            && (ref in db && result.Err? ==> after == db && result == Err(Backend))
            && (ref in db ==> (result.Err? <==> ShelvedOf(db[ref]) != [] && storage.verdict(ref).Fails?))
            && (ref in db && result.Ok? ==> result == Ok(|ShelvedOf(db[ref])|) && SweptAt(db, after, ref))
  {
    if ref in db {
      SweepFailsExactly(db, ref, storage.verdict);
      SweptExactly(db, ref, storage.verdict(ref));
      SweepTouchesOnly(db, ref, storage.verdict(ref));
    }
  }
}
