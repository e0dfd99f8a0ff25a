/** Where the receiver was nearest to a time: every loaded fix, sorted, and a binary search. */
module FixPositions {
  import opened Common
  import opened StableSort

  type Position = int

  datatype Fix = Fix(secs: int, position: Position)

  /** The placed points of one track, absent where none of its points could be placed. */
  type Track = Option<seq<Fix>>

  type LoadedFile = seq<Track>

  predicate NoLaterFix(a: Fix, b: Fix) {
    a.secs <= b.secs
  }

  function FixesOfTracks(tracks: seq<Track>): seq<Fix> {
    if tracks == [] then []
    else (match tracks[0] case None => [] case Some(placed) => placed) + FixesOfTracks(tracks[1..])
  }

  function AllFixes(files: seq<LoadedFile>): seq<Fix> {
    if files == [] then [] else FixesOfTracks(files[0]) + AllFixes(files[1..])
  }

  function Distance(a: int, b: int): nat {
    if a < b then b - a else a - b
  }

  ghost predicate OldestFirst(fixes: seq<Fix>) {
    Ordered(fixes, NoLaterFix)
  }

  class FixPositionTimeline {
    var fixes: seq<Fix>

    /** The library sort is unstable. Nothing below depends on the order of fixes of one second. */
    constructor Of(files: seq<LoadedFile>)
      ensures OldestFirst(fixes) && multiset(fixes) == multiset(AllFixes(files))
    {
      fixes := Sorted(AllFixes(files), NoLaterFix);
      new;
      SortedIsAnOrderedPermutation(AllFixes(files), NoLaterFix);
    }

    /** The number of fixes before `secs`, by binary search. */
    method PartitionPoint(secs: int) returns (after: nat)
      requires OldestFirst(fixes)
      ensures after <= |fixes|
      ensures forall i :: 0 <= i < after ==> fixes[i].secs < secs
      ensures forall i :: after <= i < |fixes| ==> secs <= fixes[i].secs
    {
      after := 0;
      var high := |fixes|;
      while after < high
        invariant after <= high <= |fixes|
        invariant forall i :: 0 <= i < after ==> fixes[i].secs < secs
        invariant forall i :: high <= i < |fixes| ==> secs <= fixes[i].secs
      {
        var mid := (after + high) / 2;
        if fixes[mid].secs < secs {
          forall i | 0 <= i < mid ensures fixes[i].secs < secs { assert NoLaterFix(fixes[i], fixes[mid]); }
          after := mid + 1;
        } else {
          forall i | mid < i < |fixes| ensures secs <= fixes[i].secs { assert NoLaterFix(fixes[mid], fixes[i]); }
          high := mid;
        }
      }
    }

    method NearestPosition(secs: int) returns (position: Option<Position>)
      requires OldestFirst(fixes)
      ensures Nearest(fixes, secs, position)
    {
      var after := PartitionPoint(secs);
      if after == 0 && after == |fixes| {
        return None;
      }
      var nearest: nat;
      if after == 0 {
        nearest := after;
      } else if after == |fixes| {
        nearest := after - 1;
      } else if secs - fixes[after - 1].secs <= fixes[after].secs - secs {
        nearest := after - 1;
      } else {
        nearest := after;
      }
      position := Some(fixes[nearest].position);
      NearestOfTheTwo(fixes, secs, after, nearest);
    }
  }

  /** No fix of `fixes` is nearer to `secs` than `fix`, and none as near is earlier than it. */
  ghost predicate IsNearest(fixes: seq<Fix>, secs: int, fix: Fix) {
    && fix in fixes
    && forall other :: other in fixes ==>
         Distance(fix.secs, secs) < Distance(other.secs, secs)
         || (Distance(fix.secs, secs) == Distance(other.secs, secs) && fix.secs <= other.secs)
  }

  /** `position` is that of a nearest fix, the earlier one on a tie, and absent exactly without fixes. */
  ghost predicate Nearest(fixes: seq<Fix>, secs: int, position: Option<Position>) {
    match position
    case None => fixes == []
    case Some(p) => exists fix :: IsNearest(fixes, secs, fix) && fix.position == p
  }

  lemma NearestOfTheTwo(fixes: seq<Fix>, secs: int, after: nat, nearest: nat)
    requires OldestFirst(fixes) && after <= |fixes| && nearest < |fixes|
    requires forall i :: 0 <= i < after ==> fixes[i].secs < secs
    requires forall i :: after <= i < |fixes| ==> secs <= fixes[i].secs
    requires nearest == after || nearest + 1 == after
    requires 0 < after < |fixes| ==>
               (nearest + 1 == after <==> secs - fixes[after - 1].secs <= fixes[after].secs - secs)
    ensures IsNearest(fixes, secs, fixes[nearest])
  {
    forall other | other in fixes
      ensures Distance(fixes[nearest].secs, secs) < Distance(other.secs, secs)
              || (Distance(fixes[nearest].secs, secs) == Distance(other.secs, secs) && fixes[nearest].secs <= other.secs)
    {
      var k := PlaceOf(fixes, other);
      if k < after {
        assert k < after - 1 ==> NoLaterFix(fixes[k], fixes[after - 1]);
      } else {
        assert after < k ==> NoLaterFix(fixes[after], fixes[k]);
      }
    }
  }

  /** The answer is about every loaded fix, since sorting loses and adds none. */
  lemma NearestOfAllFixes(files: seq<LoadedFile>, fixes: seq<Fix>, secs: int, position: Option<Position>)
    requires multiset(fixes) == multiset(AllFixes(files))
    ensures Nearest(fixes, secs, position) <==> Nearest(AllFixes(files), secs, position)
  {
    var all := AllFixes(files);
    forall fix ensures fix in fixes <==> fix in all { assert fix in multiset(fixes) <==> fix in multiset(all); }
    forall fix ensures IsNearest(fixes, secs, fix) <==> IsNearest(all, secs, fix) {}
    assert |multiset(fixes)| == |fixes| && |multiset(all)| == |all|;
  }

  /** A fix is among all the fixes exactly when a placed track of a loaded file holds it. */
  lemma {:induction false} AllFixesExactly(files: seq<LoadedFile>, fix: Fix)
    ensures fix in AllFixes(files) <==>
              exists i, j :: 0 <= i < |files| && 0 <= j < |files[i]| && files[i][j].Some? && fix in files[i][j].value
  {
    if files != [] {
      AllFixesExactly(files[1..], fix);
      FixesOfTracksExactly(files[0], fix);
      if fix in AllFixes(files[1..]) {
        var i, j :| 0 <= i < |files[1..]| && 0 <= j < |files[1..][i]| && files[1..][i][j].Some?
                    && fix in files[1..][i][j].value;
        assert files[i + 1][j].Some? && fix in files[i + 1][j].value;
      }
      if i, j :| 0 <= i < |files| && 0 <= j < |files[i]| && files[i][j].Some? && fix in files[i][j].value {
        if i > 0 { assert files[1..][i - 1][j].Some? && fix in files[1..][i - 1][j].value; }
      }
    }
  }

  lemma {:induction false} FixesOfTracksExactly(tracks: seq<Track>, fix: Fix)
    ensures fix in FixesOfTracks(tracks) <==>
              exists j :: 0 <= j < |tracks| && tracks[j].Some? && fix in tracks[j].value
  {
    if tracks != [] {
      FixesOfTracksExactly(tracks[1..], fix);
      if j :| 0 <= j < |tracks[1..]| && tracks[1..][j].Some? && fix in tracks[1..][j].value {
        assert tracks[j + 1].Some? && fix in tracks[j + 1].value;
      }
      if j :| 0 <= j < |tracks| && tracks[j].Some? && fix in tracks[j].value {
        if j > 0 { assert tracks[1..][j - 1].Some? && fix in tracks[1..][j - 1].value; }
      }
    }
  }
}
