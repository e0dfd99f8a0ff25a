/**
 The day queue every day-keyed fetch scheduler runs on.

 `QueueState` is the value of a queue and the functions on it say what each operation does to that
 value. `DayFetchQueue` is the object the schedulers hold. Each of its methods updates the fields
 in place and is proved to take the value where the function of the same name takes it. What the
 operations promise together is stated in module DayFetchQueueProperties.
 */
module DayFetchQueues {
  import opened Common

  /** What the refresh rule says of a day: `Ok(false)`, `Ok(true)` and `Err`. */
  datatype ArchiveAnswer = Complete | NeedsFetch | Unreadable(detail: string)

  datatype DayArchiveState = Archived | Awaited

  datatype DayFailure = DayFailure(day: Day, detail: string)

  /** The days an explicit download still waits on, and how many it queued. */
  datatype PendingBackfill = PendingBackfill(pending: set<Day>, total: nat) {
    /** Days that have reported back, with the subtraction saturating at 0. */
    function Done(): nat {
      if total < |pending| then 0 else total - |pending|
    }
  }

  datatype QueueState = QueueState(
    queue: seq<Day>,
    requested: set<Day>,
    inFlight: Option<Day>,
    failures: seq<DayFailure>,
    recordingDays: map<Day, DayArchiveState>,
    backgroundDays: map<Day, DayArchiveState>,
    backfill: Option<PendingBackfill>)

  const EMPTY := QueueState([], {}, None, [], map[], map[], None)

  const UNREADABLE := "reading the archive: "

  function UnreadableFailure(day: Day, detail: string): DayFailure {
    DayFailure(day, UNREADABLE + detail)
  }

  /** The archive state a request records for a day answered `answer`. */
  function StateFor(answer: ArchiveAnswer): DayArchiveState {
    if answer.Complete? then Archived else Awaited
  }

  function CountedDayQueued(s: QueueState, day: Day, answer: ArchiveAnswer): QueueState {
    if answer.Complete? || day in s.requested then s
    else
      var requested := s.(requested := s.requested + {day});
      match answer
      case Unreadable(detail) => requested.(failures := s.failures + [UnreadableFailure(day, detail)])
      case _ => requested.(queue := s.queue + [day])
  }

  function RecordingDayRequested(s: QueueState, day: Day, answer: ArchiveAnswer): QueueState {
    var queued := CountedDayQueued(s, day, answer);
    queued.(backgroundDays := s.backgroundDays - {day},
            recordingDays := s.recordingDays[day := StateFor(answer)])
  }

  function BackgroundDayRequested(s: QueueState, day: Day, answer: ArchiveAnswer): QueueState {
    if day in s.recordingDays then s
    else
      var queued := CountedDayQueued(s, day, answer);
      queued.(backgroundDays := s.backgroundDays[day := StateFor(answer)])
  }

  /** The day in flight, as a set of none or one. */
  function InFlightDays(s: QueueState): set<Day> {
    match s.inFlight case None => {} case Some(day) => {day}
  }

  function BackfillCancelled(s: QueueState): QueueState {
    match s.backfill
    case None => s
    case Some(backfill) =>
      s.(backfill := None,
         queue := Without(s.queue, backfill.pending),
         requested := s.requested - (backfill.pending - InFlightDays(s)))
  }

  /** The days of `days` a backfill queues when `requested` were already requested, in order. */
  function Admitted(days: seq<Day>, requested: set<Day>, answers: Day -> ArchiveAnswer): seq<Day> {
    if days == [] then []
    else
      var rest := Admitted(days[1..], requested + {days[0]}, answers);
      if days[0] in requested || !answers(days[0]).NeedsFetch? then rest else [days[0]] + rest
  }

  /** A backfill queues every day that needs a fetch and was not requested, once. */
  lemma {:induction false} AdmittedExactly(days: seq<Day>, requested: set<Day>, answers: Day -> ArchiveAnswer)
    ensures var admitted := Admitted(days, requested, answers);
            && (forall d :: d in admitted <==> d in days && d !in requested && answers(d).NeedsFetch?)
            && Distinct(admitted)
  {
    if days != [] {
      AdmittedExactly(days[1..], requested + {days[0]}, answers);
    }
  }

  /** Where `day` comes first in `days`. */
  function FirstIndex(days: seq<Day>, day: Day): nat {
    if days == [] || days[0] == day then 0 else 1 + FirstIndex(days[1..], day)
  }

  /** A backfill queues its days in the order it was given them. */
  lemma {:induction false} AdmittedInOrder(days: seq<Day>, requested: set<Day>, answers: Day -> ArchiveAnswer)
    ensures var admitted := Admitted(days, requested, answers);
            forall i, j :: 0 <= i < j < |admitted|
                           ==> FirstIndex(days, admitted[i]) < FirstIndex(days, admitted[j])
  {
    if days != [] {
      var rest := Admitted(days[1..], requested + {days[0]}, answers);
      AdmittedInOrder(days[1..], requested + {days[0]}, answers);
      AdmittedExactly(days[1..], requested + {days[0]}, answers);
      forall i | 0 <= i < |rest| ensures FirstIndex(days, rest[i]) == 1 + FirstIndex(days[1..], rest[i]) {
        assert rest[i] in rest;
      }
    }
  }

  /** The failures a backfill reports over `days`, in order. */
  function Refused(days: seq<Day>, requested: set<Day>, answers: Day -> ArchiveAnswer): seq<DayFailure> {
    if days == [] then []
    else
      var rest := Refused(days[1..], requested + {days[0]}, answers);
      if days[0] in requested || !answers(days[0]).Unreadable? then rest
      else [UnreadableFailure(days[0], answers(days[0]).detail)] + rest
  }

  /** `s` and the pending days of a starting backfill once its loop has come to `day`. */
  function DayAdmitted(s: QueueState, pending: set<Day>, day: Day, answer: ArchiveAnswer): (QueueState, set<Day>) {
    if day in s.requested then (s, pending)
    else
      var requested := s.(requested := s.requested + {day});
      match answer
      case NeedsFetch => (requested.(queue := s.queue + [day]), pending + {day})
      case Complete => (requested, pending)
      case Unreadable(detail) => (requested.(failures := s.failures + [UnreadableFailure(day, detail)]), pending)
  }

  function DaysAdmitted(s: QueueState, pending: set<Day>, days: seq<Day>, answers: Day -> ArchiveAnswer):
    (QueueState, set<Day>)
    decreases |days|
  {
    if days == [] then (s, pending)
    else
      var (next, nextPending) := DayAdmitted(s, pending, days[0], answers(days[0]));
      DaysAdmitted(next, nextPending, days[1..], answers)
  }

  /** The loop of a starting backfill queues exactly the days of `Admitted`. */
  lemma {:induction false} DaysAdmittedAppends(s: QueueState, pending: set<Day>, days: seq<Day>,
                                               answers: Day -> ArchiveAnswer)
    ensures DaysAdmitted(s, pending, days, answers)
         == (s.(queue := s.queue + Admitted(days, s.requested, answers),
                requested := s.requested + Elements(days),
                failures := s.failures + Refused(days, s.requested, answers)),
             pending + Elements(Admitted(days, s.requested, answers)))
    decreases |days|
  {
    if days == [] {
      assert s.requested + Elements(days) == s.requested;
      assert s.queue + Admitted(days, s.requested, answers) == s.queue;
      assert s.failures + Refused(days, s.requested, answers) == s.failures;
      assert pending + Elements(Admitted(days, s.requested, answers)) == pending;
    } else {
      var day := days[0];
      var (next, nextPending) := DayAdmitted(s, pending, day, answers(day));
      assert next.requested == s.requested + {day};
      DaysAdmittedAppends(next, nextPending, days[1..], answers);
      assert s.requested + Elements(days) == next.requested + Elements(days[1..]);
      var admitted := Admitted(days[1..], next.requested, answers);
      var refused := Refused(days[1..], next.requested, answers);
      assert s.queue + ([day] + admitted) == s.queue + [day] + admitted;
      if answers(day).Unreadable? {
        var failure := UnreadableFailure(day, answers(day).detail);
        assert s.failures + ([failure] + refused) == s.failures + [failure] + refused;
      }
      assert pending + Elements([day] + admitted) == pending + {day} + Elements(admitted);
    }
  }

  lemma {:induction false} ElementsOfDistinct(s: seq<Day>)
    requires Distinct(s)
    ensures |Elements(s)| == |s|
  {
    if s != [] {
      ElementsOfDistinct(s[1..]);
      assert Elements(s) == Elements(s[1..]) + {s[0]};
    }
  }

  function BackfillStarted(s: QueueState, days: seq<Day>, answers: Day -> ArchiveAnswer): QueueState {
    var idle := BackfillCancelled(s);
    var admitted := Admitted(days, idle.requested, answers);
    idle.(queue := idle.queue + admitted,
          requested := idle.requested + Elements(days),
          failures := idle.failures + Refused(days, idle.requested, answers),
          backfill := if admitted == [] then None
                      else Some(PendingBackfill(Elements(admitted), |admitted|)))
  }

  function MarkedArchivedIn(coverage: map<Day, DayArchiveState>, day: Day): map<Day, DayArchiveState> {
    if day in coverage then coverage[day := Archived] else coverage
  }

  function DayMarkedArchived(s: QueueState, day: Day): QueueState {
    s.(recordingDays := MarkedArchivedIn(s.recordingDays, day),
       backgroundDays := MarkedArchivedIn(s.backgroundDays, day))
  }

  function FailureReported(s: QueueState, day: Day, detail: string): QueueState {
    s.(failures := s.failures + [DayFailure(day, detail)])
  }

  function NextDayTaken(s: QueueState): QueueState {
    if s.inFlight.Some? || s.queue == [] then s
    else s.(inFlight := Some(s.queue[0]), queue := s.queue[1..])
  }

  function Retired(backfill: PendingBackfill, day: Day): Option<PendingBackfill> {
    var pending := backfill.pending - {day};
    if pending == {} then None else Some(backfill.(pending := pending))
  }

  function DayFinished(s: QueueState, day: Day): QueueState {
    s.(inFlight := None,
       backfill := match s.backfill case None => None case Some(backfill) => Retired(backfill, day))
  }

  function HostForgotten(s: QueueState): QueueState {
    s.(queue := [], requested := {}, failures := [], backfill := None)
  }

  function Unfailed(failures: seq<DayFailure>, pruned: PrunedDays): seq<DayFailure> {
    if failures == [] then []
    else if pruned.Covers(failures[0].day) then Unfailed(failures[1..], pruned)
    else [failures[0]] + Unfailed(failures[1..], pruned)
  }

  function PrunedAwaited(coverage: map<Day, DayArchiveState>, pruned: PrunedDays): map<Day, DayArchiveState> {
    map d | d in coverage :: if pruned.Covers(d) then Awaited else coverage[d]
  }

  function PrunedDaysForgotten(s: QueueState, pruned: PrunedDays): QueueState {
    s.(requested := (set d | d in s.requested && (!pruned.Covers(d) || s.inFlight == Some(d))),
       failures := Unfailed(s.failures, pruned),
       recordingDays := PrunedAwaited(s.recordingDays, pruned),
       backgroundDays := PrunedAwaited(s.backgroundDays, pruned))
  }

  class DayFetchQueue {
    var queue: seq<Day>
    var requested: set<Day>
    var inFlight: Option<Day>
    var failures: seq<DayFailure>
    var recordingDays: map<Day, DayArchiveState>
    var backgroundDays: map<Day, DayArchiveState>
    var backfill: Option<PendingBackfill>

    ghost function Value(): QueueState
      reads this
    {
      QueueState(queue, requested, inFlight, failures, recordingDays, backgroundDays, backfill)
    }

    constructor ()
      ensures Value() == EMPTY
    {
      queue, requested, inFlight, failures := [], {}, None, [];
      recordingDays, backgroundDays, backfill := map[], map[], None;
    }

    method RequestRecordingDay(day: Day, answer: ArchiveAnswer)
      modifies this
      ensures Value() == RecordingDayRequested(old(Value()), day, answer)
    {
      var state := QueueCountedDay(day, answer);
      backgroundDays := backgroundDays - {day};
      recordingDays := recordingDays[day := state];
    }

    method RequestBackgroundDay(day: Day, answer: ArchiveAnswer)
      modifies this
      ensures Value() == BackgroundDayRequested(old(Value()), day, answer)
    {
      if day in recordingDays {
        return;
      }
      var state := QueueCountedDay(day, answer);
      backgroundDays := backgroundDays[day := state];
    }

    method QueueCountedDay(day: Day, answer: ArchiveAnswer) returns (state: DayArchiveState)
      modifies this
      ensures Value() == CountedDayQueued(old(Value()), day, answer)
      ensures state == StateFor(answer)
    {
      match answer
      case Complete => state := Archived;
      case NeedsFetch =>
        QueueDay(day);
        state := Awaited;
      case Unreadable(detail) =>
        if day !in requested {
          requested := requested + {day};
          failures := failures + [UnreadableFailure(day, detail)];
        }
        state := Awaited;
    }

    method QueueDay(day: Day)
      modifies this`queue, this`requested
      ensures requested == old(requested) + {day}
      ensures queue == old(queue) + if day in old(requested) then [] else [day]
    {
      if day !in requested {
        requested := requested + {day};
        queue := queue + [day];
      }
    }

    /** Asks the refresh rule of each day at most once, so a rule with state answers as a function. */
    method StartBackfill(days: seq<Day>, needsFetch: Day -> ArchiveAnswer) returns (total: nat)
      modifies this
      ensures Value() == BackfillStarted(old(Value()), days, needsFetch)
      ensures total == match backfill case None => 0 case Some(running) => running.total
    {
      CancelBackfill();
      ghost var idle := Value();
      var pending: set<Day> := {};
      assert days[0..] == days;
      for i := 0 to |days|
        invariant DaysAdmitted(Value(), pending, days[i..], needsFetch)
               == DaysAdmitted(idle, {}, days, needsFetch)
      {
        var day := days[i];
        assert days[i..][0] == day && days[i..][1..] == days[i + 1..];
        if day in requested {
          continue;
        }
        requested := requested + {day};
        match needsFetch(day)
        case NeedsFetch =>
          queue := queue + [day];
          pending := pending + {day};
        case Complete =>
        case Unreadable(detail) =>
          failures := failures + [UnreadableFailure(day, detail)];
      }
      DaysAdmittedAppends(idle, {}, days, needsFetch);
      AdmittedExactly(days, idle.requested, needsFetch);
      ElementsOfDistinct(Admitted(days, idle.requested, needsFetch));
      total := |pending|;
      if total > 0 {
        backfill := Some(PendingBackfill(pending, total));
      }
    }

    method CancelBackfill()
      modifies this
      ensures Value() == BackfillCancelled(old(Value()))
    {
      if backfill.None? {
        return;
      }
      var pending := backfill.value.pending;
      backfill := None;
      queue := Without(queue, pending);
      var left: set<Day> := pending;
      while left != {}
        invariant left <= pending
        invariant requested == old(requested) - (pending - left - InFlightDays(old(Value())))
        invariant Value() == BackfillCancelled(old(Value())).(requested := requested)
        decreases |left|
      {
        ghost var _ := MemberOf(left);
        var day :| day in left;
        left := left - {day};
        if inFlight != Some(day) {
          requested := requested - {day};
        }
      }
    }

    method MarkArchived(day: Day)
      modifies this
      ensures Value() == DayMarkedArchived(old(Value()), day)
    {
      if day in recordingDays {
        recordingDays := recordingDays[day := Archived];
      }
      if day in backgroundDays {
        backgroundDays := backgroundDays[day := Archived];
      }
    }

    method ReportFailure(day: Day, detail: string)
      modifies this
      ensures Value() == FailureReported(old(Value()), day, detail)
    {
      failures := failures + [DayFailure(day, detail)];
    }

    method TakeNextDay() returns (day: Option<Day>)
      modifies this
      ensures Value() == NextDayTaken(old(Value()))
      ensures day == if old(inFlight).None? && old(queue) != [] then Some(old(queue)[0]) else None
    {
      if inFlight.Some? || queue == [] {
        return None;
      }
      day := Some(queue[0]);
      queue := queue[1..];
      inFlight := day;
    }

    method FinishDay(day: Day)
      modifies this
      ensures Value() == DayFinished(old(Value()), day)
    {
      inFlight := None;
      if backfill.None? {
        return;
      }
      backfill := Some(backfill.value.(pending := backfill.value.pending - {day}));
      if backfill.value.pending == {} {
        backfill := None;
      }
    }

    method ForgetHost()
      modifies this
      ensures Value() == HostForgotten(old(Value()))
    {
      queue, requested, failures, backfill := [], {}, [], None;
    }

    method ForgetPrunedDays(pruned: PrunedDays)
      modifies this
      ensures Value() == PrunedDaysForgotten(old(Value()), pruned)
    {
      requested := set d | d in requested && (!pruned.Covers(d) || inFlight == Some(d));
      failures := Unfailed(failures, pruned);
      recordingDays := PrunedAwaited(recordingDays, pruned);
      backgroundDays := PrunedAwaited(backgroundDays, pruned);
    }
  }
}
