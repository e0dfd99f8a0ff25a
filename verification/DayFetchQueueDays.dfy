/**
 The queue one day at a time. What an operation does to a day depends on that day alone, except for
 whose turn a dispatch is, so each day runs a small machine of its own. That machine is the reference
 the sequences, sets and maps of the queue are compared with.
 */
module DayFetchQueueDays {
  import opened Common
  import opened DayFetchQueues
  import opened DayFetchQueueProperties

  datatype DayCount =
    | NotCounted
    | CountedInBackground(state: DayArchiveState)
    | CountedForRecording(state: DayArchiveState)

  /** What the queue holds about one day. */
  datatype DayView = DayView(
    requested: bool,
    waiting: nat,
    inFlight: bool,
    pending: bool,
    failures: seq<string>,
    count: DayCount)

  function FailuresOf(failures: seq<DayFailure>, day: Day): seq<string> {
    if failures == [] then []
    else (if failures[0].day == day then [failures[0].detail] else []) + FailuresOf(failures[1..], day)
  }

  function CountOf(s: QueueState, day: Day): DayCount {
    if day in s.recordingDays then CountedForRecording(s.recordingDays[day])
    else if day in s.backgroundDays then CountedInBackground(s.backgroundDays[day])
    else NotCounted
  }

  function ViewOf(s: QueueState, day: Day): DayView {
    DayView(day in s.requested, Copies(s, day), s.inFlight == Some(day), day in PendingDays(s),
            FailuresOf(s.failures, day), CountOf(s, day))
  }

  // ----- The machine of one day -----

  function Answered(answer: ArchiveAnswer): DayArchiveState {
    match answer case Complete => Archived case NeedsFetch => Awaited case Unreadable(_) => Awaited
  }

  /** The day is asked for. It is asked of the host once: a fetch is queued, or the failure reported. */
  function AskedFor(v: DayView, answer: ArchiveAnswer): DayView {
    if v.requested then v
    else
      match answer
      case Complete => v
      case NeedsFetch => v.(requested := true, waiting := v.waiting + 1)
      case Unreadable(detail) => v.(requested := true, failures := v.failures + [UNREADABLE + detail])
  }

  /** A day the cancelled backfill waits on leaves the queue, and is released unless it is in flight. */
  function Released(v: DayView): DayView {
    if v.pending then v.(pending := false, waiting := 0, requested := v.requested && v.inFlight) else v
  }

  /** A day of the range is asked for once. A complete one counts as requested as well. */
  function Backfilled(v: DayView, answer: ArchiveAnswer): DayView {
    if v.requested then v else AskedFor(v, answer).(requested := true, pending := answer.NeedsFetch?)
  }

  function CountBecomes(count: DayCount, op: Op, day: Day): DayCount {
    match op
    case RequestRecordingDay(d, answer) => if d == day then CountedForRecording(Answered(answer)) else count
    case RequestBackgroundDay(d, answer) =>
      if d == day && !count.CountedForRecording? then CountedInBackground(Answered(answer)) else count
    case MarkArchived(d) => if d == day && !count.NotCounted? then count.(state := Archived) else count
    case ForgetPrunedDays(pruned) => if pruned.Covers(day) && !count.NotCounted? then count.(state := Awaited) else count
    case _ => count
  }

  /** What `op` makes of the day. `turn` says whether it is the one a dispatch hands out. */
  function Becomes(v: DayView, op: Op, day: Day, turn: bool): DayView {
    var next :=
      match op
      case RequestRecordingDay(d, answer) => if d == day then AskedFor(v, answer) else v
      case RequestBackgroundDay(d, answer) =>
        if d == day && !v.count.CountedForRecording? then AskedFor(v, answer) else v
      case StartBackfill(days, answers) => if day in days then Backfilled(Released(v), answers(day)) else Released(v)
      case CancelBackfill => Released(v)
      case MarkArchived(_) => v
      case ReportFailure(d, detail) => if d == day then v.(failures := v.failures + [detail]) else v
      case TakeNextDay => if turn && v.waiting > 0 then v.(waiting := v.waiting - 1, inFlight := true) else v
      case FinishDay(d) => if d == day then v.(inFlight := false, pending := false) else v
      case ForgetHost => v.(requested := false, waiting := 0, pending := false, failures := [])
      case ForgetPrunedDays(pruned) =>
        if pruned.Covers(day) then v.(requested := v.requested && v.inFlight, failures := []) else v;
    next.(count := CountBecomes(v.count, op, day))
  }

  // ----- Every operation is that machine on every day -----

  lemma {:induction false} FailuresOfBoth(a: seq<DayFailure>, b: seq<DayFailure>, day: Day)
    ensures FailuresOf(a + b, day) == FailuresOf(a, day) + FailuresOf(b, day)
  {
    if a == [] {
      assert a + b == b;
    } else {
      assert (a + b)[1..] == a[1..] + b;
      FailuresOfBoth(a[1..], b, day);
    }
  }

  lemma FailuresOfOne(failure: DayFailure, day: Day)
    ensures FailuresOf([failure], day) == if failure.day == day then [failure.detail] else []
  {
    assert [failure][1..] == [];
  }

  lemma OneMoreFailure(failures: seq<DayFailure>, failure: DayFailure, day: Day)
    ensures FailuresOf(failures + [failure], day)
         == if failure.day == day then FailuresOf(failures, day) + [failure.detail] else FailuresOf(failures, day)
  {
    FailuresOfOne(failure, day);
    FailuresOfBoth(failures, [failure], day);
    assert FailuresOf(failures, day) + [] == FailuresOf(failures, day);
  }

  lemma {:induction false} FailuresOfUnfailed(failures: seq<DayFailure>, pruned: PrunedDays, day: Day)
    ensures FailuresOf(Unfailed(failures, pruned), day) == if pruned.Covers(day) then [] else FailuresOf(failures, day)
  {
    if failures != [] {
      FailuresOfUnfailed(failures[1..], pruned, day);
      FailuresOfOne(failures[0], day);
      FailuresOfBoth([failures[0]], Unfailed(failures[1..], pruned), day);
    }
  }

  /** A starting backfill reports every unreadable day of the range that was not requested, once. */
  lemma {:induction false} FailuresOfRefused(days: seq<Day>, requested: set<Day>, answers: Day -> ArchiveAnswer, day: Day)
    ensures FailuresOf(Refused(days, requested, answers), day)
         == if day in days && day !in requested && answers(day).Unreadable?
            then [UNREADABLE + answers(day).detail] else []
  {
    if days != [] {
      var rest := Refused(days[1..], requested + {days[0]}, answers);
      FailuresOfRefused(days[1..], requested + {days[0]}, answers, day);
      if days[0] !in requested && answers(days[0]).Unreadable? {
        var failure := UnreadableFailure(days[0], answers(days[0]).detail);
        FailuresOfOne(failure, day);
        FailuresOfBoth([failure], rest, day);
      }
    }
  }

  lemma CopiesOfBoth(a: seq<Day>, b: seq<Day>, day: Day)
    ensures multiset(a + b)[day] == multiset(a)[day] + multiset(b)[day]
  {}

  lemma QueueingIsTheMachine(s: QueueState, d: Day, day: Day)
    requires d !in s.requested
    ensures ViewOf(CountedDayQueued(s, d, NeedsFetch), day)
         == if d == day then AskedFor(ViewOf(s, day), NeedsFetch) else ViewOf(s, day)
  {
    CopiesOfBoth(s.queue, [d], day);
    assert multiset([d])[day] == if d == day then 1 else 0;
  }

  lemma RefusingIsTheMachine(s: QueueState, d: Day, detail: string, day: Day)
    requires d !in s.requested
    ensures ViewOf(CountedDayQueued(s, d, Unreadable(detail)), day)
         == if d == day then AskedFor(ViewOf(s, day), Unreadable(detail)) else ViewOf(s, day)
  {
    OneMoreFailure(s.failures, UnreadableFailure(d, detail), day);
  }

  lemma AskingIsTheMachine(s: QueueState, d: Day, answer: ArchiveAnswer, day: Day)
    ensures ViewOf(CountedDayQueued(s, d, answer), day)
         == if d == day then AskedFor(ViewOf(s, day), answer) else ViewOf(s, day)
  {
    if d !in s.requested {
      match answer
      case Complete =>
      case NeedsFetch => QueueingIsTheMachine(s, d, day);
      case Unreadable(detail) => RefusingIsTheMachine(s, d, detail, day);
    }
  }

  lemma ViewOfTheRest(s: QueueState, other: QueueState, day: Day)
    requires other == s.(recordingDays := other.recordingDays, backgroundDays := other.backgroundDays)
    ensures ViewOf(other, day) == ViewOf(s, day).(count := CountOf(other, day))
  {}

  lemma CountsOfARequest(s: QueueState, op: Op, day: Day)
    requires CountedApart(s) && (op.RequestRecordingDay? || op.RequestBackgroundDay?)
    ensures CountOf(Next(s, op), day) == CountBecomes(CountOf(s, day), op, day)
  {}

  lemma RequestIsTheMachine(s: QueueState, op: Op, day: Day)
    requires CountedApart(s) && (op.RequestRecordingDay? || op.RequestBackgroundDay?)
    ensures ViewOf(Next(s, op), day) == Becomes(ViewOf(s, day), op, day, false)
  {
    CountsOfARequest(s, op, day);
    if op.RequestRecordingDay? || op.day !in s.recordingDays {
      AskingIsTheMachine(s, op.day, op.answer, day);
      ViewOfTheRest(CountedDayQueued(s, op.day, op.answer), Next(s, op), day);
    }
  }

  lemma CancelIsTheMachine(s: QueueState, day: Day)
    ensures ViewOf(BackfillCancelled(s), day) == Released(ViewOf(s, day))
  {
    if s.backfill.Some? {
      WithoutCounts(s.queue, s.backfill.value.pending, day);
    }
  }

  lemma StartIsTheMachine(s: QueueState, days: seq<Day>, answers: Day -> ArchiveAnswer, day: Day)
    ensures ViewOf(BackfillStarted(s, days, answers), day)
         == if day in days then Backfilled(Released(ViewOf(s, day)), answers(day)) else Released(ViewOf(s, day))
  {
    CancelIsTheMachine(s, day);
    var idle, started := BackfillCancelled(s), BackfillStarted(s, days, answers);
    StartQueuesTheDay(s, days, answers, day);
    FailuresOfRefused(days, idle.requested, answers, day);
    FailuresOfBoth(idle.failures, Refused(days, idle.requested, answers), day);
    assert started.failures == idle.failures + Refused(days, idle.requested, answers);
    assert CountOf(started, day) == CountOf(idle, day) && started.inFlight == idle.inFlight;
  }

  lemma StartQueuesTheDay(s: QueueState, days: seq<Day>, answers: Day -> ArchiveAnswer, day: Day)
    ensures var idle, started := BackfillCancelled(s), BackfillStarted(s, days, answers);
            var fetched := day in days && day !in idle.requested && answers(day).NeedsFetch?;
            && (day in started.requested <==> day in idle.requested || day in days)
            && Copies(started, day) == Copies(idle, day) + (if fetched then 1 else 0)
            && (day in PendingDays(started) <==> fetched)
            && PendingDays(idle) == {}
  {
    var idle := BackfillCancelled(s);
    var admitted := Admitted(days, idle.requested, answers);
    AdmittedExactly(days, idle.requested, answers);
    DistinctCountsOnce(admitted, day);
    CopiesOfBoth(idle.queue, admitted, day);
    assert PendingDays(BackfillStarted(s, days, answers)) == Elements(admitted);
  }

  lemma TakeIsTheMachine(s: QueueState, day: Day)
    ensures ViewOf(NextDayTaken(s), day) == Becomes(ViewOf(s, day), TakeNextDay, day, HandsOut(s, TakeNextDay, day))
  {
    if s.queue != [] { CopiesFrontFirst(s.queue, day); }
  }

  lemma PruneIsTheMachine(s: QueueState, pruned: PrunedDays, day: Day)
    ensures ViewOf(PrunedDaysForgotten(s, pruned), day)
         == Becomes(ViewOf(s, day), ForgetPrunedDays(pruned), day, false)
  {
    FailuresOfUnfailed(s.failures, pruned, day);
  }

  lemma FinishIsTheMachine(s: QueueState, d: Day, day: Day)
    requires s.inFlight == Some(d)
    ensures ViewOf(DayFinished(s, d), day) == Becomes(ViewOf(s, day), FinishDay(d), day, false)
  {
    var after := DayFinished(s, d);
    assert PendingDays(after) == PendingDays(s) - {d};
    assert Copies(after, day) == Copies(s, day);
  }

  lemma ReportIsTheMachine(s: QueueState, d: Day, detail: string, day: Day)
    ensures ViewOf(FailureReported(s, d, detail), day) == Becomes(ViewOf(s, day), ReportFailure(d, detail), day, false)
  {
    OneMoreFailure(s.failures, DayFailure(d, detail), day);
  }

  lemma MarkIsTheMachine(s: QueueState, d: Day, day: Day)
    requires CountedApart(s)
    ensures ViewOf(DayMarkedArchived(s, d), day) == Becomes(ViewOf(s, day), MarkArchived(d), day, false)
  {
    ViewOfTheRest(s, DayMarkedArchived(s, d), day);
  }

  lemma HostChangeIsTheMachine(s: QueueState, day: Day)
    ensures ViewOf(HostForgotten(s), day) == Becomes(ViewOf(s, day), ForgetHost, day, false)
  {}

  lemma BackfillIsTheMachine(s: QueueState, op: Op, day: Day)
    requires op.StartBackfill? || op.CancelBackfill?
    ensures ViewOf(Next(s, op), day) == Becomes(ViewOf(s, day), op, day, false)
  {
    if op.StartBackfill? {
      StartIsTheMachine(s, op.days, op.answers, day);
    } else {
      CancelIsTheMachine(s, day);
    }
  }

  /** Every operation does to every day what the machine of that day does. */
  lemma OneDayAtATime(s: QueueState, op: Op, day: Day)
    requires CountedApart(s) && Enabled(s, op)
    ensures ViewOf(Next(s, op), day) == Becomes(ViewOf(s, day), op, day, HandsOut(s, op, day))
  {
    match op
    case RequestRecordingDay(_, _) => RequestIsTheMachine(s, op, day);
    case RequestBackgroundDay(_, _) => RequestIsTheMachine(s, op, day);
    case StartBackfill(_, _) => BackfillIsTheMachine(s, op, day);
    case CancelBackfill => BackfillIsTheMachine(s, op, day);
    case MarkArchived(d) => MarkIsTheMachine(s, d, day);
    case ReportFailure(d, detail) => ReportIsTheMachine(s, d, detail, day);
    case TakeNextDay => TakeIsTheMachine(s, day);
    case FinishDay(d) => FinishIsTheMachine(s, d, day);
    case ForgetHost => HostChangeIsTheMachine(s, day);
    case ForgetPrunedDays(pruned) => PruneIsTheMachine(s, pruned, day);
  }

  function CountAfter(count: DayCount, ops: seq<Op>, day: Day): DayCount
    decreases |ops|
  {
    if ops == [] then count else CountAfter(CountBecomes(count, ops[0], day), ops[1..], day)
  }

  /**
   Over every run the archive state counted for a day is what its own requests, arrivals and prunes
   say, the last one deciding. No backfill, dispatch or host change touches it.
   */
  lemma {:induction false} CountFollowsItsOwnEvents(s: QueueState, ops: seq<Op>, day: Day)
    requires Consistent(s) && Legal(s, ops)
    ensures CountOf(Run(s, ops), day) == CountAfter(CountOf(s, day), ops, day)
    decreases |ops|
  {
    if ops != [] {
      OneDayAtATime(s, ops[0], day);
      NextKeepsConsistent(s, ops[0]);
      CountFollowsItsOwnEvents(Next(s, ops[0]), ops[1..], day);
    }
  }

  // ----- Requests -----

  /** What a request does for either kind of day, whichever of the three answers it gets. */
  lemma RequestExactly(s: QueueState, day: Day, answer: ArchiveAnswer, recording: bool)
    ensures var after := Next(s, if recording then RequestRecordingDay(day, answer)
                                 else RequestBackgroundDay(day, answer));
            if !recording && day in s.recordingDays then after == s
            else
              var unasked := day !in s.requested;
              var counted := if recording then after.recordingDays else after.backgroundDays;
              && after.queue == s.queue + (if answer.NeedsFetch? && unasked then [day] else [])
              && after.requested == s.requested + (if answer.Complete? then {} else {day})
              && after.failures == s.failures + (if answer.Unreadable? && unasked
                                                 then [DayFailure(day, "reading the archive: " + answer.detail)] else [])
              && day in counted && (counted[day] == Archived <==> answer.Complete?)
              && (recording ==> day !in after.backgroundDays)
              && after.inFlight == s.inFlight && after.backfill == s.backfill
  {
    assert s.queue + [] == s.queue && s.failures + [] == s.failures;
    assert s.requested + {} == s.requested && (day in s.requested ==> s.requested + {day} == s.requested);
  }

  /** Days are queued at the back, and the days that wait keep their order. */
  lemma QueueGrowsAtTheBack(s: QueueState, op: Op)
    ensures match op
            case RequestRecordingDay(_, _) => s.queue <= Next(s, op).queue
            case RequestBackgroundDay(_, _) => s.queue <= Next(s, op).queue
            case StartBackfill(_, _) => Next(s, CancelBackfill).queue <= Next(s, op).queue
            case CancelBackfill => Next(s, op).queue == Without(s.queue, PendingDays(s))
            case TakeNextDay => Next(s, op).queue == if s.inFlight.None? && s.queue != [] then s.queue[1..] else s.queue
            case ForgetHost => Next(s, op).queue == []
            case _ => Next(s, op).queue == s.queue
  {
    WithoutNothingToDrop(s.queue, {});
  }

  // ----- What a backfill counts -----

  /** The days of a range a backfill has to fetch. */
  function ToFetch(s: QueueState, days: seq<Day>, answers: Day -> ArchiveAnswer): set<Day> {
    set day | day in days && day !in Next(s, CancelBackfill).requested && answers(day).NeedsFetch?
  }

  /**
   The total of a backfill is the number of days it had to fetch, and its progress the number of them
   that reported, over every run until it ends or another one replaces it. It runs exactly while one of
   them has not reported.
   */
  lemma BackfillCountsItsDays(s: QueueState, days: seq<Day>, answers: Day -> ArchiveAnswer, ops: seq<Op>)
    requires var started := Next(s, StartBackfill(days, answers));
             CountedApart(started) && Legal(started, ops)
    requires forall i :: 0 <= i < |ops| ==> LeavesBackfill(ops[i])
    ensures var queued, now := ToFetch(s, days, answers), Run(Next(s, StartBackfill(days, answers)), ops).backfill;
            && (now.Some? <==> !(queued <= Reported(ops)))
            && (now.Some? ==> now.value.total == |queued| && now.value.Done() == |queued * Reported(ops)|)
  {
    var started, queued := BackfillStarted(s, days, answers), ToFetch(s, days, answers);
    StartCountsItsDays(s, days, answers);
    StartIsTracked(s, days, answers);
    RunRetiresTheReported(started, ops);
    RunKeepsConsistent(started, ops);
    SizeWithout(queued, Reported(ops));
  }

  lemma StartCountsItsDays(s: QueueState, days: seq<Day>, answers: Day -> ArchiveAnswer)
    ensures var started, queued := BackfillStarted(s, days, answers), ToFetch(s, days, answers);
            && PendingDays(started) == queued
            && (started.backfill.Some? ==> started.backfill.value.total == |queued|)
  {
    var idle := BackfillCancelled(s);
    var admitted := Admitted(days, idle.requested, answers);
    AdmittedExactly(days, idle.requested, answers);
    ElementsOfDistinct(admitted);
    assert Next(s, CancelBackfill).requested == idle.requested;
    forall day ensures day in ToFetch(s, days, answers) <==> day in Elements(admitted) {
      assert day in admitted <==> day in days && day !in idle.requested && answers(day).NeedsFetch?;
    }
    assert BackfillStarted(s, days, answers).backfill.Some? ==> |Elements(admitted)| == |admitted|;
  }

  lemma SizeWithout(a: set<Day>, b: set<Day>)
    ensures |a - b| + |a * b| == |a|
    ensures a - b == {} <==> a <= b
  {
    assert a == (a - b) + a * b;
  }
}
