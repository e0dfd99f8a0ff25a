/**
 Deleting archived days: the cutoff an age-based prune takes, what applying it does to the day
 queues, and the run of one delete over the open archives.
 */
module EnvironmentStorage {
  import opened Common
  import opened DayFetchQueues
  import opened DayFetchQueueProperties

  /** The first of `days`. */
  ghost function Earliest(days: set<Day>): (r: Option<Day>)
    ensures r.None? <==> days == {}
    ensures r.Some? ==> r.value in days && forall d :: d in days ==> r.value <= d
  {
    if days == {} then None
    else
      var day := MemberOf(days);
      assert forall d :: d in days ==> d == day || d in days - {day};
      match Earliest(days - {day})
      case None => Some(day)
      case Some(other) => Some(if day < other then day else other)
  }

  /** The days a queue counts for a recording loaded this session. */
  ghost function CountedDays(s: QueueState): set<Day> {
    s.recordingDays.Keys + s.backgroundDays.Keys
  }

  ghost function OldestNeededDay(s: QueueState): Option<Day> {
    Sooner(Earliest(s.recordingDays.Keys), Earliest(s.backgroundDays.Keys))
  }

  function Sooner(a: Option<Day>, b: Option<Day>): Option<Day> {
    match (a, b)
    case (None, _) => b
    case (_, None) => a
    case (Some(x), Some(y)) => if y < x then b else a
  }

  /** The first day any of `queues` still needs. */
  ghost function OldestNeededOf(queues: seq<QueueState>): Option<Day> {
    if queues == [] then None else Sooner(OldestNeededDay(queues[0]), OldestNeededOf(queues[1..]))
  }

  /** `configured` is the day the configured age reaches back to, absent where the calendar ends first. */
  function AutoPruneCutoff(configured: Option<Day>, oldestNeeded: Option<Day>): Option<Day> {
    match (configured, oldestNeeded)
    case (None, _) => None
    case (Some(age), None) => Some(age)
    case (Some(age), Some(needed)) => Some(if needed < age then needed else age)
  }

  /** What an auto-prune over `queues` deletes: every archived day before its cutoff. */
  ghost function AutoPruneDays(queues: seq<QueueState>, configured: Option<Day>): Option<PrunedDays> {
    match AutoPruneCutoff(configured, OldestNeededOf(queues))
    case None => None
    case Some(cutoff) => Some(Before(cutoff))
  }

  lemma AutoPruneCoversNoCountedDay(queues: seq<QueueState>, configured: Option<Day>, i: nat)
    requires i < |queues| && AutoPruneDays(queues, configured).Some?
    ensures forall d :: d in CountedDays(queues[i]) ==> !AutoPruneDays(queues, configured).value.Covers(d)
  {
    OldestIsNoLater(queues, i);
  }

  lemma {:induction false} OldestIsNoLater(queues: seq<QueueState>, i: nat)
    requires i < |queues|
    ensures forall d :: d in CountedDays(queues[i])
                        ==> OldestNeededOf(queues).Some? && OldestNeededOf(queues).value <= d
  {
    if i > 0 {
      OldestIsNoLater(queues[1..], i - 1);
    }
  }

  /** Some queue still counts `day`. */
  ghost predicate CountedByAny(queues: seq<QueueState>, day: Day) {
    exists i :: 0 <= i < |queues| && day in CountedDays(queues[i])
  }

  lemma {:induction false} OldestIsCounted(queues: seq<QueueState>)
    ensures OldestNeededOf(queues).Some? ==> CountedByAny(queues, OldestNeededOf(queues).value)
    ensures forall day :: CountedByAny(queues, day)
                          ==> OldestNeededOf(queues).Some? && OldestNeededOf(queues).value <= day
  {
    if queues != [] {
      OldestIsCounted(queues[1..]);
      var oldest := OldestNeededOf(queues);
      if oldest.Some? && oldest.value in CountedDays(queues[0]) {
        assert CountedByAny(queues, oldest.value);
      } else if oldest.Some? {
        var i :| 0 <= i < |queues[1..]| && oldest.value in CountedDays(queues[1..][i]);
        assert oldest.value in CountedDays(queues[i + 1]);
      }
    }
    forall day | CountedByAny(queues, day)
      ensures OldestNeededOf(queues).Some? && OldestNeededOf(queues).value <= day
    {
      var i: nat :| i < |queues| && day in CountedDays(queues[i]);
      OldestIsNoLater(queues, i);
    }
  }

  /**
   An auto-prune exists exactly with an age configured, and covers a day exactly when the day is before
   that age and before every day that any queue still counts.
   */
  lemma AutoPruneCoversExactly(queues: seq<QueueState>, configured: Option<Day>)
    ensures AutoPruneDays(queues, configured).Some? <==> configured.Some?
    ensures AutoPruneDays(queues, configured).Some? ==>
              forall day :: AutoPruneDays(queues, configured).value.Covers(day)
                            <==> day < configured.value
                                 && forall counted :: CountedByAny(queues, counted) ==> day < counted
  {
    OldestIsCounted(queues);
  }

  /** The delete an auto-prune starts, absent while it is off, one is running or no archive holds such a day. */
  ghost function AutoPruneRequest(enabled: bool, running: bool, queues: seq<QueueState>, configured: Option<Day>,
                                  archives: seq<set<Day>>): Option<PrunedDays>
  {
    if !enabled || running || AutoPruneDays(queues, configured).None? then None
    else
      var days := AutoPruneDays(queues, configured).value;
      if forall k :: 0 <= k < |archives| ==> CountCovered(archives[k], days) == 0 then None else Some(days)
  }

  /** How many of the archived days a delete covers. */
  ghost function CountCovered(archived: set<Day>, days: PrunedDays): nat {
    |set day | day in archived && days.Covers(day)|
  }

  /**
   An auto-prune starts exactly when it is on, none is running, an age is configured and some archived
   day is before that age and before every day that any queue counts.
   */
  lemma AutoPruneStartsExactly(enabled: bool, running: bool, queues: seq<QueueState>, configured: Option<Day>,
                               archives: seq<set<Day>>)
    ensures AutoPruneRequest(enabled, running, queues, configured, archives).Some?
            <==> enabled && !running && configured.Some?
                 && exists k, day :: 0 <= k < |archives| && day in archives[k] && day < configured.value
                                     && forall counted :: CountedByAny(queues, counted) ==> day < counted
    ensures var request := AutoPruneRequest(enabled, running, queues, configured, archives);
            request.Some? ==> request == AutoPruneDays(queues, configured)
  {
    AutoPruneCoversExactly(queues, configured);
    if AutoPruneDays(queues, configured).Some? {
      var days := AutoPruneDays(queues, configured).value;
      forall k | 0 <= k < |archives|
        ensures CountCovered(archives[k], days) > 0 <==> exists day :: day in archives[k] && days.Covers(day)
      {
        var covered := set day | day in archives[k] && days.Covers(day);
        if covered != {} { var day := MemberOf(covered); assert day in archives[k] && days.Covers(day); }
        if day :| day in archives[k] && days.Covers(day) { assert day in covered; }
      }
    }
  }

  /** A counted day stays counted whatever the queue does, though it may move between the two counts. */
  lemma {:induction false} CountedDaysStay(s: QueueState, ops: seq<Op>)
    ensures CountedDays(s) <= CountedDays(Run(s, ops))
    decreases |ops|
  {
    if ops != [] {
      CountedDaysStayAfter(s, ops[0]);
      CountedDaysStay(Next(s, ops[0]), ops[1..]);
    }
  }

  lemma CountedDaysStayAfter(s: QueueState, op: Op)
    ensures CountedDays(s) <= CountedDays(Next(s, op))
  {}

  /** What the queue holds about one day: its archive states, and whether it is requested. */
  function HeldAbout(s: QueueState, d: Day): (Option<DayArchiveState>, Option<DayArchiveState>, bool) {
    (if d in s.recordingDays then Some(s.recordingDays[d]) else None,
     if d in s.backgroundDays then Some(s.backgroundDays[d]) else None,
     d in s.requested)
  }

  /**
   An auto-prune takes nothing from a day any of the queues counted when it was made: applied at
   once, or after any run of operations while the archives were rewritten, every such day keeps its
   archive state and stays requested if it was.
   */
  lemma AutoPruneSparesCountedDays(queues: seq<QueueState>, configured: Option<Day>, i: nat, ops: seq<Op>, d: Day)
    requires i < |queues| && AutoPruneDays(queues, configured).Some?
    requires d in CountedDays(queues[i])
    ensures var later := Run(queues[i], ops);
            var pruned := PrunedDaysForgotten(later, AutoPruneDays(queues, configured).value);
            d in CountedDays(later) && HeldAbout(pruned, d) == HeldAbout(later, d)
  {
    AutoPruneCoversNoCountedDay(queues, configured, i);
    CountedDaysStay(queues[i], ops);
  }

  /** Applied to the queues it was made for, an auto-prune leaves both coverage maps as they are. */
  lemma AutoPruneKeepsCoverage(queues: seq<QueueState>, configured: Option<Day>, i: nat)
    requires i < |queues| && AutoPruneDays(queues, configured).Some?
    ensures var pruned := PrunedDaysForgotten(queues[i], AutoPruneDays(queues, configured).value);
            pruned.recordingDays == queues[i].recordingDays && pruned.backgroundDays == queues[i].backgroundDays
  {
    AutoPruneCoversNoCountedDay(queues, configured, i);
  }

  /**
   A queue of counted days keeps the session promise under an auto-prune. A backfilled day is not
   counted, and one before the cutoff that waits or went out, and is not in flight, breaks it.
   */
  lemma AutoPruneKeepsThePromiseExactly(queues: seq<QueueState>, configured: Option<Day>, i: nat, out: set<Day>)
    requires i < |queues| && AutoPruneDays(queues, configured).Some? && SessionPromise(queues[i], out)
    ensures SessionPromise(PrunedDaysForgotten(queues[i], AutoPruneDays(queues, configured).value), out)
            <==> forall d :: d in out + Elements(queues[i].queue) && d !in CountedDays(queues[i])
                             ==> !AutoPruneDays(queues, configured).value.Covers(d) || queues[i].inFlight == Some(d)
  {
    AutoPruneCoversNoCountedDay(queues, configured, i);
    PruneKeepsPromiseExactly(queues[i], out, AutoPruneDays(queues, configured).value);
  }

  // ----- One delete over the open archives -----

  /** How one archive's registered delete ends. */
  datatype DeleteResult = Deleted(days: nat) | DeleteFailed(detail: string) | Rejected(rejection: WriteRejection)

  datatype Outcome = Failed(detail: string) | Removed(days: nat) | Skipped(rejection: WriteRejection)

  datatype Report = Report(archive: nat, outcome: Outcome)

  /** The outcome of a delete that the registry let run. */
  function RanOutcome(result: DeleteResult): Outcome
    requires !result.Rejected?
  {
    match result
    case Deleted(days) => Removed(days)
    case DeleteFailed(detail) => Failed(detail)
  }

  /**
   Deletes from each of `covered` in turn and stops at the first rejection. `results[k]` is how the
   registry and the archive answer when the delete comes to `covered[k]`. `reached` is how many
   archives were asked.
   */
  method Prune(covered: seq<nat>, results: seq<DeleteResult>) returns (reports: seq<Report>, reached: nat)
    requires |results| == |covered|
    ensures |reports| == |covered| && reached <= |covered|
    ensures forall k :: 0 <= k < |covered| ==> reports[k].archive == covered[k]
    ensures forall k :: 0 <= k < |covered| && !reports[k].outcome.Skipped?
                        ==> k < reached && !results[k].Rejected? && reports[k].outcome == RanOutcome(results[k])
    ensures forall k :: 0 <= k < |covered| && reports[k].outcome.Skipped?
                        ==> 0 < reached <= k + 1 && results[reached - 1] == Rejected(reports[k].outcome.rejection)
    ensures forall k :: 0 <= k < |covered| && !reports[k].outcome.Skipped? ==>
              match results[k]
              case Deleted(days) => reports[k].outcome == Removed(days)
              case DeleteFailed(detail) => reports[k].outcome == Failed(detail)
              case Rejected(_) => false
    ensures (exists k :: 0 <= k < |covered| && results[k].Rejected?)
            <==> exists k :: 0 <= k < |covered| && reports[k].outcome.Skipped?
  {
    reports, reached := [], 0;
    for index := 0 to |covered|
      invariant |reports| == index == reached
      invariant forall k :: 0 <= k < index ==> !results[k].Rejected?
                                               && reports[k] == Report(covered[k], RanOutcome(results[k]))
    {
      reached := index + 1;
      match results[index]
      case Rejected(rejection) =>
        reports := reports + seq(|covered| - index, k requires 0 <= k < |covered| - index =>
                                                      Report(covered[index + k], Skipped(rejection)));
        assert reports[index].outcome.Skipped?;
        return;
      case _ =>
        reports := reports + [Report(covered[index], RanOutcome(results[index]))];
    }
  }
}
