/**
 What the operations of the day queue promise together: over every run, between two host changes,
 across prunes, and while the queue drains.
 */
module DayFetchQueueProperties {
  import opened Common
  import opened DayFetchQueues

  /** One operation of a scheduler on its queue. */
  datatype Op =
    | RequestRecordingDay(day: Day, answer: ArchiveAnswer)
    | RequestBackgroundDay(day: Day, answer: ArchiveAnswer)
    | StartBackfill(days: seq<Day>, answers: Day -> ArchiveAnswer)
    | CancelBackfill
    | MarkArchived(day: Day)
    | ReportFailure(day: Day, detail: string)
    | TakeNextDay
    | FinishDay(day: Day)
    | ForgetHost
    | ForgetPrunedDays(pruned: PrunedDays)

  function Next(s: QueueState, op: Op): QueueState {
    match op
    case RequestRecordingDay(day, answer) => RecordingDayRequested(s, day, answer)
    case RequestBackgroundDay(day, answer) => BackgroundDayRequested(s, day, answer)
    case StartBackfill(days, answers) => BackfillStarted(s, days, answers)
    case CancelBackfill => BackfillCancelled(s)
    case MarkArchived(day) => DayMarkedArchived(s, day)
    case ReportFailure(day, detail) => FailureReported(s, day, detail)
    case TakeNextDay => NextDayTaken(s)
    case FinishDay(day) => DayFinished(s, day)
    case ForgetHost => HostForgotten(s)
    case ForgetPrunedDays(pruned) => PrunedDaysForgotten(s, pruned)
  }

  /** Only the worker that fetches a day reports on it. */
  predicate Enabled(s: QueueState, op: Op) {
    op.FinishDay? ==> s.inFlight == Some(op.day)
  }

  function Run(s: QueueState, ops: seq<Op>): QueueState
    decreases |ops|
  {
    if ops == [] then s else Run(Next(s, ops[0]), ops[1..])
  }

  predicate Legal(s: QueueState, ops: seq<Op>)
    decreases |ops|
  {
    ops == [] || (Enabled(s, ops[0]) && Legal(Next(s, ops[0]), ops[1..]))
  }

  /** A pending backfill day is queued or in flight, and a running backfill has one. */
  predicate BackfillTracked(s: QueueState) {
    match s.backfill
    case None => true
    case Some(backfill) =>
      && backfill.pending != {}
      && |backfill.pending| <= backfill.total
      && backfill.pending <= Elements(s.queue) + InFlightDays(s)
  }

  /** No day is counted both as a recording day and as a background day. */
  predicate CountedApart(s: QueueState) {
    s.recordingDays.Keys !! s.backgroundDays.Keys
  }

  predicate Consistent(s: QueueState) {
    BackfillTracked(s) && CountedApart(s)
  }

  lemma NextKeepsConsistent(s: QueueState, op: Op)
    requires Consistent(s) && Enabled(s, op)
    ensures Consistent(Next(s, op))
  {
    match op
    case StartBackfill(days, answers) => StartIsTracked(s, days, answers);
    case FinishDay(day) => FinishIsTracked(s, day);
    case TakeNextDay => TakeIsTracked(s);
    case _ =>
  }

  lemma TakeIsTracked(s: QueueState)
    requires BackfillTracked(s)
    ensures BackfillTracked(NextDayTaken(s))
  {
    if s.queue != [] { assert s.queue == [s.queue[0]] + s.queue[1..]; }
  }

  lemma StartIsTracked(s: QueueState, days: seq<Day>, answers: Day -> ArchiveAnswer)
    ensures BackfillTracked(BackfillStarted(s, days, answers))
  {
    var idle := BackfillCancelled(s);
    var admitted := Admitted(days, idle.requested, answers);
    AdmittedExactly(days, idle.requested, answers);
    ElementsOfDistinct(admitted);
    if admitted != [] { assert admitted[0] in Elements(admitted); }
    assert Elements(admitted) <= Elements(idle.queue + admitted);
  }

  lemma FinishIsTracked(s: QueueState, day: Day)
    requires BackfillTracked(s) && s.inFlight == Some(day)
    ensures BackfillTracked(DayFinished(s, day))
  {
    if s.backfill.Some? {
      SubsetIsNoLarger(s.backfill.value.pending - {day}, s.backfill.value.pending);
    }
  }

  /** In every reachable state the pending days are queued or in flight and the counts are disjoint. */
  lemma {:induction false} RunKeepsConsistent(s: QueueState, ops: seq<Op>)
    requires Consistent(s) && Legal(s, ops)
    ensures Consistent(Run(s, ops))
    decreases |ops|
  {
    if ops != [] {
      NextKeepsConsistent(s, ops[0]);
      RunKeepsConsistent(Next(s, ops[0]), ops[1..]);
    }
  }

  lemma ReachableStatesAreConsistent(ops: seq<Op>)
    requires Legal(EMPTY, ops)
    ensures Consistent(Run(EMPTY, ops))
  {
    assert EMPTY.recordingDays.Keys == {} && EMPTY.backgroundDays.Keys == {};
    RunKeepsConsistent(EMPTY, ops);
  }

  // ----- Requests -----

  /** Asking again with the same answer queues nothing and reports nothing a second time. */
  lemma RequestsAreIdempotent(s: QueueState, day: Day, answer: ArchiveAnswer)
    ensures var once := RecordingDayRequested(s, day, answer); RecordingDayRequested(once, day, answer) == once
    ensures var once := BackgroundDayRequested(s, day, answer); BackgroundDayRequested(once, day, answer) == once
  {
    var recorded := RecordingDayRequested(s, day, answer);
    var again := RecordingDayRequested(recorded, day, answer);
    assert again.backgroundDays == recorded.backgroundDays && again.recordingDays == recorded.recordingDays;
    var background := BackgroundDayRequested(s, day, answer);
    if day !in s.recordingDays {
      assert BackgroundDayRequested(background, day, answer).backgroundDays == background.backgroundDays;
    }
  }

  /**
   A day that needs a fetch is queued by the request after a prune exactly when it was never requested
   of the host or the prune covers it and it is not being fetched. The prune reports it as awaited and
   drops its failures.
   */
  lemma PrunedDayStartsOverExactly(s: QueueState, pruned: PrunedDays, day: Day)
    ensures var after := PrunedDaysForgotten(s, pruned);
            var again := RecordingDayRequested(after, day, NeedsFetch);
            && (again.queue == s.queue + [day]
                <==> day !in s.requested || (pruned.Covers(day) && s.inFlight != Some(day)))
            && again.requested == after.requested + {day}
            && (pruned.Covers(day) ==>
                  && (forall failure :: failure in after.failures ==> failure.day != day)
                  && (day in s.recordingDays ==> after.recordingDays[day] == Awaited)
                  && (day in s.backgroundDays ==> after.backgroundDays[day] == Awaited))
  {
    UnfailedExactly(s.failures, pruned);
    assert s.queue != s.queue + [day];
  }

  lemma {:induction false} UnfailedExactly(failures: seq<DayFailure>, pruned: PrunedDays)
    ensures forall failure :: failure in Unfailed(failures, pruned)
                              <==> failure in failures && !pruned.Covers(failure.day)
  {
    if failures != [] {
      UnfailedExactly(failures[1..], pruned);
      assert failures == [failures[0]] + failures[1..];
    }
  }

  // ----- How often a day goes out -----

  /** How often `day` waits in the queue. */
  function Copies(s: QueueState, day: Day): nat {
    multiset(s.queue)[day]
  }

  /** The dispatches of `day` the queue still owes or may take on without a prune. */
  function Credit(s: QueueState, day: Day): nat {
    Copies(s, day) + if day in s.requested then 0 else 1
  }

  /** Whether `op` hands out `day`. */
  predicate HandsOut(s: QueueState, op: Op, day: Day) {
    op.TakeNextDay? && s.inFlight.None? && s.queue != [] && s.queue[0] == day
  }

  function Dispatches(s: QueueState, ops: seq<Op>, day: Day): nat
    decreases |ops|
  {
    if ops == [] then 0
    else (if HandsOut(s, ops[0], day) then 1 else 0) + Dispatches(Next(s, ops[0]), ops[1..], day)
  }

  predicate Prunes(op: Op, day: Day) {
    op.ForgetPrunedDays? && op.pruned.Covers(day)
  }

  function PruneCount(ops: seq<Op>, day: Day): nat {
    if ops == [] then 0
    else (if Prunes(ops[0], day) then 1 else 0) + PruneCount(ops[1..], day)
  }

  /** No operation but a prune covering `day` adds to its credit, and a dispatch uses one up. */
  lemma NextSpendsCredit(s: QueueState, op: Op, day: Day)
    requires BackfillTracked(s) && Enabled(s, op) && !op.ForgetHost?
    ensures Credit(Next(s, op), day) + (if HandsOut(s, op, day) then 1 else 0)
         <= Credit(s, day) + (if Prunes(op, day) then 1 else 0)
  {
    match op
    case CancelBackfill => CancelSpendsCredit(s, day);
    case StartBackfill(days, answers) => StartSpendsCredit(s, days, answers, day);
    case TakeNextDay => TakeSpendsCredit(s, day);
    case _ =>
  }

  lemma TakeSpendsCredit(s: QueueState, day: Day)
    ensures Credit(NextDayTaken(s), day) + (if HandsOut(s, TakeNextDay, day) then 1 else 0) == Credit(s, day)
  {
    if s.queue != [] { assert s.queue == [s.queue[0]] + s.queue[1..]; }
  }

  lemma CancelSpendsCredit(s: QueueState, day: Day)
    requires BackfillTracked(s)
    ensures Credit(BackfillCancelled(s), day) <= Credit(s, day)
  {
    if s.backfill.Some? {
      WithoutCounts(s.queue, s.backfill.value.pending, day);
    }
  }

  lemma StartSpendsCredit(s: QueueState, days: seq<Day>, answers: Day -> ArchiveAnswer, day: Day)
    requires BackfillTracked(s)
    ensures Credit(BackfillStarted(s, days, answers), day) <= Credit(s, day)
  {
    CancelSpendsCredit(s, day);
    var idle := BackfillCancelled(s);
    var admitted := Admitted(days, idle.requested, answers);
    AdmittedExactly(days, idle.requested, answers);
    DistinctCountsOnce(admitted, day);
    var started := BackfillStarted(s, days, answers);
    assert Copies(started, day) == Copies(idle, day) + multiset(admitted)[day];
  }

  lemma {:induction false} RunSpendsCredit(s: QueueState, ops: seq<Op>, day: Day)
    requires Consistent(s) && Legal(s, ops)
    requires forall i :: 0 <= i < |ops| ==> !ops[i].ForgetHost?
    ensures Credit(Run(s, ops), day) + Dispatches(s, ops, day) <= Credit(s, day) + PruneCount(ops, day)
    decreases |ops|
  {
    if ops != [] {
      NextSpendsCredit(s, ops[0], day);
      NextKeepsConsistent(s, ops[0]);
      forall i | 0 <= i < |ops[1..]| ensures !ops[1..][i].ForgetHost? { assert ops[1..][i] == ops[i + 1]; }
      RunSpendsCredit(Next(s, ops[0]), ops[1..], day);
    }
  }

  /** The state a scheduler starts from, and the one every host change leaves. */
  predicate FreshHost(s: QueueState) {
    s.queue == [] && s.requested == {} && s.backfill.None?
  }

  /**
   Between two host changes a day goes out at most once more than prunes covering it are applied,
   whatever is requested, backfilled, cancelled and reported in between.
   */
  lemma DispatchBound(s: QueueState, ops: seq<Op>, day: Day)
    requires Consistent(s) && FreshHost(s) && Legal(s, ops)
    requires forall i :: 0 <= i < |ops| ==> !ops[i].ForgetHost?
    ensures Dispatches(s, ops, day) + Copies(Run(s, ops), day) <= 1 + PruneCount(ops, day)
  {
    RunSpendsCredit(s, ops, day);
  }

  /** From any host change on, whatever led to it and whatever day was in flight across it. */
  lemma DispatchBoundSinceHostChange(before: seq<Op>, ops: seq<Op>, day: Day)
    requires Legal(EMPTY, before) && Legal(HostForgotten(Run(EMPTY, before)), ops)
    requires forall i :: 0 <= i < |ops| ==> !ops[i].ForgetHost?
    ensures Dispatches(HostForgotten(Run(EMPTY, before)), ops, day) <= 1 + PruneCount(ops, day)
  {
    ReachableStatesAreConsistent(before);
    NextKeepsConsistent(Run(EMPTY, before), ForgetHost);
    DispatchBound(HostForgotten(Run(EMPTY, before)), ops, day);
  }

  /** Without a prune every day goes out at most once a host, and never waits twice. */
  lemma OncePerHostWithoutPrunes(s: QueueState, ops: seq<Op>)
    requires Consistent(s) && FreshHost(s) && Legal(s, ops)
    requires forall i :: 0 <= i < |ops| ==> !ops[i].ForgetHost? && !ops[i].ForgetPrunedDays?
    ensures forall day :: Dispatches(s, ops, day) <= 1
    ensures Distinct(Run(s, ops).queue)
    ensures forall day :: day in Run(s, ops).queue ==> Dispatches(s, ops, day) == 0
  {
    forall day ensures Dispatches(s, ops, day) + Copies(Run(s, ops), day) <= 1 {
      DispatchBound(s, ops, day);
      NoPruneCounted(ops, day);
    }
    var left := Run(s, ops).queue;
    forall day ensures multiset(left)[day] <= 1 { assert Copies(Run(s, ops), day) <= 1; }
    DistinctByCounts(left);
  }

  lemma {:induction false} NoPruneCounted(ops: seq<Op>, day: Day)
    requires forall i :: 0 <= i < |ops| ==> !ops[i].ForgetPrunedDays?
    ensures PruneCount(ops, day) == 0
  {
    if ops != [] {
      NoPruneCounted(ops[1..], day);
    }
  }

  // ----- The session promise, and the one operation that can break it -----

  /** A queued day waits once and stays requested. */
  ghost predicate QueuePromise(s: QueueState) {
    Distinct(s.queue) && Elements(s.queue) <= s.requested
  }

  /**
   What the type documents of a host that `out` went out to: a queued day waits once and stays
   requested, and a day that went out stays requested and waits nowhere, so it does not go out again.
   */
  ghost predicate SessionPromise(s: QueueState, out: set<Day>) {
    QueuePromise(s) && out <= s.requested && out !! Elements(s.queue)
  }

  /** The days that went out to the host once `op` is applied. A host change starts over. */
  function OutAfter(s: QueueState, out: set<Day>, op: Op): set<Day> {
    match op
    case ForgetHost => {}
    case TakeNextDay => if s.inFlight.None? && s.queue != [] then out + {s.queue[0]} else out
    case _ => out
  }

  /** A prune covers no day that waits or went out, other than the one being fetched. */
  predicate PromiseGuard(s: QueueState, out: set<Day>, op: Op) {
    op.ForgetPrunedDays? ==>
      forall day :: day in out + Elements(s.queue) ==> !op.pruned.Covers(day) || s.inFlight == Some(day)
  }

  /** The promise bounds what a day may still cost: nothing once it went out, one dispatch before. */
  lemma PromiseIsTheCredit(s: QueueState, out: set<Day>)
    ensures SessionPromise(s, out) <==> forall day :: Credit(s, day) <= if day in out then 0 else 1
  {
    DistinctByCounts(s.queue);
    forall day ensures day in Elements(s.queue) <==> Copies(s, day) > 0 {}
    if SessionPromise(s, out) {
      forall day ensures Credit(s, day) <= if day in out then 0 else 1 {
        DistinctCountsOnce(s.queue, day);
      }
    } else if forall day :: Credit(s, day) <= if day in out then 0 else 1 {
      CreditIsThePromise(s, out);
    }
  }

  lemma CreditIsThePromise(s: QueueState, out: set<Day>)
    requires forall day :: Credit(s, day) <= if day in out then 0 else 1
    ensures SessionPromise(s, out)
  {
    forall day ensures multiset(s.queue)[day] <= 1 { assert Credit(s, day) <= 1; }
    DistinctByCounts(s.queue);
    forall day | day in s.queue ensures day in s.requested && day !in out { assert Credit(s, day) <= 1; }
    forall day | day in out ensures day in s.requested { assert Credit(s, day) == 0; }
  }

  /** Every operation keeps the promise exactly under its guard. */
  lemma PromiseKeptExactly(s: QueueState, out: set<Day>, op: Op)
    requires SessionPromise(s, out) && BackfillTracked(s) && Enabled(s, op)
    ensures SessionPromise(Next(s, op), OutAfter(s, out, op)) <==> PromiseGuard(s, out, op)
  {
    if op.ForgetPrunedDays? {
      PruneKeepsPromiseExactly(s, out, op.pruned);
    } else if !op.ForgetHost? {
      PromiseIsTheCredit(s, out);
      forall day ensures Credit(Next(s, op), day) <= if day in OutAfter(s, out, op) then 0 else 1 {
        NextSpendsCredit(s, op, day);
      }
      CreditIsThePromise(Next(s, op), OutAfter(s, out, op));
    }
  }

  lemma PruneKeepsPromiseExactly(s: QueueState, out: set<Day>, pruned: PrunedDays)
    requires SessionPromise(s, out)
    ensures SessionPromise(PrunedDaysForgotten(s, pruned), out) <==> PromiseGuard(s, out, ForgetPrunedDays(pruned))
  {
    var after := PrunedDaysForgotten(s, pruned);
    forall day | day in out + Elements(s.queue)
      ensures day in after.requested <==> !pruned.Covers(day) || s.inFlight == Some(day) {}
    assert SessionPromise(after, out) <==> out + Elements(s.queue) <= after.requested;
  }

  /** The promise holds before, between and after `ops`. */
  ghost predicate PromiseHoldsThroughout(s: QueueState, out: set<Day>, ops: seq<Op>)
    decreases |ops|
  {
    && SessionPromise(s, out)
    && (ops == [] || PromiseHoldsThroughout(Next(s, ops[0]), OutAfter(s, out, ops[0]), ops[1..]))
  }

  /** Every prune in `ops` meets its guard when it is applied. */
  predicate GuardsHold(s: QueueState, out: set<Day>, ops: seq<Op>)
    decreases |ops|
  {
    ops == [] ||
    (PromiseGuard(s, out, ops[0]) && GuardsHold(Next(s, ops[0]), OutAfter(s, out, ops[0]), ops[1..]))
  }

  lemma {:induction false} PromiseHoldsExactlyFrom(s: QueueState, out: set<Day>, ops: seq<Op>)
    requires SessionPromise(s, out) && Consistent(s) && Legal(s, ops)
    ensures PromiseHoldsThroughout(s, out, ops) <==> GuardsHold(s, out, ops)
    decreases |ops|
  {
    if ops != [] {
      PromiseKeptExactly(s, out, ops[0]);
      NextKeepsConsistent(s, ops[0]);
      if PromiseGuard(s, out, ops[0]) {
        PromiseHoldsExactlyFrom(Next(s, ops[0]), OutAfter(s, out, ops[0]), ops[1..]);
      }
    }
  }

  /** In every run of a queue, across host changes, the promise holds exactly as long as the prunes meet their guard. */
  lemma PromiseHoldsExactly(ops: seq<Op>)
    requires Legal(EMPTY, ops)
    ensures PromiseHoldsThroughout(EMPTY, {}, ops) <==> GuardsHold(EMPTY, {}, ops)
  {
    ReachableStatesAreConsistent([]);
    assert Elements(EMPTY.queue) == {};
    PromiseHoldsExactlyFrom(EMPTY, {}, ops);
  }

  /** While the promise holds, a day goes out once a host. */
  lemma {:induction false} PromiseKeepsDaysIn(s: QueueState, out: set<Day>, ops: seq<Op>, day: Day)
    requires PromiseHoldsThroughout(s, out, ops)
    requires forall i :: 0 <= i < |ops| ==> !ops[i].ForgetHost?
    ensures Dispatches(s, ops, day) + (if day in out then 1 else 0) <= 1
    decreases |ops|
  {
    if ops != [] {
      forall i | 0 <= i < |ops[1..]| ensures !ops[1..][i].ForgetHost? { assert ops[1..][i] == ops[i + 1]; }
      PromiseKeepsDaysIn(Next(s, ops[0]), OutAfter(s, out, ops[0]), ops[1..], day);
      assert HandsOut(s, ops[0], day) ==> day in Elements(s.queue);
    }
  }

  /** The days that went out since the last host change in `ops`. */
  function OutOf(s: QueueState, out: set<Day>, ops: seq<Op>): set<Day>
    decreases |ops|
  {
    if ops == [] then out else OutOf(Next(s, ops[0]), OutAfter(s, out, ops[0]), ops[1..])
  }

  lemma {:induction false} PromiseHoldsBehind(s: QueueState, out: set<Day>, before: seq<Op>, ops: seq<Op>)
    requires PromiseHoldsThroughout(s, out, before + ops)
    ensures PromiseHoldsThroughout(Run(s, before), OutOf(s, out, before), ops)
    decreases |before|
  {
    if before == [] {
      assert before + ops == ops;
    } else {
      assert (before + ops)[1..] == before[1..] + ops;
      PromiseHoldsBehind(Next(s, before[0]), OutAfter(s, out, before[0]), before[1..], ops);
    }
  }

  /**
   In a run whose prunes meet their guard, every stretch between two host changes hands a day out at
   most once, and not at all when it went out to the host before the stretch.
   */
  lemma OncePerHostUnderTheGuards(before: seq<Op>, ops: seq<Op>, day: Day)
    requires Legal(EMPTY, before + ops) && GuardsHold(EMPTY, {}, before + ops)
    requires forall i :: 0 <= i < |ops| ==> !ops[i].ForgetHost?
    ensures Dispatches(Run(EMPTY, before), ops, day) + (if day in OutOf(EMPTY, {}, before) then 1 else 0) <= 1
  {
    PromiseHoldsExactly(before + ops);
    PromiseHoldsBehind(EMPTY, {}, before, ops);
    PromiseKeepsDaysIn(Run(EMPTY, before), OutOf(EMPTY, {}, before), ops, day);
  }

  /** Serves the days of `queue`, front first. */
  function Served(queue: seq<Day>): seq<Op> {
    if queue == [] then [] else [TakeNextDay] + ([FinishDay(queue[0])] + Served(queue[1..]))
  }

  /** Neither prunes nor changes the host. */
  predicate Keeps(op: Op) {
    !op.ForgetHost? && !op.ForgetPrunedDays?
  }

  lemma {:induction false} ServingKeeps(queue: seq<Day>)
    ensures forall i :: 0 <= i < |Served(queue)| ==> Keeps(Served(queue)[i])
  {
    if queue != [] {
      ServingKeeps(queue[1..]);
    }
  }

  lemma CopiesFrontFirst(queue: seq<Day>, day: Day)
    requires queue != []
    ensures multiset(queue)[day] == (if queue[0] == day then 1 else 0) + multiset(queue[1..])[day]
  {
    assert queue == [queue[0]] + queue[1..];
  }

  lemma {:induction false} ServedQueueGoesOut(s: QueueState, day: Day)
    requires s.inFlight.None?
    ensures Legal(s, Served(s.queue)) && Dispatches(s, Served(s.queue), day) == Copies(s, day)
    decreases |s.queue|
  {
    if s.queue != [] {
      var front, rest := s.queue[0], s.queue[1..];
      var served := Next(Next(s, TakeNextDay), FinishDay(front));
      assert served.queue == rest && served.inFlight.None?;
      ServedQueueGoesOut(served, day);
      UnfoldTwo(s, TakeNextDay, FinishDay(front), Served(rest), day);
      CopiesFrontFirst(s.queue, day);
    }
  }

  /** Takes the report of the day in flight, if any, and serves the queue. */
  function SettledAndServed(s: QueueState): seq<Op> {
    match s.inFlight
    case None => Served(s.queue)
    case Some(day) => [FinishDay(day)] + Served(s.queue)
  }

  lemma EveryCopyIsServed(s: QueueState, day: Day)
    ensures var ops := SettledAndServed(s);
            Legal(s, ops) && Dispatches(s, ops, day) == Copies(s, day)
    ensures forall i :: 0 <= i < |SettledAndServed(s)| ==> Keeps(SettledAndServed(s)[i])
  {
    ServingKeeps(s.queue);
    if s.inFlight.None? {
      ServedQueueGoesOut(s, day);
    } else {
      var report := FinishDay(s.inFlight.value);
      ServedQueueGoesOut(Next(s, report), day);
      Unfold(s, report, Served(s.queue), day);
    }
  }

  lemma RequestAsksForTheCredit(s: QueueState, day: Day)
    ensures Copies(Next(s, RequestRecordingDay(day, NeedsFetch)), day) == Credit(s, day)
  {}

  /** The credit of a day is what it costs at most: some run without prunes and host changes spends it all. */
  lemma CreditIsSpent(s: QueueState, day: Day) returns (ops: seq<Op>)
    ensures Legal(s, ops) && Dispatches(s, ops, day) == Credit(s, day)
    ensures forall i :: 0 <= i < |ops| ==> Keeps(ops[i])
  {
    var request := RequestRecordingDay(day, NeedsFetch);
    var serve := SettledAndServed(Next(s, request));
    RequestAsksForTheCredit(s, day);
    EveryCopyIsServed(Next(s, request), day);
    Unfold(s, request, serve, day);
    ops := [request] + serve;
  }

  /**
   What the promise is worth: it holds exactly when no run without prunes and host changes hands out a
   day that went out already, or a day twice.
   */
  lemma PromiseMeansOnce(s: QueueState, out: set<Day>)
    requires Consistent(s)
    ensures SessionPromise(s, out)
            <==> forall ops: seq<Op>, day ::
                   Legal(s, ops) && (forall i :: 0 <= i < |ops| ==> Keeps(ops[i]))
                   ==> Dispatches(s, ops, day) + (if day in out then 1 else 0) <= 1
  {
    PromiseIsTheCredit(s, out);
    if SessionPromise(s, out) {
      forall ops: seq<Op>, day | Legal(s, ops) && forall i :: 0 <= i < |ops| ==> Keeps(ops[i])
        ensures Dispatches(s, ops, day) + (if day in out then 1 else 0) <= 1
      {
        RunSpendsCredit(s, ops, day);
        NoPruneCounted(ops, day);
        assert Credit(s, day) <= if day in out then 0 else 1;
      }
    } else {
      var day :| Credit(s, day) > if day in out then 0 else 1;
      var ops := CreditIsSpent(s, day);
      assert Dispatches(s, ops, day) + (if day in out then 1 else 0) > 1;
    }
  }

  /** A request and a dispatch fetch a day that is not requested while nothing waits or is in flight. */
  lemma FetchAtOnce(s: QueueState, day: Day, rest: seq<Op>)
    requires s.queue == [] && s.inFlight.None? && day !in s.requested
    ensures var ops := [RequestRecordingDay(day, NeedsFetch)] + ([TakeNextDay] + rest);
            var out := Next(Next(s, RequestRecordingDay(day, NeedsFetch)), TakeNextDay);
            && out.queue == [] && out.inFlight == Some(day) && out.requested == s.requested + {day}
            && (Legal(s, ops) <==> Legal(out, rest)) && Dispatches(s, ops, day) == 1 + Dispatches(out, rest, day)
  {
    UnfoldTwo(s, RequestRecordingDay(day, NeedsFetch), TakeNextDay, rest, day);
  }

  /**
   A run that breaks the promise although nothing waits at its prune, and changes no host: a day that
   was fetched is released and goes out again.
   */
  lemma PrunedDayGoesOutAgain(day: Day)
    ensures var request := RequestRecordingDay(day, NeedsFetch);
            var ops := [request, TakeNextDay, FinishDay(day), ForgetPrunedDays(All), request, TakeNextDay];
            && Legal(EMPTY, ops) && Dispatches(EMPTY, ops, day) == 2 && !GuardsHold(EMPTY, {}, ops)
  {
    var request, report, prune := RequestRecordingDay(day, NeedsFetch), FinishDay(day), ForgetPrunedDays(All);
    var ops := [request, TakeNextDay, report, prune, request, TakeNextDay];
    assert ops == [request] + ([TakeNextDay] + ([report] + ([prune] + ([request] + ([TakeNextDay] + [])))));
    FetchedPrunedAndFetched(day);
    SecondDispatchNeedsAPrune(ops, day);
  }

  lemma FetchedPrunedAndFetched(day: Day)
    ensures var request, report, prune := RequestRecordingDay(day, NeedsFetch), FinishDay(day), ForgetPrunedDays(All);
            var ops := [request] + ([TakeNextDay] + ([report] + ([prune] + ([request] + ([TakeNextDay] + [])))));
            Legal(EMPTY, ops) && Dispatches(EMPTY, ops, day) == 2
  {
    var request, report, prune := RequestRecordingDay(day, NeedsFetch), FinishDay(day), ForgetPrunedDays(All);
    var again := [request] + ([TakeNextDay] + []);
    var out := Next(Next(EMPTY, request), TakeNextDay);
    FetchAtOnce(EMPTY, day, [report] + ([prune] + again));
    UnfoldTwo(out, report, prune, again, day);
    FetchAtOnce(Next(Next(out, report), prune), day, []);
  }

  /** A run that hands a day out twice on its first host breaks a guard. */
  lemma SecondDispatchNeedsAPrune(ops: seq<Op>, day: Day)
    requires Legal(EMPTY, ops) && Dispatches(EMPTY, ops, day) > 1
    requires forall i :: 0 <= i < |ops| ==> !ops[i].ForgetHost?
    ensures !GuardsHold(EMPTY, {}, ops)
  {
    assert [] + ops == ops;
    if GuardsHold(EMPTY, {}, ops) {
      OncePerHostUnderTheGuards([], ops, day);
    }
  }

  // ----- The queue and the day in flight -----

  /** A prune covers no day that waits, other than one that is being fetched as well. */
  predicate QueueGuard(s: QueueState, op: Op) {
    op.ForgetPrunedDays? ==> forall day :: day in s.queue ==> !op.pruned.Covers(day) || s.inFlight == Some(day)
  }

  /** In every state, reachable or not, an operation keeps the queue promise exactly under its guard. */
  lemma QueuePromiseKeptExactly(s: QueueState, op: Op)
    requires QueuePromise(s)
    ensures QueuePromise(Next(s, op)) <==> QueueGuard(s, op)
  {
    match op
    case ForgetPrunedDays(pruned) =>
      assert SessionPromise(s, {});
      PruneKeepsPromiseExactly(s, {}, pruned);
      assert forall day :: day in {} + Elements(s.queue) <==> day in s.queue;
    case CancelBackfill => CancelKeepsPromise(s);
    case StartBackfill(days, answers) => StartKeepsPromise(s, days, answers);
    case TakeNextDay =>
      if s.queue != [] { assert Elements(s.queue) == {s.queue[0]} + Elements(s.queue[1..]); }
    case _ =>
  }

  lemma CancelKeepsPromise(s: QueueState)
    requires QueuePromise(s)
    ensures QueuePromise(BackfillCancelled(s))
  {
    if s.backfill.Some? {
      var kept := Without(s.queue, s.backfill.value.pending);
      forall day ensures multiset(kept)[day] <= 1 {
        DistinctByCounts(s.queue);
        WithoutCounts(s.queue, s.backfill.value.pending, day);
      }
      DistinctByCounts(kept);
      forall day | day in kept ensures day in s.requested && day !in s.backfill.value.pending {
        WithoutCounts(s.queue, s.backfill.value.pending, day);
        assert day in Elements(s.queue);
      }
    }
  }

  lemma StartKeepsPromise(s: QueueState, days: seq<Day>, answers: Day -> ArchiveAnswer)
    requires QueuePromise(s)
    ensures QueuePromise(BackfillStarted(s, days, answers))
  {
    CancelKeepsPromise(s);
    var idle := BackfillCancelled(s);
    var admitted := Admitted(days, idle.requested, answers);
    AdmittedExactly(days, idle.requested, answers);
    forall i, j | 0 <= i < |idle.queue| && 0 <= j < |admitted| ensures idle.queue[i] != admitted[j] {
      assert idle.queue[i] in Elements(idle.queue) && admitted[j] in admitted;
    }
    assert Distinct(idle.queue + admitted);
    forall d | d in admitted ensures d in Elements(days) {}
    assert Elements(idle.queue + admitted) == Elements(idle.queue) + Elements(admitted);
  }

  /** The day in flight is requested and waits nowhere, so no second request for it can go out. */
  ghost predicate InFlightApart(s: QueueState) {
    InFlightDays(s) <= s.requested && InFlightDays(s) !! Elements(s.queue)
  }

  /** Every operation keeps the day in flight apart, but for a host change while a day is in flight. */
  lemma InFlightStaysApartExactly(s: QueueState, op: Op)
    requires QueuePromise(s) && InFlightApart(s) && Enabled(s, op)
    ensures InFlightApart(Next(s, op)) <==> !op.ForgetHost? || s.inFlight.None?
  {
    match op
    case ForgetHost =>
      if s.inFlight.Some? { assert s.inFlight.value in InFlightDays(Next(s, op)); }
    case CancelBackfill => CancelKeepsInFlightApart(s);
    case StartBackfill(days, answers) =>
      CancelKeepsInFlightApart(s);
      var idle := BackfillCancelled(s);
      AdmittedExactly(days, idle.requested, answers);
      var admitted := Admitted(days, idle.requested, answers);
      assert Elements(idle.queue + admitted) == Elements(idle.queue) + Elements(admitted);
    case TakeNextDay => TakeKeepsInFlightApart(s);
    case _ =>
  }

  lemma CancelKeepsInFlightApart(s: QueueState)
    requires InFlightApart(s)
    ensures InFlightApart(BackfillCancelled(s))
  {
    if s.backfill.Some? && s.inFlight.Some? {
      WithoutCounts(s.queue, s.backfill.value.pending, s.inFlight.value);
      assert s.inFlight.value in InFlightDays(s);
    }
  }

  lemma TakeKeepsInFlightApart(s: QueueState)
    requires QueuePromise(s) && InFlightApart(s)
    ensures InFlightApart(NextDayTaken(s))
  {
    if s.inFlight.None? && s.queue != [] {
      assert s.queue[0] in Elements(s.queue);
      forall i | 0 <= i < |s.queue[1..]| ensures s.queue[1..][i] != s.queue[0] {
        assert s.queue[1..][i] == s.queue[i + 1];
      }
    }
  }

  /**
   After a prune, a request queues a day a second time exactly when it still waits, the prune covers it
   and it is not in flight.
   */
  lemma SecondCopyExactly(s: QueueState, pruned: PrunedDays, day: Day)
    requires QueuePromise(s)
    ensures var again := RecordingDayRequested(PrunedDaysForgotten(s, pruned), day, NeedsFetch);
            Copies(again, day) == 2 <==> day in s.queue && pruned.Covers(day) && s.inFlight != Some(day)
  {
    DistinctCountsOnce(s.queue, day);
    assert day in s.queue ==> day in Elements(s.queue);
  }

  /** Prunes and requests `day` again while it waits, `prunes` times, and then serves it `serves` times. */
  function PruneThenServe(day: Day, prunes: nat, serves: nat): seq<Op> {
    if prunes > 0 then
      [ForgetPrunedDays(All)] + ([RequestRecordingDay(day, NeedsFetch)] + PruneThenServe(day, prunes - 1, serves))
    else if serves > 0 then [TakeNextDay] + ([FinishDay(day)] + PruneThenServe(day, 0, serves - 1))
    else []
  }

  /** The bound is reached for every number of prunes: one day pruned while it waits goes out again. */
  lemma DispatchBoundIsReached(day: Day, prunes: nat)
    ensures var ops := [RequestRecordingDay(day, NeedsFetch)] + PruneThenServe(day, prunes, prunes + 1);
            && Legal(EMPTY, ops)
            && (forall i :: 0 <= i < |ops| ==> !ops[i].ForgetHost?)
            && PruneCount(ops, day) == prunes
            && Dispatches(EMPTY, ops, day) == 1 + prunes
  {
    var request := RequestRecordingDay(day, NeedsFetch);
    var ops := PruneThenServe(day, prunes, prunes + 1);
    Unfold(EMPTY, request, ops, day);
    EveryCopyGoesOut(Next(EMPTY, request), day, prunes, prunes + 1);
    NeverChangesHost(day, prunes, prunes + 1);
  }

  lemma {:induction false} NeverChangesHost(day: Day, prunes: nat, serves: nat)
    ensures forall i :: 0 <= i < |PruneThenServe(day, prunes, serves)|
                        ==> !PruneThenServe(day, prunes, serves)[i].ForgetHost?
    decreases prunes, serves
  {
    if prunes > 0 {
      NeverChangesHost(day, prunes - 1, serves);
    } else if serves > 0 {
      NeverChangesHost(day, 0, serves - 1);
    }
  }

  lemma {:induction false} EveryCopyGoesOut(s: QueueState, day: Day, prunes: nat, serves: nat)
    requires s.inFlight.None? && s.backfill.None?
    requires |s.queue| + prunes == serves && forall i :: 0 <= i < |s.queue| ==> s.queue[i] == day
    ensures var ops := PruneThenServe(day, prunes, serves);
            Legal(s, ops) && PruneCount(ops, day) == prunes && Dispatches(s, ops, day) == serves
    decreases prunes, serves
  {
    if prunes > 0 {
      var request := RequestRecordingDay(day, NeedsFetch);
      UnfoldTwo(s, ForgetPrunedDays(All), request, PruneThenServe(day, prunes - 1, serves), day);
      EveryCopyGoesOut(Next(Next(s, ForgetPrunedDays(All)), request), day, prunes - 1, serves);
    } else if serves > 0 {
      UnfoldTwo(s, TakeNextDay, FinishDay(day), PruneThenServe(day, 0, serves - 1), day);
      EveryCopyGoesOut(Next(Next(s, TakeNextDay), FinishDay(day)), day, 0, serves - 1);
    }
  }

  lemma UnfoldTwo(s: QueueState, first: Op, second: Op, ops: seq<Op>, day: Day)
    ensures var both, next := [first] + ([second] + ops), Next(s, first);
            && (Legal(s, both)
                <==> Enabled(s, first) && Enabled(next, second) && Legal(Next(next, second), ops))
            && Dispatches(s, both, day)
               == (if HandsOut(s, first, day) then 1 else 0) + (if HandsOut(next, second, day) then 1 else 0)
                  + Dispatches(Next(next, second), ops, day)
            && PruneCount(both, day)
               == (if Prunes(first, day) then 1 else 0) + (if Prunes(second, day) then 1 else 0) + PruneCount(ops, day)
  {
    Unfold(s, first, [second] + ops, day);
    Unfold(Next(s, first), second, ops, day);
  }

  lemma Unfold(s: QueueState, op: Op, ops: seq<Op>, day: Day)
    ensures Legal(s, [op] + ops) <==> Enabled(s, op) && Legal(Next(s, op), ops)
    ensures Dispatches(s, [op] + ops, day)
         == (if HandsOut(s, op, day) then 1 else 0) + Dispatches(Next(s, op), ops, day)
    ensures PruneCount([op] + ops, day) == (if Prunes(op, day) then 1 else 0) + PruneCount(ops, day)
  {
    assert ([op] + ops)[1..] == ops;
  }

  // ----- Cancelling a backfill -----

  /** A cancel takes the pending days off the queue, and frees those that are not being fetched. */
  lemma CancelFreesOnlyWaitingDays(s: QueueState, day: Day)
    requires Consistent(s)
    ensures var after := BackfillCancelled(s);
            && after.backfill.None?
            && (day in s.requested && day !in after.requested ==> day in s.queue && s.inFlight != Some(day))
            && (s.inFlight == Some(day) ==> (day in after.requested <==> day in s.requested))
            && (s.backfill.Some? && day in s.backfill.value.pending ==> day !in after.queue)
            && (s.backfill.None? || day !in s.backfill.value.pending ==>
                  Copies(after, day) == Copies(s, day) && (day in after.requested <==> day in s.requested))
  {
    if s.backfill.Some? {
      WithoutCounts(s.queue, s.backfill.value.pending, day);
    }
  }

  /** Without prunes, a cancel frees no day that went out to the host. */
  lemma CancelNeverFreesADispatchedDay(s: QueueState, ops: seq<Op>, day: Day)
    requires Consistent(s) && FreshHost(s) && Legal(s, ops)
    requires forall i :: 0 <= i < |ops| ==> !ops[i].ForgetHost? && !ops[i].ForgetPrunedDays?
    requires Dispatches(s, ops, day) > 0
    ensures var now := Run(s, ops); day in now.requested ==> day in BackfillCancelled(now).requested
  {
    RunKeepsConsistent(s, ops);
    OncePerHostWithoutPrunes(s, ops);
    CancelFreesOnlyWaitingDays(Run(s, ops), day);
  }

  /** The days a cancel takes off the queue. The day in flight is one of them only if it waits as well. */
  function CancelledDays(s: QueueState): set<Day> {
    match s.backfill case None => {} case Some(backfill) => backfill.pending * Elements(s.queue)
  }

  /**
   A later backfill over the range queues the cancelled days again, which is what cancelling documents.
   It queues all of them exactly when none of them is being fetched as well under a request that stands.
   */
  lemma RestartQueuesTheCancelledDaysExactly(s: QueueState, days: seq<Day>, answers: Day -> ArchiveAnswer)
    requires forall day :: day in CancelledDays(s) ==> day in days && answers(day).NeedsFetch?
    ensures CancelledDays(s) <= Elements(BackfillStarted(BackfillCancelled(s), days, answers).queue)
            <==> CancelledDays(s) !! InFlightDays(s) * s.requested
  {
    var queue := BackfillStarted(BackfillCancelled(s), days, answers).queue;
    forall day | day in CancelledDays(s)
      ensures day in Elements(queue) <==> !(day in InFlightDays(s) && day in s.requested)
    {
      CancelledDayIsQueuedExactly(s, days, answers, day);
    }
  }

  lemma CancelledDayIsQueuedExactly(s: QueueState, days: seq<Day>, answers: Day -> ArchiveAnswer, day: Day)
    requires s.backfill.Some? && day in s.backfill.value.pending && day in days && answers(day).NeedsFetch?
    ensures day in BackfillStarted(BackfillCancelled(s), days, answers).queue
            <==> !(s.inFlight == Some(day) && day in s.requested)
  {
    var idle := BackfillCancelled(s);
    var admitted := Admitted(days, idle.requested, answers);
    AdmittedExactly(days, idle.requested, answers);
    WithoutCounts(s.queue, s.backfill.value.pending, day);
    assert day !in idle.queue;
    assert BackfillStarted(idle, days, answers).queue == idle.queue + admitted;
  }

  /**
   A run in which it does not: a day that went out to the last host is queued again for the new host,
   and cancelling the backfill keeps it requested because it is in flight.
   */
  lemma RestartAfterAHostChangeMissesADay(day: Day)
    ensures var backfill := StartBackfill([day], d => NeedsFetch);
            var ops := [RequestRecordingDay(day, NeedsFetch), TakeNextDay, ForgetHost, backfill];
            && Legal(EMPTY, ops + [CancelBackfill, backfill])
            && Run(EMPTY, ops).queue == [day]
            && Run(EMPTY, ops + [CancelBackfill, backfill]).queue == []
  {
    var answers := (d: Day) => NeedsFetch;
    var backfill := StartBackfill([day], answers);
    var ops := [RequestRecordingDay(day, NeedsFetch), TakeNextDay, ForgetHost, backfill];
    var last := [CancelBackfill, backfill];
    var out := Next(Next(EMPTY, ops[0]), ops[1]);
    assert out.queue == [] && out.inFlight == Some(day);
    var forgotten := Next(out, ForgetHost);
    OneDayAdmitted(day, {}, answers);
    var started := Next(forgotten, backfill);
    assert started.queue == [] + [day] && started.requested == {day};
    assert started.backfill == Some(PendingBackfill({day}, 1));
    var cancelled := Next(started, CancelBackfill);
    assert Without([day], {day}) == Without([day][1..], {day}) == [];
    assert cancelled.queue == [] && cancelled.requested == {day};
    OneDayAdmitted(day, {day}, answers);
    var end := Next(cancelled, backfill);
    assert end.queue == [] + [];
    FourSteps(EMPTY, ops);
    TwoSteps(started, last);
    RunOfBoth(EMPTY, ops, last);
  }

  lemma OneDayAdmitted(day: Day, requested: set<Day>, answers: Day -> ArchiveAnswer)
    requires answers(day).NeedsFetch?
    ensures Admitted([day], requested, answers) == if day in requested then [] else [day]
  {
    assert [day][1..] == [];
    assert Admitted([day][1..], requested + {day}, answers) == [];
  }

  lemma FourSteps(s: QueueState, ops: seq<Op>)
    requires |ops| == 4
    ensures var s1 := Next(s, ops[0]); var s2 := Next(s1, ops[1]); var s3 := Next(s2, ops[2]);
            && Run(s, ops) == Next(s3, ops[3])
            && (Enabled(s, ops[0]) && Enabled(s1, ops[1]) && Enabled(s2, ops[2]) && Enabled(s3, ops[3])
                ==> Legal(s, ops))
  {
    TwoSteps(s, ops[..2]);
    TwoSteps(Run(s, ops[..2]), ops[2..]);
    assert ops == ops[..2] + ops[2..];
    RunOfBoth(s, ops[..2], ops[2..]);
  }

  lemma TwoSteps(s: QueueState, ops: seq<Op>)
    requires |ops| == 2
    ensures Run(s, ops) == Next(Next(s, ops[0]), ops[1])
    ensures Enabled(s, ops[0]) && Enabled(Next(s, ops[0]), ops[1]) ==> Legal(s, ops)
  {
    var rest := ops[1..];
    assert rest == [ops[1]] && rest[1..] == [];
    assert Run(Next(s, ops[0]), rest) == Next(Next(s, ops[0]), ops[1]);
  }

  lemma {:induction false} RunOfBoth(s: QueueState, ops: seq<Op>, more: seq<Op>)
    ensures Run(s, ops + more) == Run(Run(s, ops), more)
    ensures Legal(s, ops + more) <==> Legal(s, ops) && Legal(Run(s, ops), more)
    decreases |ops|
  {
    if ops == [] {
      assert ops + more == more;
    } else {
      assert (ops + more)[1..] == ops[1..] + more;
      RunOfBoth(Next(s, ops[0]), ops[1..], more);
    }
  }

  /**
   Started again at once, over the same days, a cancelled backfill leaves the very queue it left before
   exactly when the days it queued hold neither the day in flight, as they can after a host change, nor
   one that was still queued, as they can after a prune.
   */
  lemma RestartQueuesTheSameDaysExactly(s: QueueState, days: seq<Day>, answers: Day -> ArchiveAnswer)
    ensures var started := BackfillStarted(s, days, answers);
            var restarted := BackfillStarted(BackfillCancelled(started), days, answers);
            var idle := BackfillCancelled(s);
            restarted.queue == started.queue
            <==> Elements(Admitted(days, idle.requested, answers)) !! InFlightDays(s) + Elements(idle.queue)
  {
    var idle := BackfillCancelled(s);
    var admitted := Admitted(days, idle.requested, answers);
    if d :| d in admitted && (s.inFlight == Some(d) || d in idle.queue) {
      RestartDropsACopy(s, days, answers, d);
      assert d in Elements(admitted) && d in InFlightDays(s) + Elements(idle.queue);
    } else {
      RestartKeepsTheQueue(s, days, answers);
    }
  }

  lemma RestartDropsACopy(s: QueueState, days: seq<Day>, answers: Day -> ArchiveAnswer, d: Day)
    requires var idle := BackfillCancelled(s);
             d in Admitted(days, idle.requested, answers) && (s.inFlight == Some(d) || d in idle.queue)
    ensures var started := BackfillStarted(s, days, answers);
            BackfillStarted(BackfillCancelled(started), days, answers).queue != started.queue
  {
    var idle, started := BackfillCancelled(s), BackfillStarted(s, days, answers);
    var cancelled := BackfillCancelled(started);
    var admitted, again := Admitted(days, idle.requested, answers), Admitted(days, cancelled.requested, answers);
    RestartedQueue(s, days, answers);
    AdmittedExactly(days, idle.requested, answers);
    AdmittedExactly(days, cancelled.requested, answers);
    WithoutCounts(idle.queue, Elements(admitted), d);
    DistinctCountsOnce(admitted, d);
    DistinctCountsOnce(again, d);
    assert d in Elements(days) && d in Elements(admitted);
    assert multiset(started.queue)[d] == multiset(idle.queue)[d] + 1;
    if s.inFlight == Some(d) { assert d in cancelled.requested; }
    assert multiset(BackfillStarted(cancelled, days, answers).queue)[d] < multiset(started.queue)[d];
  }

  lemma RestartKeepsTheQueue(s: QueueState, days: seq<Day>, answers: Day -> ArchiveAnswer)
    requires var idle := BackfillCancelled(s);
             forall d :: d in Admitted(days, idle.requested, answers) ==> s.inFlight != Some(d) && d !in idle.queue
    ensures var started := BackfillStarted(s, days, answers);
            BackfillStarted(BackfillCancelled(started), days, answers).queue == started.queue
  {
    var idle := BackfillCancelled(s);
    var cancelled := BackfillCancelled(BackfillStarted(s, days, answers));
    var admitted := Admitted(days, idle.requested, answers);
    RestartedQueue(s, days, answers);
    AdmittedExactly(days, idle.requested, answers);
    forall d | d in Elements(admitted) ensures d in admitted && d !in InFlightDays(s) && d !in idle.queue {}
    WithoutNothingToDrop(idle.queue, Elements(admitted));
    forall i | 0 <= i < |days| && answers(days[i]).NeedsFetch?
      ensures days[i] in idle.requested <==> days[i] in cancelled.requested
    {
      var d := days[i];
      assert d in days && d in Elements(days);
      assert d in admitted <==> d !in idle.requested;
      assert d in Elements(admitted) <==> d in admitted;
    }
    AdmittedDependsOnFetchedDays(days, idle.requested, cancelled.requested, answers);
  }

  lemma RestartedQueue(s: QueueState, days: seq<Day>, answers: Day -> ArchiveAnswer)
    ensures var idle, started := BackfillCancelled(s), BackfillStarted(s, days, answers);
            var cancelled := BackfillCancelled(started);
            var admitted := Elements(Admitted(days, idle.requested, answers));
            && BackfillStarted(cancelled, days, answers).queue
               == Without(idle.queue, admitted) + Admitted(days, cancelled.requested, answers)
            && cancelled.requested == idle.requested + Elements(days) - (admitted - InFlightDays(s))
  {
    var idle, started := BackfillCancelled(s), BackfillStarted(s, days, answers);
    var admitted := Admitted(days, idle.requested, answers);
    if admitted == [] {
      WithoutNothingToDrop(idle.queue, Elements(admitted));
    } else {
      assert started.backfill == Some(PendingBackfill(Elements(admitted), |admitted|));
      assert started.queue == idle.queue + admitted;
      WithoutOfConcatenation(idle.queue, admitted, Elements(admitted));
      WithoutEverything(admitted, Elements(admitted));
      assert BackfillCancelled(started).queue == Without(idle.queue, Elements(admitted));
    }
  }

  lemma {:induction false} AdmittedDependsOnFetchedDays(days: seq<Day>, r1: set<Day>, r2: set<Day>,
                                                        answers: Day -> ArchiveAnswer)
    requires forall i :: 0 <= i < |days| && answers(days[i]).NeedsFetch? ==> (days[i] in r1 <==> days[i] in r2)
    ensures Admitted(days, r1, answers) == Admitted(days, r2, answers)
  {
    if days != [] {
      forall i | 0 <= i < |days[1..]| && answers(days[1..][i]).NeedsFetch?
        ensures days[1..][i] in r1 + {days[0]} <==> days[1..][i] in r2 + {days[0]}
      {
        assert days[1..][i] == days[i + 1];
      }
      AdmittedDependsOnFetchedDays(days[1..], r1 + {days[0]}, r2 + {days[0]}, answers);
    }
  }

  // ----- Draining the queue -----

  /** Dispatches the front day of an idle queue and takes its report. */
  function Round(s: QueueState): QueueState {
    if s.inFlight.Some? || s.queue == [] then s
    else DayFinished(NextDayTaken(s), s.queue[0])
  }

  function Rounds(s: QueueState, n: nat): QueueState {
    if n == 0 then s else Round(Rounds(s, n - 1))
  }

  function PendingDays(s: QueueState): set<Day> {
    match s.backfill case None => {} case Some(backfill) => backfill.pending
  }

  /** One round serves the front day and retires it from the backfill. */
  lemma RoundServesTheFront(s: QueueState)
    requires BackfillTracked(s) && s.inFlight.None? && s.queue != []
    ensures var after := Round(s);
            && after.inFlight.None? && after.queue == s.queue[1..] && BackfillTracked(after)
            && PendingDays(after) == PendingDays(s) - {s.queue[0]}
            && (after.backfill.None? <==> PendingDays(s) <= {s.queue[0]})
            && (after.backfill.Some? ==> s.backfill.Some? && after.backfill.value.total == s.backfill.value.total)
  {
    TakeIsTracked(s);
    FinishIsTracked(NextDayTaken(s), s.queue[0]);
    ReportRetires(NextDayTaken(s), s.queue[0]);
  }

  lemma ReportRetires(s: QueueState, day: Day)
    requires BackfillTracked(s)
    ensures var after := DayFinished(s, day);
            && PendingDays(after) == PendingDays(s) - {day}
            && (after.backfill.None? <==> PendingDays(s) <= {day})
            && (after.backfill.Some? ==> s.backfill.Some? && after.backfill.value.total == s.backfill.value.total)
  {
    assert PendingDays(s) - {day} == {} <==> PendingDays(s) <= {day};
  }

  /**
   Draining serves the queue from its front: after `n` rounds the first `n` days are gone, and the
   backfill waits on exactly its days behind them. It is over once the last of them is served.
   */
  lemma {:induction false} DrainServesInOrder(s: QueueState, n: nat)
    requires BackfillTracked(s) && s.inFlight.None? && n <= |s.queue|
    ensures var after := Rounds(s, n);
            && after.inFlight.None?
            && after.queue == s.queue[n..]
            && BackfillTracked(after)
            && PendingDays(after) == PendingDays(s) - Elements(s.queue[..n])
            && (after.backfill.None? <==> PendingDays(s) <= Elements(s.queue[..n]))
            && (after.backfill.Some? ==> after.backfill.value.total == s.backfill.value.total)
  {
    if n > 0 {
      DrainServesInOrder(s, n - 1);
      var before := Rounds(s, n - 1);
      assert before.queue[0] == s.queue[n - 1] && before.queue[1..] == s.queue[n..];
      RoundServesTheFront(before);
      ElementsOfPrefix(s.queue, n);
      ServedOneMore(PendingDays(s), Elements(s.queue[..n - 1]), s.queue[n - 1]);
    }
  }

  lemma ServedOneMore(pending: set<Day>, served: set<Day>, day: Day)
    ensures pending - served - {day} == pending - (served + {day})
    ensures pending - served <= {day} <==> pending <= served + {day}
  {}

  lemma ElementsOfPrefix(queue: seq<Day>, n: nat)
    requires 0 < n <= |queue|
    ensures Elements(queue[..n]) == Elements(queue[..n - 1]) + {queue[n - 1]}
  {
    assert queue[..n] == queue[..n - 1] + [queue[n - 1]];
  }

  /** `done` never falls from round to round and stays below the total until the last day ends the backfill. */
  lemma RoundAdvancesDone(s: QueueState)
    requires BackfillTracked(s) && s.inFlight.None? && s.queue != [] && s.backfill.Some?
    ensures var now, next := s.backfill.value, Round(s).backfill;
            match next
            case Some(later) => now.Done() <= later.Done() < later.total == now.total
            case None => now.pending == {s.queue[0]} && now.Done() + 1 == now.total
  {
    RoundServesTheFront(s);
    var pending := s.backfill.value.pending;
    if Round(s).backfill.Some? {
      SubsetIsNoLarger(PendingDays(Round(s)), pending);
    } else {
      var left :| left in pending;
      assert pending == {s.queue[0]};
    }
  }

  /** The days `ops` report on. */
  function Reported(ops: seq<Op>): set<Day> {
    if ops == [] then {} else (if ops[0].FinishDay? then {ops[0].day} else {}) + Reported(ops[1..])
  }

  /** Neither starts nor ends the backfill by itself. */
  predicate LeavesBackfill(op: Op) {
    !op.StartBackfill? && !op.CancelBackfill? && !op.ForgetHost?
  }

  lemma NextRetiresTheReported(s: QueueState, op: Op)
    requires Consistent(s) && Enabled(s, op) && LeavesBackfill(op)
    ensures var after := Next(s, op);
            && PendingDays(after) == PendingDays(s) - (if op.FinishDay? then {op.day} else {})
            && (after.backfill.Some? ==> s.backfill.Some? && after.backfill.value.total == s.backfill.value.total)
  {}

  /**
   Over every run that neither starts nor ends a backfill by itself, the backfill waits on exactly its
   days that did not report, is over exactly when there is none, and its progress never falls.
   */
  lemma DoneNeverFalls(s: QueueState, ops: seq<Op>)
    requires Consistent(s) && Legal(s, ops) && s.backfill.Some?
    requires forall i :: 0 <= i < |ops| ==> LeavesBackfill(ops[i])
    ensures var now, after := s.backfill.value, Run(s, ops);
            && PendingDays(after) == now.pending - Reported(ops)
            && (after.backfill.None? <==> now.pending <= Reported(ops))
            && (after.backfill.Some? ==> now.Done() <= after.backfill.value.Done() < now.total
                                         && after.backfill.value.total == now.total)
  {
    RunRetiresTheReported(s, ops);
    RunKeepsConsistent(s, ops);
    if Run(s, ops).backfill.Some? {
      SubsetIsNoLarger(PendingDays(Run(s, ops)), s.backfill.value.pending);
      var left := MemberOf(PendingDays(Run(s, ops)));
      SubsetIsNoLarger({left}, PendingDays(Run(s, ops)));
    }
  }

  lemma {:induction false} RunRetiresTheReported(s: QueueState, ops: seq<Op>)
    requires Consistent(s) && Legal(s, ops)
    requires forall i :: 0 <= i < |ops| ==> LeavesBackfill(ops[i])
    ensures var after := Run(s, ops);
            && PendingDays(after) == PendingDays(s) - Reported(ops)
            && (after.backfill.Some? ==> s.backfill.Some? && after.backfill.value.total == s.backfill.value.total)
    decreases |ops|
  {
    if ops != [] {
      var rest := ops[1..];
      NextRetiresTheReported(s, ops[0]);
      NextKeepsConsistent(s, ops[0]);
      forall i | 0 <= i < |rest| ensures LeavesBackfill(rest[i]) { assert rest[i] == ops[i + 1]; }
      RunRetiresTheReported(Next(s, ops[0]), rest);
    }
  }

  /** The day in flight, if any, reports back. */
  function Settled(s: QueueState): QueueState {
    match s.inFlight case None => s case Some(day) => DayFinished(s, day)
  }

  /** From any reachable state the backfill is over once the day in flight and the queue are served. */
  lemma EveryBackfillEnds(s: QueueState)
    requires BackfillTracked(s)
    ensures var idle := Settled(s);
            && BackfillTracked(idle) && idle.queue == s.queue
            && PendingDays(idle) == PendingDays(s) - InFlightDays(s)
            && Rounds(idle, |s.queue|).backfill.None? && Rounds(idle, |s.queue|).queue == []
  {
    if s.inFlight.Some? {
      FinishIsTracked(s, s.inFlight.value);
    }
    var idle := Settled(s);
    DrainServesInOrder(idle, |s.queue|);
    assert s.queue[..|s.queue|] == s.queue && s.queue[|s.queue|..] == [];
  }
}
