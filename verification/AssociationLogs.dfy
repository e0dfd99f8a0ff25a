/** What becomes of a log that was registered for a batch, and of the tokens, over whole runs. */
module AssociationLogs {
  import opened Common
  import opened AssociationBatchesProtocol
  import opened AssociationBatchesProperties
  import opened CandidateOrder

  /** Some step of the run registered `log` for batch `b`. */
  ghost predicate LogRegistered(steps: seq<Step>, b: BatchId, log: LogId) {
    exists k :: 0 <= k < |steps| && steps[k].RegisterLog? && steps[k].batch == b && steps[k].log == log
  }

  /** Some call of the run listed `log` as pending. */
  ghost predicate ListedByACall(steps: seq<Step>, log: LogId) {
    exists k :: 0 <= k < |steps| && steps[k].CallReadyLogs? && log in steps[k].pending
  }

  /** Every call in `steps` lists `log` as pending. */
  ghost predicate AlwaysListed(steps: seq<Step>, log: LogId) {
    forall k :: 0 <= k < |steps| && steps[k].CallReadyLogs? ==> log in steps[k].pending
  }

  // ----- Nothing is reported that was not registered -----

  ghost predicate LogsTraced(s: State, past: seq<Step>) {
    && (forall b, log :: b in s.registry && log in s.registry[b].logs ==> LogRegistered(past, b, log))
    && (s.phase.ReadSubmitted? || s.phase.ReadRecordings? ==>
          forall log :: log in s.phase.pending ==> ListedByACall(past, log))
    && (forall i :: 0 <= i < |s.reported| ==>
          LogRegistered(past, s.reported[i].batch, s.reported[i].log) && ListedByACall(past, s.reported[i].log))
  }

  lemma StillRegistered(past: seq<Step>, step: Step, b: BatchId, log: LogId)
    ensures LogRegistered(past, b, log) ==> LogRegistered(past + [step], b, log)
    ensures step.RegisterLog? && step.batch == b && step.log == log ==> LogRegistered(past + [step], b, log)
    ensures ListedByACall(past, log) ==> ListedByACall(past + [step], log)
    ensures step.CallReadyLogs? && log in step.pending ==> ListedByACall(past + [step], log)
  {
    var more := past + [step];
    assert more[|past|] == step;
    if LogRegistered(past, b, log) {
      var k :| 0 <= k < |past| && past[k].RegisterLog? && past[k].batch == b && past[k].log == log;
      assert more[k] == past[k];
    }
    if ListedByACall(past, log) {
      var k :| 0 <= k < |past| && past[k].CallReadyLogs? && log in past[k].pending;
      assert more[k] == past[k];
    }
  }

  /** A log a batch holds after a step was held before or is the one the step registers. */
  lemma HeldLogsAreRegistered(s: State, step: Step, b: BatchId, log: LogId)
    requires WellFormed(s) && Enabled(s, step)
    requires b in Next(s, step).registry && log in Next(s, step).registry[b].logs
    ensures (b in s.registry && log in s.registry[b].logs)
         || (step.RegisterLog? && step.batch == b && step.log == log)
  {
    if step.Advance? { AdvanceHoldsNoMore(s, b, log); }
  }

  lemma AdvanceHoldsNoMore(s: State, b: BatchId, log: LogId)
    requires WellFormed(s) && !s.phase.Idle? && b in Advanced(s).registry && log in Advanced(s).registry[b].logs
    ensures b in s.registry && log in s.registry[b].logs
  {
    if s.phase.ReadSubmitted? && s.phase.todo != [] {
      RetainedLogsArePending(s.registry[s.phase.todo[0]].logs, s.phase.pending);
    }
  }

  /** The pending list of a call under way is the one the call was made with. */
  lemma PendingIsTheCallers(s: State, step: Step)
    requires WellFormed(s) && Enabled(s, step)
    ensures var t := Next(s, step);
            t.phase.ReadSubmitted? || t.phase.ReadRecordings? ==>
              (step == CallReadyLogs(t.phase.pending)
               || ((s.phase.ReadSubmitted? || s.phase.ReadRecordings?) && t.phase.pending == s.phase.pending))
  {}

  /** A new report is of a log its batch holds and the call lists. */
  lemma NewReportsAreHeld(s: State, step: Step, i: nat)
    requires Inv(s) && Enabled(s, step) && |s.reported| <= i < |Next(s, step).reported|
    ensures var r := Next(s, step).reported[i];
            && s.phase.ReadRecordings? && r.batch in s.registry && r.log in s.registry[r.batch].logs
            && r.log in s.phase.pending
  {
    KeepsReports(s, step);
    var b := s.phase.todo[0];
    var batch := s.registry[b];
    var ready := ReadyOf(b, batch.logs, OrderedCandidates(batch), s.phase.pending);
    assert Next(s, step).reported[i] == ready[i - |s.reported|];
    ReadyAt(b, batch.logs, OrderedCandidates(batch), s.phase.pending, i - |s.reported|);
  }

  lemma NextKeepsLogsTraced(s: State, past: seq<Step>, step: Step)
    requires Inv(s) && Enabled(s, step) && LogsTraced(s, past)
    ensures LogsTraced(Next(s, step), past + [step])
  {
    var t, now := Next(s, step), past + [step];
    forall b, log | b in t.registry && log in t.registry[b].logs ensures LogRegistered(now, b, log) {
      HeldLogsAreRegistered(s, step, b, log);
      StillRegistered(past, step, b, log);
    }
    PendingIsTheCallers(s, step);
    if t.phase.ReadSubmitted? || t.phase.ReadRecordings? {
      forall log | log in t.phase.pending ensures ListedByACall(now, log) { StillRegistered(past, step, 0, log); }
    }
    ReportsStayRegistered(s, past, step);
  }

  lemma ReportsStayRegistered(s: State, past: seq<Step>, step: Step)
    requires Inv(s) && Enabled(s, step) && LogsTraced(s, past)
    ensures var reported := Next(s, step).reported;
            forall i :: 0 <= i < |reported| ==>
              LogRegistered(past + [step], reported[i].batch, reported[i].log)
              && ListedByACall(past + [step], reported[i].log)
  {
    KeepsReports(s, step);
    var reported := Next(s, step).reported;
    forall i | 0 <= i < |reported|
      ensures LogRegistered(past + [step], reported[i].batch, reported[i].log)
              && ListedByACall(past + [step], reported[i].log)
    {
      StillRegistered(past, step, reported[i].batch, reported[i].log);
      if i < |s.reported| {
        assert reported[i] == s.reported[i];
      } else {
        NewReportsAreHeld(s, step, i);
      }
    }
  }

  lemma {:induction false} RunKeepsLogsTraced(s: State, past: seq<Step>, steps: seq<Step>)
    requires Inv(s) && LogsTraced(s, past) && Legal(s, steps)
    ensures LogsTraced(Run(s, steps), past + steps)
    decreases |steps|
  {
    if steps == [] {
      assert past + steps == past;
    } else {
      NextKeepsInv(s, steps[0]);
      NextKeepsLogsTraced(s, past, steps[0]);
      RunKeepsLogsTraced(Next(s, steps[0]), past + [steps[0]], steps[1..]);
      assert past + [steps[0]] + steps[1..] == past + steps;
    }
  }

  /** Under any interleaving, a reported log was registered for the reported batch and listed by a call. */
  lemma OnlyRegisteredLogsAreReported(steps: seq<Step>)
    requires Legal(INITIAL, steps)
    ensures forall r :: r in Run(INITIAL, steps).reported
                        ==> LogRegistered(steps, r.batch, r.log) && ListedByACall(steps, r.log)
  {
    InitialHolds();
    assert INITIAL.registry.Keys == {} && INITIAL.reported == [];
    RunKeepsLogsTraced(INITIAL, [], steps);
    assert [] + steps == steps;
    var s := Run(INITIAL, steps);
    forall r | r in s.reported ensures LogRegistered(steps, r.batch, r.log) && ListedByACall(steps, r.log) {
      var i := PlaceOf(s.reported, r);
    }
  }

  /** A batch holds a log once, however often it is registered. */
  ghost predicate LogsOnce(s: State) {
    forall b :: b in s.registry ==> Distinct(s.registry[b].logs)
  }

  lemma RetainingKeepsDistinct(logs: seq<LogId>, pending: seq<LogId>)
    requires Distinct(logs)
    ensures Distinct(RetainedLogs(logs, pending))
  {
    DistinctByCounts(logs);
    forall log ensures multiset(RetainedLogs(logs, pending))[log] <= 1 {
      WithoutCounts(logs, Elements(logs) - Elements(pending), log);
    }
    DistinctByCounts(RetainedLogs(logs, pending));
  }

  lemma NextKeepsLogsOnce(s: State, step: Step)
    requires WellFormed(s) && Enabled(s, step) && LogsOnce(s)
    ensures LogsOnce(Next(s, step))
  {
    if step.Advance? && s.phase.ReadSubmitted? && s.phase.todo != [] {
      RetainingKeepsDistinct(s.registry[s.phase.todo[0]].logs, s.phase.pending);
    }
  }

  lemma {:induction false} RunKeepsLogsOnce(s: State, steps: seq<Step>)
    requires LogsOnce(s) && Legal(s, steps)
    ensures LogsOnce(Run(s, steps))
    decreases |steps|
  {
    if steps != [] {
      NextKeepsLogsOnce(s, steps[0]);
      RunKeepsLogsOnce(Next(s, steps[0]), steps[1..]);
    }
  }

  // ----- A registered log is kept and reported -----

  /** The batch holds the log, and the call under way, if it is still reporting, lists it. */
  ghost predicate Holds(s: State, b: BatchId, log: LogId) {
    && b in s.registry && log in s.registry[b].logs
    && (s.phase.ReadSubmitted? || s.phase.ReadRecordings? ==> log in s.phase.pending)
  }

  /** A registered log is held by its batch. */
  lemma RegisteredLogIsHeld(s: State, b: BatchId, token: nat, log: LogId)
    requires Inv(s) && Enabled(s, RegisterLog(b, token, log))
    ensures Holds(Next(s, RegisterLog(b, token, log)), b, log)
  {
    assert Live(s, b);
  }

  lemma NextKeepsHolding(s: State, step: Step, b: BatchId, log: LogId)
    requires Inv(s) && Enabled(s, step) && Holds(s, b, log)
    requires step.CallReadyLogs? ==> log in step.pending
    ensures Holds(Next(s, step), b, log)
  {
    if step.Advance? { AdvanceKeepsHolding(s, b, log); }
  }

  lemma AdvanceKeepsHolding(s: State, b: BatchId, log: LogId)
    requires Inv(s) && !s.phase.Idle? && Holds(s, b, log)
    ensures Holds(Advanced(s), b, log)
  {
    if s.phase.ReadSubmitted? && s.phase.todo != [] {
      RetainedLogsArePending(s.registry[s.phase.todo[0]].logs, s.phase.pending);
    }
  }

  lemma {:induction false} RunKeepsHolding(s: State, steps: seq<Step>, b: BatchId, log: LogId)
    requires Inv(s) && Legal(s, steps) && Holds(s, b, log) && AlwaysListed(steps, log)
    ensures Holds(Run(s, steps), b, log)
    decreases |steps|
  {
    if steps != [] {
      NextKeepsInv(s, steps[0]);
      NextKeepsHolding(s, steps[0], b, log);
      forall k | 0 <= k < |steps[1..]| && steps[1..][k].CallReadyLogs? ensures log in steps[1..][k].pending {
        assert steps[1..][k] == steps[k + 1];
      }
      RunKeepsHolding(Next(s, steps[0]), steps[1..], b, log);
    }
  }

  lemma {:induction false} SplitRun(s: State, steps: seq<Step>, more: seq<Step>)
    requires Legal(s, steps + more)
    ensures Legal(s, steps) && Legal(Run(s, steps), more) && Run(s, steps + more) == Run(Run(s, steps), more)
    decreases |steps|
  {
    if steps == [] {
      assert steps + more == more;
    } else {
      assert (steps + more)[1..] == steps[1..] + more;
      SplitRun(Next(s, steps[0]), steps[1..], more);
    }
  }

  /**
   Under any interleaving, a log that was registered for a batch, and that every call since then lists
   as pending, is still held by the batch, which is still registered.
   */
  lemma RegisteredLogsAreKept(before: seq<Step>, b: BatchId, token: nat, log: LogId, since: seq<Step>)
    requires Legal(INITIAL, before + ([RegisterLog(b, token, log)] + since)) && AlwaysListed(since, log)
    ensures Holds(Run(INITIAL, before + ([RegisterLog(b, token, log)] + since)), b, log)
  {
    var register := RegisterLog(b, token, log);
    InitialHolds();
    SplitRun(INITIAL, before, [register] + since);
    var s := Run(INITIAL, before);
    RunKeepsInv(INITIAL, before);
    assert ([register] + since)[1..] == since;
    RegisteredLogIsHeld(s, b, token, log);
    NextKeepsInv(s, register);
    RunKeepsHolding(Next(s, register), since, b, log);
  }

  /**
   Once its recording work is over, the next call that lists a kept log reports it, with the list of
   all that the run registered for its batch.
   */
  lemma KeptLogsAreReported(before: seq<Step>, b: BatchId, token: nat, log: LogId, since: seq<Step>,
                            pending: seq<LogId>, call: seq<Step>)
    requires var steps := before + ([RegisterLog(b, token, log)] + since);
             && Legal(INITIAL, steps) && AlwaysListed(since, log) && log in pending
             && var s := Run(INITIAL, steps);
                && WellFormed(s) && s.phase.Idle? && b in s.live && RecordingWorkOver(s, b)
                && WellFormed(Next(s, CallReadyLogs(pending))) && CallSteps(Next(s, CallReadyLogs(pending)), call)
    ensures var steps := before + ([RegisterLog(b, token, log)] + since);
            var called := Next(Run(INITIAL, steps), CallReadyLogs(pending));
            && Legal(called, call) && b < |Begun(steps)|
            && Ready(b, log, OrderedCandidates(BatchOf(steps, b))) in Run(called, call).reported
  {
    var steps := before + ([RegisterLog(b, token, log)] + since);
    var s := Run(INITIAL, steps);
    RegisteredLogsAreKept(before, b, token, log, since);
    InitialHolds();
    RunKeepsInv(INITIAL, steps);
    NextCallReportsCompletedBatches(s, pending, call, b, log);
    InitiallyTraced();
    RunKeepsTrace(INITIAL, [], steps);
    assert [] + steps == steps;
    assert SameCandidates(BatchOf(steps, b), s.registry[b]);
    ListOfTheSame(BatchOf(steps, b), s.registry[b]);
  }

  function LogsOf(ready: seq<Ready>): seq<LogId> {
    if ready == [] then [] else [ready[0].log] + LogsOf(ready[1..])
  }

  /** The reports of a batch follow the pending list, in its order. */
  lemma ReportsFollowThePendingList(id: BatchId, logs: seq<LogId>, candidates: seq<FileId>, pending: seq<LogId>)
    ensures LogsOf(ReadyOf(id, logs, candidates, pending)) == Without(pending, Elements(pending) - Elements(logs))
  {
    LogsInOrder(id, logs, candidates, pending, Elements(pending) - Elements(logs));
  }

  lemma {:induction false} LogsInOrder(id: BatchId, logs: seq<LogId>, candidates: seq<FileId>, pending: seq<LogId>,
                                       dropped: set<LogId>)
    requires forall i :: 0 <= i < |pending| ==> (pending[i] in dropped <==> pending[i] !in logs)
    ensures LogsOf(ReadyOf(id, logs, candidates, pending)) == Without(pending, dropped)
  {
    if pending != [] {
      var rest := pending[1..];
      forall i | 0 <= i < |rest| ensures rest[i] in dropped <==> rest[i] !in logs { assert rest[i] == pending[i + 1]; }
      LogsInOrder(id, logs, candidates, rest, dropped);
      var later := ReadyOf(id, logs, candidates, rest);
      assert [] + later == later;
      assert ([Ready(id, pending[0], candidates)] + later)[1..] == later;
    }
  }

  // ----- Tokens -----

  /** What the steps of a run left of the tokens of batch `b`, read off the steps alone. */
  function TokensBy(steps: seq<Step>, b: BatchId): (LiveTokens, Minted) {
    if steps == [] then (LiveTokens(false, {}, {}), Minted(0, 0))
    else
      var (live, minted) := TokensBy(steps[..|steps| - 1], b);
      match steps[|steps| - 1]
      case BeginSubmission(_) =>
        if |Begun(steps[..|steps| - 1])| == b then (LiveTokens(true, {}, {}), Minted(0, 0)) else (live, minted)
      case MintRecording(at) =>
        if at == b then (live.(recordings := live.recordings + {minted.recordings}),
                         minted.(recordings := minted.recordings + 1))
        else (live, minted)
      case MintLog(at) =>
        if at == b then (live.(logs := live.logs + {minted.logs}), minted.(logs := minted.logs + 1)) else (live, minted)
      case DropSubmission(at) => if at == b then (live.(submission := false), minted) else (live, minted)
      case DropRecording(at, token) =>
        if at == b then (live.(recordings := live.recordings - {token}), minted) else (live, minted)
      case DropLog(at, token) => if at == b then (live.(logs := live.logs - {token}), minted) else (live, minted)
      case _ => (live, minted)
  }

  ghost predicate TokensTraced(s: State, past: seq<Step>) {
    && |Begun(past)| == s.nextId && s.live.Keys == s.minted.Keys
    && forall b :: b in s.live ==> (s.live[b], s.minted[b]) == TokensBy(past, b)
  }

  lemma NextKeepsTokensTraced(s: State, past: seq<Step>, step: Step)
    requires WellFormed(s) && Enabled(s, step) && TokensTraced(s, past)
    ensures TokensTraced(Next(s, step), past + [step])
  {
    OneMoreStep(past, step, 0);
    NextIsKnown(s, step);
    if step.Advance? { AdvancedFrame(s); }
    forall b | b in Next(s, step).live
      ensures (Next(s, step).live[b], Next(s, step).minted[b]) == TokensBy(past + [step], b)
    {
      TokenStepIsTraced(s, past, step, b);
    }
  }

  lemma TokenStepIsTraced(s: State, past: seq<Step>, step: Step, b: BatchId)
    requires WellFormed(s) && Enabled(s, step) && TokensTraced(s, past)
    requires b in Next(s, step).live && b in Next(s, step).minted
    ensures (Next(s, step).live[b], Next(s, step).minted[b]) == TokensBy(past + [step], b)
  {
    assert (past + [step])[..|past|] == past;
    if step.Advance? { AdvancedFrame(s); }
  }

  lemma {:induction false} RunKeepsTokensTraced(s: State, past: seq<Step>, steps: seq<Step>)
    requires TokensTraced(s, past) && Legal(s, steps)
    ensures TokensTraced(Run(s, steps), past + steps)
    decreases |steps|
  {
    if steps == [] {
      assert past + steps == past;
    } else {
      NextKeepsTokensTraced(s, past, steps[0]);
      RunKeepsTokensTraced(Next(s, steps[0]), past + [steps[0]], steps[1..]);
      assert past + [steps[0]] + steps[1..] == past + steps;
    }
  }

  /**
   Under any interleaving, the tokens of a batch are those its own steps minted and did not drop, and
   its counters count them: recording and log arrivals are numbered from 0 in the order they were minted.
   */
  lemma TokensAreTheMintedOnes(steps: seq<Step>, b: BatchId)
    requires Legal(INITIAL, steps) && b < |Begun(steps)|
    ensures var s, (live, _) := Run(INITIAL, steps), TokensBy(steps, b);
            && b in s.live && b in s.progress && s.live[b] == live
            && s.progress[b] == BatchProgress(|live.recordings|, |live.logs|, !live.submission)
  {
    InitialHolds();
    assert INITIAL.live.Keys == {} && INITIAL.minted.Keys == {};
    assert TokensTraced(INITIAL, []);
    RunKeepsTokensTraced(INITIAL, [], steps);
    assert [] + steps == steps;
    RunKeepsInv(INITIAL, steps);
    var s := Run(INITIAL, steps);
    assert b < s.nextId && b in s.live;
    assert Counted(s, b);
  }
}
