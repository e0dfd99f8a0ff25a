/** What every interleaving of token drops with `ready_logs` keeps, and what the candidate list is. */
module AssociationBatchesProperties {
  import opened Common
  import opened AssociationBatchesProtocol

  function Run(s: State, steps: seq<Step>): State
    requires Legal(s, steps)
    decreases |steps|
  {
    if steps == [] then s else Run(Next(s, steps[0]), steps[1..])
  }

  ghost predicate Legal(s: State, steps: seq<Step>)
    decreases |steps|
  {
    WellFormed(s) && (steps == [] || (Enabled(s, steps[0]) && Legal(Next(s, steps[0]), steps[1..])))
  }

  /** Some token of `b` is alive: the submission, a recording arrival or a log arrival. */
  predicate Live(s: State, b: BatchId)
    requires b in s.live
  {
    s.live[b].submission || s.live[b].recordings != {} || s.live[b].logs != {}
  }

  /** The submission of `b` closed and every recording arrival ever minted for it was dropped. */
  predicate RecordingWorkOver(s: State, b: BatchId)
    requires b in s.live
  {
    !s.live[b].submission && s.live[b].recordings == {}
  }

  /** The shared counters of `b` count its live tokens, which it minted. */
  ghost predicate Counted(s: State, b: BatchId)
    requires b in s.live && b in s.progress && b in s.minted
  {
    && s.progress[b].recordings == |s.live[b].recordings|
    && s.progress[b].logs == |s.live[b].logs|
    && s.progress[b].submitted == !s.live[b].submission
    && (forall k :: k in s.live[b].recordings ==> k < s.minted[b].recordings)
    && (forall k :: k in s.live[b].logs ==> k < s.minted[b].logs)
  }

  /** What the reads of the call under way established about the batch it is at. */
  ghost predicate ReadsHold(s: State)
    requires WellFormed(s)
  {
    match s.phase
    case ReadRecordings(todo, _) => !s.live[todo[0]].submission
    case SweepRecordings(todo) => !s.live[todo[0]].submission && s.registry[todo[0]].logs == []
    case SweepLogs(todo) => RecordingWorkOver(s, todo[0]) && s.registry[todo[0]].logs == []
    case _ => true
  }

  /** A reported batch has no recording work left, and its candidate list is the reported one. */
  ghost predicate ReportHolds(s: State, r: Ready) {
    && r.batch in s.live
    && RecordingWorkOver(s, r.batch)
    && (r.batch in s.registry ==> OrderedCandidates(s.registry[r.batch]) == r.candidates)
  }

  /** A batch with a live token is in the registry. */
  ghost predicate LiveIsRegistered(s: State)
    requires Known(s)
  {
    forall b :: b in s.live && Live(s, b) ==> b in s.registry
  }

  /** Reports for the same batch carry the same candidates. */
  ghost predicate ReportsAgree(reported: seq<Ready>) {
    forall i, j :: 0 <= i < |reported| && 0 <= j < |reported| && reported[i].batch == reported[j].batch
                   ==> reported[i].candidates == reported[j].candidates
  }

  ghost predicate Inv(s: State) {
    && WellFormed(s)
    && (forall b :: b in s.live ==> Counted(s, b))
    && LiveIsRegistered(s)
    && ReadsHold(s)
    && (forall i :: 0 <= i < |s.reported| ==> ReportHolds(s, s.reported[i]))
    && ReportsAgree(s.reported)
    && !s.panicked
  }

  lemma InitialHolds()
    ensures Inv(INITIAL)
  {
    assert INITIAL.progress.Keys == {} && INITIAL.live.Keys == {} && INITIAL.minted.Keys == {};
  }

  /** A batch is reported for exactly the pending logs it holds. */
  lemma {:induction false} ReadyOfExactly(id: BatchId, logs: seq<LogId>, candidates: seq<FileId>, pending: seq<LogId>)
    ensures var ready := ReadyOf(id, logs, candidates, pending);
            && (forall i :: 0 <= i < |ready| ==> ready[i] == Ready(id, ready[i].log, candidates)
                                                 && ready[i].log in pending && ready[i].log in logs)
            && (forall log :: log in pending && log in logs ==> Ready(id, log, candidates) in ready)
  {
    if pending != [] {
      ReadyOfExactly(id, logs, candidates, pending[1..]);
      var front := if pending[0] in logs then [Ready(id, pending[0], candidates)] else [];
      assert ReadyOf(id, logs, candidates, pending) == front + ReadyOf(id, logs, candidates, pending[1..]);
    }
  }

  lemma ReadyAt(id: BatchId, logs: seq<LogId>, candidates: seq<FileId>, pending: seq<LogId>, k: nat)
    requires k < |ReadyOf(id, logs, candidates, pending)|
    ensures var r := ReadyOf(id, logs, candidates, pending)[k];
            r.batch == id && r.candidates == candidates && r.log in pending && r.log in logs
  {
    ReadyOfExactly(id, logs, candidates, pending);
    var ready := ReadyOf(id, logs, candidates, pending);
    assert ready[k] == Ready(id, ready[k].log, candidates);
  }

  /** Every step of every thread keeps the invariant. */
  lemma NextKeepsInv(s: State, step: Step)
    requires Inv(s) && Enabled(s, step)
    ensures Inv(Next(s, step))
  {
    NextIsWellFormed(s, step);
    NextKeepsCounts(s, step);
    NextKeepsRegistered(s, step);
    NextKeepsReads(s, step);
    NextKeepsReports(s, step);
  }

  /** The calls on the registry touch no counter and no token. */
  lemma CallsLeaveTokensAlone(s: State, step: Step)
    requires WellFormed(s) && Enabled(s, step)
    requires step.Advance? || step.CallReadyLogs? || step.RegisterLog? || step.RegisterRecording?
    ensures var t := Next(s, step); t.live == s.live && t.progress == s.progress && t.minted == s.minted
  {
    if step.Advance? { AdvancedFrame(s); }
  }

  lemma NextKeepsCounts(s: State, step: Step)
    requires Inv(s) && Enabled(s, step)
    ensures Known(Next(s, step)) && forall b :: b in Next(s, step).live ==> Counted(Next(s, step), b)
  {
    NextIsWellFormed(s, step);
    var t := Next(s, step);
    if step.Advance? || step.CallReadyLogs? || step.RegisterLog? || step.RegisterRecording? {
      CallsLeaveTokensAlone(s, step);
      forall b | b in t.live ensures Counted(t, b) { assert Counted(s, b); }
    } else {
      var at := if step.BeginSubmission? then s.nextId else step.batch;
      if !step.BeginSubmission? { assert Counted(s, at); }
      assert Counted(t, at) by { TokenStepCounts(s, step); }
      forall b | b in t.live && b != at ensures Counted(t, b) {
        assert Counted(s, b);
        assert t.live[b] == s.live[b] && t.progress[b] == s.progress[b] && t.minted[b] == s.minted[b];
      }
    }
  }

  lemma TokenStepCounts(s: State, step: Step)
    requires WellFormed(s) && Enabled(s, step)
    requires step.BeginSubmission? || step.MintRecording? || step.MintLog? || step.DropSubmission?
          || step.DropRecording? || step.DropLog?
    requires !step.BeginSubmission? ==> Counted(s, step.batch)
    ensures var at, t := if step.BeginSubmission? then s.nextId else step.batch, Next(s, step);
            at in t.live && at in t.progress && at in t.minted && Counted(t, at)
  {}

  lemma NextKeepsRegistered(s: State, step: Step)
    requires Inv(s) && Enabled(s, step)
    ensures Known(Next(s, step)) && LiveIsRegistered(Next(s, step)) && !Next(s, step).panicked
  {
    NextIsKnown(s, step);
    if step.Advance? {
      AdvanceKeepsRegistered(s);
    } else {
      OnlyAdvanceRemoves(s, step);
      var t := Next(s, step);
      forall b | b in t.live && Live(t, b) ensures b in t.registry {
        OnlyMintingBringsToLife(s, step, b);
        assert b in s.live ==> b in s.registry.Keys;
      }
      if step.RegisterLog? || step.RegisterRecording? { assert Live(s, step.batch); }
    }
  }

  lemma OnlyAdvanceRemoves(s: State, step: Step)
    requires WellFormed(s) && Enabled(s, step) && !step.Advance?
    ensures s.registry.Keys <= Next(s, step).registry.Keys
    ensures step.BeginSubmission? ==> s.nextId in Next(s, step).registry
  {}

  lemma OnlyMintingBringsToLife(s: State, step: Step, b: BatchId)
    requires WellFormed(s) && Enabled(s, step) && !step.Advance?
    requires b in Next(s, step).live && Live(Next(s, step), b)
    ensures (b in s.live && Live(s, b)) || (step.BeginSubmission? && b == s.nextId)
  {}

  lemma AdvanceKeepsRegistered(s: State)
    requires Inv(s) && !s.phase.Idle?
    ensures Known(Advanced(s)) && LiveIsRegistered(Advanced(s)) && !Advanced(s).panicked
  {
    NextIsKnown(s, Advance);
    AdvancedFrame(s);
    var t := Advanced(s);
    forall b | b in t.live && Live(t, b) ensures b in t.registry {
      assert Live(s, b) && b in s.registry.Keys && Counted(s, b);
      assert b in t.registry.Keys;
    }
  }

  lemma NextKeepsReads(s: State, step: Step)
    requires Inv(s) && Enabled(s, step)
    ensures WellFormed(Next(s, step)) && ReadsHold(Next(s, step))
  {
    NextIsWellFormed(s, step);
    if step.Advance? {
      AdvanceKeepsReads(s);
    } else if !s.phase.Idle? && s.phase.todo != [] {
      OthersKeepReads(s, step, s.phase.todo[0]);
    }
  }

  /** Between two reads of a call, other threads open no submission and change no registered batch. */
  lemma OthersKeepReads(s: State, step: Step, b: BatchId)
    requires WellFormed(s) && Enabled(s, step) && !step.Advance? && !s.phase.Idle? && b in s.live
    ensures var t := Next(s, step);
            && t.registry == s.registry && t.phase == s.phase && b in t.live
            && (!s.live[b].submission ==> !t.live[b].submission)
            && (RecordingWorkOver(s, b) ==> RecordingWorkOver(t, b))
  {}

  lemma AdvanceKeepsReads(s: State)
    requires Inv(s) && !s.phase.Idle?
    ensures WellFormed(Advanced(s)) && ReadsHold(Advanced(s))
  {
    NextIsWellFormed(s, Advance);
    if s.phase.todo != [] {
      assert s.phase.todo[0] in s.registry;
      assert Counted(s, s.phase.todo[0]);
    }
  }

  lemma NextKeepsCandidates(s: State, step: Step, b: BatchId)
    requires Inv(s) && Enabled(s, step)
    requires b in s.live && RecordingWorkOver(s, b)
    ensures var t := Next(s, step);
            && b in t.live && RecordingWorkOver(t, b)
            && (b in t.registry ==> b in s.registry && SameCandidates(s.registry[b], t.registry[b]))
            && s.reported <= t.reported
  {
    if step.Advance? {
      AdvancedFrame(s);
      AdvanceKeepsCandidates(s, b);
    } else {
      OthersKeepCandidates(s, step, b);
    }
  }

  /** A batch without recording work has no token left that could register a recording. */
  lemma OthersKeepCandidates(s: State, step: Step, b: BatchId)
    requires WellFormed(s) && Enabled(s, step) && !step.Advance?
    requires b in s.live && RecordingWorkOver(s, b)
    ensures var t := Next(s, step);
            && b in t.live && RecordingWorkOver(t, b)
            && (b in t.registry ==> b in s.registry && SameCandidates(s.registry[b], t.registry[b]))
            && t.reported == s.reported
  {}

  predicate SameCandidates(batch: BatchState, later: BatchState) {
    batch.initial == later.initial && batch.arrivals == later.arrivals
  }

  lemma AdvanceKeepsCandidates(s: State, b: BatchId)
    requires WellFormed(s) && !s.phase.Idle?
    ensures b in Advanced(s).registry ==> b in s.registry && SameCandidates(s.registry[b], Advanced(s).registry[b])
    ensures s.reported <= Advanced(s).reported
  {}

  lemma NextKeepsReports(s: State, step: Step)
    requires Inv(s) && Enabled(s, step)
    ensures var t := Next(s, step);
            && (forall i :: 0 <= i < |t.reported| ==> ReportHolds(t, t.reported[i]))
            && ReportsAgree(t.reported)
  {
    if step.Advance? && s.phase.ReadRecordings? {
      var t := Advanced(s);
      NewReportsHold(s);
      NewReportsAgree(s.reported, t.reported, s.phase.todo[0], OrderedCandidates(s.registry[s.phase.todo[0]]));
      forall i | 0 <= i < |s.reported| ensures ReportHolds(t, s.reported[i]) {
        ReportStaysHeld(s, step, s.reported[i]);
      }
    } else {
      OldReportsStayHeld(s, step);
    }
  }

  lemma OldReportsStayHeld(s: State, step: Step)
    requires Inv(s) && Enabled(s, step) && !(step.Advance? && s.phase.ReadRecordings?)
    ensures Next(s, step).reported == s.reported
    ensures forall i :: 0 <= i < |s.reported| ==> ReportHolds(Next(s, step), s.reported[i])
  {
    KeepsReports(s, step);
    forall i | 0 <= i < |s.reported| ensures ReportHolds(Next(s, step), s.reported[i]) {
      ReportStaysHeld(s, step, s.reported[i]);
    }
  }

  lemma KeepsReports(s: State, step: Step)
    requires WellFormed(s) && Enabled(s, step)
    ensures s.reported <= Next(s, step).reported
    ensures !(step.Advance? && s.phase.ReadRecordings?) ==> Next(s, step).reported == s.reported
  {
    if step.Advance? { AdvanceKeepsReports(s); }
  }

  lemma AdvanceKeepsReports(s: State)
    requires WellFormed(s) && !s.phase.Idle?
    ensures s.reported <= Advanced(s).reported
    ensures !s.phase.ReadRecordings? ==> Advanced(s).reported == s.reported
  {}

  lemma ReportStaysHeld(s: State, step: Step, r: Ready)
    requires Inv(s) && Enabled(s, step) && ReportHolds(s, r)
    ensures ReportHolds(Next(s, step), r)
  {
    NextKeepsCandidates(s, step, r.batch);
  }

  lemma NewReportsHold(s: State)
    requires Inv(s) && s.phase.ReadRecordings?
    ensures var t, b := Advanced(s), s.phase.todo[0];
            && b in s.registry && s.reported <= t.reported
            && (forall r :: r in s.reported && r.batch == b ==> r.candidates == OrderedCandidates(s.registry[b]))
            && (forall i :: |s.reported| <= i < |t.reported|
                            ==> t.reported[i].batch == b && ReportHolds(t, t.reported[i])
                                && t.reported[i].candidates == OrderedCandidates(s.registry[b]))
  {
    var t, b := Advanced(s), s.phase.todo[0];
    var batch := s.registry[b];
    assert Counted(s, b);
    forall r | r in s.reported && r.batch == b ensures r.candidates == OrderedCandidates(batch) {
      assert ReportHolds(s, r);
    }
    if s.progress[b].recordings == 0 {
      var ready := ReadyOf(b, batch.logs, OrderedCandidates(batch), s.phase.pending);
      assert t.reported == s.reported + ready;
      forall i | |s.reported| <= i < |t.reported|
        ensures t.reported[i].batch == b && t.reported[i].candidates == OrderedCandidates(batch)
      {
        var k := i - |s.reported|;
        assert t.reported[i] == ready[k];
        ReadyAt(b, batch.logs, OrderedCandidates(batch), s.phase.pending, k);
      }
    }
  }

  lemma NewReportsAgree(reported: seq<Ready>, more: seq<Ready>, b: BatchId, candidates: seq<FileId>)
    requires ReportsAgree(reported) && reported <= more
    requires forall r :: r in reported && r.batch == b ==> r.candidates == candidates
    requires forall i :: |reported| <= i < |more| ==> more[i].batch == b && more[i].candidates == candidates
    ensures ReportsAgree(more)
  {
    forall i | 0 <= i < |more| && more[i].batch == b ensures more[i].candidates == candidates {
      if i < |reported| { assert more[i] == reported[i] && reported[i] in reported; }
    }
    forall i | 0 <= i < |more| && more[i].batch != b ensures i < |reported| && more[i] == reported[i] {}
  }

  /** No reachable state panics on a live arrival without a batch, under any interleaving. */
  lemma {:induction false} RunKeepsInv(s: State, steps: seq<Step>)
    requires Inv(s) && Legal(s, steps)
    ensures Inv(Run(s, steps))
    decreases |steps|
  {
    if steps != [] {
      NextKeepsInv(s, steps[0]);
      RunKeepsInv(Next(s, steps[0]), steps[1..]);
    }
  }

  /** No interleaving from the start panics, and a batch with a live token is always registered. */
  lemma LiveTokensKeepTheirBatch(steps: seq<Step>)
    requires Legal(INITIAL, steps)
    ensures var s := Run(INITIAL, steps);
            && !s.panicked
            && (forall b :: b in s.live && Live(s, b) ==> b in s.registry)
            && (forall i :: 0 <= i < |s.reported| ==> s.reported[i].batch in s.live
                                                      && RecordingWorkOver(s, s.reported[i].batch))
            && ReportsAgree(s.reported)
  {
    InitialHolds();
    RunKeepsInv(INITIAL, steps);
    var s := Run(INITIAL, steps);
    forall i | 0 <= i < |s.reported|
      ensures s.reported[i].batch in s.live && RecordingWorkOver(s, s.reported[i].batch)
    {
      assert ReportHolds(s, s.reported[i]);
    }
  }

  /** A step panics exactly when it registers for a batch that is gone, whatever led to it. */
  lemma PanicsExactly(s: State, step: Step)
    requires WellFormed(s) && Enabled(s, step)
    ensures Next(s, step).panicked
            <==> s.panicked || ((step.RegisterRecording? || step.RegisterLog?) && step.batch !in s.registry)
  {
    if step.Advance? { AdvancedFrame(s); }
  }

  /** A dropped arrival always finds its counter above zero. */
  lemma DropsNeverUnderflow(s: State, step: Step)
    requires Inv(s) && Enabled(s, step)
    ensures step.DropRecording? ==> s.progress[step.batch].recordings > 0
    ensures step.DropLog? ==> s.progress[step.batch].logs > 0
  {
    if step.DropRecording? || step.DropLog? { assert Counted(s, step.batch); }
  }

  // ----- What is settled stays settled -----

  /** Once its recording work is over, nothing adds to a batch: its candidate list is final. */
  lemma {:induction false} CandidatesAreFinal(s: State, steps: seq<Step>, b: BatchId)
    requires Inv(s) && Legal(s, steps)
    requires b in s.live && RecordingWorkOver(s, b)
    ensures var t := Run(s, steps);
            && b in t.live && RecordingWorkOver(t, b)
            && (b in t.registry ==> b in s.registry
                                    && OrderedCandidates(t.registry[b]) == OrderedCandidates(s.registry[b]))
            && s.reported <= t.reported
    decreases |steps|
  {
    if steps != [] {
      NextKeepsInv(s, steps[0]);
      NextKeepsCandidates(s, steps[0], b);
      CandidatesAreFinal(Next(s, steps[0]), steps[1..], b);
    }
  }

  /** A batch nothing can use any more: no live token, and no pending log among its logs. */
  ghost predicate Spent(s: State, b: BatchId, pending: seq<LogId>) {
    && b in s.live && !Live(s, b)
    && (b in s.registry ==> forall log :: log in s.registry[b].logs ==> log !in pending)
  }

  /** The steps of one call to `ready_logs`, from after it was made until it returns. */
  ghost predicate CallSteps(s: State, steps: seq<Step>)
    requires WellFormed(s)
    decreases |steps|
  {
    if s.phase.Idle? then steps == []
    else steps != [] && Enabled(s, steps[0]) && WellFormed(Next(s, steps[0])) && CallSteps(Next(s, steps[0]), steps[1..])
  }

  lemma {:induction false} CallStepsAreLegal(s: State, steps: seq<Step>)
    requires WellFormed(s) && CallSteps(s, steps)
    ensures Legal(s, steps) && Run(s, steps).phase.Idle?
    decreases |steps|
  {
    if !s.phase.Idle? {
      CallStepsAreLegal(Next(s, steps[0]), steps[1..]);
    }
  }

  /** How far the call under way has come with a spent batch: it is gone or still to be visited. */
  ghost predicate OnItsWayOut(s: State, b: BatchId)
    requires WellFormed(s)
  {
    && b in s.live && !Live(s, b)
    && (b in s.registry ==>
          match s.phase
          case Idle => false
          case ReadSubmitted(todo, pending) =>
            (forall log :: log in s.registry[b].logs ==> log !in pending) && (b in todo || s.registry[b].logs == [])
          case ReadRecordings(todo, pending) =>
            (forall log :: log in s.registry[b].logs ==> log !in pending)
            && (b in todo[1..] || s.registry[b].logs == [])
          case SweepSubmitted(todo) => s.registry[b].logs == [] && b in todo
          case SweepRecordings(todo) => s.registry[b].logs == [] && b in todo
          case SweepLogs(todo) => s.registry[b].logs == [] && b in todo)
  }

  lemma {:induction false} RetainedLogsArePending(logs: seq<LogId>, pending: seq<LogId>)
    ensures forall log :: log in RetainedLogs(logs, pending) <==> log in logs && log in pending
    ensures (forall log :: log in logs ==> log !in pending) ==> RetainedLogs(logs, pending) == []
  {
    if forall log :: log in logs ==> log !in pending {
      WithoutEverything(logs, Elements(logs) - Elements(pending));
    }
    forall log ensures log in RetainedLogs(logs, pending) <==> log in logs && log in pending {
      WithoutCounts(logs, Elements(logs) - Elements(pending), log);
      assert log in logs ==> log in Elements(logs);
    }
  }

  lemma SpentStaysOnItsWayOut(s: State, step: Step, b: BatchId)
    requires Inv(s) && Enabled(s, step) && !s.phase.Idle? && OnItsWayOut(s, b)
    ensures WellFormed(Next(s, step)) && OnItsWayOut(Next(s, step), b)
  {
    NextIsWellFormed(s, step);
    if step.Advance? {
      assert Counted(s, b);
      AdvanceMovesSpentOut(s, b);
    }
  }

  lemma AdvanceMovesSpentOut(s: State, b: BatchId)
    requires Inv(s) && !s.phase.Idle? && OnItsWayOut(s, b) && Counted(s, b)
    ensures WellFormed(Advanced(s)) && OnItsWayOut(Advanced(s), b)
  {
    NextIsWellFormed(s, Advance);
    if s.phase.ReadSubmitted? && s.phase.todo != [] {
      ReadMovesSpentOn(s, b);
    } else if s.phase.todo == [] {
      AllIdsAreVisited(s);
    } else {
      SweepMovesSpentOut(s, b);
    }
  }

  lemma SweepMovesSpentOut(s: State, b: BatchId)
    requires WellFormed(s) && !s.phase.Idle? && !s.phase.ReadSubmitted? && s.phase.todo != []
    requires OnItsWayOut(s, b) && b in s.progress && b in s.minted && Counted(s, b)
    ensures WellFormed(Advanced(s)) && OnItsWayOut(Advanced(s), b)
  {
    NextIsWellFormed(s, Advance);
    AdvancedFrame(s);
    assert s.phase.todo == [s.phase.todo[0]] + s.phase.todo[1..];
  }

  lemma ReadMovesSpentOn(s: State, b: BatchId)
    requires Inv(s) && s.phase.ReadSubmitted? && s.phase.todo != [] && OnItsWayOut(s, b) && Counted(s, b)
    ensures WellFormed(Advanced(s)) && OnItsWayOut(Advanced(s), b)
  {
    NextIsWellFormed(s, Advance);
    var todo := s.phase.todo;
    assert todo == [todo[0]] + todo[1..];
    RetainedLogsArePending(s.registry[todo[0]].logs, s.phase.pending);
  }

  /** Under any interleaving, the next call to `ready_logs` removes a spent batch. */
  lemma NextCallRemovesSpentBatches(s: State, pending: seq<LogId>, steps: seq<Step>, b: BatchId)
    requires Inv(s) && s.phase.Idle? && Spent(s, b, pending)
    requires WellFormed(Next(s, CallReadyLogs(pending))) && CallSteps(Next(s, CallReadyLogs(pending)), steps)
    ensures Legal(Next(s, CallReadyLogs(pending)), steps)
    ensures b !in Run(Next(s, CallReadyLogs(pending)), steps).registry
  {
    var called := Next(s, CallReadyLogs(pending));
    AllIdsAreVisited(s);
    NextKeepsInv(s, CallReadyLogs(pending));
    CallStepsAreLegal(called, steps);
    CallMovesSpentOut(called, steps, b);
  }

  lemma {:induction false} CallMovesSpentOut(s: State, steps: seq<Step>, b: BatchId)
    requires Inv(s) && CallSteps(s, steps) && OnItsWayOut(s, b)
    ensures Legal(s, steps) && b !in Run(s, steps).registry
    decreases |steps|
  {
    CallStepsAreLegal(s, steps);
    if !s.phase.Idle? {
      NextKeepsInv(s, steps[0]);
      SpentStaysOnItsWayOut(s, steps[0], b);
      CallMovesSpentOut(Next(s, steps[0]), steps[1..], b);
    }
  }

  /** Nothing else is ever removed: the one step that removes a batch finds it spent. */
  lemma OnlySpentBatchesAreRemoved(s: State, step: Step, b: BatchId)
    requires Inv(s) && Enabled(s, step)
    requires b in s.registry && b !in Next(s, step).registry
    ensures b in s.live && !Live(s, b) && s.registry[b].logs == []
  {
    assert b in s.registry.Keys && Counted(s, b);
    if step.Advance? {
      AdvancedFrame(s);
      assert b !in Advanced(s).registry.Keys;
    } else {
      OnlyAdvanceRemoves(s, step);
    }
  }

  /** A log of a batch without recording work is reported already, or the call under way comes to it. */
  ghost predicate OnItsWayIn(s: State, log: LogId, r: Ready)
    requires WellFormed(s)
  {
    r in s.reported ||
    (&& (s.phase.ReadSubmitted? || s.phase.ReadRecordings?)
     && r.batch in s.phase.todo && log in s.phase.pending
     && r.batch in s.registry && RecordingWorkOver(s, r.batch) && log in s.registry[r.batch].logs
     && r == Ready(r.batch, log, OrderedCandidates(s.registry[r.batch])))
  }

  lemma ReportStaysOnItsWayIn(s: State, step: Step, log: LogId, r: Ready)
    requires Inv(s) && Enabled(s, step) && !s.phase.Idle? && OnItsWayIn(s, log, r)
    ensures WellFormed(Next(s, step)) && OnItsWayIn(Next(s, step), log, r)
  {
    NextIsWellFormed(s, step);
    if r !in s.reported {
      NextKeepsCandidates(s, step, r.batch);
      assert Counted(s, r.batch);
      if step.Advance? && s.phase.todo != [] {
        AdvanceBringsReportIn(s, log, r);
      }
    }
  }

  lemma AdvanceBringsReportIn(s: State, log: LogId, r: Ready)
    requires Inv(s) && !s.phase.Idle? && s.phase.todo != [] && OnItsWayIn(s, log, r) && r !in s.reported
    requires Counted(s, r.batch)
    ensures WellFormed(Advanced(s)) && OnItsWayIn(Advanced(s), log, r)
  {
    NextIsWellFormed(s, Advance);
    var todo := s.phase.todo;
    assert todo == [todo[0]] + todo[1..];
    if s.phase.ReadSubmitted? {
      RetainedLogsArePending(s.registry[todo[0]].logs, s.phase.pending);
    } else {
      ReadyOfExactly(todo[0], s.registry[todo[0]].logs, OrderedCandidates(s.registry[todo[0]]), s.phase.pending);
    }
  }

  lemma {:induction false} CallBringsReportIn(s: State, steps: seq<Step>, log: LogId, r: Ready)
    requires Inv(s) && CallSteps(s, steps) && OnItsWayIn(s, log, r)
    ensures Legal(s, steps) && r in Run(s, steps).reported
    decreases |steps|
  {
    CallStepsAreLegal(s, steps);
    if !s.phase.Idle? {
      NextKeepsInv(s, steps[0]);
      ReportStaysOnItsWayIn(s, steps[0], log, r);
      CallBringsReportIn(Next(s, steps[0]), steps[1..], log, r);
    }
  }

  /** Under any interleaving, the next call reports every pending log of a batch without recording work. */
  lemma NextCallReportsCompletedBatches(s: State, pending: seq<LogId>, steps: seq<Step>, b: BatchId, log: LogId)
    requires Inv(s) && s.phase.Idle?
    requires b in s.registry && RecordingWorkOver(s, b) && log in pending && log in s.registry[b].logs
    requires WellFormed(Next(s, CallReadyLogs(pending))) && CallSteps(Next(s, CallReadyLogs(pending)), steps)
    ensures Legal(Next(s, CallReadyLogs(pending)), steps)
    ensures Ready(b, log, OrderedCandidates(s.registry[b])) in Run(Next(s, CallReadyLogs(pending)), steps).reported
  {
    AllIdsAreVisited(s);
    NextKeepsInv(s, CallReadyLogs(pending));
    CallBringsReportIn(Next(s, CallReadyLogs(pending)), steps, log,
                       Ready(b, log, OrderedCandidates(s.registry[b])));
  }

  /** How many of its own accesses the call under way makes at most before it returns. */
  function AccessesLeft(s: State): nat {
    match s.phase
    case Idle => 0
    case ReadSubmitted(todo, _) => 3 * s.nextId + 3 + 2 * |todo|
    case ReadRecordings(todo, _) => 3 * s.nextId + 2 + 2 * |todo|
    case SweepSubmitted(todo) => 1 + 3 * |todo|
    case SweepRecordings(todo) => 3 * |todo|
    case SweepLogs(todo) => if todo == [] then 0 else 3 * |todo| - 1
  }

  /** The call returns after boundedly many of its own accesses, whatever the other threads do between them. */
  lemma CallsReturn(s: State, step: Step)
    requires WellFormed(s) && !s.phase.Idle? && Enabled(s, step)
    ensures if step.Advance? then AccessesLeft(Next(s, step)) < AccessesLeft(s)
            else AccessesLeft(Next(s, step)) == AccessesLeft(s)
  {
    if step.Advance? {
      AdvancesToReturn(s);
    }
  }

  lemma AdvancesToReturn(s: State)
    requires WellFormed(s) && !s.phase.Idle?
    ensures AccessesLeft(Advanced(s)) < AccessesLeft(s)
  {
    FewerIdsThanHandedOut(s.registry, s.nextId);
  }

  lemma {:induction false} FewerIdsThanHandedOut(registry: map<BatchId, BatchState>, n: nat)
    ensures |Ids(registry, n)| <= n
  {
    if n > 0 {
      FewerIdsThanHandedOut(registry, n - 1);
    }
  }
}
