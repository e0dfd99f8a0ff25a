/**
 The registry object of the association batches. Every method but `ReadyLogs` is one step of the
 protocol. `ReadyLogs` is the call as the registry runs it, and is proved to do what the protocol's
 accesses do when no token is used between them.
 */
module AssociationRegistry {
  import opened Common
  import opened AssociationBatchesProtocol
  import opened AssociationBatchesProperties

  /** Where the call under way ends when no other thread comes in between. */
  ghost function Uninterrupted(s: State): (t: State)
    requires WellFormed(s)
    ensures WellFormed(t) && t.phase.Idle?
    decreases AccessesLeft(s)
  {
    if s.phase.Idle? then s
    else
      NextIsWellFormed(s, Advance);
      CallsReturn(s, Advance);
      Uninterrupted(Advanced(s))
  }

  lemma AccessKeepsOutcome(s: State)
    requires WellFormed(s) && !s.phase.Idle?
    ensures WellFormed(Advanced(s)) && Uninterrupted(Advanced(s)) == Uninterrupted(s)
    ensures Advanced(s).phase.Idle? ==> Uninterrupted(s) == Advanced(s)
  {
    NextIsWellFormed(s, Advance);
  }

  /** The reports of one batch, in the order of `pending`. */
  method ReportBatch(id: BatchId, batch: BatchState, pending: seq<LogId>) returns (ready: seq<Ready>)
    ensures ready == ReadyOf(id, batch.logs, OrderedCandidates(batch), pending)
  {
    ready := [];
    ghost var expected := ReadyOf(id, batch.logs, OrderedCandidates(batch), pending);
    assert pending[0..] == pending;
    for i := 0 to |pending|
      invariant ready + ReadyOf(id, batch.logs, OrderedCandidates(batch), pending[i..]) == expected
    {
      assert pending[i..][0] == pending[i] && pending[i..][1..] == pending[i + 1..];
      if pending[i] in batch.logs {
        var candidates := CollectCandidates(batch);
        Associative(ready, [Ready(id, pending[i], candidates)],
                    ReadyOf(id, batch.logs, candidates, pending[i + 1..]));
        ready := ready + [Ready(id, pending[i], candidates)];
      }
    }
  }

  class AssociationBatches {
    var registry: map<BatchId, BatchState>
    var nextId: BatchId
    var progress: map<BatchId, BatchProgress>
    var minted: map<BatchId, Minted>
    /** Set where a live arrival finds no batch, at which the program panics. */
    var panicked: bool
    ghost var live: map<BatchId, LiveTokens>
    ghost var phase: Phase
    ghost var reported: seq<Ready>

    ghost function Value(): State
      reads this
    {
      State(registry, nextId, progress, live, minted, phase, reported, panicked)
    }

    constructor ()
      ensures Value() == INITIAL
    {
      registry, nextId, progress, minted, panicked := map[], 0, map[], map[], false;
      live, phase, reported := map[], Idle, [];
    }

    method BeginSubmission(candidates: seq<FileId>) returns (id: BatchId)
      requires WellFormed(Value()) && Enabled(Value(), Step.BeginSubmission(candidates))
      modifies this
      ensures WellFormed(Value()) && Value() == Next(old(Value()), Step.BeginSubmission(candidates))
      ensures id == old(nextId)
    {
      NextIsWellFormed(Value(), Step.BeginSubmission(candidates));
      id := nextId;
      registry := registry[id := BatchState(candidates, [], [])];
      progress := progress[id := BatchProgress(0, 0, false)];
      minted := minted[id := Minted(0, 0)];
      live := live[id := LiveTokens(true, {}, {})];
      nextId := nextId + 1;
    }

    method Recording(id: BatchId) returns (token: nat)
      requires WellFormed(Value()) && Enabled(Value(), MintRecording(id))
      modifies this
      ensures WellFormed(Value()) && Value() == Next(old(Value()), MintRecording(id))
      ensures token == old(minted[id].recordings)
    {
      NextIsWellFormed(Value(), MintRecording(id));
      progress := progress[id := progress[id].(recordings := progress[id].recordings + 1)];
      token := minted[id].recordings;
      minted := minted[id := minted[id].(recordings := token + 1)];
      live := live[id := live[id].(recordings := live[id].recordings + {token})];
    }

    method Log(id: BatchId) returns (token: nat)
      requires WellFormed(Value()) && Enabled(Value(), MintLog(id))
      modifies this
      ensures WellFormed(Value()) && Value() == Next(old(Value()), MintLog(id))
      ensures token == old(minted[id].logs)
    {
      NextIsWellFormed(Value(), MintLog(id));
      progress := progress[id := progress[id].(logs := progress[id].logs + 1)];
      token := minted[id].logs;
      minted := minted[id := minted[id].(logs := token + 1)];
      live := live[id := live[id].(logs := live[id].logs + {token})];
    }

    method DropSubmission(id: BatchId)
      requires WellFormed(Value()) && Enabled(Value(), Step.DropSubmission(id))
      modifies this
      ensures WellFormed(Value()) && Value() == Next(old(Value()), Step.DropSubmission(id))
    {
      NextIsWellFormed(Value(), Step.DropSubmission(id));
      progress := progress[id := progress[id].(submitted := true)];
      live := live[id := live[id].(submission := false)];
    }

    method DropRecording(id: BatchId, ghost token: nat)
      requires WellFormed(Value()) && Enabled(Value(), Step.DropRecording(id, token))
      modifies this
      ensures WellFormed(Value()) && Value() == Next(old(Value()), Step.DropRecording(id, token))
    {
      NextIsWellFormed(Value(), Step.DropRecording(id, token));
      progress := progress[id := progress[id].(recordings := progress[id].recordings - 1)];
      live := live[id := live[id].(recordings := live[id].recordings - {token})];
    }

    method DropLog(id: BatchId, ghost token: nat)
      requires WellFormed(Value()) && Enabled(Value(), Step.DropLog(id, token))
      modifies this
      ensures WellFormed(Value()) && Value() == Next(old(Value()), Step.DropLog(id, token))
    {
      NextIsWellFormed(Value(), Step.DropLog(id, token));
      progress := progress[id := progress[id].(logs := progress[id].logs - 1)];
      live := live[id := live[id].(logs := live[id].logs - {token})];
    }

    method RegisterRecording(id: BatchId, token: nat, recording: FileId)
      requires WellFormed(Value()) && Enabled(Value(), Step.RegisterRecording(id, token, recording))
      modifies this
      ensures WellFormed(Value()) && Value() == Next(old(Value()), Step.RegisterRecording(id, token, recording))
    {
      NextIsWellFormed(Value(), Step.RegisterRecording(id, token, recording));
      if id !in registry {
        panicked := true;
        return;
      }
      registry := registry[id := registry[id].(arrivals := registry[id].arrivals + [Arrival(recording, token)])];
    }

    method RegisterLog(id: BatchId, token: nat, log: LogId)
      requires WellFormed(Value()) && Enabled(Value(), Step.RegisterLog(id, token, log))
      modifies this
      ensures WellFormed(Value()) && Value() == Next(old(Value()), Step.RegisterLog(id, token, log))
    {
      NextIsWellFormed(Value(), Step.RegisterLog(id, token, log));
      if id !in registry {
        panicked := true;
      } else if log !in registry[id].logs {
        registry := registry[id := registry[id].(logs := registry[id].logs + [log])];
      }
    }

    method ReadyLogs(pending: seq<LogId>) returns (ready: seq<Ready>)
      requires WellFormed(Value()) && phase.Idle?
      modifies this
      ensures WellFormed(Next(old(Value()), CallReadyLogs(pending)))
      ensures Value() == Uninterrupted(Next(old(Value()), CallReadyLogs(pending)))
      ensures reported == old(reported) + ready
    {
      NextIsWellFormed(Value(), CallReadyLogs(pending));
      ghost var called := Next(Value(), CallReadyLogs(pending));
      phase := called.phase;
      ready := VisitEveryBatch(Ids(registry, nextId), pending);
      StartSweep(pending);
      SweepEveryBatch(Ids(registry, nextId));
      EndSweep();
    }

    /** The reporting loop. */
    method VisitEveryBatch(ids: seq<BatchId>, pending: seq<LogId>) returns (ready: seq<Ready>)
      requires WellFormed(Value()) && phase == ReadSubmitted(ids, pending)
      modifies this`registry, this`phase, this`reported
      ensures phase == ReadSubmitted([], pending) && WellFormed(Value())
      ensures Uninterrupted(Value()) == Uninterrupted(old(Value()))
      ensures reported == old(reported) + ready
    {
      ghost var outcome := Uninterrupted(Value());
      ready := [];
      assert ids[0..] == ids;
      for i := 0 to |ids|
        invariant WellFormed(Value())
        invariant phase == ReadSubmitted(ids[i..], pending)
        invariant Uninterrupted(Value()) == outcome
        invariant reported == old(reported) + ready
      {
        assert ids[i..][0] == ids[i] && ids[i..][1..] == ids[i + 1..];
        var more := VisitBatch(ids[i], ids[i..], pending, outcome);
        Associative(old(reported), ready, more);
        ready := ready + more;
      }
    }

    ghost method StartSweep(pending: seq<LogId>)
      requires WellFormed(Value()) && phase == ReadSubmitted([], pending)
      modifies this`phase
      ensures phase == SweepSubmitted(Ids(registry, nextId)) && WellFormed(Value())
      ensures Uninterrupted(Value()) == Uninterrupted(old(Value()))
    {
      AccessKeepsOutcome(Value());
      phase := SweepSubmitted(Ids(registry, nextId));
      assert Value() == Advanced(old(Value()));
    }

    ghost method EndSweep()
      requires WellFormed(Value()) && phase == SweepSubmitted([])
      modifies this`phase
      ensures phase.Idle? && Value() == Uninterrupted(old(Value()))
    {
      AccessKeepsOutcome(Value());
      phase := Idle;
      assert Value() == Advanced(old(Value()));
    }

    /** The loop that drops the batches nothing waits on. */
    method SweepEveryBatch(ids: seq<BatchId>)
      requires WellFormed(Value()) && phase == SweepSubmitted(ids)
      modifies this`registry, this`phase
      ensures phase == SweepSubmitted([]) && WellFormed(Value())
      ensures Uninterrupted(Value()) == Uninterrupted(old(Value()))
    {
      assert ids[0..] == ids;
      for i := 0 to |ids|
        invariant phase == SweepSubmitted(ids[i..]) && WellFormed(Value())
        invariant Uninterrupted(Value()) == Uninterrupted(old(Value()))
      {
        SweepBatch(ids[i], ids[i..]);
        assert ids[i..][1..] == ids[i + 1..];
      }
    }

    /** One turn of the reporting loop. */
    method VisitBatch(id: BatchId, ghost todo: seq<BatchId>, pending: seq<LogId>, ghost outcome: State)
      returns (ready: seq<Ready>)
      requires WellFormed(Value()) && phase == ReadSubmitted(todo, pending) && todo != [] && todo[0] == id
      requires Uninterrupted(Value()) == outcome
      modifies this`registry, this`phase, this`reported
      ensures phase == ReadSubmitted(todo[1..], pending) && WellFormed(Value())
      ensures Uninterrupted(Value()) == outcome
      ensures reported == old(reported) + ready
    {
      assert todo[0] in registry;
      ghost var before := Value();
      AccessKeepsOutcome(before);
      ready := [];
      registry := registry[id := registry[id].(logs := RetainedLogs(registry[id].logs, pending))];
      if !progress[id].submitted {
        phase := ReadSubmitted(todo[1..], pending);
        assert Value() == Advanced(before);
        return;
      }
      phase := ReadRecordings(todo, pending);
      assert Value() == Advanced(before);
      ghost var submitted := Value();
      AccessKeepsOutcome(submitted);
      if progress[id].recordings == 0 {
        ready := ReportBatch(id, registry[id], pending);
      }
      reported := reported + ready;
      phase := ReadSubmitted(todo[1..], pending);
      assert Value() == Advanced(submitted);
    }

    /** One turn of the sweep. */
    method SweepBatch(id: BatchId, ghost todo: seq<BatchId>)
      requires WellFormed(Value()) && phase == SweepSubmitted(todo) && todo != [] && todo[0] == id
      modifies this`registry, this`phase
      ensures phase == SweepSubmitted(todo[1..]) && WellFormed(Value())
      ensures Uninterrupted(Value()) == Uninterrupted(old(Value()))
    {
      assert todo[0] in registry;
      ghost var before := Value();
      AccessKeepsOutcome(before);
      if !progress[id].submitted || registry[id].logs != [] {
        phase := SweepSubmitted(todo[1..]);
        assert Value() == Advanced(before);
        return;
      }
      phase := SweepRecordings(todo);
      assert Value() == Advanced(before);
      ghost var submitted := Value();
      AccessKeepsOutcome(submitted);
      if progress[id].recordings > 0 {
        phase := SweepSubmitted(todo[1..]);
        assert Value() == Advanced(submitted);
        return;
      }
      phase := SweepLogs(todo);
      assert Value() == Advanced(submitted);
      ghost var over := Value();
      AccessKeepsOutcome(over);
      if progress[id].logs <= 0 {
        registry := registry - {id};
      }
      phase := SweepSubmitted(todo[1..]);
      assert Value() == Advanced(over);
    }
  }
}
