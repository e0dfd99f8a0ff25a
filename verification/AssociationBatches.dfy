/**
 The protocol that releases loaded logs once the recordings that arrived with them are loaded.

 A submission mints arrival tokens, which other threads drop when they are done. The shared counters
 are atomics, so the protocol is a state machine whose steps are the single atomic accesses: a token
 can be dropped between any two reads of `ready_logs`. `AssociationBatches` is the object whose
 fields the steps change. What every interleaving keeps is in module AssociationBatchesProperties.
 */
module AssociationBatchesProtocol {
  import opened Common
  import opened StableSort

  type BatchId = nat
  type FileId = nat
  type LogId = nat

  datatype Arrival = Arrival(recording: FileId, ordinal: nat)

  /** The registry's part of a batch. */
  datatype BatchState = BatchState(initial: seq<FileId>, arrivals: seq<Arrival>, logs: seq<LogId>)

  /** The counters a batch shares with its tokens. */
  datatype BatchProgress = BatchProgress(recordings: int, logs: int, submitted: bool)

  /** The tokens of a batch that were minted and not dropped yet. */
  datatype LiveTokens = LiveTokens(submission: bool, recordings: set<nat>, logs: set<nat>)

  /** How many tokens of each kind a submission minted. */
  datatype Minted = Minted(recordings: nat, logs: nat)

  /** Where the call to `ready_logs` stands: which batches it still has to come to, and what it read. */
  datatype Phase =
    | Idle
    | ReadSubmitted(todo: seq<BatchId>, pending: seq<LogId>)
    | ReadRecordings(todo: seq<BatchId>, pending: seq<LogId>)
    | SweepSubmitted(todo: seq<BatchId>)
    | SweepRecordings(todo: seq<BatchId>)
    | SweepLogs(todo: seq<BatchId>)

  /** One log `ready_logs` reported, with the batch and the candidate list it reported it for. */
  datatype Ready = Ready(batch: BatchId, log: LogId, candidates: seq<FileId>)

  datatype State = State(
    registry: map<BatchId, BatchState>,
    nextId: BatchId,
    progress: map<BatchId, BatchProgress>,
    live: map<BatchId, LiveTokens>,
    minted: map<BatchId, Minted>,
    phase: Phase,
    reported: seq<Ready>,
    panicked: bool)

  const INITIAL := State(map[], 0, map[], map[], map[], Idle, [], false)

  // ----- The candidate list -----

  predicate NoLater(a: Arrival, b: Arrival) {
    a.ordinal <= b.ordinal
  }

  /** The arrivals in the order their tokens were minted. */
  function ByOrdinal(arrivals: seq<Arrival>): seq<Arrival> {
    Sorted(arrivals, NoLater)
  }

  /** `candidates`, extended by the recordings of `arrivals` it does not hold yet. */
  function Extended(candidates: seq<FileId>, arrivals: seq<Arrival>): seq<FileId>
    decreases |arrivals|
  {
    if arrivals == [] then candidates
    else if arrivals[0].recording in candidates then Extended(candidates, arrivals[1..])
    else Extended(candidates + [arrivals[0].recording], arrivals[1..])
  }

  function OrderedCandidates(batch: BatchState): seq<FileId> {
    Extended(batch.initial, ByOrdinal(batch.arrivals))
  }

  /** The loop that extends the initial candidates. The sort before it is the standard library's. */
  method CollectCandidates(batch: BatchState) returns (candidates: seq<FileId>)
    ensures candidates == OrderedCandidates(batch)
  {
    var arrivals := ByOrdinal(batch.arrivals);
    candidates := batch.initial;
    assert arrivals[0..] == arrivals;
    for i := 0 to |arrivals|
      invariant Extended(candidates, arrivals[i..]) == OrderedCandidates(batch)
    {
      assert arrivals[i..][0] == arrivals[i] && arrivals[i..][1..] == arrivals[i + 1..];
      if arrivals[i].recording !in candidates {
        candidates := candidates + [arrivals[i].recording];
      }
    }
  }

  // ----- The steps -----

  /** The ids of `registry` below `n`, ascending: the order a `BTreeMap` is visited in. */
  function Ids(registry: map<BatchId, BatchState>, n: nat): seq<BatchId> {
    if n == 0 then [] else Ids(registry, n - 1) + if n - 1 in registry then [n - 1] else []
  }

  function RetainedLogs(logs: seq<LogId>, pending: seq<LogId>): seq<LogId> {
    Without(logs, Elements(logs) - Elements(pending))
  }

  /** The reports of a batch that holds `logs`: one for each of them, in the order of `pending`. */
  function ReadyOf(id: BatchId, logs: seq<LogId>, candidates: seq<FileId>, pending: seq<LogId>): seq<Ready> {
    if pending == [] then []
    else (if pending[0] in logs then [Ready(id, pending[0], candidates)] else [])
         + ReadyOf(id, logs, candidates, pending[1..])
  }

  datatype Step =
    | BeginSubmission(candidates: seq<FileId>)
    | MintRecording(batch: BatchId)
    | MintLog(batch: BatchId)
    | DropSubmission(batch: BatchId)
    | DropRecording(batch: BatchId, token: nat)
    | DropLog(batch: BatchId, token: nat)
    | RegisterRecording(batch: BatchId, token: nat, recording: FileId)
    | RegisterLog(batch: BatchId, token: nat, log: LogId)
    | CallReadyLogs(pending: seq<LogId>)
    | Advance

  /**
   A token is used by whoever holds it, at any time. The registry is borrowed mutably for a whole
   call to `ready_logs`, so what changes it waits until the call returned.
   */
  predicate Enabled(s: State, step: Step) {
    match step
    case BeginSubmission(_) => s.phase.Idle?
    case MintRecording(b) => b in s.live && s.live[b].submission
    case MintLog(b) => b in s.live && s.live[b].submission
    case DropSubmission(b) => b in s.live && s.live[b].submission
    case DropRecording(b, token) => b in s.live && token in s.live[b].recordings
    case DropLog(b, token) => b in s.live && token in s.live[b].logs
    case RegisterRecording(b, token, _) => s.phase.Idle? && b in s.live && token in s.live[b].recordings
    case RegisterLog(b, token, _) => s.phase.Idle? && b in s.live && token in s.live[b].logs
    case CallReadyLogs(_) => s.phase.Idle?
    case Advance => !s.phase.Idle?
  }

  /** Ids are handed out in order, and only what was handed out has counters and tokens. */
  ghost predicate Known(s: State) {
    && s.progress.Keys == s.live.Keys == s.minted.Keys
    && (forall b: BatchId :: b in s.live <==> b < s.nextId)
    && s.registry.Keys <= s.live.Keys
  }

  /** `todo` goes through batches of `registry`, ascending. */
  ghost predicate Visits(todo: seq<BatchId>, registry: map<BatchId, BatchState>) {
    && (forall i :: 0 <= i < |todo| ==> todo[i] in registry)
    && (forall i, j :: 0 <= i < j < |todo| ==> todo[i] < todo[j])
  }

  /** What the call to `ready_logs` still has to come to is in the registry, each batch once. */
  ghost predicate Pointed(s: State) {
    !s.phase.Idle? ==>
      && Visits(s.phase.todo, s.registry)
      && (s.phase.ReadRecordings? || s.phase.SweepRecordings? || s.phase.SweepLogs? ==> s.phase.todo != [])
  }

  ghost predicate WellFormed(s: State) {
    Known(s) && Pointed(s)
  }

  function Next(s: State, step: Step): State
    requires WellFormed(s) && Enabled(s, step)
  {
    match step
    case BeginSubmission(candidates) =>
      s.(registry := s.registry[s.nextId := BatchState(candidates, [], [])],
         progress := s.progress[s.nextId := BatchProgress(0, 0, false)],
         live := s.live[s.nextId := LiveTokens(true, {}, {})],
         minted := s.minted[s.nextId := Minted(0, 0)],
         nextId := s.nextId + 1)
    case MintRecording(b) =>
      var ordinal := s.minted[b].recordings;
      s.(progress := s.progress[b := s.progress[b].(recordings := s.progress[b].recordings + 1)],
         live := s.live[b := s.live[b].(recordings := s.live[b].recordings + {ordinal})],
         minted := s.minted[b := s.minted[b].(recordings := ordinal + 1)])
    case MintLog(b) =>
      var token := s.minted[b].logs;
      s.(progress := s.progress[b := s.progress[b].(logs := s.progress[b].logs + 1)],
         live := s.live[b := s.live[b].(logs := s.live[b].logs + {token})],
         minted := s.minted[b := s.minted[b].(logs := token + 1)])
    case DropSubmission(b) =>
      s.(progress := s.progress[b := s.progress[b].(submitted := true)],
         live := s.live[b := s.live[b].(submission := false)])
    case DropRecording(b, token) =>
      s.(progress := s.progress[b := s.progress[b].(recordings := s.progress[b].recordings - 1)],
         live := s.live[b := s.live[b].(recordings := s.live[b].recordings - {token})])
    case DropLog(b, token) =>
      s.(progress := s.progress[b := s.progress[b].(logs := s.progress[b].logs - 1)],
         live := s.live[b := s.live[b].(logs := s.live[b].logs - {token})])
    case RegisterRecording(b, token, recording) =>
      if b !in s.registry then s.(panicked := true)
      else
        var batch := s.registry[b];
        s.(registry := s.registry[b := batch.(arrivals := batch.arrivals + [Arrival(recording, token)])])
    case RegisterLog(b, token, log) =>
      if b !in s.registry then s.(panicked := true)
      else
        var batch := s.registry[b];
        if log in batch.logs then s
        else s.(registry := s.registry[b := batch.(logs := batch.logs + [log])])
    case CallReadyLogs(pending) => s.(phase := ReadSubmitted(Ids(s.registry, s.nextId), pending))
    case Advance => Advanced(s)
  }

  /** The next access of the call to `ready_logs` that is under way. */
  function Advanced(s: State): State
    requires WellFormed(s) && !s.phase.Idle?
  {
    match s.phase
    case ReadSubmitted(todo, pending) =>
      if todo == [] then s.(phase := SweepSubmitted(Ids(s.registry, s.nextId)))
      else
        var b := todo[0];
        var batch := s.registry[b].(logs := RetainedLogs(s.registry[b].logs, pending));
        s.(registry := s.registry[b := batch],
           phase := if s.progress[b].submitted then ReadRecordings(todo, pending)
                    else ReadSubmitted(todo[1..], pending))
    case ReadRecordings(todo, pending) =>
      var b := todo[0];
      var batch := s.registry[b];
      var ready := if s.progress[b].recordings != 0 then []
                   else ReadyOf(b, batch.logs, OrderedCandidates(batch), pending);
      s.(reported := s.reported + ready, phase := ReadSubmitted(todo[1..], pending))
    case SweepSubmitted(todo) =>
      if todo == [] then s.(phase := Idle)
      else if !s.progress[todo[0]].submitted || s.registry[todo[0]].logs != [] then
        s.(phase := SweepSubmitted(todo[1..]))
      else s.(phase := SweepRecordings(todo))
    case SweepRecordings(todo) =>
      if s.progress[todo[0]].recordings > 0 then s.(phase := SweepSubmitted(todo[1..]))
      else s.(phase := SweepLogs(todo))
    case SweepLogs(todo) =>
      if s.progress[todo[0]].logs > 0 then s.(phase := SweepSubmitted(todo[1..]))
      else s.(registry := s.registry - {todo[0]}, phase := SweepSubmitted(todo[1..]))
  }

  /** The ids to visit are those of the registry, ascending. */
  lemma {:induction false} IdsAreTheRegistry(registry: map<BatchId, BatchState>, n: nat)
    ensures forall b :: b in Ids(registry, n) <==> b in registry && b < n
    ensures forall i, j :: 0 <= i < j < |Ids(registry, n)| ==> Ids(registry, n)[i] < Ids(registry, n)[j]
  {
    if n > 0 {
      IdsAreTheRegistry(registry, n - 1);
      var front := Ids(registry, n - 1);
      forall i | 0 <= i < |front| ensures front[i] < n - 1 { assert front[i] in front; }
    }
  }

  lemma NextIsWellFormed(s: State, step: Step)
    requires WellFormed(s) && Enabled(s, step)
    ensures WellFormed(Next(s, step))
  {
    NextIsKnown(s, step);
    if step.Advance? {
      AdvancedIsPointed(s);
    } else if step.CallReadyLogs? {
      AllIdsAreVisited(s);
    } else if !s.phase.Idle? {
      VisitsMore(s.phase.todo, s.registry, Next(s, step).registry);
    }
  }

  /** A call to `ready_logs` changes no counter and no token, and takes at most the batch it is at. */
  lemma AdvancedFrame(s: State)
    requires WellFormed(s) && !s.phase.Idle?
    ensures var t := Advanced(s);
            && t.live == s.live && t.progress == s.progress && t.minted == s.minted
            && t.nextId == s.nextId && t.panicked == s.panicked
            && (t.registry.Keys == s.registry.Keys
                || (s.phase.SweepLogs? && s.progress[s.phase.todo[0]].logs <= 0
                    && t.registry.Keys == s.registry.Keys - {s.phase.todo[0]}))
  {
    if s.phase.todo != [] { assert s.phase.todo[0] in s.registry; }
  }

  lemma NextIsKnown(s: State, step: Step)
    requires WellFormed(s) && Enabled(s, step)
    ensures Known(Next(s, step))
  {
    if step.Advance? {
      AdvancedFrame(s);
    } else if step.BeginSubmission? {
      assert Next(s, step).live.Keys == s.live.Keys + {s.nextId};
    } else {
      assert Next(s, step).live.Keys == s.live.Keys;
    }
  }

  lemma AllIdsAreVisited(s: State)
    requires Known(s)
    ensures Visits(Ids(s.registry, s.nextId), s.registry)
    ensures forall b :: b in s.registry ==> b in Ids(s.registry, s.nextId)
  {
    IdsAreTheRegistry(s.registry, s.nextId);
    var todo := Ids(s.registry, s.nextId);
    forall i | 0 <= i < |todo| ensures todo[i] in s.registry { assert todo[i] in todo; }
  }

  lemma VisitsMore(todo: seq<BatchId>, registry: map<BatchId, BatchState>, more: map<BatchId, BatchState>)
    requires Visits(todo, registry) && registry.Keys <= more.Keys
    ensures Visits(todo, more)
  {}

  lemma VisitsRest(todo: seq<BatchId>, registry: map<BatchId, BatchState>)
    requires Visits(todo, registry) && todo != []
    ensures todo[0] in registry
    ensures Visits(todo[1..], registry) && Visits(todo[1..], registry - {todo[0]})
  {
    var rest := todo[1..];
    forall i | 0 <= i < |rest| ensures rest[i] in registry && rest[i] != todo[0] {
      assert rest[i] == todo[i + 1];
    }
    forall i, j | 0 <= i < j < |rest| ensures rest[i] < rest[j] {
      assert rest[i] == todo[i + 1] && rest[j] == todo[j + 1];
    }
  }

  lemma AdvancedIsPointed(s: State)
    requires WellFormed(s) && !s.phase.Idle?
    ensures Pointed(Advanced(s))
  {
    if s.phase.todo == [] {
      AllIdsAreVisited(s);
    } else {
      VisitsRest(s.phase.todo, s.registry);
      if s.phase.ReadSubmitted? {
        VisitsMore(s.phase.todo, s.registry, Advanced(s).registry);
        VisitsMore(s.phase.todo[1..], s.registry, Advanced(s).registry);
      }
    }
  }
}
