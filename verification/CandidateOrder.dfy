/** The candidate list of a batch does not depend on the order in which its recordings were loaded. */
module CandidateOrder {
  import opened Common
  import opened StableSort
  import opened AssociationBatchesProtocol
  import opened AssociationBatchesProperties

  /** An ordinal belongs to one arrival, as it does when every arrival is registered once. */
  ghost predicate OrdinalsDecide(arrivals: seq<Arrival>) {
    forall i, j :: 0 <= i < |arrivals| && 0 <= j < |arrivals| && arrivals[i].ordinal == arrivals[j].ordinal
                   ==> arrivals[i] == arrivals[j]
  }

  /** Recordings loaded in another order give the same list, when each arrival is registered once. */
  lemma CompletionOrderDoesNotMatter(initial: seq<FileId>, arrivals: seq<Arrival>, others: seq<Arrival>,
                                     logs: seq<LogId>)
    requires multiset(arrivals) == multiset(others) && OrdinalsDecide(arrivals)
    ensures OrderedCandidates(BatchState(initial, arrivals, logs))
         == OrderedCandidates(BatchState(initial, others, logs))
  {
    SortIsCanonical(arrivals, others, NoLater);
  }

  lemma PairCandidates(x: FileId, y: FileId)
    requires x != y
    ensures OrderedCandidates(BatchState([], [Arrival(x, 0), Arrival(y, 0)], [])) == [x, y]
  {
    var first, second := Arrival(x, 0), Arrival(y, 0);
    assert [first, second][..1] == [first] && [first][..0] == [];
    assert Sorted([first][..0], NoLater) == [];
    assert Sorted([first], NoLater) == Inserted(first, [], NoLater) == [first];
    assert Sorted([first, second], NoLater) == Inserted(second, [first], NoLater) == [first, second];
    assert [first, second][1..] == [second] && [second][1..] == [];
    assert [x] + [y] == [x, y] && [] + [x] == [x];
    assert Extended([x], [second]) == Extended([x, y], []) == [x, y];
    assert Extended([], [first, second]) == Extended([x], [second]);
  }

  /** An arrival registered for two recordings makes the list depend on which was registered first. */
  lemma TwoRegistrationsOfOneArrivalDepend(x: FileId, y: FileId)
    requires x != y
    ensures var registered, reversed := [Arrival(x, 0), Arrival(y, 0)], [Arrival(y, 0), Arrival(x, 0)];
            && multiset(registered) == multiset(reversed)
            && OrderedCandidates(BatchState([], registered, [])) != OrderedCandidates(BatchState([], reversed, []))
  {
    PairCandidates(x, y);
    PairCandidates(y, x);
    assert [x, y][0] != [y, x][0];
  }

  /** Some arrival of `x` was minted no later than every arrival of `y`. */
  ghost predicate ArrivedFirst(arrivals: seq<Arrival>, x: FileId, y: FileId) {
    exists a :: a in arrivals && a.recording == x && NoneBefore(arrivals, a, y)
  }

  ghost predicate NoneBefore(arrivals: seq<Arrival>, a: Arrival, y: FileId) {
    forall c :: c in arrivals && c.recording == y ==> a.ordinal <= c.ordinal
  }

  function Recordings(arrivals: seq<Arrival>): set<FileId> {
    set a | a in arrivals :: a.recording
  }

  lemma {:induction false} ExtendedHolds(candidates: seq<FileId>, arrivals: seq<Arrival>)
    ensures var r := Extended(candidates, arrivals);
            && candidates <= r
            && Elements(r) == Elements(candidates) + Recordings(arrivals)
            && (forall i, j :: 0 <= i < j < |r| && |candidates| <= j ==> r[i] != r[j])
    decreases |arrivals|
  {
    if arrivals != [] {
      var a, rest := arrivals[0], arrivals[1..];
      assert arrivals == [a] + rest;
      assert Recordings(arrivals) == {a.recording} + Recordings(rest);
      if a.recording in candidates {
        ExtendedHolds(candidates, rest);
        assert a.recording in Elements(candidates);
      } else {
        ExtendedHolds(candidates + [a.recording], rest);
        assert Elements(candidates + [a.recording]) == Elements(candidates) + {a.recording};
        assert candidates <= candidates + [a.recording] <= Extended(candidates, arrivals);
      }
    }
  }

  lemma {:induction false} ExtendedIsOrdered(candidates: seq<FileId>, arrivals: seq<Arrival>)
    requires Ordered(arrivals, NoLater)
    ensures var r := Extended(candidates, arrivals);
            forall i, j :: |candidates| <= i < j < |r| ==> ArrivedFirst(arrivals, r[i], r[j])
    decreases |arrivals|
  {
    if arrivals != [] {
      var a, rest := arrivals[0], arrivals[1..];
      var next := if a.recording in candidates then candidates else candidates + [a.recording];
      ExtendedIsOrdered(next, rest);
      ExtendedHolds(next, rest);
      var r := Extended(next, rest);
      forall i, j | |candidates| <= i < j < |r| ensures ArrivedFirst(arrivals, r[i], r[j]) {
        if i < |next| {
          assert r[i] == a.recording && NoneBefore(arrivals, a, r[j]);
        } else {
          assert r[j] != a.recording by {
            if a.recording in candidates {
              var k :| 0 <= k < |candidates| && candidates[k] == a.recording;
              assert r[k] == a.recording;
            } else {
              assert r[|candidates|] == a.recording;
            }
          }
          LaterStaysFirst(a, rest, r[i], r[j]);
        }
      }
    }
  }

  lemma LaterStaysFirst(a: Arrival, rest: seq<Arrival>, x: FileId, y: FileId)
    requires ArrivedFirst(rest, x, y) && a.recording != y
    ensures ArrivedFirst([a] + rest, x, y)
  {
    var first :| first in rest && first.recording == x && NoneBefore(rest, first, y);
    assert first in [a] + rest && NoneBefore([a] + rest, first, y);
  }

  /**
   The list is the initial candidates, then each recording that arrived and is not among them, once,
   in the order of the smallest ordinal it arrived under. None is missing.
   */
  lemma CandidateListExactly(batch: BatchState)
    ensures var r := OrderedCandidates(batch);
            && batch.initial <= r
            && Elements(r) == Elements(batch.initial) + Recordings(batch.arrivals)
            && (forall i, j :: 0 <= i < j < |r| && |batch.initial| <= j ==> r[i] != r[j])
            && (forall i, j :: |batch.initial| <= i < j < |r| ==> ArrivedFirst(batch.arrivals, r[i], r[j]))
  {
    var sorted := ByOrdinal(batch.arrivals);
    SortedIsAnOrderedPermutation(batch.arrivals, NoLater);
    ExtendedHolds(batch.initial, sorted);
    ExtendedIsOrdered(batch.initial, sorted);
    forall a ensures a in sorted <==> a in batch.arrivals {
      assert a in multiset(sorted) <==> a in multiset(batch.arrivals);
    }
    forall x, y | ArrivedFirst(sorted, x, y) ensures ArrivedFirst(batch.arrivals, x, y) {
      var first :| first in sorted && first.recording == x && NoneBefore(sorted, first, y);
      assert NoneBefore(batch.arrivals, first, y);
    }
  }

  // ----- The lists of whole runs -----

  /** The initial candidates of the submissions a run began, in order. */
  function Begun(steps: seq<Step>): seq<seq<FileId>> {
    if steps == [] then []
    else
      Begun(steps[..|steps| - 1])
      + match steps[|steps| - 1] case BeginSubmission(candidates) => [candidates] case _ => []
  }

  /** The arrivals `step` registers for `b`. */
  function RegisteredBy(step: Step, b: BatchId): seq<Arrival> {
    match step
    case RegisterRecording(at, token, recording) => if at == b then [Arrival(recording, token)] else []
    case _ => []
  }

  /** The arrivals a run registered for batch `b`, in order. */
  function Registered(steps: seq<Step>, b: BatchId): seq<Arrival> {
    if steps == [] then []
    else Registered(steps[..|steps| - 1], b) + RegisteredBy(steps[|steps| - 1], b)
  }

  /** Batch `b` as the submissions and registrations of a run make it. */
  function BatchOf(steps: seq<Step>, b: BatchId): BatchState
    requires b < |Begun(steps)|
  {
    BatchState(Begun(steps)[b], Registered(steps, b), [])
  }

  /**
   After `past`, a registered batch holds what the run registered for it, nothing was registered for a
   batch not begun yet, and every report carries the list of all that was registered for its batch.
   */
  ghost predicate Traced(s: State, past: seq<Step>) {
    BatchesTraced(s, past) && IdsTraced(s, past) && ReportsTraced(s, past)
  }

  ghost predicate BatchesTraced(s: State, past: seq<Step>) {
    forall b :: b in s.registry ==> b < |Begun(past)| && SameCandidates(BatchOf(past, b), s.registry[b])
  }

  ghost predicate IdsTraced(s: State, past: seq<Step>) {
    |Begun(past)| == s.nextId && forall b: BatchId :: b >= s.nextId ==> Registered(past, b) == []
  }

  ghost predicate ReportsTraced(s: State, past: seq<Step>) {
    forall i :: 0 <= i < |s.reported| ==> ReportTraced(past, s.reported[i])
  }

  /** The report carries the list of the candidates and arrivals its batch got in `past`. */
  ghost predicate ReportTraced(past: seq<Step>, r: Ready) {
    r.batch < |Begun(past)| && r.candidates == OrderedCandidates(BatchOf(past, r.batch))
  }

  lemma OneMoreStep(past: seq<Step>, step: Step, b: BatchId)
    ensures Begun(past + [step]) == Begun(past) + if step.BeginSubmission? then [step.candidates] else []
    ensures Registered(past + [step], b)
         == Registered(past, b) + RegisteredBy(step, b)
  {
    assert (past + [step])[..|past|] == past;
  }

  lemma NextKeepsTrace(s: State, past: seq<Step>, step: Step)
    requires Inv(s) && Enabled(s, step) && Traced(s, past)
    ensures Traced(Next(s, step), past + [step])
  {
    BatchesStayTraced(s, past, step);
    IdsStayTraced(s, past, step);
    ReportsStayTraced(s, past, step);
  }

  lemma BatchesStayTraced(s: State, past: seq<Step>, step: Step)
    requires Inv(s) && Enabled(s, step) && Traced(s, past)
    ensures BatchesTraced(Next(s, step), past + [step])
  {
    forall b | b in Next(s, step).registry
      ensures b < |Begun(past + [step])| && SameCandidates(BatchOf(past + [step], b), Next(s, step).registry[b])
    {
      BatchStaysTraced(s, past, step, b);
    }
  }

  lemma IdsStayTraced(s: State, past: seq<Step>, step: Step)
    requires WellFormed(s) && Enabled(s, step) && IdsTraced(s, past)
    ensures IdsTraced(Next(s, step), past + [step])
  {
    OneMoreStep(past, step, 0);
    if step.Advance? { AdvancedFrame(s); }
    forall b: BatchId | b >= Next(s, step).nextId ensures Registered(past + [step], b) == [] {
      OneMoreStep(past, step, b);
      assert step.RegisterRecording? ==> step.batch in s.live;
    }
  }

  lemma ReportsStayTraced(s: State, past: seq<Step>, step: Step)
    requires Inv(s) && Enabled(s, step) && Traced(s, past)
    ensures ReportsTraced(Next(s, step), past + [step])
  {
    KeepsReports(s, step);
    var reported := Next(s, step).reported;
    forall i | 0 <= i < |reported| ensures ReportTraced(past + [step], reported[i]) {
      if i < |s.reported| {
        assert reported[i] == s.reported[i];
        assert ReportHolds(s, s.reported[i]) && ReportTraced(past, s.reported[i]);
        OldReportStaysTraced(s, past, step, s.reported[i]);
      } else {
        NewReportIsTraced(s, past, step, i);
      }
    }
  }

  /** A registered batch was begun by this step or was registered before, and grows by what the step registers. */
  lemma BatchGrows(s: State, step: Step, b: BatchId)
    requires WellFormed(s) && Enabled(s, step) && b in Next(s, step).registry
    requires step.RegisterRecording? ==> step.batch in s.registry
    ensures var now := Next(s, step).registry[b];
            if step.BeginSubmission? && b == s.nextId then now.initial == step.candidates && now.arrivals == []
            else b in s.registry && now.initial == s.registry[b].initial
                 && now.arrivals == s.registry[b].arrivals + RegisteredBy(step, b)
  {
    if step.Advance? { AdvanceKeepsCandidates(s, b); }
  }

  lemma BatchStaysTraced(s: State, past: seq<Step>, step: Step, b: BatchId)
    requires Inv(s) && Enabled(s, step) && Traced(s, past) && b in Next(s, step).registry
    ensures b < |Begun(past + [step])|
    ensures SameCandidates(BatchOf(past + [step], b), Next(s, step).registry[b])
  {
    OneMoreStep(past, step, b);
    if step.RegisterRecording? { assert Live(s, step.batch); }
    BatchGrows(s, step, b);
    NextIsKnown(s, step);
    assert b in Next(s, step).registry.Keys && b in Next(s, step).live.Keys;
    if !(step.BeginSubmission? && b == s.nextId) {
      assert SameCandidates(BatchOf(past, b), s.registry[b]);
    }
  }

  lemma ListOfTheSame(batch: BatchState, other: BatchState)
    requires SameCandidates(batch, other)
    ensures OrderedCandidates(batch) == OrderedCandidates(other)
  {}

  /** A reported batch has no live recording arrival, so nothing is registered for it any more. */
  lemma OldReportStaysTraced(s: State, past: seq<Step>, step: Step, r: Ready)
    requires Inv(s) && Enabled(s, step) && ReportHolds(s, r) && ReportTraced(past, r)
    ensures ReportTraced(past + [step], r)
  {
    OneMoreStep(past, step, r.batch);
    assert Registered(past + [step], r.batch) == Registered(past, r.batch);
    ListOfTheSame(BatchOf(past, r.batch), BatchOf(past + [step], r.batch));
  }

  lemma NewReportIsTraced(s: State, past: seq<Step>, step: Step, i: nat)
    requires Inv(s) && Enabled(s, step) && Traced(s, past) && |s.reported| <= i < |Next(s, step).reported|
    ensures ReportTraced(past + [step], Next(s, step).reported[i])
  {
    KeepsReports(s, step);
    NewReportsHold(s);
    var b := s.phase.todo[0];
    OneMoreStep(past, step, b);
    assert Registered(past + [step], b) == Registered(past, b);
    assert SameCandidates(BatchOf(past, b), s.registry[b]);
    ListOfTheSame(BatchOf(past + [step], b), s.registry[b]);
  }

  lemma {:induction false} RunKeepsTrace(s: State, past: seq<Step>, steps: seq<Step>)
    requires Inv(s) && Traced(s, past) && Legal(s, steps)
    ensures Traced(Run(s, steps), past + steps)
    decreases |steps|
  {
    if steps == [] {
      assert past + steps == past;
    } else {
      NextKeepsInv(s, steps[0]);
      NextKeepsTrace(s, past, steps[0]);
      RunKeepsTrace(Next(s, steps[0]), past + [steps[0]], steps[1..]);
      assert past + [steps[0]] + steps[1..] == past + steps;
    }
  }

  /** Under any interleaving, a report carries the list of its batch's candidates and registered arrivals. */
  lemma ReportsAreTheRegistrations(steps: seq<Step>)
    requires Legal(INITIAL, steps)
    ensures forall r :: r in Run(INITIAL, steps).reported ==> ReportTraced(steps, r)
    ensures forall b :: b in Run(INITIAL, steps).registry
                        ==> b < |Begun(steps)| && Run(INITIAL, steps).registry[b].arrivals == Registered(steps, b)
  {
    InitialHolds();
    InitiallyTraced();
    RunKeepsTrace(INITIAL, [], steps);
    assert [] + steps == steps;
    TraceOfReports(Run(INITIAL, steps), steps);
  }

  lemma InitiallyTraced()
    ensures Traced(INITIAL, [])
  {
    assert INITIAL.registry.Keys == {} && INITIAL.reported == [];
  }

  lemma TraceOfReports(s: State, steps: seq<Step>)
    requires Traced(s, steps)
    ensures forall r :: r in s.reported ==> ReportTraced(steps, r)
    ensures forall b :: b in s.registry ==> b < |Begun(steps)| && s.registry[b].arrivals == Registered(steps, b)
  {
    forall r | r in s.reported ensures ReportTraced(steps, r) {
      var i := PlaceOf(s.reported, r);
      assert ReportTraced(steps, s.reported[i]);
    }
    forall b | b in s.registry ensures b < |Begun(steps)| && s.registry[b].arrivals == Registered(steps, b) {
      assert SameCandidates(BatchOf(steps, b), s.registry[b]);
    }
  }

  /** The run registers no recording arrival twice. */
  ghost predicate RegistersOnce(steps: seq<Step>) {
    forall i, j :: 0 <= i < j < |steps| && steps[i].RegisterRecording? && steps[j].RegisterRecording?
                   && steps[i].batch == steps[j].batch
                   ==> steps[i].token != steps[j].token
  }

  lemma {:induction false} RegisteredByAStep(steps: seq<Step>, b: BatchId, a: Arrival) returns (k: nat)
    requires a in Registered(steps, b)
    ensures k < |steps| && steps[k] == RegisterRecording(b, a.ordinal, a.recording)
  {
    var front, last := steps[..|steps| - 1], steps[|steps| - 1];
    if a in Registered(front, b) {
      k := RegisteredByAStep(front, b, a);
      assert steps[k] == front[k];
    } else {
      k := |front|;
    }
  }

  /** Where no arrival is registered twice, an ordinal belongs to one arrival. */
  lemma OrdinalsDecideInARun(steps: seq<Step>, b: BatchId)
    requires RegistersOnce(steps)
    ensures OrdinalsDecide(Registered(steps, b))
  {
    var arrivals := Registered(steps, b);
    forall i, j | 0 <= i < |arrivals| && 0 <= j < |arrivals| && arrivals[i].ordinal == arrivals[j].ordinal
      ensures arrivals[i] == arrivals[j]
    {
      var k := RegisteredByAStep(steps, b, arrivals[i]);
      var l := RegisteredByAStep(steps, b, arrivals[j]);
      assert steps[k].token == steps[l].token;
      assert k == l;
    }
  }

  /**
   Two runs that begin a batch with the same candidates and register the same arrivals for it, each
   once, report one list for it, in whatever order the recordings were loaded and however the threads
   were interleaved.
   */
  lemma RunsReportOneList(steps: seq<Step>, others: seq<Step>, r: Ready, q: Ready)
    requires Legal(INITIAL, steps) && Legal(INITIAL, others) && RegistersOnce(steps)
    requires r in Run(INITIAL, steps).reported && q in Run(INITIAL, others).reported && r.batch == q.batch
    requires r.batch < |Begun(steps)| && r.batch < |Begun(others)| ==> Begun(steps)[r.batch] == Begun(others)[r.batch]
    requires multiset(Registered(steps, r.batch)) == multiset(Registered(others, r.batch))
    ensures r.candidates == q.candidates
  {
    ReportsAreTheRegistrations(steps);
    ReportsAreTheRegistrations(others);
    OrdinalsDecideInARun(steps, r.batch);
    CompletionOrderDoesNotMatter(Begun(steps)[r.batch], Registered(steps, r.batch), Registered(others, r.batch), []);
  }
}
