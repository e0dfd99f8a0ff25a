/**
 The worker that owns the recordings database: requests go in on one channel, one response per
 request comes out on another, and the worker ends when either channel is closed.
 */
module HistoryWorker {
  import opened Common
  import opened TrackTable
  import opened TrackPurge
  import opened TrackPurgeProperties
  import opened ShelfSweep

  /** Whether a write may run: the session owns the database and the registry takes the write. */
  datatype Admission = Admitted(storage: Storage) | Rejected(rejection: WriteRejection)

  datatype WriteRequest =
    | SetTracksShelved(ref: Ref, rows: seq<nat>, shelved: bool)
    | DeleteTracks(ref: Ref, rows: seq<nat>)
    | DeleteShelvedTracks(scope: Scope)
    | DeleteRecordings(refs: seq<Ref>)

  datatype Request = Open(ref: Ref) | Write(write: WriteRequest)

  datatype DbOp =
    | TracksShelved(count: nat)
    | TracksUnshelved(count: nat, ref: Ref)
    | TracksDeleted(count: nat)
    | RecordingsDeleted(count: nat)

  datatype Response =
    | Opened(ref: Ref, recording: Option<Recording>)
    | Mutated(op: DbOp, result: Result<()>)
    | WriteRejected(write: WriteRequest, rejection: WriteRejection)

  /** A request with what the session and the storage layer made of it when it was run. */
  datatype Job = Job(request: Request, admission: Admission)

  /** The recordings of `refs` that a delete removed, all of them unless it was given up. */
  function Removed(refs: seq<Ref>, storage: Storage): seq<Ref> {
    match storage.givesUpAfter case None => refs case Some(n) => refs[..Min(n, |refs|)]
  }

  /** What an admitted write leaves of the database and reports. */
  ghost function WriteHandled(db: Db, write: WriteRequest, storage: Storage): (Db, Response) {
    match write
    case SetTracksShelved(ref, rows, shelved) =>
      var (after, result) := if ref in db then TrackPurge.TracksShelved(db, ref, rows, shelved, storage.verdict(ref))
                             else (db, Err(NotStored));
      (after, Mutated(if shelved then TracksShelved(|rows|) else TracksUnshelved(|rows|, ref), result))
    case DeleteTracks(ref, rows) =>
      var (after, result) := if ref in db then TrackPurge.TracksDeleted(db, ref, rows, storage.verdict(ref))
                             else (db, Err(NotStored));
      (after, Mutated(TracksDeleted(|rows|), result))
    case DeleteShelvedTracks(scope) =>
      var (after, result) := SweptScope(db, scope, storage);
      (after, match result
              case Ok(count) => Mutated(TracksDeleted(count), Ok(()))
              case Err(error) => Mutated(TracksDeleted(0), Err(error)))
    case DeleteRecordings(refs) =>
      (db - Elements(Removed(refs, storage)),
       Mutated(RecordingsDeleted(|refs|), if storage.givesUpAfter.Some? then Err(Backend) else Ok(())))
  }

  /** What one job leaves of the database and reports. A rejected write touches nothing. */
  ghost function Handled(db: Db, job: Job): (Db, Response) {
    match job.request
    case Open(ref) => (db, Opened(ref, if ref in db then Some(db[ref]) else None))
    case Write(write) =>
      match job.admission
      case Rejected(rejection) => (db, WriteRejected(write, rejection))
      case Admitted(storage) => WriteHandled(db, write, storage)
  }

  ghost function DbAfter(db: Db, jobs: seq<Job>): Db {
    if jobs == [] then db else Handled(DbAfter(db, jobs[..|jobs| - 1]), jobs[|jobs| - 1]).0
  }

  ghost function ResponsesTo(db: Db, jobs: seq<Job>): seq<Response> {
    if jobs == [] then []
    else ResponsesTo(db, jobs[..|jobs| - 1]) + [Handled(DbAfter(db, jobs[..|jobs| - 1]), jobs[|jobs| - 1]).1]
  }

  method HandleWriteRequest(db: Recordings, write: WriteRequest, storage: Storage) returns (response: Response)
    modifies db
    ensures (db.db, response) == WriteHandled(old(db.db), write, storage)
  {
    match write
    case SetTracksShelved(ref, rows, shelved) =>
      var result := db.SetTracksShelved(ref, rows, shelved, storage.verdict(ref));
      response := Mutated(if shelved then TracksShelved(|rows|) else TracksUnshelved(|rows|, ref), result);
    case DeleteTracks(ref, rows) =>
      var result := db.PurgeTracks(ref, rows, storage.verdict(ref));
      response := Mutated(TracksDeleted(|rows|), result);
    case DeleteShelvedTracks(scope) =>
      var result := db.PurgeShelvedTracks(scope, storage);
      match result {
        case Ok(count) => response := Mutated(TracksDeleted(count), Ok(()));
        case Err(error) => response := Mutated(TracksDeleted(0), Err(error));
      }
    case DeleteRecordings(refs) =>
      db.db := db.db - Elements(Removed(refs, storage));
      response := Mutated(RecordingsDeleted(|refs|), if storage.givesUpAfter.Some? then Err(Backend) else Ok(()));
  }

  /**
   The loop of the worker thread. `jobs` are the requests the channel delivers before it is closed,
   and the response receiver takes the first `taken` responses and is dropped then.
   */
  method WorkerLoop(db: Recordings, jobs: seq<Job>, taken: nat) returns (responses: seq<Response>, handled: nat)
    modifies db
    ensures handled == if taken < |jobs| then taken + 1 else |jobs|
    ensures db.db == DbAfter(old(db.db), jobs[..handled])
    ensures responses == ResponsesTo(old(db.db), jobs[..Min(taken, |jobs|)])
  {
    responses, handled := [], 0;
    while handled < |jobs|
      invariant handled <= |jobs| && handled <= taken && |responses| == handled
      invariant db.db == DbAfter(old(db.db), jobs[..handled])
      invariant responses == ResponsesTo(old(db.db), jobs[..handled])
    {
      var job := jobs[handled];
      assert jobs[..handled + 1][..handled] == jobs[..handled];
      var response;
      match job.request {
        case Open(ref) => response := Opened(ref, if ref in db.db then Some(db.db[ref]) else None);
        case Write(write) =>
          match job.admission {
            case Rejected(rejection) => response := WriteRejected(write, rejection);
            case Admitted(storage) => response := HandleWriteRequest(db, write, storage);
          }
      }
      handled := handled + 1;
      if |responses| == taken {
        return;
      }
      responses := responses + [response];
    }
  }

  // ----- The protocol -----

  /** `sent` and `handled` record the run. The channels hold what is on its way. */
  datatype State = State(
    db: Db,
    requests: seq<Request>,
    responses: seq<Response>,
    received: seq<Response>,
    sender: bool,
    receiver: bool,
    running: bool,
    sent: seq<Request>,
    handled: seq<Job>)

  function Started(db: Db): State {
    State(db, [], [], [], true, true, true, [], [])
  }

  datatype Step =
    | Send(request: Request)
    | HandleNext(admission: Admission)
    | Poll
    | CloseRequests
    | DropReceiver
    | EndWorker

  /** The worker runs on its own thread: it takes the front request or, once closed and empty, ends. */
  predicate Enabled(s: State, step: Step) {
    match step
    case Send(_) => s.sender
    case HandleNext(_) => s.running && s.requests != []
    case Poll => s.receiver
    case CloseRequests => s.sender
    case DropReceiver => s.receiver
    case EndWorker => s.running && s.requests == [] && !s.sender
  }

  ghost function Next(s: State, step: Step): State
    requires Enabled(s, step)
  {
    match step
    case Send(request) => s.(requests := s.requests + [request], sent := s.sent + [request])
    case HandleNext(admission) =>
      var job := Job(s.requests[0], admission);
      var (after, response) := Handled(s.db, job);
      s.(db := after,
         requests := s.requests[1..],
         handled := s.handled + [job],
         responses := if s.receiver then s.responses + [response] else s.responses,
         running := s.receiver)
    case Poll => s.(received := s.received + s.responses, responses := [])
    case CloseRequests => s.(sender := false)
    case DropReceiver => s.(receiver := false)
    case EndWorker => s.(running := false)
  }

  ghost predicate Legal(s: State, steps: seq<Step>)
    decreases |steps|
  {
    steps == [] || (Enabled(s, steps[0]) && Legal(Next(s, steps[0]), steps[1..]))
  }

  ghost function Run(s: State, steps: seq<Step>): State
    requires Legal(s, steps)
    decreases |steps|
  {
    if steps == [] then s else Run(Next(s, steps[0]), steps[1..])
  }

  function Requests(jobs: seq<Job>): seq<Request> {
    seq(|jobs|, i requires 0 <= i < |jobs| => jobs[i].request)
  }

  ghost predicate Inv(start: Db, s: State) {
    && s.sent == Requests(s.handled) + s.requests
    && s.db == DbAfter(start, s.handled)
    && (s.receiver ==> s.received + s.responses == ResponsesTo(start, s.handled))
    && (!s.running ==> !s.receiver || (s.requests == [] && !s.sender))
  }

  lemma NextKeepsInv(start: Db, s: State, step: Step)
    requires Inv(start, s) && Enabled(s, step)
    ensures Inv(start, Next(s, step))
  {
    match step
    case Send(request) => SendKeepsInv(start, s, request);
    case HandleNext(admission) => HandlingKeepsInv(start, s, admission);
    case Poll => assert s.received + s.responses + [] == s.received + s.responses;
    case _ =>
  }

  lemma SendKeepsInv(start: Db, s: State, request: Request)
    requires Inv(start, s) && s.sender
    ensures Inv(start, Next(s, Send(request)))
  {
    Associative(Requests(s.handled), s.requests, [request]);
  }

  lemma HandlingKeepsInv(start: Db, s: State, admission: Admission)
    requires Inv(start, s) && s.running && s.requests != []
    ensures Inv(start, Next(s, HandleNext(admission)))
  {
    var job := Job(s.requests[0], admission);
    var response := Handled(s.db, job).1;
    FrontIsHandled(s.handled, s.requests, job);
    JobsOneMore(start, s.handled, job);
    Associative(s.received, s.responses, [response]);
  }

  lemma FrontIsHandled(handled: seq<Job>, requests: seq<Request>, job: Job)
    requires requests != [] && job.request == requests[0]
    ensures Requests(handled) + requests == Requests(handled + [job]) + requests[1..]
  {
    RequestsOneMore(handled, job);
    Associative(Requests(handled), [job.request], requests[1..]);
    assert requests == [job.request] + requests[1..];
  }

  lemma RequestsOneMore(jobs: seq<Job>, job: Job)
    ensures Requests(jobs + [job]) == Requests(jobs) + [job.request]
  {}

  lemma JobsOneMore(start: Db, jobs: seq<Job>, job: Job)
    ensures DbAfter(start, jobs + [job]) == Handled(DbAfter(start, jobs), job).0
    ensures ResponsesTo(start, jobs + [job]) == ResponsesTo(start, jobs) + [Handled(DbAfter(start, jobs), job).1]
  {
    assert (jobs + [job])[..|jobs|] == jobs;
  }

  lemma {:induction false} RunKeepsInv(start: Db, s: State, steps: seq<Step>)
    requires Inv(start, s) && Legal(s, steps)
    ensures Inv(start, Run(s, steps))
    decreases |steps|
  {
    if steps != [] {
      NextKeepsInv(start, s, steps[0]);
      RunKeepsInv(start, Next(s, steps[0]), steps[1..]);
    }
  }

  /**
   In every run requests are handled in the order they were sent, the database is the one the handled
   requests leave, and while the receiver lives there is one response per handled request, in order.
   */
  lemma WorkerAnswersInOrder(start: Db, steps: seq<Step>)
    requires Legal(Started(start), steps)
    ensures var s := Run(Started(start), steps);
            && Requests(s.handled) <= s.sent
            && s.db == DbAfter(start, s.handled)
            && (s.receiver ==> s.received + s.responses == ResponsesTo(start, s.handled))
  {
    assert Requests([]) == [];
    RunKeepsInv(start, Started(start), steps);
  }

  /**
   `shutdown` closes the requests, waits for the worker to end and only then drops the receiver. Once
   the worker has ended, every request ever sent was handled and answered.
   */
  lemma ShutdownHandlesEverything(start: Db, steps: seq<Step>)
    requires Legal(Started(start), steps)
    requires var s := Run(Started(start), steps); !s.running && s.receiver
    ensures var s := Run(Started(start), steps);
            Requests(s.handled) == s.sent && |s.received + s.responses| == |s.sent|
  {
    assert Requests([]) == [];
    RunKeepsInv(start, Started(start), steps);
    var s := Run(Started(start), steps);
    OneResponseEach(start, s.handled);
  }

  /** The steps the worker itself takes. */
  predicate WorkersOwn(step: Step) {
    step.HandleNext? || step.EndWorker?
  }

  /** How many steps the worker takes at most before it has ended. */
  function StepsLeft(s: State): nat {
    if s.running then |s.requests| + 1 else 0
  }

  function OwnSteps(steps: seq<Step>): nat {
    if steps == [] then 0 else (if WorkersOwn(steps[0]) then 1 else 0) + OwnSteps(steps[1..])
  }

  /** Closing the requests ends the sending for good, and takes nothing that was sent. */
  lemma ClosingEndsTheSending(s: State, steps: seq<Step>)
    requires s.sender && Legal(Next(s, CloseRequests), steps)
    ensures !Run(Next(s, CloseRequests), steps).sender
    ensures Next(s, CloseRequests).requests == s.requests && Run(Next(s, CloseRequests), steps).sent == s.sent
  {
    ClosedStaysClosed(Next(s, CloseRequests), steps);
  }

  lemma {:induction false} ClosedStaysClosed(s: State, steps: seq<Step>)
    requires !s.sender && Legal(s, steps)
    ensures !Run(s, steps).sender && Run(s, steps).sent == s.sent
    ensures OwnSteps(steps) + StepsLeft(Run(s, steps)) <= StepsLeft(s)
    decreases |steps|
  {
    if steps != [] {
      ClosedStaysClosed(Next(s, steps[0]), steps[1..]);
    }
  }

  /**
   `shutdown` returns: once the requests are closed, a worker that has not ended always has a step to
   take, and whatever the other threads do it takes at most one for each waiting request and one more.
   */
  lemma ShutdownReturns(s: State, steps: seq<Step>, admission: Admission)
    requires !s.sender && Legal(s, steps)
    ensures OwnSteps(steps) <= |s.requests| + 1
    ensures OwnSteps(steps) == |s.requests| + 1 ==> !Run(s, steps).running
    ensures var end := Run(s, steps);
            end.running ==> Enabled(end, if end.requests == [] then EndWorker else HandleNext(admission))
  {
    ClosedStaysClosed(s, steps);
  }

  lemma {:induction false} OneResponseEach(start: Db, jobs: seq<Job>)
    ensures |ResponsesTo(start, jobs)| == |jobs|
  {
    if jobs != [] {
      OneResponseEach(start, jobs[..|jobs| - 1]);
    }
  }

  /**
   `shutdown_on_a_thread_of_its_own` drops the receiver as well. The worker then handles one request
   more and ends: everything sent is handled exactly when at most one request was still waiting.
   */
  lemma {:induction false} DroppedReceiverLosesRequestsExactly(start: Db, s: State, steps: seq<Step>)
    requires Inv(start, s) && s.running && !s.receiver && Legal(s, steps)
    requires forall i :: 0 <= i < |steps| ==> !steps[i].Send?
    requires !Run(s, steps).running
    ensures Requests(Run(s, steps).handled) == Run(s, steps).sent <==> |s.requests| <= 1
    decreases |steps|
  {
    NextKeepsInv(start, s, steps[0]);
    var next := Next(s, steps[0]);
    forall i | 0 <= i < |steps[1..]| ensures !steps[1..][i].Send? { assert steps[1..][i] == steps[i + 1]; }
    if next.running {
      DroppedReceiverLosesRequestsExactly(start, next, steps[1..]);
    } else {
      StoppedWorkerStays(next, steps[1..]);
      assert next.sent == Requests(next.handled) + next.requests;
      assert |next.sent| == |Requests(next.handled)| + |next.requests|;
      assert next.requests == [] ==> Requests(next.handled) + next.requests == Requests(next.handled);
    }
  }

  lemma {:induction false} StoppedWorkerStays(s: State, steps: seq<Step>)
    requires !s.running && !s.receiver && Legal(s, steps)
    requires forall i :: 0 <= i < |steps| ==> !steps[i].Send?
    ensures Run(s, steps).handled == s.handled && Run(s, steps).sent == s.sent
    decreases |steps|
  {
    if steps != [] {
      forall i | 0 <= i < |steps[1..]| ensures !steps[1..][i].Send? { assert steps[1..][i] == steps[i + 1]; }
      StoppedWorkerStays(Next(s, steps[0]), steps[1..]);
    }
  }

  /** A run that loses a request: two wait when the receiver is dropped, and the worker ends after one. */
  lemma DroppedReceiverLosesARequest(db: Db, one: Request, other: Request, admission: Admission)
    ensures var steps := [Send(one), Send(other), CloseRequests, DropReceiver, HandleNext(admission)];
            && Legal(Started(db), steps)
            && var s := Run(Started(db), steps);
               s.sent == [one, other] && Requests(s.handled) == [one] && !s.running
  {
    var s1 := Next(Started(db), Send(one));
    var s2 := Next(s1, Send(other));
    assert s2.requests == [one, other] && s2.sent == [one, other];
    var s3 := Next(s2, CloseRequests);
    var s4 := Next(s3, DropReceiver);
    var s5 := Next(s4, HandleNext(admission));
    assert s5.handled == [Job(one, admission)];
    assert Requests(s5.handled) == [one];
    LastStep(s4, HandleNext(admission));
    FirstStep(s3, DropReceiver, [HandleNext(admission)]);
    FirstStep(s2, CloseRequests, [DropReceiver, HandleNext(admission)]);
    FirstStep(s1, Send(other), [CloseRequests, DropReceiver, HandleNext(admission)]);
    FirstStep(Started(db), Send(one), [Send(other), CloseRequests, DropReceiver, HandleNext(admission)]);
  }

  lemma FirstStep(s: State, step: Step, steps: seq<Step>)
    requires Enabled(s, step) && Legal(Next(s, step), steps)
    ensures Legal(s, [step] + steps) && Run(s, [step] + steps) == Run(Next(s, step), steps)
  {
    assert ([step] + steps)[1..] == steps;
  }

  lemma LastStep(s: State, step: Step)
    requires Enabled(s, step)
    ensures Legal(s, [step]) && Run(s, [step]) == Next(s, step)
  {
    assert [step][1..] == [];
  }

  // ----- What the writes amount to -----

  /** A write that was admitted and succeeded. */
  ghost predicate Accepted(db: Db, job: Job) {
    job.request.Write? && Handled(db, job).1.Mutated? && Handled(db, job).1.result.Ok?
  }

  /** What a write gets done before it fails: nothing, except where it goes through several recordings. */
  ghost function DoneBeforeFailing(db: Db, write: WriteRequest, storage: Storage): seq<Ref> {
    match write
    case DeleteShelvedTracks(EveryRecording) =>
      if storage.order.None? then []
      else
        var listing := Listing(db, storage.order.value);
        ListingExactly(db, storage.order.value);
        listing[..Reached(db, listing, storage.verdict)]
    case DeleteRecordings(refs) => Removed(refs, storage)
    case _ => []
  }

  /** Whether a write going through `ref` changes anything there. */
  ghost predicate Touches(db: Db, write: WriteRequest, ref: Ref) {
    ref in db && (write.DeleteShelvedTracks? ==> ShelvedOf(db[ref]) != [])
  }

  lemma SweepKeptExactly(db: Db, order: seq<Ref>, storage: Storage)
    requires storage.order == Some(order)
    ensures var done := DoneBeforeFailing(db, DeleteShelvedTracks(EveryRecording), storage);
            SweptScope(db, EveryRecording, storage).0 == db
            <==> forall i :: 0 <= i < |done| ==> done[i] in db && ShelvedOf(db[done[i]]) == []
  {
    var listing := Listing(db, order);
    ListingExactly(db, order);
    SweepChangesNothingExactly(db, listing, storage.verdict);
    var done := DoneBeforeFailing(db, DeleteShelvedTracks(EveryRecording), storage);
    assert done == listing[..Reached(db, listing, storage.verdict)];
    assert forall i :: 0 <= i < |done| ==> done[i] == listing[i];
  }

  lemma OneWriteFailsAsAWhole(db: Db, write: WriteRequest, storage: Storage)
    requires !write.DeleteRecordings? && write != DeleteShelvedTracks(EveryRecording)
    requires WriteHandled(db, write, storage).1.result.Err?
    ensures WriteHandled(db, write, storage).0 == db
  {
    if write.DeleteTracks? && write.ref in db {
      DeleteIsRejectedExactly(db, write.ref, write.rows, storage.verdict(write.ref));
    } else if write.DeleteShelvedTracks? && write.scope.ref in db {
      SweptExactly(db, write.scope.ref, storage.verdict(write.scope.ref));
    }
  }

  /**
   A write that fails leaves the database alone exactly when it touched nothing before it failed. A
   write to one recording never does. A sweep of every recording does when a recording listed before
   the one it fails at holds a shelved row, and a delete when it removed a stored recording.
   */
  lemma FailedWriteChangesNothingExactly(db: Db, write: WriteRequest, storage: Storage)
    requires WriteHandled(db, write, storage).1.result.Err?
    ensures var done := DoneBeforeFailing(db, write, storage);
            WriteHandled(db, write, storage).0 == db
            <==> forall i :: 0 <= i < |done| ==> !Touches(db, write, done[i])
  {
    var done := DoneBeforeFailing(db, write, storage);
    match write
    case DeleteShelvedTracks(EveryRecording) =>
      if storage.order.Some? {
        ListingExactly(db, storage.order.value);
        SweepKeptExactly(db, storage.order.value, storage);
      }
    case DeleteRecordings(_) =>
      if i :| 0 <= i < |done| && done[i] in db {
        assert done[i] in Elements(done);
        assert done[i] !in WriteHandled(db, write, storage).0;
      } else {
        assert WriteHandled(db, write, storage).0 == db;
      }
    case _ => OneWriteFailsAsAWhole(db, write, storage);
  }

  /**
   The accepted write that a job amounts to: the job itself, what a write through several recordings
   got done before it failed, or none.
   */
  ghost function Amount(db: Db, job: Job): Option<Job> {
    if Accepted(db, job) then Some(job)
    else if job.request.Open? || job.admission.Rejected? then None
    else
      var write, storage := job.request.write, job.admission.storage;
      var done := DoneBeforeFailing(db, write, storage);
      match write
      case DeleteShelvedTracks(EveryRecording) =>
        if storage.order.None? then None else Some(job.(admission := Admitted(storage.(order := Some(done)))))
      case DeleteRecordings(_) =>
        Some(Job(Write(DeleteRecordings(done)), Admitted(storage.(givesUpAfter := None))))
      case _ => None
  }

  lemma DoneSweepIsAccepted(db: Db, order: seq<Ref>, storage: Storage)
    requires storage.order == Some(order)
    ensures var done := DoneBeforeFailing(db, DeleteShelvedTracks(EveryRecording), storage);
            var (after, result) := SweptScope(db, EveryRecording, storage.(order := Some(done)));
            result.Ok? && after == SweptScope(db, EveryRecording, storage).0
  {
    var listing := Listing(db, order);
    ListingExactly(db, order);
    FailedSweepKeepsItsPrefix(db, listing, storage.verdict);
    var done := listing[..Reached(db, listing, storage.verdict)];
    assert Stored(db, done);
    ListingOfStored(db, done);
  }

  /** A job leaves what the accepted write it amounts to leaves, and the database as it is without one. */
  lemma AmountIsAccepted(db: Db, job: Job)
    ensures match Amount(db, job)
            case None => Handled(db, job).0 == db
            case Some(write) => Accepted(db, write) && Handled(db, write).0 == Handled(db, job).0
  {
    if job.request.Write? && job.admission.Admitted? && !Accepted(db, job) {
      var write, storage := job.request.write, job.admission.storage;
      match write
      case DeleteShelvedTracks(EveryRecording) =>
        if storage.order.Some? { DoneSweepIsAccepted(db, storage.order.value, storage); }
      case DeleteRecordings(_) =>
      case _ => OneWriteFailsAsAWhole(db, write, storage);
    }
  }

  /** The accepted writes that `jobs` amount to, in order. */
  ghost function AcceptedJobs(db: Db, jobs: seq<Job>): seq<Job> {
    if jobs == [] then []
    else
      var front := jobs[..|jobs| - 1];
      Followed(AcceptedJobs(db, front), Amount(DbAfter(db, front), jobs[|jobs| - 1]))
  }

  function Followed(jobs: seq<Job>, job: Option<Job>): seq<Job> {
    match job case None => jobs case Some(next) => jobs + [next]
  }

  /**
   The database is the one left by the accepted writes, where a sweep or delete of several recordings
   that failed counts as an accepted one of the recordings it was done with.
   */
  lemma DbIsTheAcceptedWrites(db: Db, jobs: seq<Job>)
    ensures var accepted := AcceptedJobs(db, jobs);
            DbAfter(db, accepted) == DbAfter(db, jobs) && AllAccepted(db, accepted)
  {
    EveryJobIsAccounted(db, jobs);
  }

  ghost predicate Accounted(db: Db, accepted: seq<Job>, jobs: seq<Job>) {
    DbAfter(db, accepted) == DbAfter(db, jobs) && AllAccepted(db, accepted)
  }

  lemma {:induction false} EveryJobIsAccounted(db: Db, jobs: seq<Job>)
    ensures Accounted(db, AcceptedJobs(db, jobs), jobs)
  {
    if jobs != [] {
      EveryJobIsAccounted(db, jobs[..|jobs| - 1]);
      LastJobIsAccounted(db, jobs);
    }
  }

  lemma LastJobIsAccounted(db: Db, jobs: seq<Job>)
    requires jobs != [] && Accounted(db, AcceptedJobs(db, jobs[..|jobs| - 1]), jobs[..|jobs| - 1])
    ensures Accounted(db, AcceptedJobs(db, jobs), jobs)
  {
    var front, last := jobs[..|jobs| - 1], jobs[|jobs| - 1];
    JobAddsItsAmount(db, front, last, AcceptedJobs(db, front));
    assert jobs == front + [last];
  }

  lemma JobAddsItsAmount(db: Db, front: seq<Job>, last: Job, accepted: seq<Job>)
    requires Accounted(db, accepted, front)
    ensures Accounted(db, Followed(accepted, Amount(DbAfter(db, front), last)), front + [last])
  {
    JobsOneMore(db, front, last);
    AmountIsAccepted(DbAfter(db, front), last);
    match Amount(DbAfter(db, front), last)
    case None =>
    case Some(write) => OneMoreAccepted(db, accepted, write);
  }

  /** Every one of `jobs` is a write that is accepted when its turn comes. */
  ghost predicate AllAccepted(db: Db, jobs: seq<Job>) {
    jobs == [] ||
    var front, last := jobs[..|jobs| - 1], jobs[|jobs| - 1];
    AllAccepted(db, front) && Accepted(DbAfter(db, front), last)
  }

  lemma OneMoreAccepted(db: Db, accepted: seq<Job>, write: Job)
    requires AllAccepted(db, accepted) && Accepted(DbAfter(db, accepted), write)
    ensures DbAfter(db, accepted + [write]) == Handled(DbAfter(db, accepted), write).0
    ensures AllAccepted(db, accepted + [write])
  {
    JobsOneMore(db, accepted, write);
    assert (accepted + [write])[..|accepted|] == accepted;
  }

  /**
   A sweep of two recordings with a shelved track each that fails at the second: the first lost its
   track, and the worker reports that no track was deleted.
   */
  lemma FailedSweepReportsNothing(points: seq<Point>)
    ensures var rec := Recording(points, [TrackRange(0, |points|, Shelved)]);
            var db := map[0 := rec, 1 := rec];
            var storage := Storage(Some([0, 1]), ref => if ref == 0 then Accepts else Fails, None);
            WriteHandled(db, DeleteShelvedTracks(EveryRecording), storage)
            == (map[1 := rec], Mutated(TracksDeleted(0), Err(Backend)))
  {
    var rec := Recording(points, [TrackRange(0, |points|, Shelved)]);
    var db: Db := map[0 := rec, 1 := rec];
    var verdict := (ref: Ref) => if ref == 0 then Accepts else Fails;
    var refs: seq<Ref> := [0, 1];
    assert ShelvedRows(rec.tracks, 1) == [0];
    assert ShelvedOf(rec) == [0];
    assert !HasLive(rec);
    ListingOfStored(db, refs);
    SweepFailsExactly(db, 0, verdict);
    SweptExactly(db, 0, Accepts);
    assert Swept(db, 0, Accepts).0 == db - {0} == map[1 := rec];
    SweepFailsExactly(map[1 := rec], 1, verdict);
    assert refs[1..] == [1];
    assert SweptAll(map[1 := rec], [1], verdict) == (map[1 := rec], Err(Backend));
  }
}
