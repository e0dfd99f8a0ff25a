/**
 The three retries of the app and what their saturating counters amount to: the background mark
 retry, the day index re-read and the wait for an unusable lock file. Times are milliseconds.
 */
module RetryBackoff {
  import opened Common

  // ----- Saturating arithmetic -----

  const MAX_U32: nat := 0xFFFF_FFFF

  /** The longest duration the platform type holds. */
  const MAX_DURATION: nat := 18_446_744_073_709_551_615_999

  function SaturatingSub(a: nat, b: nat): nat {
    if a < b then 0 else a - b
  }

  function Pow2(n: nat): nat {
    if n == 0 then 1 else 2 * Pow2(n - 1)
  }

  /** `first` doubled `doublings` times in 32 bits, up to `slowest`. */
  function SaturatedDoubling(first: nat, doublings: nat, slowest: nat): nat {
    Min(Min(first * Min(Pow2(doublings), MAX_U32), MAX_DURATION), slowest)
  }

  /** No saturation shows in an interval with a ceiling that the largest factor reaches. */
  lemma SaturationIsInvisible(first: nat, doublings: nat, slowest: nat)
    requires first * MAX_U32 <= MAX_DURATION && slowest <= first * MAX_U32
    ensures SaturatedDoubling(first, doublings, slowest) == Min(slowest, first * Pow2(doublings))
  {
    if Pow2(doublings) <= MAX_U32 {
      ProductGrows(first, Pow2(doublings), MAX_U32);
    } else {
      ProductGrows(first, MAX_U32, Pow2(doublings));
    }
  }

  lemma ProductGrows(first: nat, a: nat, b: nat)
    requires a <= b
    ensures first * a <= first * b
  {}

  lemma {:induction false} Pow2Grows(m: nat, n: nat)
    requires m <= n
    ensures Pow2(m) <= Pow2(n)
    decreases n
  {
    if m < n {
      Pow2Grows(m, n - 1);
    }
  }

  // ----- The background mark retry -----

  const RETRY_INTERVAL := 250
  const ATTEMPTS_AT_THE_WAIT_RATE := 20
  const SLOWEST_MARK_INTERVAL := 30_000

  /** `attempts` counts in 32 bits. */
  datatype MarkRetry = MarkRetry(lastAttempt: nat, attempts: nat)

  function IntervalBeforeTheNextAttempt(attempts: nat): nat {
    SaturatedDoubling(RETRY_INTERVAL, SaturatingSub(Min(attempts + 1, MAX_U32), ATTEMPTS_AT_THE_WAIT_RATE),
                      SLOWEST_MARK_INTERVAL)
  }

  function TimeUntilTheNextAttempt(retry: MarkRetry, now: nat): nat {
    SaturatingSub(IntervalBeforeTheNextAttempt(retry.attempts), SaturatingSub(now, retry.lastAttempt))
  }

  /** One frame at `now`: an attempt is recorded when the interval has passed. */
  function Polled(retry: MarkRetry, now: nat): MarkRetry {
    if TimeUntilTheNextAttempt(retry, now) == 0 then MarkRetry(now, Min(retry.attempts + 1, MAX_U32)) else retry
  }

  class BackgroundMarkRetry {
    var lastAttempt: nat
    var attempts: nat

    ghost function Value(): MarkRetry
      reads this
    {
      MarkRetry(lastAttempt, attempts)
    }

    constructor (now: nat)
      ensures Value() == MarkRetry(now, 0)
    {
      lastAttempt, attempts := now, 0;
    }

    method RecordAttempt(now: nat)
      modifies this
      ensures Value() == MarkRetry(now, Min(old(attempts) + 1, MAX_U32))
    {
      lastAttempt := now;
      attempts := Min(attempts + 1, MAX_U32);
    }

    /** Returns whether the frame at `now` makes an attempt. */
    method Poll(now: nat) returns (attempted: bool)
      modifies this
      ensures Value() == Polled(old(Value()), now)
      ensures attempted <==> TimeUntilTheNextAttempt(old(Value()), now) == 0
    {
      attempted := TimeUntilTheNextAttempt(MarkRetry(lastAttempt, attempts), now) == 0;
      if attempted {
        RecordAttempt(now);
      }
    }
  }

  /** The interval before attempt `n`, without any saturation. */
  function MarkInterval(n: nat): nat {
    Min(SLOWEST_MARK_INTERVAL, RETRY_INTERVAL * Pow2(SaturatingSub(n, ATTEMPTS_AT_THE_WAIT_RATE)))
  }

  lemma SlowestAfterTheDoublings(n: nat)
    requires n >= 27
    ensures MarkInterval(n) == SLOWEST_MARK_INTERVAL
  {
    Pow2Grows(7, n - 20);
    assert Pow2(7) == 128;
  }

  /** The 32-bit count gives the interval before attempt `n` for every `n`, also where it is saturated. */
  lemma MarkIntervalExactly(n: nat)
    requires n > 0
    ensures IntervalBeforeTheNextAttempt(Min(n - 1, MAX_U32)) == MarkInterval(n)
    ensures MarkInterval(n) == if n <= 20 then 250 else Min(30_000, 250 * Pow2(n - 20))
  {
    Pow2Grows(0, SaturatingSub(n, 20));
    SaturationIsInvisible(RETRY_INTERVAL,
                          SaturatingSub(Min(Min(n - 1, MAX_U32) + 1, MAX_U32), ATTEMPTS_AT_THE_WAIT_RATE),
                          SLOWEST_MARK_INTERVAL);
    if n > MAX_U32 {
      SlowestAfterTheDoublings(n);
      SlowestAfterTheDoublings(MAX_U32);
    }
  }

  lemma MarkIntervalNeverFalls(n: nat)
    ensures 250 <= MarkInterval(n) <= MarkInterval(n + 1) <= 30_000
  {
    Pow2Grows(SaturatingSub(n, ATTEMPTS_AT_THE_WAIT_RATE), SaturatingSub(n + 1, ATTEMPTS_AT_THE_WAIT_RATE));
    Pow2Grows(0, SaturatingSub(n, ATTEMPTS_AT_THE_WAIT_RATE));
  }

  /** What a frame at `now` does after `made` attempts: it makes one once the interval has passed, and waits otherwise. */
  lemma PollExactly(lastAttempt: nat, made: nat, now: nat)
    ensures var retry, interval := MarkRetry(lastAttempt, Min(made, MAX_U32)), MarkInterval(made + 1);
            && (TimeUntilTheNextAttempt(retry, now) == 0 <==> now >= lastAttempt + interval)
            && (lastAttempt <= now < lastAttempt + interval ==>
                  now + TimeUntilTheNextAttempt(retry, now) == lastAttempt + interval)
            && (now < lastAttempt ==> TimeUntilTheNextAttempt(retry, now) == interval)
            && Polled(retry, now) == if now >= lastAttempt + interval then MarkRetry(now, Min(made + 1, MAX_U32))
                                     else retry
  {
    MarkIntervalExactly(made + 1);
    MarkIntervalNeverFalls(made + 1);
  }

  /** Powers of two. */
  lemma {:induction false} Pow2Exactly(m: nat, n: nat)
    ensures Pow2(0) == 1 && Pow2(1) == 2 && Pow2(m + n) == Pow2(m) * Pow2(n)
  {
    if n > 0 {
      Pow2Exactly(m, n - 1);
      assert Pow2(m + n) == 2 * Pow2(m + (n - 1));
    }
  }

  /** The time `n` attempts take at least. */
  function MarkElapsed(n: nat): nat {
    if n == 0 then 0 else MarkElapsed(n - 1) + MarkInterval(n)
  }

  lemma {:induction false} ElapsedGrowsAtTheSlowestRate(n: nat)
    ensures MarkElapsed(n) >= SLOWEST_MARK_INTERVAL * (n - 26)
  {
    if n > 26 {
      ElapsedGrowsAtTheSlowestRate(n - 1);
      SlowestAfterTheDoublings(n);
    }
  }

  /** How many attempts the frames at `times` make. */
  function Attempts(retry: MarkRetry, times: seq<nat>): nat
    decreases |times|
  {
    if times == [] then 0
    else (if TimeUntilTheNextAttempt(retry, times[0]) == 0 then 1 else 0)
         + Attempts(Polled(retry, times[0]), times[1..])
  }

  lemma {:induction false} AttemptsTakeTime(start: nat, made: nat, retry: MarkRetry, times: seq<nat>, end: nat)
    requires retry.attempts == Min(made, MAX_U32)
    requires start + MarkElapsed(made) <= retry.lastAttempt <= end
    requires forall i :: 0 <= i < |times| ==> times[i] <= end
    ensures start + MarkElapsed(made + Attempts(retry, times)) <= end
    decreases |times|
  {
    if times != [] {
      forall i | 0 <= i < |times[1..]| ensures times[1..][i] <= end { assert times[1..][i] == times[i + 1]; }
      if TimeUntilTheNextAttempt(retry, times[0]) == 0 {
        MarkIntervalExactly(made + 1);
        MarkIntervalNeverFalls(made + 1);
        assert times[0] >= retry.lastAttempt + MarkInterval(made + 1);
        AttemptsTakeTime(start, made + 1, Polled(retry, times[0]), times[1..], end);
      } else {
        AttemptsTakeTime(start, made, retry, times[1..], end);
      }
    }
  }

  /** Whenever the frames run, at most 26 + T / 30 s attempts fall within T of the start. */
  lemma AttemptsAreBounded(start: nat, times: seq<nat>, t: nat)
    requires forall i :: 0 <= i < |times| ==> times[i] <= start + t
    ensures Attempts(MarkRetry(start, 0), times) <= 26 + t / 30_000
  {
    var n := Attempts(MarkRetry(start, 0), times);
    AttemptsTakeTime(start, 0, MarkRetry(start, 0), times, start + t);
    ElapsedGrowsAtTheSlowestRate(n);
  }

  /** The times attempts `made + 1` to `made + count` fall due. */
  function DueTimes(start: nat, made: nat, count: nat): seq<nat>
    decreases count
  {
    if count == 0 then [] else [start + MarkElapsed(made + 1)] + DueTimes(start, made + 1, count - 1)
  }

  /** A frame at every due time makes every attempt, so no attempt is later than it must be. */
  lemma {:induction false} EveryDueAttemptIsMade(start: nat, made: nat, count: nat)
    ensures Attempts(MarkRetry(start + MarkElapsed(made), Min(made, MAX_U32)), DueTimes(start, made, count)) == count
    decreases count
  {
    if count > 0 {
      var retry := MarkRetry(start + MarkElapsed(made), Min(made, MAX_U32));
      var times := DueTimes(start, made, count);
      MarkIntervalExactly(made + 1);
      assert Polled(retry, times[0]) == MarkRetry(start + MarkElapsed(made + 1), Min(made + 1, MAX_U32));
      assert times[1..] == DueTimes(start, made + 1, count - 1);
      EveryDueAttemptIsMade(start, made + 1, count - 1);
    }
  }

  // ----- The day index re-read -----

  const SLOWEST_REREAD_INTERVAL := 10_000
  const REREADS_AT_THE_FIRST_INTERVAL := 8

  /** How one read of the day index ends. */
  datatype ReadOutcome = Days | HeldByAnotherProcess | OtherFailure

  datatype DueReread = DueReread(lastRead: nat, failedReads: nat)

  function RereadInterval(due: DueReread): nat {
    SaturatedDoubling(RETRY_INTERVAL, SaturatingSub(due.failedReads, REREADS_AT_THE_FIRST_INTERVAL),
                      SLOWEST_REREAD_INTERVAL)
  }

  function ReadRecorded(due: Option<DueReread>, now: nat, outcome: ReadOutcome): Option<DueReread> {
    if outcome.HeldByAnotherProcess?
    then Some(DueReread(now, Min((if due.None? then 0 else due.value.failedReads) + 1, MAX_U32)))
    else None
  }

  predicate IsDue(due: Option<DueReread>, now: nat) {
    due.Some? && SaturatingSub(now, due.value.lastRead) >= RereadInterval(due.value)
  }

  class DayIndexReadRetry {
    var due: Option<DueReread>

    constructor ()
      ensures due == None
    {
      due := None;
    }

    method RecordRead(now: nat, outcome: ReadOutcome)
      modifies this
      ensures due == ReadRecorded(old(due), now, outcome)
    {
      match outcome
      case Days => due := None;
      case HeldByAnotherProcess =>
        var failed := if due.None? then 0 else due.value.failedReads;
        due := Some(DueReread(now, Min(failed + 1, MAX_U32)));
      case OtherFailure => due := None;
    }

    method ForgetTheDueReread()
      modifies this
      ensures due == None
    {
      due := None;
    }
  }

  /** What is due after the reads at `times` ended as `outcomes`. */
  function DueAfter(times: seq<nat>, outcomes: seq<ReadOutcome>): Option<DueReread>
    requires |times| == |outcomes|
  {
    if times == [] then None
    else
      var last := |times| - 1;
      ReadRecorded(DueAfter(times[..last], outcomes[..last]), times[last], outcomes[last])
  }

  /** How many of the last reads in a row found the file held. */
  function HeldInARow(outcomes: seq<ReadOutcome>): nat {
    if outcomes == [] || !outcomes[|outcomes| - 1].HeldByAnotherProcess? then 0
    else 1 + HeldInARow(outcomes[..|outcomes| - 1])
  }

  /**
   A re-read is due exactly while the last read found the file held, and it comes due
   min(10 s, 250 ms times 2 to the power of the held reads in a row past the eighth) after it.
   */
  lemma {:induction false} RereadIsDueExactly(times: seq<nat>, outcomes: seq<ReadOutcome>, now: nat)
    requires |times| == |outcomes|
    ensures var due, held := DueAfter(times, outcomes), HeldInARow(outcomes);
            && (due.None? <==> held == 0)
            && (due.Some? ==> due.value == DueReread(times[|times| - 1], Min(held, MAX_U32)))
            && (IsDue(due, now) <==>
                  held > 0 && now - times[|times| - 1]
                              >= (if held <= 8 then 250 else Min(10_000, 250 * Pow2(held - 8))))
  {
    if times != [] {
      var last := |times| - 1;
      RereadIsDueExactly(times[..last], outcomes[..last], now);
      if outcomes[last].HeldByAnotherProcess? {
        RereadIntervalExactly(times[last], HeldInARow(outcomes));
      }
    }
  }

  lemma RereadIntervalExactly(lastRead: nat, held: nat)
    requires held > 0
    ensures RereadInterval(DueReread(lastRead, Min(held, MAX_U32)))
         == Min(SLOWEST_REREAD_INTERVAL, RETRY_INTERVAL * Pow2(SaturatingSub(held, 8)))
    ensures RereadInterval(DueReread(lastRead, Min(held, MAX_U32))) > 0
  {
    SaturationIsInvisible(RETRY_INTERVAL, SaturatingSub(Min(held, MAX_U32), 8), SLOWEST_REREAD_INTERVAL);
    Pow2Grows(0, SaturatingSub(Min(held, MAX_U32), 8));
    if held > MAX_U32 {
      Pow2Grows(6, held - 8);
      Pow2Grows(6, MAX_U32 - 8);
      assert Pow2(6) == 64;
    }
  }

  // ----- The wait for an unusable lock file -----

  const UNUSABLE_RETRIES_BEFORE_THE_WAIT_ENDS := 20

  datatype Unavailable = HeldByAnotherInstance | UnusableLockFile(cause: string)

  datatype WaitOutcome = StillWaiting | GaveUpOnTheLockFile(cause: string)

  class DataDirectoryWait {
    var unavailable: Unavailable
    var unusableInARow: nat

    constructor (read: Unavailable)
      ensures unavailable == read && unusableInARow == 0
    {
      unavailable, unusableInARow := read, 0;
    }

    method OutcomeOfAFreshRead(read: Unavailable) returns (outcome: WaitOutcome)
      modifies this
      ensures unavailable == read && unusableInARow == RetriesCounted(old(unusableInARow), read)
      ensures outcome == OutcomeFor(unusableInARow, read)
    {
      unavailable := read;
      if unavailable.HeldByAnotherInstance? {
        unusableInARow := 0;
        return StillWaiting;
      }
      unusableInARow := Min(unusableInARow + 1, MAX_U32);
      if unusableInARow < UNUSABLE_RETRIES_BEFORE_THE_WAIT_ENDS {
        return StillWaiting;
      }
      outcome := GaveUpOnTheLockFile(unavailable.cause);
    }
  }

  function RetriesCounted(count: nat, read: Unavailable): nat {
    if read.HeldByAnotherInstance? then 0 else Min(count + 1, MAX_U32)
  }

  function OutcomeFor(count: nat, read: Unavailable): WaitOutcome {
    if read.UnusableLockFile? && count >= UNUSABLE_RETRIES_BEFORE_THE_WAIT_ENDS then GaveUpOnTheLockFile(read.cause)
    else StillWaiting
  }

  function CountAfter(retries: seq<Unavailable>): nat {
    if retries == [] then 0 else RetriesCounted(CountAfter(retries[..|retries| - 1]), retries[|retries| - 1])
  }

  lemma {:induction false} CountIsTheRunLength(retries: seq<Unavailable>, k: nat)
    requires k <= MAX_U32
    ensures CountAfter(retries) >= k <==>
              k <= |retries| && forall i :: |retries| - k <= i < |retries| ==> retries[i].UnusableLockFile?
  {
    if retries != [] && k > 0 {
      var last := |retries| - 1;
      CountIsTheRunLength(retries[..last], k - 1);
      CountIsTheRunLength(retries[..last], k);
    }
  }

  /** The wait ends exactly when the last 20 retries all failed to open the lock file, for the cause of the last. */
  lemma WaitEndsExactly(retries: seq<Unavailable>)
    requires retries != []
    ensures OutcomeFor(CountAfter(retries), retries[|retries| - 1]).GaveUpOnTheLockFile? <==>
              |retries| >= 20 && forall i :: |retries| - 20 <= i < |retries| ==> retries[i].UnusableLockFile?
    ensures var outcome := OutcomeFor(CountAfter(retries), retries[|retries| - 1]);
            outcome.GaveUpOnTheLockFile? ==> retries[|retries| - 1] == UnusableLockFile(outcome.cause)
  {
    CountIsTheRunLength(retries, UNUSABLE_RETRIES_BEFORE_THE_WAIT_ENDS);
  }
}
