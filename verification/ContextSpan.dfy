/** The days a context line is sampled over: the days the plot shows, widened to whole buckets. */
module ContextSpan {
  import opened Common

  /** The first and the last day of the calendar. */
  const FIRST_DAY: Day := -95746129
  const LAST_DAY: Day := 95745399
  const UNIX_EPOCH: Day := 719163
  const SECONDS_PER_DAY := 86400
  const BUCKETS_PER_SPAN := 8

  datatype Span = Span(first: Day, last: Day)

  /** The day a second since the epoch falls in. A second outside the calendar lands on its end. */
  function DayAt(secs: int): Day {
    var day := UNIX_EPOCH + secs / SECONDS_PER_DAY;
    if FIRST_DAY <= day <= LAST_DAY then day else if secs < 0 then FIRST_DAY else LAST_DAY
  }

  function DayFromCe(day: int, beyond: Day): Day {
    if FIRST_DAY <= day <= LAST_DAY then day else beyond
  }

  function SnapDown(day: Day, bucket: int): Day
    requires bucket > 0
  {
    DayFromCe(day - day % bucket, FIRST_DAY)
  }

  function SnapUp(day: Day, bucket: int): Day
    requires bucket > 0
  {
    DayFromCe(day + bucket - 1 - day % bucket, LAST_DAY)
  }

  function Bucket(low: Day, high: Day): int {
    var eighth := (high - low + 1) / BUCKETS_PER_SPAN;
    if eighth < 1 then 1 else eighth
  }

  function Covering(start: int, end: int): Span {
    var (low, high) := if DayAt(start) <= DayAt(end) then (DayAt(start), DayAt(end)) else (DayAt(end), DayAt(start));
    Span(SnapDown(low, Bucket(low, high)), SnapUp(high, Bucket(low, high)))
  }

  /** Days follow the seconds, and stay in the calendar. */
  lemma DayAtIsMonotone(a: int, b: int)
    requires a <= b
    ensures FIRST_DAY <= DayAt(a) <= DayAt(b) <= LAST_DAY
  {
    QuotientIsMonotone(a, b);
  }

  /** The number of the first day of `year`, counted from the first of January of the year 1. */
  function NewYear(year: int): Day {
    365 * (year - 1) + (year - 1) / 4 - (year - 1) / 100 + (year - 1) / 400 + 1
  }

  /** The calendar runs through the years -262143 to 262142, and a second is a part of its day since 1970. */
  lemma DayAtExactly(day: Day, second: nat)
    requires second < 86_400
    ensures DayAt((day - NewYear(1970)) * 86_400 + second)
         == if day < NewYear(-262143) then NewYear(-262143)
            else if day >= NewYear(262143) then NewYear(262143) - 1 else day
  {
    assert NewYear(1970) == UNIX_EPOCH && NewYear(-262143) == FIRST_DAY && NewYear(262143) - 1 == LAST_DAY;
    DayOfSecond(day - UNIX_EPOCH, second);
  }

  lemma DayOfSecond(days: int, second: nat)
    requires second < 86_400
    ensures (days * 86_400 + second) / SECONDS_PER_DAY == days
  {}

  /** A bucket is an eighth of the days of the view, rounded down, and at least a day. */
  lemma BucketIsAnEighth(low: Day, high: Day)
    requires low <= high
    ensures var bucket, days := Bucket(low, high), high - low + 1;
            bucket >= 1 && days < 8 * (bucket + 1) && (bucket > 1 ==> 8 * bucket <= days)
  {}

  /**
   The span is the smallest one of whole buckets around the view, or what the calendar holds of it:
   each end lies less than a bucket outside the view.
   */
  lemma SpanIsTight(start: int, end: int)
    requires DayAt(start) <= DayAt(end)
    ensures var span, bucket := Covering(start, end), Bucket(DayAt(start), DayAt(end));
            DayAt(start) - span.first < bucket && span.last - DayAt(end) < bucket
  {
    DayAtIsMonotone(start, start);
    DayAtIsMonotone(end, end);
    SnappedAround(DayAt(start), Bucket(DayAt(start), DayAt(end)));
    SnappedAround(DayAt(end), Bucket(DayAt(start), DayAt(end)));
  }

  lemma QuotientIsMonotone(a: int, b: int)
    requires a <= b
    ensures a / SECONDS_PER_DAY <= b / SECONDS_PER_DAY
    ensures a < 0 ==> a / SECONDS_PER_DAY < 0
    ensures a >= 0 ==> a / SECONDS_PER_DAY >= 0
  {}

  /** Snapping stays in the calendar, contains the day, and ends on a bucket boundary inside the calendar. */
  lemma SnappedAround(day: Day, bucket: int)
    requires bucket > 0 && FIRST_DAY <= day <= LAST_DAY
    ensures FIRST_DAY <= SnapDown(day, bucket) <= day <= SnapUp(day, bucket) <= LAST_DAY
    ensures SnapDown(day, bucket) % bucket == 0 || SnapDown(day, bucket) == FIRST_DAY
    ensures (SnapUp(day, bucket) + 1) % bucket == 0 || SnapUp(day, bucket) == LAST_DAY
    ensures day - SnapDown(day, bucket) < bucket && SnapUp(day, bucket) - day < bucket
  {
    var r := day % bucket;
    assert 0 <= r < bucket;
    OnBoundary(day, bucket);
  }

  lemma OnBoundary(day: int, bucket: int)
    requires bucket > 0
    ensures (day - day % bucket) % bucket == 0
    ensures (day + bucket - 1 - day % bucket + 1) % bucket == 0
  {
    var q := day / bucket;
    assert day - day % bucket == q * bucket;
    MultipleOf(q, bucket);
    MultipleOf(q + 1, bucket);
    assert day + bucket - 1 - day % bucket + 1 == (q + 1) * bucket;
  }

  lemma MultipleOf(q: int, bucket: int)
    requires bucket > 0
    ensures (q * bucket) % bucket == 0
  {
    var r := (q * bucket) % bucket;
    var d := (q * bucket) / bucket;
    assert q * bucket == d * bucket + r;
    assert (q - d) * bucket == r && (d - q) * bucket == -r;
    if q - d >= 1 {
      AtLeastOnce(q - d, bucket);
    } else if q - d <= -1 {
      AtLeastOnce(d - q, bucket);
    }
  }

  lemma AtLeastOnce(n: int, bucket: int)
    requires n >= 1 && bucket > 0
    ensures n * bucket >= bucket
  {}

  /** The span contains both end days of the view, in either endpoint order, also at the calendar's ends. */
  lemma SpanContainsTheView(start: int, end: int)
    ensures Covering(start, end).first <= DayAt(start) <= Covering(start, end).last
    ensures Covering(start, end).first <= DayAt(end) <= Covering(start, end).last
    ensures Covering(start, end) == Covering(end, start)
  {
    DayAtIsMonotone(start, start);
    DayAtIsMonotone(end, end);
    var low, high := if DayAt(start) <= DayAt(end) then DayAt(start) else DayAt(end),
                     if DayAt(start) <= DayAt(end) then DayAt(end) else DayAt(start);
    SnappedAround(low, Bucket(low, high));
    SnappedAround(high, Bucket(low, high));
  }

  /**
   The span ends on bucket boundaries or at the calendar's ends, and holds at most 5/4 of the days of
   the view.
   */
  lemma SpanIsWholeBuckets(start: int, end: int)
    requires DayAt(start) <= DayAt(end)
    ensures var span, bucket := Covering(start, end), Bucket(DayAt(start), DayAt(end));
            && (span.first % bucket == 0 || span.first == FIRST_DAY)
            && ((span.last + 1) % bucket == 0 || span.last == LAST_DAY)
            && 4 * (span.last - span.first + 1) <= 5 * (DayAt(end) - DayAt(start) + 1)
  {
    DayAtIsMonotone(start, start);
    DayAtIsMonotone(end, end);
    SnappedAround(DayAt(start), Bucket(DayAt(start), DayAt(end)));
    SnappedAround(DayAt(end), Bucket(DayAt(start), DayAt(end)));
  }

  /** Two views of as many days, whose ends fall in the same buckets, have one span: a small pan keeps it. */
  lemma SameBucketsSameSpan(start: int, end: int, pannedStart: int, pannedEnd: int)
    requires DayAt(start) <= DayAt(end) && DayAt(pannedStart) <= DayAt(pannedEnd)
    requires DayAt(end) - DayAt(start) == DayAt(pannedEnd) - DayAt(pannedStart)
    requires var bucket := Bucket(DayAt(start), DayAt(end));
             DayAt(start) / bucket == DayAt(pannedStart) / bucket && DayAt(end) / bucket == DayAt(pannedEnd) / bucket
    ensures Covering(start, end) == Covering(pannedStart, pannedEnd)
  {
    var bucket := Bucket(DayAt(start), DayAt(end));
    FromQuotient(DayAt(start), bucket);
    FromQuotient(DayAt(end), bucket);
    FromQuotient(DayAt(pannedStart), bucket);
    FromQuotient(DayAt(pannedEnd), bucket);
  }

  lemma FromQuotient(day: Day, bucket: int)
    requires bucket > 0
    ensures day - day % bucket == (day / bucket) * bucket
  {}
}
