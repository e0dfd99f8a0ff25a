/**
 The per-day sample cache a context line is assembled from.

 `CacheState` is the value of a cache and `Resolved` what one resolve makes of it. The object of
 class `ContextSampleCache` keeps the resolved line as an object of its own, so that an unchanged
 source hands back the same one.
 */
module ContextLine {
  import opened Common
  import opened ContextSpan

  /** Identity of the fix positions values were read at. */
  type PositionsId = nat

  datatype ContextSource = ContextSource(span: Span, archivedDays: seq<Day>, positions: Option<PositionsId>)

  datatype CacheState<S> = CacheState(
    days: map<Day, seq<S>>,
    resolvedFrom: Option<ContextSource>,
    line: seq<S>)

  /** The samples that break the line before `day` when `previous` was the last day with samples. */
  function GapBefore<S>(previous: Option<Day>, day: Day, gapAt: Day -> Option<S>): seq<S> {
    if previous.None? || previous.value >= LAST_DAY || previous.value + 1 == day then []
    else match gapAt(previous.value + 1) case None => [] case Some(gap) => [gap]
  }

  /** The line over `days` when `previous` was the last day with samples before them. */
  function Assembled<S>(days: seq<Day>, previous: Option<Day>, read: Day -> seq<S>, gapAt: Day -> Option<S>): seq<S>
    decreases |days|
  {
    if days == [] then []
    else if read(days[0]) == [] then Assembled(days[1..], previous, read, gapAt)
    else
      GapBefore(previous, days[0], gapAt) + read(days[0])
      + Assembled(days[1..], Some(days[0]), read, gapAt)
  }

  /** The cached samples of a day, and what `read` returns for a day that is not cached. */
  function Through<S>(days: map<Day, seq<S>>, read: Day -> seq<S>): Day -> seq<S> {
    d => if d in days then days[d] else read(d)
  }

  /** The days a resolve starts with: none when the positions changed since the last one. */
  function KeptDays<S>(c: CacheState<S>, source: ContextSource): map<Day, seq<S>> {
    if c.resolvedFrom.Some? && c.resolvedFrom.value.positions != source.positions then map[] else c.days
  }

  /** `days` once every day of `archived` it lacks was read. */
  function Filled<S>(days: map<Day, seq<S>>, archived: seq<Day>, read: Day -> seq<S>): map<Day, seq<S>>
    decreases |archived|
  {
    if archived == [] then days
    else Filled(if archived[0] in days then days else days[archived[0] := read(archived[0])], archived[1..], read)
  }

  /** The days of `archived` that are not `held`, each once, in order. */
  function NewDays(archived: seq<Day>, held: set<Day>): seq<Day>
    decreases |archived|
  {
    if archived == [] then []
    else if archived[0] in held then NewDays(archived[1..], held)
    else [archived[0]] + NewDays(archived[1..], held + {archived[0]})
  }

  function Resolved<S(==)>(c: CacheState<S>, source: ContextSource, read: Day -> seq<S>, gapAt: Day -> Option<S>):
    CacheState<S>
  {
    if c.resolvedFrom == Some(source) then c
    else
      CacheState(Filled(KeptDays(c, source), source.archivedDays, read),
                 Some(source),
                 Assembled(source.archivedDays, None, Through(KeptDays(c, source), read), gapAt))
  }

  /** The days a resolve reads from the archive. */
  function DaysRead<S(==)>(c: CacheState<S>, source: ContextSource): seq<Day> {
    if c.resolvedFrom == Some(source) then [] else NewDays(source.archivedDays, KeptDays(c, source).Keys)
  }

  lemma {:induction false} FilledExactly<S>(days: map<Day, seq<S>>, archived: seq<Day>, read: Day -> seq<S>)
    ensures var filled := Filled(days, archived, read);
            && filled.Keys == days.Keys + Elements(archived)
            && forall d :: d in filled ==> filled[d] == Through(days, read)(d)
    decreases |archived|
  {
    if archived == [] {
      assert Elements(archived) == {};
    } else {
      var next := if archived[0] in days then days else days[archived[0] := read(archived[0])];
      FilledExactly(next, archived[1..], read);
      assert Elements(archived) == {archived[0]} + Elements(archived[1..]);
      assert next.Keys == days.Keys + {archived[0]};
      forall d | d in Filled(days, archived, read)
        ensures Filled(days, archived, read)[d] == Through(days, read)(d)
      {
        assert Through(next, read)(d) == Through(days, read)(d);
      }
    }
  }

  /** A resolve reads exactly the archived days it holds nothing for, each once. */
  lemma {:induction false} NewDaysExactly(archived: seq<Day>, held: set<Day>)
    ensures Distinct(NewDays(archived, held))
    ensures Elements(NewDays(archived, held)) == Elements(archived) - held
    decreases |archived|
  {
    if archived != [] {
      var rest := if archived[0] in held then held else held + {archived[0]};
      NewDaysExactly(archived[1..], rest);
      assert Elements(archived) == {archived[0]} + Elements(archived[1..]);
      if archived[0] !in held {
        var later := NewDays(archived[1..], rest);
        assert Elements([archived[0]] + later) == {archived[0]} + Elements(later);
        forall i | 0 <= i < |later| ensures later[i] != archived[0] { assert later[i] in Elements(later); }
      }
    }
  }

  function Forgotten<S>(c: CacheState<S>, day: Day): CacheState<S> {
    if day in c.days then c.(days := c.days - {day}, resolvedFrom := None) else c
  }

  function PrunedForgotten<S>(c: CacheState<S>, pruned: PrunedDays): CacheState<S> {
    var kept := map d | d in c.days && !pruned.Covers(d) :: c.days[d];
    if |kept| != |c.days| then c.(days := kept, resolvedFrom := None) else c
  }

  /** A resolved line. The identity of the object is what the plot keys its own cache on. */
  class Line<S> {
    const samples: seq<S>

    constructor (samples: seq<S>)
      ensures this.samples == samples
    {
      this.samples := samples;
    }
  }

  class ContextSampleCache<S(==)> {
    var days: map<Day, seq<S>>
    var resolvedFrom: Option<ContextSource>
    var line: Line<S>

    ghost function Value(): CacheState<S>
      reads this
    {
      CacheState(days, resolvedFrom, line.samples)
    }

    constructor ()
      ensures Value() == CacheState(map[], None, [])
    {
      days, resolvedFrom := map[], None;
      line := new Line<S>([]);
    }

    method Forget(day: Day)
      modifies this
      ensures Value() == Forgotten(old(Value()), day) && line == old(line)
    {
      if day in days {
        days := days - {day};
        resolvedFrom := None;
      }
    }

    method ForgetPrunedDays(pruned: PrunedDays)
      modifies this
      ensures Value() == PrunedForgotten(old(Value()), pruned) && line == old(line)
    {
      var held := |days|;
      ghost var before := days;
      days := map d | d in days && !pruned.Covers(d) :: days[d];
      if |days| != held {
        resolvedFrom := None;
      } else {
        KeptAll(before, days);
      }
    }

    /** Returns the line and the days it read from the archive, in order. */
    method Resolve(source: ContextSource, readDay: Day -> seq<S>, gapAt: Day -> Option<S>)
      returns (result: Line<S>, fetched: seq<Day>)
      modifies this
      ensures Value() == Resolved(old(Value()), source, readDay, gapAt)
      ensures result == line
      ensures if old(resolvedFrom) == Some(source) then line == old(line) else fresh(line)
      ensures fetched == DaysRead(old(Value()), source)
    {
      fetched := [];
      if resolvedFrom.Some? && resolvedFrom.value.positions != source.positions {
        days := map[];
      }
      if resolvedFrom == Some(source) {
        return line, fetched;
      }
      ghost var kept := days;
      ghost var read := Through(kept, readDay);
      var archived := source.archivedDays;
      var samples: seq<S>, previous: Option<Day> := [], None;
      assert archived[0..] == archived;
      ghost var filled, whole := Filled(kept, archived, readDay), Assembled(archived, None, read, gapAt);
      ghost var lacking := NewDays(archived, kept.Keys);
      for i := 0 to |archived|
        invariant resolvedFrom == old(resolvedFrom) && line == old(line)
        invariant forall d :: d in days ==> days[d] == read(d)
        invariant kept.Keys <= days.Keys
        invariant Filled(days, archived[i..], readDay) == filled
        invariant samples + Assembled(archived[i..], previous, read, gapAt) == whole
        invariant fetched + NewDays(archived[i..], days.Keys) == lacking
      {
        var day := archived[i];
        assert archived[i..][0] == day && archived[i..][1..] == archived[i + 1..];
        if day !in days {
          ghost var later := NewDays(archived[i + 1..], days.Keys + {day});
          assert fetched + ([day] + later) == fetched + [day] + later;
          assert days[day := readDay(day)].Keys == days.Keys + {day};
          days := days[day := readDay(day)];
          fetched := fetched + [day];
        }
        if days[day] == [] {
          continue;
        }
        ghost var rest := Assembled(archived[i + 1..], Some(day), read, gapAt);
        AppendsThree(samples, GapBefore(previous, day, gapAt), days[day], rest);
        samples := samples + GapBefore(previous, day, gapAt);
        samples := samples + days[day];
        previous := Some(day);
      }
      line := new Line<S>(samples);
      resolvedFrom := Some(source);
      result := line;
    }
  }

  lemma AppendsThree<S>(a: seq<S>, b: seq<S>, c: seq<S>, d: seq<S>)
    ensures a + (b + c + d) == a + b + c + d
  {}

  /** A restriction that keeps the size keeps everything. */
  lemma KeptAll<S>(before: map<Day, seq<S>>, kept: map<Day, seq<S>>)
    requires kept.Keys <= before.Keys && |kept| == |before|
    requires forall d :: d in kept ==> kept[d] == before[d]
    ensures kept == before
  {
    var gone := before.Keys - kept.Keys;
    assert before.Keys == kept.Keys + gone;
    assert |before.Keys| == |kept.Keys| + |gone|;
    assert gone == {};
    forall d | d in before ensures d in kept && kept[d] == before[d] { assert d in before.Keys; }
  }
}
