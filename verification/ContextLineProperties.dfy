/** When the cached line is the one the archive would give, how often a day is read, and its shape. */
module ContextLineProperties {
  import opened Common
  import opened ContextLine
  import ContextSpan

  /** What the archive holds for a day, read at the given positions. */
  type Archive<!S> = (Option<PositionsId>, Day) -> seq<S>

  function At<S>(archive: Archive<S>, positions: Option<PositionsId>): Day -> seq<S> {
    d => archive(positions, d)
  }

  /** The line assembled from fresh reads of the archive. */
  function FreshLine<S>(archive: Archive<S>, source: ContextSource, gapAt: Day -> Option<S>): seq<S> {
    Assembled(source.archivedDays, None, At(archive, source.positions), gapAt)
  }

  /** The line depends on what is read only over its own days. */
  lemma {:induction false} AssembledFromItsDays<S>(days: seq<Day>, previous: Option<Day>, one: Day -> seq<S>,
                                                   other: Day -> seq<S>, gapAt: Day -> Option<S>)
    requires forall i :: 0 <= i < |days| ==> one(days[i]) == other(days[i])
    ensures Assembled(days, previous, one, gapAt) == Assembled(days, previous, other, gapAt)
    decreases |days|
  {
    if days != [] {
      forall i | 0 <= i < |days[1..]| ensures one(days[1..][i]) == other(days[1..][i]) {
        assert days[1..][i] == days[i + 1];
      }
      assert one(days[0]) == other(days[0]);
      AssembledFromItsDays(days[1..], if one(days[0]) == [] then previous else Some(days[0]), one, other, gapAt);
    }
  }

  /**
   A cache in use. `dirty` holds the days the archive changed since they were last forgotten, and
   `readAt` the positions of the last resolve.
   */
  datatype World<!S> = World(cache: CacheState<S>, archive: Archive<S>, dirty: iset<Day>, readAt: Option<PositionsId>)

  datatype Step<!S> =
    | ArchiveChanges(day: Day, reading: Option<PositionsId> -> seq<S>)
    | ArchivePruned(pruned: PrunedDays)
    | Forget(day: Day)
    | ForgetPrunedDays(pruned: PrunedDays)
    | Resolve(source: ContextSource)

  ghost function Next<S>(w: World<S>, step: Step<S>, gapAt: Day -> Option<S>): World<S> {
    match step
    case ArchiveChanges(day, reading) =>
      w.(archive := (p, d) => if d == day then reading(p) else w.archive(p, d), dirty := w.dirty + iset{day})
    case ArchivePruned(pruned) =>
      w.(archive := (p, d) => if pruned.Covers(d) then [] else w.archive(p, d),
         dirty := w.dirty + iset d: Day | pruned.Covers(d))
    case Forget(day) => w.(cache := Forgotten(w.cache, day), dirty := w.dirty - iset{day})
    case ForgetPrunedDays(pruned) =>
      w.(cache := PrunedForgotten(w.cache, pruned), dirty := w.dirty - iset d: Day | pruned.Covers(d))
    case Resolve(source) =>
      w.(cache := Resolved(w.cache, source, At(w.archive, source.positions), gapAt), readAt := source.positions)
  }

  /** The cached days were read at the current positions, and the line is the one over the cached days. */
  ghost predicate Agrees<S>(w: World<S>, gapAt: Day -> Option<S>) {
    && (forall d :: d in w.cache.days && d !in w.dirty ==> w.cache.days[d] == w.archive(w.readAt, d))
    && (w.cache.resolvedFrom.Some? ==>
          var source := w.cache.resolvedFrom.value;
          && source.positions == w.readAt
          && Elements(source.archivedDays) <= w.cache.days.Keys
          && w.cache.line == Assembled(source.archivedDays, None,
                                       Through(w.cache.days, At(w.archive, w.readAt)), gapAt))
  }

  /**
   A resolve notices changed positions: something is resolved, the positions are those of the last
   resolve, or nothing is cached.
   */
  predicate NoticesPositions<S>(w: World<S>, source: ContextSource) {
    w.cache.resolvedFrom.Some? || source.positions == w.readAt || w.cache.days == map[]
  }

  lemma ForgettingKeepsAgreement<S>(w: World<S>, step: Step<S>, gapAt: Day -> Option<S>)
    requires Agrees(w, gapAt) && (step.Forget? || step.ForgetPrunedDays?)
    ensures Agrees(Next(w, step, gapAt), gapAt)
  {
    var next := Next(w, step, gapAt);
    if step.ForgetPrunedDays? && next.cache == w.cache {
      var kept := map d | d in w.cache.days && !step.pruned.Covers(d) :: w.cache.days[d];
      assert kept.Keys <= w.cache.days.Keys;
      KeptAll(w.cache.days, kept);
      forall d | d in w.cache.days ensures !step.pruned.Covers(d) { assert d in kept; }
    }
  }

  lemma ArchiveChangesKeepAgreement<S>(w: World<S>, step: Step<S>, gapAt: Day -> Option<S>)
    requires Agrees(w, gapAt) && (step.ArchiveChanges? || step.ArchivePruned?)
    ensures Agrees(Next(w, step, gapAt), gapAt)
  {
    var next := Next(w, step, gapAt);
    if w.cache.resolvedFrom.Some? {
      var source := w.cache.resolvedFrom.value;
      forall i | 0 <= i < |source.archivedDays|
        ensures Through(w.cache.days, At(w.archive, w.readAt))(source.archivedDays[i])
             == Through(w.cache.days, At(next.archive, w.readAt))(source.archivedDays[i])
      {
        assert source.archivedDays[i] in Elements(source.archivedDays);
      }
      AssembledFromItsDays(source.archivedDays, None, Through(w.cache.days, At(w.archive, w.readAt)),
                           Through(w.cache.days, At(next.archive, w.readAt)), gapAt);
    }
  }

  lemma ResolvingKeepsAgreement<S>(w: World<S>, source: ContextSource, gapAt: Day -> Option<S>)
    requires Agrees(w, gapAt) && NoticesPositions(w, source)
    ensures Agrees(Next(w, Resolve(source), gapAt), gapAt)
  {
    if w.cache.resolvedFrom != Some(source) {
      var kept, read := KeptDays(w.cache, source), At(w.archive, source.positions);
      var days := Filled(kept, source.archivedDays, read);
      FilledExactly(kept, source.archivedDays, read);
      forall i | 0 <= i < |source.archivedDays|
        ensures Through(kept, read)(source.archivedDays[i]) == Through(days, read)(source.archivedDays[i])
      {
        var d := source.archivedDays[i];
        assert d in Elements(source.archivedDays);
        assert d in days.Keys && days[d] == Through(kept, read)(d);
      }
      AssembledFromItsDays(source.archivedDays, None, Through(kept, read), Through(days, read), gapAt);
    }
  }

  ghost function Run<S>(w: World<S>, steps: seq<Step<S>>, gapAt: Day -> Option<S>): World<S>
    decreases |steps|
  {
    if steps == [] then w else Run(Next(w, steps[0], gapAt), steps[1..], gapAt)
  }

  /** Every resolve of the run notices changed positions. */
  ghost predicate Noticing<S>(w: World<S>, steps: seq<Step<S>>, gapAt: Day -> Option<S>)
    decreases |steps|
  {
    steps == [] ||
    ((steps[0].Resolve? ==> NoticesPositions(w, steps[0].source)) && Noticing(Next(w, steps[0], gapAt), steps[1..], gapAt))
  }

  lemma {:induction false} RunKeepsAgreement<S>(w: World<S>, steps: seq<Step<S>>, gapAt: Day -> Option<S>)
    requires Agrees(w, gapAt) && Noticing(w, steps, gapAt)
    ensures Agrees(Run(w, steps, gapAt), gapAt)
    decreases |steps|
  {
    if steps != [] {
      match steps[0] {
        case Resolve(source) => ResolvingKeepsAgreement(w, source, gapAt);
        case Forget(_) => ForgettingKeepsAgreement(w, steps[0], gapAt);
        case ForgetPrunedDays(_) => ForgettingKeepsAgreement(w, steps[0], gapAt);
        case _ => ArchiveChangesKeepAgreement(w, steps[0], gapAt);
      }
      RunKeepsAgreement(Next(w, steps[0], gapAt), steps[1..], gapAt);
    }
  }

  /**
   After any run from an empty cache, a resolve over days whose changes were forgotten returns the
   line that fresh reads of the archive would give.
   */
  lemma ResolveIsFresh<S>(archive: Archive<S>, positions: Option<PositionsId>, steps: seq<Step<S>>,
                          source: ContextSource, gapAt: Day -> Option<S>)
    requires var w := World(CacheState(map[], None, []), archive, iset{}, positions);
             Noticing(w, steps, gapAt)
             && NoticesPositions(Run(w, steps, gapAt), source)
             && forall i :: 0 <= i < |source.archivedDays| ==> source.archivedDays[i] !in Run(w, steps, gapAt).dirty
    ensures var end := Run(World(CacheState(map[], None, []), archive, iset{}, positions), steps, gapAt);
            Next(end, Resolve(source), gapAt).cache.line == FreshLine(end.archive, source, gapAt)
  {
    var w := World(CacheState(map[], None, []), archive, iset{}, positions);
    RunKeepsAgreement(w, steps, gapAt);
    var end := Run(w, steps, gapAt);
    ResolvingKeepsAgreement(end, source, gapAt);
    AgreedLineIsFresh(Next(end, Resolve(source), gapAt), source, gapAt);
  }

  lemma AgreedLineIsFresh<S>(w: World<S>, source: ContextSource, gapAt: Day -> Option<S>)
    requires Agrees(w, gapAt) && w.cache.resolvedFrom == Some(source)
    requires forall i :: 0 <= i < |source.archivedDays| ==> source.archivedDays[i] !in w.dirty
    ensures w.cache.line == FreshLine(w.archive, source, gapAt)
  {
    var read := At(w.archive, w.readAt);
    forall i | 0 <= i < |source.archivedDays|
      ensures Through(w.cache.days, read)(source.archivedDays[i]) == read(source.archivedDays[i])
    {
      var d := source.archivedDays[i];
      assert d in Elements(source.archivedDays);
      assert d in w.cache.days.Keys && d !in w.dirty;
      assert w.cache.days[d] == w.archive(w.readAt, d);
    }
    AssembledFromItsDays(source.archivedDays, None, Through(w.cache.days, read), read, gapAt);
  }

  // ----- The interleaving that keeps samples read at the old positions -----

  /** The cached days are what `archive` gives at `positions`. */
  ghost predicate ReadAt<S>(days: map<Day, seq<S>>, archive: Archive<S>, positions: Option<PositionsId>) {
    forall d :: d in days ==> days[d] == archive(positions, d)
  }

  /**
   With nothing resolved, as after a forget, a resolve returns the fresh line for every archive the
   cached days can have been read from exactly when the positions are the ones they were read at or
   none of the source's days is cached.
   */
  lemma FreshAfterAForgetExactly<S>(c: CacheState<S>, readAt: Option<PositionsId>, source: ContextSource,
                                    gapAt: Day -> Option<S>, some: S)
    requires c.resolvedFrom.None? && Distinct(source.archivedDays)
    ensures (forall archive: Archive<S> :: ReadAt(c.days, archive, readAt) ==>
               Resolved(c, source, At(archive, source.positions), gapAt).line == FreshLine(archive, source, gapAt))
            <==> source.positions == readAt || Elements(source.archivedDays) * c.days.Keys == {}
  {
    if source.positions == readAt || Elements(source.archivedDays) * c.days.Keys == {} {
      forall archive: Archive<S> | ReadAt(c.days, archive, readAt)
        ensures Resolved(c, source, At(archive, source.positions), gapAt).line == FreshLine(archive, source, gapAt)
      {
        var read := At(archive, source.positions);
        forall i | 0 <= i < |source.archivedDays|
          ensures Through(c.days, read)(source.archivedDays[i]) == read(source.archivedDays[i])
        {
          var d := source.archivedDays[i];
          assert d in Elements(source.archivedDays);
          if d in c.days {
            assert source.positions != readAt ==> d in Elements(source.archivedDays) * c.days.Keys;
            assert c.days[d] == archive(readAt, d);
          }
        }
        AssembledFromItsDays(source.archivedDays, None, Through(c.days, read), read, gapAt);
      }
    } else {
      var day := MemberOf(Elements(source.archivedDays) * c.days.Keys);
      var archive := StaleArchive(c, readAt, source, gapAt, day, some);
    }
  }

  /** An archive whose values at the new positions differ from the cached line over `day`. */
  lemma StaleArchive<S>(c: CacheState<S>, readAt: Option<PositionsId>, source: ContextSource,
                        gapAt: Day -> Option<S>, day: Day, some: S) returns (archive: Archive<S>)
    requires c.resolvedFrom.None? && Distinct(source.archivedDays)
    requires source.positions != readAt && day in source.archivedDays && day in c.days
    ensures ReadAt(c.days, archive, readAt)
    ensures Resolved(c, source, At(archive, source.positions), gapAt).line != FreshLine(archive, source, gapAt)
  {
    var stale := Assembled(source.archivedDays, None, Through(c.days, d => []), gapAt);
    archive := (p, d) => if p == readAt then (if d in c.days then c.days[d] else [])
                         else if d == day then stale + [some] else [];
    var read := At(archive, source.positions);
    forall i | 0 <= i < |source.archivedDays|
      ensures Through(c.days, read)(source.archivedDays[i]) == Through(c.days, d => [])(source.archivedDays[i]) {}
    AssembledFromItsDays(source.archivedDays, None, Through(c.days, read), Through(c.days, d => []), gapAt);
    OnlyOneDay(source.archivedDays, read, gapAt, day);
    assert FreshLine(archive, source, gapAt) == stale + [some];
  }

  lemma {:induction false} OnlyOneDay<S>(days: seq<Day>, read: Day -> seq<S>, gapAt: Day -> Option<S>, day: Day)
    requires Distinct(days) && day in days && read(day) != []
    requires forall d :: d != day ==> read(d) == []
    ensures Assembled(days, None, read, gapAt) == read(day)
    decreases |days|
  {
    if days[0] == day {
      forall i | 0 <= i < |days[1..]| ensures read(days[1..][i]) == [] { assert days[1..][i] == days[i + 1]; }
      NoDays(days[1..], Some(day), read, gapAt);
    } else {
      OnlyOneDay(days[1..], read, gapAt, day);
    }
  }

  lemma {:induction false} NoDays<S>(days: seq<Day>, previous: Option<Day>, read: Day -> seq<S>, gapAt: Day -> Option<S>)
    requires forall i :: 0 <= i < |days| ==> read(days[i]) == []
    ensures Assembled(days, previous, read, gapAt) == []
    decreases |days|
  {
    if days != [] {
      forall i | 0 <= i < |days[1..]| ensures read(days[1..][i]) == [] { assert days[1..][i] == days[i + 1]; }
      NoDays(days[1..], previous, read, gapAt);
    }
  }

  lemma TwoDays<S>(d: Day, e: Day, read: Day -> seq<S>, gapAt: Day -> Option<S>)
    requires |read(d)| == 1 && |read(e)| == 1
    ensures Assembled([d, e], None, read, gapAt) == read(d) + GapBefore(Some(d), e, gapAt) + read(e)
  {
    assert [d, e][1..] == [e] && [e][1..] == [];
    assert Assembled([e][1..], Some(e), read, gapAt) == [];
    assert Assembled([e], Some(d), read, gapAt) == GapBefore(Some(d), e, gapAt) + read(e);
    assert GapBefore(None, d, gapAt) == [];
  }

  /**
   A run whose last line is stale: the positions change between forgetting the first day and the next
   resolve, which reads that day at the new positions and keeps the second as it was read at the old.
   */
  lemma ForgetHidesAPositionChange<S>(span: ContextSpan.Span, d: Day, e: Day, early: S, late: S, gapAt: Day -> Option<S>)
    requires d != e && early != late
    ensures var archive := (p: Option<PositionsId>, _: Day) => if p == Some(0) then [early] else [late];
            var before, after := ContextSource(span, [d, e], Some(0)), ContextSource(span, [d, e], Some(1));
            var end := Run(World(CacheState(map[], None, []), archive, iset{}, None),
                           [Resolve(before), Forget(d), Resolve(after)], gapAt);
            && end.dirty == iset{}
            && end.cache.line == [late] + GapBefore(Some(d), e, gapAt) + [early]
            && end.cache.line != FreshLine(archive, after, gapAt)
  {
    var archive := (p: Option<PositionsId>, _: Day) => if p == Some(0) then [early] else [late];
    var before, after := ContextSource(span, [d, e], Some(0)), ContextSource(span, [d, e], Some(1));
    var w := World(CacheState(map[], None, []), archive, iset{}, None);
    var w1 := Next(w, Resolve(before), gapAt);
    assert w1.cache.days == map[d := [early], e := [early]] by {
      var none: map<Day, seq<S>> := map[];
      FilledExactly(none, [d, e], At(archive, Some(0)));
      assert Elements([d, e]) == {d, e};
    }
    var w2 := Next(w1, Forget(d), gapAt);
    assert w2.cache.days == map[e := [early]] && w2.cache.resolvedFrom.None?;
    var w3 := Next(w2, Resolve(after), gapAt);
    TwoDays(d, e, Through(w2.cache.days, At(archive, Some(1))), gapAt);
    TwoDays(d, e, At(archive, Some(1)), gapAt);
    var stale := [late] + GapBefore(Some(d), e, gapAt) + [early];
    var current := [late] + GapBefore(Some(d), e, gapAt) + [late];
    assert stale[|stale| - 1] != current[|stale| - 1];
    ThreeSteps(w, [Resolve(before), Forget(d), Resolve(after)], gapAt);
  }

  lemma ThreeSteps<S>(w: World<S>, steps: seq<Step<S>>, gapAt: Day -> Option<S>)
    requires |steps| == 3
    ensures Run(w, steps, gapAt) == Next(Next(Next(w, steps[0], gapAt), steps[1], gapAt), steps[2], gapAt)
  {
    var w1 := Next(w, steps[0], gapAt);
    var w2 := Next(w1, steps[1], gapAt);
    assert steps[1..][1..] == steps[2..] && steps[2..][1..] == [];
    assert Run(w2, steps[2..], gapAt) == Run(Next(w2, steps[2], gapAt), steps[2..][1..], gapAt);
    assert Run(w1, steps[1..], gapAt) == Run(w2, steps[1..][1..], gapAt);
  }

  // ----- How often a day is read -----

  /** Whether `step` reads `day` from the archive. */
  ghost predicate Reads<S>(w: World<S>, step: Step<S>, day: Day) {
    step.Resolve? && day in DaysRead(w.cache, step.source)
  }

  /** Whether `step` drops what is cached for `day`. */
  ghost predicate Drops<S>(w: World<S>, step: Step<S>, day: Day) {
    day in w.cache.days &&
    match step
    case Forget(d) => d == day
    case ForgetPrunedDays(pruned) => pruned.Covers(day)
    case Resolve(source) => w.cache.resolvedFrom.Some? && w.cache.resolvedFrom.value.positions != source.positions
    case _ => false
  }

  ghost function ReadCount<S>(w: World<S>, steps: seq<Step<S>>, gapAt: Day -> Option<S>, day: Day): nat
    decreases |steps|
  {
    if steps == [] then 0
    else (if Reads(w, steps[0], day) then 1 else 0) + ReadCount(Next(w, steps[0], gapAt), steps[1..], gapAt, day)
  }

  ghost function DropCount<S>(w: World<S>, steps: seq<Step<S>>, gapAt: Day -> Option<S>, day: Day): nat
    decreases |steps|
  {
    if steps == [] then 0
    else (if Drops(w, steps[0], day) then 1 else 0) + DropCount(Next(w, steps[0], gapAt), steps[1..], gapAt, day)
  }

  function Held<S>(c: CacheState<S>, day: Day): nat {
    if day in c.days then 1 else 0
  }

  lemma StepBalancesReads<S>(w: World<S>, step: Step<S>, gapAt: Day -> Option<S>, day: Day)
    ensures Held(w.cache, day) + (if Reads(w, step, day) then 1 else 0)
         == Held(Next(w, step, gapAt).cache, day) + (if Drops(w, step, day) then 1 else 0)
  {
    match step
    case ForgetPrunedDays(pruned) =>
      var kept := map d | d in w.cache.days && !pruned.Covers(d) :: w.cache.days[d];
      assert kept.Keys <= w.cache.days.Keys;
      if |kept| == |w.cache.days| { KeptAll(w.cache.days, kept); }
    case Resolve(source) =>
      if w.cache.resolvedFrom != Some(source) {
        var kept := KeptDays(w.cache, source);
        FilledExactly(kept, source.archivedDays, At(w.archive, source.positions));
        NewDaysExactly(source.archivedDays, kept.Keys);
        assert day in DaysRead(w.cache, source) <==> day in Elements(DaysRead(w.cache, source));
        assert day in Next(w, step, gapAt).cache.days <==> day in Next(w, step, gapAt).cache.days.Keys;
      }
    case _ =>
  }

  /** Over any run a day is read exactly once more than it was dropped, while it is cached. */
  lemma {:induction false} ReadsBalanceDrops<S>(w: World<S>, steps: seq<Step<S>>, gapAt: Day -> Option<S>, day: Day)
    ensures Held(w.cache, day) + ReadCount(w, steps, gapAt, day)
         == Held(Run(w, steps, gapAt).cache, day) + DropCount(w, steps, gapAt, day)
    decreases |steps|
  {
    if steps != [] {
      StepBalancesReads(w, steps[0], gapAt, day);
      ReadsBalanceDrops(Next(w, steps[0], gapAt), steps[1..], gapAt, day);
    }
  }

  /** A forget drops exactly the day or the covered days, and with any of them the resolved source. */
  lemma ForgetsExactly<S>(c: CacheState<S>, day: Day, pruned: PrunedDays)
    ensures var one, some := Forgotten(c, day), PrunedForgotten(c, pruned);
            && one.days.Keys == c.days.Keys - {day} && some.days.Keys == (set d | d in c.days && !pruned.Covers(d))
            && (forall d :: d in one.days ==> one.days[d] == c.days[d])
            && (forall d :: d in some.days ==> some.days[d] == c.days[d])
            && one.line == some.line == c.line
            && one.resolvedFrom == (if day in c.days then None else c.resolvedFrom)
            && some.resolvedFrom == (if exists d :: d in c.days && pruned.Covers(d) then None else c.resolvedFrom)
  {
    var kept := map d | d in c.days && !pruned.Covers(d) :: c.days[d];
    assert kept.Keys <= c.days.Keys;
    if forall d :: d in c.days ==> !pruned.Covers(d) {
      assert kept == c.days;
    }
    if |kept| == |c.days| {
      KeptAll(c.days, kept);
      forall d | d in c.days ensures !pruned.Covers(d) { assert d in kept; }
    }
  }

  /** Forgetting days that are not cached leaves the cache, so the next equal source gets the same line. */
  lemma ForgettingNothingKeepsTheLine<S>(c: CacheState<S>, pruned: PrunedDays, source: ContextSource,
                                         read: Day -> seq<S>, gapAt: Day -> Option<S>)
    requires forall d :: d in c.days ==> !pruned.Covers(d)
    ensures PrunedForgotten(c, pruned) == c
    ensures forall d :: d !in c.days ==> Forgotten(c, d) == c
    ensures c.resolvedFrom == Some(source) ==>
              Resolved(PrunedForgotten(c, pruned), source, read, gapAt) == c && DaysRead(c, source) == []
  {
    var kept := map d | d in c.days && !pruned.Covers(d) :: c.days[d];
    assert kept == c.days;
  }
}
