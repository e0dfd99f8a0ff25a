/** The shape of an assembled line: which days it holds, where it breaks, and its order in time. */
module ContextLineShape {
  import opened Common
  import opened ContextLine
  import opened ContextSpan

  /** A stretch of a line: the samples of one day, or the gap at a day. */
  datatype Piece = Samples(day: Day) | Gap(day: Day)

  /** The gap before `day` when `previous` was the last day with samples. */
  function GapPieces(previous: Option<Day>, day: Day): seq<Piece> {
    if previous.Some? && previous.value < LAST_DAY && previous.value + 1 != day then [Gap(previous.value + 1)] else []
  }

  /** The pieces of the line over `days`. */
  function Pieces<S>(days: seq<Day>, previous: Option<Day>, read: Day -> seq<S>): seq<Piece>
    decreases |days|
  {
    if days == [] then []
    else if read(days[0]) == [] then Pieces(days[1..], previous, read)
    else GapPieces(previous, days[0]) + [Samples(days[0])] + Pieces(days[1..], Some(days[0]), read)
  }

  function PieceSamples<S>(piece: Piece, read: Day -> seq<S>, gapAt: Day -> Option<S>): seq<S> {
    match piece
    case Samples(day) => read(day)
    case Gap(day) => match gapAt(day) case None => [] case Some(gap) => [gap]
  }

  function Rendered<S>(pieces: seq<Piece>, read: Day -> seq<S>, gapAt: Day -> Option<S>): seq<S> {
    if pieces == [] then []
    else PieceSamples(pieces[0], read, gapAt) + Rendered(pieces[1..], read, gapAt)
  }

  lemma {:induction false} RenderedTogether<S>(a: seq<Piece>, b: seq<Piece>, read: Day -> seq<S>,
                                               gapAt: Day -> Option<S>)
    ensures Rendered(a + b, read, gapAt) == Rendered(a, read, gapAt) + Rendered(b, read, gapAt)
  {
    if a == [] {
      assert a + b == b;
    } else {
      assert (a + b)[1..] == a[1..] + b;
      RenderedTogether(a[1..], b, read, gapAt);
    }
  }

  lemma RenderedAlone<S>(piece: Piece, read: Day -> seq<S>, gapAt: Day -> Option<S>)
    ensures Rendered([piece], read, gapAt) == PieceSamples(piece, read, gapAt)
  {
    assert [piece][1..] == [];
  }

  /** A line is its pieces one after another. */
  lemma {:induction false} LineIsItsPieces<S>(days: seq<Day>, previous: Option<Day>, read: Day -> seq<S>,
                                              gapAt: Day -> Option<S>)
    ensures Assembled(days, previous, read, gapAt) == Rendered(Pieces(days, previous, read), read, gapAt)
    decreases |days|
  {
    if days != [] {
      LineIsItsPieces(days[1..], if read(days[0]) == [] then previous else Some(days[0]), read, gapAt);
      if read(days[0]) != [] {
        var gap, rest := GapPieces(previous, days[0]), Pieces(days[1..], Some(days[0]), read);
        RenderedTogether(gap + [Samples(days[0])], rest, read, gapAt);
        RenderedTogether(gap, [Samples(days[0])], read, gapAt);
        RenderedAlone(Samples(days[0]), read, gapAt);
        RenderedGap(previous, days[0], read, gapAt);
      }
    }
  }

  lemma RenderedGap<S>(previous: Option<Day>, day: Day, read: Day -> seq<S>, gapAt: Day -> Option<S>)
    ensures Rendered(GapPieces(previous, day), read, gapAt) == GapBefore(previous, day, gapAt)
  {
    if GapPieces(previous, day) != [] {
      RenderedAlone(Gap(previous.value + 1), read, gapAt);
    }
  }

  ghost predicate Ascending(days: seq<Day>) {
    forall i, j :: 0 <= i < j < |days| ==> days[i] < days[j]
  }

  /** `day` is listed and holds samples. */
  ghost predicate Holds<S>(days: seq<Day>, read: Day -> seq<S>, day: Day) {
    day in days && read(day) != []
  }

  /** `d` and `e` hold samples and no listed day between them does. */
  ghost predicate Consecutive<S>(days: seq<Day>, read: Day -> seq<S>, d: Day, e: Day) {
    Holds(days, read, d) && Holds(days, read, e) && d < e && forall x :: d < x < e ==> !Holds(days, read, x)
  }

  ghost predicate PiecesAscend(pieces: seq<Piece>) {
    forall i, j :: 0 <= i < j < |pieces| ==> pieces[i].day < pieces[j].day
  }

  /** The pieces come in the order of their days, all after the last day that had samples. */
  lemma {:induction false} PiecesAreAscending<S>(days: seq<Day>, previous: Option<Day>, read: Day -> seq<S>)
    requires Ascending(days) && forall i :: 0 <= i < |days| ==> previous.Some? ==> previous.value < days[i]
    ensures PiecesAscend(Pieces(days, previous, read))
    ensures forall i :: 0 <= i < |Pieces(days, previous, read)| && previous.Some?
                        ==> previous.value < Pieces(days, previous, read)[i].day
    decreases |days|
  {
    if days != [] {
      forall i | 0 <= i < |days[1..]| ensures days[0] < days[1..][i] { assert days[1..][i] == days[i + 1]; }
      PiecesAreAscending(days[1..], if read(days[0]) == [] then previous else Some(days[0]), read);
    }
  }

  /** Every listed day with samples is a piece, and no other day is. */
  lemma {:induction false} SamplesOfEveryDay<S>(days: seq<Day>, previous: Option<Day>, read: Day -> seq<S>, day: Day)
    ensures Samples(day) in Pieces(days, previous, read) <==> Holds(days, read, day)
    decreases |days|
  {
    if days != [] {
      SamplesOfEveryDay(days[1..], if read(days[0]) == [] then previous else Some(days[0]), read, day);
      assert day in days <==> day == days[0] || day in days[1..];
    }
  }

  /** There is a gap exactly on the day after a day with samples whose next day with samples is a later one. */
  ghost predicate BreaksAt<S>(days: seq<Day>, previous: Option<Day>, read: Day -> seq<S>, g: Day) {
    exists e :: Holds(days, read, e) && g < e
                && ((previous == Some(g - 1) && forall x :: x < e ==> !Holds(days, read, x))
                    || Consecutive(days, read, g - 1, e))
  }

  lemma {:induction false} GapsExactly<S>(days: seq<Day>, previous: Option<Day>, read: Day -> seq<S>, g: Day)
    requires Ascending(days) && forall i :: 0 <= i < |days| ==> days[i] <= LAST_DAY
    requires forall i :: 0 <= i < |days| ==> previous.Some? ==> previous.value < days[i]
    ensures Gap(g) in Pieces(days, previous, read) <==> BreaksAt(days, previous, read, g)
    decreases |days|
  {
    if days == [] {
      assert Pieces(days, previous, read) == [];
    } else {
      var day, rest := days[0], days[1..];
      forall i | 0 <= i < |rest| ensures day < rest[i] <= LAST_DAY { assert rest[i] == days[i + 1]; }
      forall x ensures Holds(days, read, x) <==> (x == day && read(day) != []) || Holds(rest, read, x) {
        assert days == [day] + rest;
      }
      forall x ensures Holds(rest, read, x) ==> day < x {
        if x in rest { var k := PlaceOf(rest, x); }
      }
      if read(day) == [] {
        GapsExactly(rest, previous, read, g);
        assert forall x :: Holds(days, read, x) <==> Holds(rest, read, x);
        SameBreaks(days, rest, previous, read, g);
      } else {
        GapsExactly(rest, Some(day), read, g);
        BreaksAfterTheFirst(days, previous, read, g);
      }
    }
  }

  lemma SameBreaks<S>(days: seq<Day>, rest: seq<Day>, previous: Option<Day>, read: Day -> seq<S>, g: Day)
    requires forall x :: Holds(days, read, x) <==> Holds(rest, read, x)
    ensures BreaksAt(days, previous, read, g) <==> BreaksAt(rest, previous, read, g)
  {
    forall d, e ensures Consecutive(days, read, d, e) <==> Consecutive(rest, read, d, e) {}
  }

  ghost predicate StartsWith<S>(days: seq<Day>, read: Day -> seq<S>, day: Day, rest: seq<Day>) {
    && Holds(days, read, day)
    && (forall x :: Holds(days, read, x) <==> x == day || Holds(rest, read, x))
    && (forall x :: Holds(rest, read, x) ==> day < x)
  }

  lemma BreaksAfterTheFirst<S>(days: seq<Day>, previous: Option<Day>, read: Day -> seq<S>, g: Day)
    requires days != [] && StartsWith(days, read, days[0], days[1..])
    requires previous.Some? ==> previous.value < days[0]
    ensures BreaksAt(days, previous, read, g)
            <==> (previous == Some(g - 1) && g < days[0]) || BreaksAt(days[1..], Some(days[0]), read, g)
  {
    var day, rest := days[0], days[1..];
    if BreaksAt(days, previous, read, g) {
      var e :| Holds(days, read, e) && g < e
               && ((previous == Some(g - 1) && forall x :: x < e ==> !Holds(days, read, x))
                   || Consecutive(days, read, g - 1, e));
      if Consecutive(days, read, g - 1, e) {
        BreakInTheRest(days, day, rest, read, g, e);
      }
    }
    if previous == Some(g - 1) && g < day {
      assert Holds(days, read, day) && forall x :: x < day ==> !Holds(days, read, x);
    }
    if BreaksAt(rest, Some(day), read, g) {
      BreakFromTheRest(days, day, rest, read, g);
      assert BreaksAt(days, previous, read, g);
    }
  }

  lemma BreakInTheRest<S>(days: seq<Day>, day: Day, rest: seq<Day>, read: Day -> seq<S>, g: Day, e: Day)
    requires StartsWith(days, read, day, rest) && Consecutive(days, read, g - 1, e) && g < e
    ensures BreaksAt(rest, Some(day), read, g)
  {
    assert Holds(rest, read, e);
    if g - 1 != day {
      assert Consecutive(rest, read, g - 1, e);
    }
  }

  lemma BreakFromTheRest<S>(days: seq<Day>, day: Day, rest: seq<Day>, read: Day -> seq<S>, g: Day)
    requires StartsWith(days, read, day, rest) && BreaksAt(rest, Some(day), read, g)
    ensures exists e :: Holds(days, read, e) && g < e && Consecutive(days, read, g - 1, e)
  {
    var e :| Holds(rest, read, e) && g < e
             && ((Some(day) == Some(g - 1) && forall x :: x < e ==> !Holds(rest, read, x))
                 || Consecutive(rest, read, g - 1, e));
    assert Holds(days, read, e) && Consecutive(days, read, g - 1, e);
  }

  /** The day before `g` holds samples, and the next day that does comes after `g`. */
  ghost predicate BreaksOn<S>(days: seq<Day>, read: Day -> seq<S>, g: Day) {
    NextComesAfter(days, read, g - 1, g)
  }

  ghost predicate NextComesAfter<S>(days: seq<Day>, read: Day -> seq<S>, d: Day, g: Day) {
    exists e :: Consecutive(days, read, d, e) && g < e
  }

  /**
   The line over strictly ascending days is the samples of the days that hold any, in order, with one
   gap on the day after `d` between consecutive such days `d` and `e` exactly when `e` comes after it.
   */
  lemma LineShape<S>(days: seq<Day>, read: Day -> seq<S>, gapAt: Day -> Option<S>)
    requires Ascending(days) && forall i :: 0 <= i < |days| ==> days[i] <= LAST_DAY
    ensures var pieces := Pieces(days, None, read);
            && Assembled(days, None, read, gapAt) == Rendered(pieces, read, gapAt)
            && PiecesAscend(pieces)
            && (forall day :: Samples(day) in pieces <==> Holds(days, read, day))
            && (forall g :: Gap(g) in pieces <==> BreaksOn(days, read, g))
  {
    LineIsItsPieces(days, None, read, gapAt);
    PiecesAreAscending(days, None, read);
    var pieces := Pieces(days, None, read);
    forall day ensures Samples(day) in pieces <==> Holds(days, read, day) {
      SamplesOfEveryDay(days, None, read, day);
    }
    forall g ensures Gap(g) in pieces <==> BreaksOn(days, read, g) {
      GapsExactly(days, None, read, g);
      if BreaksOn(days, read, g) {
        var e :| Consecutive(days, read, g - 1, e) && g < e;
        assert Holds(days, read, e);
      }
    }
  }

  // ----- Order in time -----

  /** The samples of a piece are strictly ordered in time, within the day of the piece. */
  ghost predicate WithinDay<S>(samples: seq<S>, day: Day, time: S -> int, midnight: Day -> int) {
    && (forall i, j :: 0 <= i < j < |samples| ==> time(samples[i]) < time(samples[j]))
    && (forall i :: 0 <= i < |samples| ==> midnight(day) <= time(samples[i]) < midnight(day + 1))
  }

  ghost predicate StrictlyOrdered<S>(line: seq<S>, time: S -> int) {
    forall i, j :: 0 <= i < j < |line| ==> time(line[i]) < time(line[j])
  }

  lemma {:induction false} RenderedIsOrdered<S>(pieces: seq<Piece>, read: Day -> seq<S>, gapAt: Day -> Option<S>,
                                                time: S -> int, midnight: Day -> int)
    requires PiecesAscend(pieces)
    requires forall d, e :: d < e ==> midnight(d) < midnight(e)
    requires forall i :: 0 <= i < |pieces|
                         ==> WithinDay(PieceSamples(pieces[i], read, gapAt), pieces[i].day, time, midnight)
    ensures StrictlyOrdered(Rendered(pieces, read, gapAt), time)
    ensures forall i :: 0 <= i < |Rendered(pieces, read, gapAt)|
                        ==> pieces != [] && midnight(pieces[0].day) <= time(Rendered(pieces, read, gapAt)[i])
    decreases |pieces|
  {
    if pieces != [] {
      var first, rest := PieceSamples(pieces[0], read, gapAt), pieces[1..];
      forall i | 0 <= i < |rest|
        ensures WithinDay(PieceSamples(rest[i], read, gapAt), rest[i].day, time, midnight)
      {
        assert rest[i] == pieces[i + 1];
      }
      RenderedIsOrdered(rest, read, gapAt, time, midnight);
      var later := Rendered(rest, read, gapAt);
      assert WithinDay(first, pieces[0].day, time, midnight);
      forall i, j | 0 <= i < |first| && 0 <= j < |later| ensures time(first[i]) < time(later[j]) {
        assert pieces[0].day < rest[0].day;
        assert midnight(pieces[0].day + 1) <= midnight(rest[0].day);
      }
      forall j | 0 <= j < |later| ensures midnight(pieces[0].day) <= time(later[j]) {
        assert pieces[0].day < rest[0].day;
      }
    }
  }

  /** With each day's samples ordered within their day and gaps at midnight, the line is ordered in time. */
  lemma LineIsOrderedInTime<S>(days: seq<Day>, read: Day -> seq<S>, gapAt: Day -> Option<S>,
                               time: S -> int, midnight: Day -> int)
    requires Ascending(days) && forall i :: 0 <= i < |days| ==> days[i] <= LAST_DAY
    requires forall d, e :: d < e ==> midnight(d) < midnight(e)
    requires forall i :: 0 <= i < |days| ==> WithinDay(read(days[i]), days[i], time, midnight)
    requires forall g :: gapAt(g).Some? ==> time(gapAt(g).value) == midnight(g)
    ensures StrictlyOrdered(Assembled(days, None, read, gapAt), time)
  {
    LineShape(days, read, gapAt);
    var pieces := Pieces(days, None, read);
    forall i | 0 <= i < |pieces|
      ensures WithinDay(PieceSamples(pieces[i], read, gapAt), pieces[i].day, time, midnight)
    {
      if pieces[i].Samples? {
        assert pieces[i] in pieces;
        assert Holds(days, read, pieces[i].day);
      }
      PieceWithinItsDay(pieces[i], read, gapAt, time, midnight);
    }
    RenderedIsOrdered(pieces, read, gapAt, time, midnight);
  }

  lemma PieceWithinItsDay<S>(piece: Piece, read: Day -> seq<S>, gapAt: Day -> Option<S>,
                             time: S -> int, midnight: Day -> int)
    requires midnight(piece.day) < midnight(piece.day + 1)
    requires piece.Samples? ==> WithinDay(read(piece.day), piece.day, time, midnight)
    requires gapAt(piece.day).Some? ==> time(gapAt(piece.day).value) == midnight(piece.day)
    ensures WithinDay(PieceSamples(piece, read, gapAt), piece.day, time, midnight)
  {}
}
