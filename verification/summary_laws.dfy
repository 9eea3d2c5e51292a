/** What the summary conserves, and the window of latency samples it keeps. */
module SummaryLaws {
  import opened Common
  import opened Join
  import opened LogParser
  import opened Summary

  // --- the timeline -------------------------------------------------------------------------------------

  /** One point per hour, from the start of the window on, each hour once. */
  lemma {:induction false} TimelineHours(ls: seq<Line>, from: int, n: nat)
    ensures forall k :: 0 <= k < n ==> Timeline(ls, from, n)[k].hour == from + k * HOUR
    ensures forall j, k :: 0 <= j < k < n ==> Timeline(ls, from, n)[j].hour < Timeline(ls, from, n)[k].hour
  {
    hide PointOf;
    if n > 0 {
      TimelineHours(ls, from, n - 1);
    }
  }

  function SumPoints(points: seq<HourPoint>, g: Point -> int): int {
    if points == [] then 0 else SumPoints(points[..|points| - 1], g) + g(points[|points| - 1].point)
  }

  function InRange(from: int, n: nat, f: Line -> int): Line -> int {
    (l: Line) => if from <= l.hour < from + n * HOUR then f(l) else 0
  }

  predicate OnTheHour(t: int) { t % HOUR == 0 }

  lemma {:induction false} OneHourOnly(h: int, start: int)
    requires OnTheHour(h) && OnTheHour(start) && start <= h < start + HOUR
    ensures h == start
  {
  }

  lemma {:induction false} HoursLater(from: int, n: nat)
    requires OnTheHour(from)
    ensures OnTheHour(from + n * HOUR)
  {
    Shift(from + n * HOUR, n);
  }

  /** Summed over the timeline, a count is the count of the records whose hour the timeline has. */
  lemma {:induction false} TimelineSums(ls: seq<Line>, from: int, n: nat, f: Line -> int, g: Point -> int)
    requires OnTheHour(from) && forall l :: l in ls ==> OnTheHour(l.hour)
    requires forall h :: g(PointOf(ls, h)) == Tally(ls, InHour(h, f))
    ensures SumPoints(Timeline(ls, from, n), g) == Tally(ls, InRange(from, n, f))
  {
    hide PointOf;
    if n == 0 {
      NothingInRange(ls, from, f);
    } else {
      TimelineSums(ls, from, n - 1, f, g);
      var last := from + (n - 1) * HOUR;
      HoursLater(from, n - 1);
      forall l | l in ls
        ensures InRange(from, n, f)(l) == InRange(from, n - 1, f)(l) + InHour(last, f)(l)
      {
        if last <= l.hour < last + HOUR {
          OneHourOnly(l.hour, last);
        }
      }
      TallyPlus(ls, InRange(from, n - 1, f), InHour(last, f), InRange(from, n, f));
    }
  }

  lemma {:induction false} NothingInRange(ls: seq<Line>, from: int, f: Line -> int)
    ensures Tally(ls, InRange(from, 0, f)) == 0
  {
    if ls != [] {
      NothingInRange(ls[..|ls| - 1], from, f);
    }
  }

  function Requests(p: Point): int { p.requests }
  function Off(p: Point): int { p.off }
  function Failed(p: Point): int { p.failed }
  function Fallbacks(p: Point): int { p.fallbacks }
  function Unresolved(p: Point): int { p.unresolved }

  /** A count and the field of a point that carries it. */
  ghost predicate Counts(f: Line -> int, g: Point -> int) {
    || (f == One && g == Requests)
    || (f == IsOff && g == Off)
    || (f == IsFailed && g == Failed)
    || (f == IsFallback && g == Fallbacks)
    || (f == IsUnmatched && g == Unresolved)
  }

  lemma {:induction false} HourStarts(window: Window, now: int)
    ensures OnTheHour(From(window, now))
    ensures From(window, now) + (window.Hours() + 1) * HOUR == Truncate(now) + HOUR
  {
    HourCount(now, window.Hours());
  }

  /**
   Requests, unresolved, failed, fallbacks and off-baseline of the timeline each add up to the window's total
   exactly when no record that counts there lies in an hour after now.
   */
  lemma {:induction false} TimelineConserves(ls: seq<Line>, window: Window, now: int, f: Line -> int, g: Point -> int)
    requires forall l :: l in ls ==> OnTheHour(l.hour) && l.hour >= From(window, now)
    requires Counts(f, g)
    ensures SumPoints(Timeline(ls, From(window, now), window.Hours() + 1), g) == Tally(ls, f)
      <==> forall l :: l in ls && f(l) > 0 ==> l.hour <= now
  {
    hide Tally, From, Truncate, Timeline, SumPoints;
    var from, n := From(window, now), window.Hours() + 1;
    HourStarts(window, now);
    HourCount(now, 0);
    HoursLater(from, n);
    TimelineSums(ls, from, n, f, g);
    var r := InRange(from, n, f);
    assert forall l :: l in ls ==> r(l) <= f(l) && (r(l) == f(l) <==> (f(l) > 0 ==> l.hour <= now));
    TallyAtMost(ls, r, f);
  }

  /** For records timed inside the window, every one of the five sums is the total. */
  lemma {:induction false} WindowConserves(records: seq<Record>, facts: seq<Stored>, baseline: string, ls: seq<Line>,
                        window: Window, now: int, f: Line -> int, g: Point -> int)
    requires |ls| == |records| && forall i :: 0 <= i < |ls| ==> ls[i] == LineOf(records[i], facts, baseline)
    requires forall i :: 0 <= i < |records| ==> now - window.Hours() * HOUR <= records[i].time <= now
    requires Counts(f, g)
    ensures SumPoints(Timeline(ls, From(window, now), window.Hours() + 1), g) == Tally(ls, f)
  {
    TimelineConserves(ls, window, now, f, g);
  }

  lemma {:induction false} HourOf(r: Record, facts: seq<Stored>, baseline: string)
    ensures LineOf(r, facts, baseline).hour == Truncate(r.time)
  {
    hide Matched, GatewayChannel;
  }

  lemma {:induction false} TruncateKeepsOrder(a: int, b: int)
    requires a <= b
    ensures Truncate(a) <= Truncate(b) && OnTheHour(Truncate(a)) && Truncate(a) <= a
    ensures OnTheHour(Truncate(b)) && Truncate(b) <= b
  {
  }

  // --- two records the view does not show as it counts them ----------------------------------------------

  /** A record stamped an hour ahead of the clock. */
  function Ahead(now: int): Record { Built(Truncate(now) + HOUR, "", "c", false, 1, 0, 0, 0) }

  /** It is counted, and no point of the timeline has it. */
  lemma {:induction false} RecordAheadIsNotOnTheTimeline(window: Window, now: int)
    ensures var ls := [LineOf(Ahead(now), [], "")];
      Tally(ls, One) == 1 && SumPoints(Timeline(ls, From(window, now), window.Hours() + 1), Requests) != Tally(ls, One)
  {
    hide Timeline, SumPoints, From, Truncate, LineOf;
    var l := LineOf(Ahead(now), [], "");
    HourOf(Ahead(now), [], "");
    TruncateKeepsOrder(now, now);
    HoursLater(Truncate(now), 1);
    TruncateFixed(Truncate(now) + HOUR);
    HourStarts(window, now);
    HourCount(now, 0);
    assert [l][..0] == [];
    assert l in [l] && l.hour > now && l.hour >= From(window, now);
    TimelineConserves([l], window, now, One, Requests);
  }

  lemma {:induction false} TruncateFixed(t: int)
    requires OnTheHour(t)
    ensures Truncate(t) == t
  {
  }

  /** A fact that names a model and no provider, and the record of its request. */
  const NAMELESS := Stored("f.log", 0, Fact(Info("", "", Some(0), None), "", NO_ROUTING.(canonicalSlug := "m"), 1, 0, 1, 1, false))
  const ITS_RECORD := Built(0, "", "c", false, 1, 0, 0, 0)

  /** The record is joined and counted as resolved, and shows no channel. */
  lemma {:induction false} JoinedWithoutChannel(baseline: string)
    ensures Matched([NAMELESS], ITS_RECORD) == Some(NAMELESS) && GatewayChannel(WithChannel(ITS_RECORD, NAMELESS)) == ""
    ensures LineOf(ITS_RECORD, [NAMELESS], baseline).matched && LineOf(ITS_RECORD, [NAMELESS], baseline).channel == ""
      && !LineOf(ITS_RECORD, [NAMELESS], baseline).off
  {
    hide GatewayChannel;
    assert [NAMELESS][..0] == [];
    assert BySession([NAMELESS], ITS_RECORD) == None;
    assert Candidates([NAMELESS], ITS_RECORD) == [NAMELESS];
    JoinedChannel(ITS_RECORD, NAMELESS);
  }

  // --- the dimensions -----------------------------------------------------------------------------------

  function AddedSum(added: seq<Named>, f: Line -> int): int {
    if added == [] then 0 else AddedSum(added[..|added| - 1], f) + f(added[|added| - 1].line)
  }

  function PerName(added: seq<Named>, f: Line -> int): string -> int { (n: string) => SumOf(added, n, f) }

  lemma {:induction false} AbsentIsZero(added: seq<Named>, name: string, f: Line -> int)
    requires name !in Names(added)
    ensures SumOf(added, name, f) == 0
  {
    if added != [] {
      assert added[|added| - 1] in added;
      assert forall a :: a in added[..|added| - 1] ==> a in added;
      AbsentIsZero(added[..|added| - 1], name, f);
    }
  }

  /** The rows of a dimension add up to what went into it. */
  lemma {:induction false} RowsAddUp(added: seq<Named>, f: Line -> int)
    ensures SumSet(Names(added), PerName(added, f)) == AddedSum(added, f)
  {
    if added == [] {
      assert Names(added) == {};
    } else {
      var before, a := added[..|added| - 1], added[|added| - 1];
      RowsAddUp(before, f);
      assert added == before + [a];
      assert Names(added) == Names(before) + {a.name};
      if a.name !in Names(before) {
        AbsentIsZero(before, a.name, f);
      }
      SumBump(Names(before), a.name, f(a.line), PerName(before, f), PerName(added, f));
    }
  }

  /** A count of the records that name something. */
  function Naming(pick: Line -> string, f: Line -> int): Line -> int { (l: Line) => if pick(l) == "" then 0 else f(l) }

  /** What goes into a dimension is what the records that name something carry. */
  lemma {:induction false} DimensionSums(ls: seq<Line>, pick: Line -> string, f: Line -> int)
    ensures AddedSum(Dimension(ls, pick), f) == Tally(ls, Naming(pick, f))
  {
    if ls != [] {
      DimensionSums(ls[..|ls| - 1], pick, f);
      var l, before := ls[|ls| - 1], Dimension(ls[..|ls| - 1], pick);
      assert pick(l) != "" ==> (before + [Named(pick(l), l)])[..|before|] == before;
      assert before + [] == before;
    }
  }

  /** The credential rows sum to the records that name a credential, field by field; none is off the baseline there. */
  lemma {:induction false} CredentialRowsSum(ls: seq<Line>, f: Line -> int)
    ensures var added := Dimension(OnBaseline(ls), CredentialOf);
      && SumSet(Names(added), PerName(added, f)) == Tally(OnBaseline(ls), Naming(CredentialOf, f))
      && forall n :: RowOf(added, n).off == 0
  {
    hide Names, Tally, Dimension;
    var added := Dimension(OnBaseline(ls), CredentialOf);
    RowsAddUp(added, f);
    DimensionSums(OnBaseline(ls), CredentialOf, f);
    AddedFrom(OnBaseline(ls), CredentialOf);
    forall n
      ensures RowOf(added, n).off == 0
    {
      NeverOff(added, n);
    }
  }

  lemma {:induction false} AddedFrom(ls: seq<Line>, pick: Line -> string)
    ensures forall a :: a in Dimension(ls, pick) ==> a.line in ls && a.name == pick(a.line)
  {
    if ls != [] {
      AddedFrom(ls[..|ls| - 1], pick);
    }
  }

  lemma {:induction false} NeverOff(added: seq<Named>, name: string)
    requires forall a :: a in added ==> !a.line.off
    ensures SumOf(added, name, IsOff) == 0
  {
    if added != [] {
      NeverOff(added[..|added| - 1], name);
      assert added[|added| - 1] in added;
    }
  }

  ghost function SumRatios(keys: set<string>, f: string -> int, total: int): real
    requires total > 0
  {
    if keys == {} then 0.0 else
      var k :| k in keys;
      f(k) as real / total as real + SumRatios(keys - {k}, f, total)
  }

  lemma {:induction false} RatiosAreShares(keys: set<string>, f: string -> int, total: int)
    requires total > 0
    ensures SumRatios(keys, f, total) == SumSet(keys, f) as real / total as real
    decreases keys
  {
    if keys != {} {
      var k :| k in keys && SumRatios(keys, f, total) == f(k) as real / total as real + SumRatios(keys - {k}, f, total);
      RatiosAreShares(keys - {k}, f, total);
      SumPick(keys, k, f);
      Shares(f(k), SumSet(keys - {k}, f), total);
    }
  }

  lemma {:induction false} Shares(a: int, b: int, total: int)
    requires total > 0
    ensures a as real / total as real + b as real / total as real == (a + b) as real / total as real
  {
  }

  lemma {:induction false} AddedOnes(added: seq<Named>)
    ensures AddedSum(added, One) == |added|
  {
    if added != [] {
      AddedOnes(added[..|added| - 1]);
    }
  }

  /** In a dimension with any row at all the ratios add up to one. */
  lemma {:induction false} RatiosSumToOne(added: seq<Named>)
    requires added != []
    ensures SumRatios(Names(added), PerName(added, One), |added|) == 1.0
    ensures forall n :: Ratio(RowOf(added, n), |added|) == PerName(added, One)(n) as real / |added| as real
  {
    hide SumRatios, Names;
    RowsAddUp(added, One);
    AddedOnes(added);
    RatiosAreShares(Names(added), PerName(added, One), |added|);
    assert |added| as real / |added| as real == 1.0;
  }

  // --- latency samples ----------------------------------------------------------------------------------

  /** The values that were measured at all. */
  function NonZero(values: seq<int>): seq<int> {
    if values == [] then [] else
      NonZero(values[..|values| - 1]) + if values[|values| - 1] == 0 then [] else [values[|values| - 1]]
  }

  /** The last SAMPLE_CAP values in the order they were appended, in an array that shifts when it is full. */
  class Samples {
    const buf: array<int>
    var size: nat

    ghost predicate Valid()
      reads this
    {
      buf.Length == SAMPLE_CAP && size <= SAMPLE_CAP
    }

    ghost function Contents(): seq<int>
      requires Valid()
      reads this, buf
    {
      buf[..size]
    }

    constructor ()
      ensures Valid() && Contents() == [] && fresh(buf)
    {
      buf, size := new int[SAMPLE_CAP], 0;
    }

    /** Moves every sample one place down. */
    method ShiftDown()
      requires Valid() && size == SAMPLE_CAP
      modifies buf
      ensures buf[..size - 1] == old(buf[1..size])
    {
      hide LastN;
      for i := 1 to size
        invariant forall k :: 0 <= k < i - 1 ==> buf[k] == old(buf[k + 1])
        invariant forall k :: i - 1 <= k < size ==> buf[k] == old(buf[k])
      {
        buf[i - 1] := buf[i];
      }
    }

    method Append(value: int)
      requires Valid()
      modifies this, buf
      ensures Valid()
      ensures Contents() == if value == 0 then old(Contents()) else LastN(old(Contents()) + [value], SAMPLE_CAP)
    {
      if value == 0 {
        return;
      }
      if size >= SAMPLE_CAP {
        ShiftDown();
        buf[size - 1] := value;
        assert buf[..size] == old(buf[1..size]) + [value];
        return;
      }
      buf[size] := value;
      size := size + 1;
    }
  }

  function AfterAll(values: seq<int>): seq<int> {
    if values == [] then [] else
      var before, v := AfterAll(values[..|values| - 1]), values[|values| - 1];
      if v == 0 then before else LastN(before + [v], SAMPLE_CAP)
  }

  /** After any values the window holds the last 240 of those that were measured. */
  lemma {:induction false} SamplesAreTheLast(values: seq<int>)
    ensures AfterAll(values) == LastN(NonZero(values), 240)
  {
    hide LastN;
    if values == [] {
      ShortIsWhole();
    } else {
      var before, v := values[..|values| - 1], values[|values| - 1];
      SamplesAreTheLast(before);
      LastNAppend(NonZero(before), v, SAMPLE_CAP);
      assert NonZero(before) + [] == NonZero(before);
    }
  }

  lemma {:induction false} ShortIsWhole()
    ensures LastN<int>([], SAMPLE_CAP) == []
  {
  }
}
