/** The channel view's summary of a window of usage records. */
module Summary {
  import opened Text
  import opened Join

  const SCHEMA_VERSION := 3

  // One hour in nanoseconds.
  const HOUR := 3_600_000_000_000

  const SAMPLE_CAP := 240

  function Truncate(t: int): int { t - t % HOUR }

  // --- stored records -----------------------------------------------------------------------------------

  /** The record built from a usage payload: it names no channel. */
  function Built(time: int, sessionID: string, credential: string, failed: bool, input: int, output: int, cached: int,
                 ttft: int): Record {
    Record(SCHEMA_VERSION, time, sessionID, credential, failed, input, output, cached, ttft, "", "", "", "", "", 0, 0.0, "")
  }

  /** A line read back. Before version 3 the channel fields held the credential, and no channel at all. */
  function Loaded(line: Record): Record {
    if line.schema >= SCHEMA_VERSION then line else
      line.(credential := FirstNonEmpty([line.credential, line.finalProvider, line.resolvedProvider]),
            finalProvider := "", resolvedProvider := "", gatewayProvider := "", gatewayResolved := "", slug := "",
            attempts := 0, gatewayCost := 0.0, source := "")
  }

  /** What the store may hold: lines the recorder built, and lines of an older version, whatever they say. */
  predicate FromStore(line: Record) {
    line.schema < SCHEMA_VERSION
    || line == Built(line.time, line.sessionID, line.credential, line.failed, line.input, line.output, line.cached, line.ttft)
  }

  /** No record read from the store carries a channel, and an old line keeps the credential it named. */
  lemma {:induction false} StoredNamesNoChannel(line: Record)
    requires FromStore(line)
    ensures GatewayChannel(Loaded(line)) == ""
    ensures Loaded(line).attempts == 0
    ensures line.schema < SCHEMA_VERSION && (line.credential != "" || line.finalProvider != "" || line.resolvedProvider != "")
      ==> Loaded(line).credential in {line.credential, line.finalProvider, line.resolvedProvider} && Loaded(line).credential != ""
  {
    AllEmpty();
    var names := [line.credential, line.finalProvider, line.resolvedProvider];
    Next(names);
    Next(names[1..]);
    Next(names[2..]);
    assert names[1..][1..] == names[2..];
  }

  lemma {:induction false} AllEmpty()
    ensures FirstNonEmpty(["", "", "", ""]) == ""
  {
    var e := ["", "", "", ""];
    assert e[1..] == ["", "", ""] && e[2..] == ["", ""] && e[3..] == [""];
    Next(e);
    Next(e[1..]);
    Next(e[2..]);
    Next(e[3..]);
    assert e[1..][1..] == e[2..] && e[2..][1..] == e[3..] && e[3..][1..] == [];
  }

  // --- one record as the summary counts it --------------------------------------------------------------

  datatype Line = Line(matched: bool, off: bool, failed: bool, fallback: bool, credential: string, channel: string,
                       input: int, output: int, cached: int, ttft: int, hour: int)

  function LineOf(stored: Record, facts: seq<Stored>, baseline: string): Line {
    var fact := Matched(facts, stored);
    var r := if fact.Some? then WithChannel(stored, fact.value) else stored;
    var channel := GatewayChannel(r);
    Line(fact.Some?, channel != "" && baseline != "" && !EqualFold(channel, baseline), r.failed,
         fact.Some? && r.attempts > 1, r.credential, r.gatewayProvider, r.input, r.output, r.cached, r.ttft, Truncate(r.time))
  }

  /** A record without a fact is never off the baseline. */
  lemma {:induction false} UnmatchedIsNotOff(line: Record, facts: seq<Stored>, baseline: string)
    requires FromStore(line)
    ensures LineOf(Loaded(line), facts, baseline).off ==> LineOf(Loaded(line), facts, baseline).matched
  {
    StoredNamesNoChannel(line);
  }

  // --- sums over the window -----------------------------------------------------------------------------

  function Tally(ls: seq<Line>, f: Line -> int): int {
    if ls == [] then 0 else Tally(ls[..|ls| - 1], f) + f(ls[|ls| - 1])
  }

  function One(l: Line): int { 1 }
  function IsMatched(l: Line): int { if l.matched then 1 else 0 }
  function IsUnmatched(l: Line): int { if l.matched then 0 else 1 }
  function IsOff(l: Line): int { if l.off then 1 else 0 }
  function IsFailed(l: Line): int { if l.failed then 1 else 0 }
  function IsFallback(l: Line): int { if l.fallback then 1 else 0 }

  datatype Totals = Totals(resolved: int, unresolved: int, off: int, failed: int, fallbacks: int,
                           input: int, output: int, cached: int)

  function TotalsOf(ls: seq<Line>): Totals {
    Totals(Tally(ls, IsMatched), Tally(ls, IsUnmatched), Tally(ls, IsOff), Tally(ls, IsFailed), Tally(ls, IsFallback),
           Tally(ls, (l: Line) => l.input), Tally(ls, (l: Line) => l.output), Tally(ls, (l: Line) => l.cached))
  }

  lemma {:induction false} TotalsNext(ls: seq<Line>, l: Line)
    ensures TotalsOf(ls + [l]) == var t := TotalsOf(ls);
      Totals(t.resolved + IsMatched(l), t.unresolved + IsUnmatched(l), t.off + IsOff(l), t.failed + IsFailed(l),
             t.fallbacks + IsFallback(l), t.input + l.input, t.output + l.output, t.cached + l.cached)
  {
    assert (ls + [l])[..|ls|] == ls;
  }

  lemma {:induction false} TallyPlus(ls: seq<Line>, f: Line -> int, g: Line -> int, h: Line -> int)
    requires forall l :: l in ls ==> h(l) == f(l) + g(l)
    ensures Tally(ls, h) == Tally(ls, f) + Tally(ls, g)
  {
    if ls != [] {
      TallyPlus(ls[..|ls| - 1], f, g, h);
    }
  }

  lemma {:induction false} TallyAtMost(ls: seq<Line>, f: Line -> int, g: Line -> int)
    requires forall l :: l in ls ==> f(l) <= g(l)
    ensures Tally(ls, f) <= Tally(ls, g)
    ensures Tally(ls, f) == Tally(ls, g) <==> forall l :: l in ls ==> f(l) == g(l)
  {
    if ls != [] {
      var before, last := ls[..|ls| - 1], ls[|ls| - 1];
      TallyAtMost(before, f, g);
      assert forall l :: l in ls <==> l in before || l == last;
    }
  }

  lemma {:induction false} TallyOnes(ls: seq<Line>)
    ensures Tally(ls, One) == |ls|
  {
    if ls != [] {
      TallyOnes(ls[..|ls| - 1]);
    }
  }

  /** Every record is resolved or not, and for records of the store only a resolved one can be off the baseline. */
  lemma {:induction false} WindowSplits(lines: seq<Record>, facts: seq<Stored>, baseline: string, ls: seq<Line>)
    requires forall i :: 0 <= i < |lines| ==> FromStore(lines[i])
    requires |ls| == |lines| && forall i :: 0 <= i < |ls| ==> ls[i] == LineOf(Loaded(lines[i]), facts, baseline)
    ensures TotalsOf(ls).resolved + TotalsOf(ls).unresolved == |lines|
    ensures TotalsOf(ls).off <= TotalsOf(ls).resolved
    ensures TotalsOf(ls).fallbacks <= TotalsOf(ls).resolved
  {
    hide LineOf, Loaded, FromStore;
    TallyPlus(ls, IsMatched, IsUnmatched, One);
    TallyOnes(ls);
    forall l | l in ls
      ensures IsOff(l) <= IsMatched(l) && IsFallback(l) <= IsMatched(l)
    {
      var i :| 0 <= i < |ls| && ls[i] == l;
      UnmatchedIsNotOff(lines[i], facts, baseline);
      FallbackIsMatched(Loaded(lines[i]), facts, baseline);
    }
    TallyAtMost(ls, IsOff, IsMatched);
    TallyAtMost(ls, IsFallback, IsMatched);
  }

  lemma {:induction false} FallbackIsMatched(r: Record, facts: seq<Stored>, baseline: string)
    ensures LineOf(r, facts, baseline).fallback ==> LineOf(r, facts, baseline).matched
  {
  }

  // --- hours --------------------------------------------------------------------------------------------

  datatype Point = Point(requests: int, off: int, failed: int, fallbacks: int, unresolved: int)

  const NO_POINT := Point(0, 0, 0, 0, 0)

  function InHour(hour: int, f: Line -> int): Line -> int { (l: Line) => if l.hour == hour then f(l) else 0 }

  function PointOf(ls: seq<Line>, hour: int): Point {
    Point(Tally(ls, InHour(hour, One)), Tally(ls, InHour(hour, IsOff)), Tally(ls, InHour(hour, IsFailed)),
          Tally(ls, InHour(hour, IsFallback)), Tally(ls, InHour(hour, IsUnmatched)))
  }

  function Bumped(p: Point, l: Line): Point {
    Point(p.requests + 1, p.off + IsOff(l), p.failed + IsFailed(l), p.fallbacks + IsFallback(l), p.unresolved + IsUnmatched(l))
  }

  lemma {:induction false} PointNext(ls: seq<Line>, l: Line, hour: int)
    ensures PointOf(ls + [l], hour) == if l.hour == hour then Bumped(PointOf(ls, hour), l) else PointOf(ls, hour)
  {
    TallyHour(ls, l, hour, One);
    TallyHour(ls, l, hour, IsOff);
    TallyHour(ls, l, hour, IsFailed);
    TallyHour(ls, l, hour, IsFallback);
    TallyHour(ls, l, hour, IsUnmatched);
  }

  lemma {:induction false} TallyHour(ls: seq<Line>, l: Line, hour: int, f: Line -> int)
    ensures Tally(ls + [l], InHour(hour, f)) == Tally(ls, InHour(hour, f)) + if l.hour == hour then f(l) else 0
  {
    assert (ls + [l])[..|ls|] == ls;
  }

  /** The accumulated hours are those of the records, each with its own counts. */
  ghost predicate HoursOf(hours: map<int, Point>, ls: seq<Line>) {
    forall h :: (if h in hours then hours[h] else NO_POINT) == PointOf(ls, h)
  }

  lemma {:induction false} HoursNext(hours: map<int, Point>, ls: seq<Line>, l: Line)
    requires HoursOf(hours, ls)
    ensures HoursOf(hours[l.hour := Bumped(if l.hour in hours then hours[l.hour] else NO_POINT, l)], ls + [l])
  {
    hide PointOf, Bumped;
    forall h
      ensures PointOf(ls + [l], h) == if l.hour == h then Bumped(PointOf(ls, h), l) else PointOf(ls, h)
    {
      PointNext(ls, l, h);
    }
  }

  datatype HourPoint = HourPoint(hour: int, point: Point)

  /** The first `n` points of the timeline. */
  function Timeline(ls: seq<Line>, from: int, n: nat): (points: seq<HourPoint>)
    ensures |points| == n
  {
    if n == 0 then [] else Timeline(ls, from, n - 1) + [HourPoint(from + (n - 1) * HOUR, PointOf(ls, from + (n - 1) * HOUR))]
  }

  // --- the provider dimensions --------------------------------------------------------------------------

  datatype Named = Named(name: string, line: Line)

  datatype Row = Row(requests: int, off: int, failed: int, input: int, output: int, cached: int)

  function Names(added: seq<Named>): set<string> { set a | a in added :: a.name }

  function SumOf(added: seq<Named>, name: string, f: Line -> int): int {
    if added == [] then 0 else
      var a := added[|added| - 1];
      SumOf(added[..|added| - 1], name, f) + if a.name == name then f(a.line) else 0
  }

  function RowOf(added: seq<Named>, name: string): Row {
    Row(SumOf(added, name, One), SumOf(added, name, IsOff), SumOf(added, name, IsFailed), SumOf(added, name, (l: Line) => l.input),
        SumOf(added, name, (l: Line) => l.output), SumOf(added, name, (l: Line) => l.cached))
  }

  function RowWith(r: Row, l: Line): Row {
    Row(r.requests + 1, r.off + IsOff(l), r.failed + IsFailed(l), r.input + l.input, r.output + l.output, r.cached + l.cached)
  }

  const NO_ROW := Row(0, 0, 0, 0, 0, 0)

  lemma {:induction false} RowNext(added: seq<Named>, a: Named, name: string)
    ensures RowOf(added + [a], name) == if a.name == name then RowWith(RowOf(added, name), a.line) else RowOf(added, name)
  {
    assert (added + [a])[..|added|] == added;
  }

  /** The records that name something, by what they name. */
  function Dimension(ls: seq<Line>, pick: Line -> string): seq<Named> {
    if ls == [] then [] else
      var l := ls[|ls| - 1];
      Dimension(ls[..|ls| - 1], pick) + if pick(l) == "" then [] else [Named(pick(l), l)]
  }

  function CredentialOf(l: Line): string { l.credential }
  function ChannelOf(l: Line): string { l.channel }

  /** No record counts as off the baseline under its credential. */
  function OnBaseline(ls: seq<Line>): (r: seq<Line>)
    ensures |r| == |ls|
    ensures forall i :: 0 <= i < |r| ==> r[i] == ls[i].(off := false)
  {
    seq(|ls|, i requires 0 <= i < |ls| => ls[i].(off := false))
  }

  function Ratio(row: Row, total: nat): real {
    if total > 0 then row.requests as real / total as real else 0.0
  }

  datatype Entry = Entry(name: string, row: Row, ratio: real)

  class ProviderAccumulator {
    var rows: map<string, Row>
    var total: nat
    ghost var added: seq<Named>

    ghost predicate Valid()
      reads this
    {
      && total == |added|
      && rows.Keys == Names(added)
      && forall n :: (if n in rows then rows[n] else NO_ROW) == RowOf(added, n)
    }

    constructor ()
      ensures Valid() && added == []
    {
      rows, total, added := map[], 0, [];
    }

    /** A record that names nothing is not a row; `off` says whether it counts as off the baseline here. */
    method Add(name: string, l: Line, off: bool)
      requires Valid()
      modifies this
      ensures Valid() && added == old(added) + if name == "" then [] else [Named(name, l.(off := off))]
    {
      hide RowOf, RowWith;
      if name == "" {
        assert added == added + [];
        return;
      }
      ghost var a := Named(name, l.(off := off));
      forall n
        ensures RowOf(added + [a], n) == if name == n then RowWith(RowOf(added, n), a.line) else RowOf(added, n)
      {
        RowNext(added, a, n);
      }
      assert Names(added + [a]) == Names(added) + {name};
      var row := if name in rows then rows[name] else NO_ROW;
      total := total + 1;
      row := RowPlus(row, l, off);
      rows := rows[name := row];
      added := added + [a];
    }

    /** The rows with their shares, in no particular order. */
    method List() returns (out: seq<Entry>)
      requires Valid()
      ensures |out| == |Names(added)|
      ensures forall e :: e in out <==>
        e.name in Names(added) && e == Entry(e.name, RowOf(added, e.name), Ratio(RowOf(added, e.name), |added|))
    {
      hide Ratio, RowOf, Names;
      out := [];
      var left := rows.Keys;
      while left != {}
        invariant left <= rows.Keys && |out| + |left| == |rows|
        invariant forall e :: e in out <==> e.name in rows.Keys - left && e == Entry(e.name, rows[e.name], Ratio(rows[e.name], total))
        decreases left
      {
        var name :| name in left;
        out := out + [Entry(name, rows[name], Ratio(rows[name], total))];
        left := left - {name};
      }
    }
  }

  method RowPlus(row: Row, l: Line, off: bool) returns (r: Row)
    ensures r == RowWith(row, l.(off := off))
  {
    r := row.(requests := row.requests + 1);
    if off {
      r := r.(off := r.off + 1);
    }
    if l.failed {
      r := r.(failed := r.failed + 1);
    }
    r := r.(input := r.input + l.input, output := r.output + l.output, cached := r.cached + l.cached);
  }

  // --- the summary --------------------------------------------------------------------------------------

  datatype Window = OneHour | OneDay | OneWeek {
    function Hours(): nat { match this case OneHour => 1 case OneDay => 24 case OneWeek => 168 }
  }

  datatype Summary = Summary(totals: Totals, hours: seq<HourPoint>)

  function From(window: Window, now: int): int { Truncate(now - window.Hours() * HOUR) }

  /**
   The records of the window, joined and counted: the totals, the timeline, and the two provider dimensions
   left in their accumulators.
   */
  method Summarise(records: seq<Record>, facts: seq<Stored>, baseline: string, window: Window, now: int)
    returns (s: Summary, channels: ProviderAccumulator, credentials: ProviderAccumulator, ghost ls: seq<Line>)
    ensures |ls| == |records| && forall i :: 0 <= i < |ls| ==> ls[i] == LineOf(records[i], facts, baseline)
    ensures s == Summary(TotalsOf(ls), Timeline(ls, From(window, now), window.Hours() + 1))
    ensures channels.Valid() && channels.added == Dimension(ls, ChannelOf)
    ensures credentials.Valid() && credentials.added == Dimension(OnBaseline(ls), CredentialOf)
  {
    hide LineOf, TotalsOf, HoursOf, Bumped, Timeline, Dimension;
    channels := new ProviderAccumulator();
    credentials := new ProviderAccumulator();
    var totals: Totals := Totals(0, 0, 0, 0, 0, 0, 0, 0);
    var hours: map<int, Point> := map[];
    ls := [];
    NothingCounted();
    NothingNamed();
    for i := 0 to |records|
      invariant |ls| == i && forall k :: 0 <= k < i ==> ls[k] == LineOf(records[k], facts, baseline)
      invariant totals == TotalsOf(ls) && HoursOf(hours, ls)
      invariant channels.Valid() && channels.added == Dimension(ls, ChannelOf) && fresh(channels)
      invariant credentials.Valid() && credentials.added == Dimension(OnBaseline(ls), CredentialOf) && fresh(credentials)
      invariant channels != credentials
    {
      var l := LineOf(records[i], facts, baseline);
      TotalsNext(ls, l);
      HoursNext(hours, ls, l);
      DimensionNext(ls, l, ChannelOf);
      DimensionNext(OnBaseline(ls), l.(off := false), CredentialOf);
      assert OnBaseline(ls + [l]) == OnBaseline(ls) + [l.(off := false)];
      totals := Counted(totals, l);
      credentials.Add(l.credential, l, false);
      channels.Add(l.channel, l, l.off);
      hours := hours[l.hour := Bumped(if l.hour in hours then hours[l.hour] else NO_POINT, l)];
      ls := ls + [l];
    }
    var points := Points(hours, ls, From(window, now), now, window.Hours());
    s := Summary(totals, points);
  }

  lemma {:induction false} NothingCounted()
    ensures TotalsOf([]) == Totals(0, 0, 0, 0, 0, 0, 0, 0) && HoursOf(map[], [])
  {
  }

  lemma {:induction false} NothingNamed()
    ensures Dimension([], ChannelOf) == [] && Dimension(OnBaseline([]), CredentialOf) == []
  {
  }

  lemma {:induction false} DimensionNext(ls: seq<Line>, l: Line, pick: Line -> string)
    ensures Dimension(ls + [l], pick) == Dimension(ls, pick) + if pick(l) == "" then [] else [Named(pick(l), l)]
  {
    assert (ls + [l])[..|ls|] == ls;
  }

  method Counted(totals: Totals, l: Line) returns (t: Totals)
    ensures t == Totals(totals.resolved + IsMatched(l), totals.unresolved + IsUnmatched(l), totals.off + IsOff(l),
                        totals.failed + IsFailed(l), totals.fallbacks + IsFallback(l),
                        totals.input + l.input, totals.output + l.output, totals.cached + l.cached)
  {
    t := totals.(input := totals.input + l.input, output := totals.output + l.output, cached := totals.cached + l.cached);
    if l.matched {
      t := t.(resolved := t.resolved + 1);
    } else {
      t := t.(unresolved := t.unresolved + 1);
    }
    if l.off {
      t := t.(off := t.off + 1);
    }
    if l.failed {
      t := t.(failed := t.failed + 1);
    }
    if l.fallback {
      t := t.(fallbacks := t.fallbacks + 1);
    }
  }

  /** A point for every hour from the start of the window to now, quiet hours included. */
  method Points(hours: map<int, Point>, ghost ls: seq<Line>, from: int, now: int,
                span: nat) returns (points: seq<HourPoint>)
    requires HoursOf(hours, ls) && from == Truncate(now - span * HOUR)
    ensures points == Timeline(ls, from, span + 1)
  {
    hide PointOf;
    points := [];
    var cursor := from;
    HourCount(now, span);
    while cursor <= now
      invariant cursor == from + |points| * HOUR && |points| <= span + 1
      invariant points == Timeline(ls, from, |points|)
      decreases now - cursor
    {
      points := points + [HourPoint(cursor, if cursor in hours then hours[cursor] else NO_POINT)];
      cursor := cursor + HOUR;
    }
  }

  /** From the truncated start, `span` hours further is the last full hour that is not after now. */
  lemma {:induction false} HourCount(now: int, span: nat)
    ensures Truncate(now - span * HOUR) == Truncate(now) - span * HOUR
    ensures Truncate(now) <= now < Truncate(now) + HOUR
  {
    Shift(now, span);
  }

  lemma {:induction false} Shift(t: int, n: nat)
    ensures (t - n * HOUR) % HOUR == t % HOUR
  {
    if n > 0 {
      Shift(t, n - 1);
      var u := t - (n - 1) * HOUR;
      assert (u - HOUR) % HOUR == u % HOUR;
      assert t - n * HOUR == u - HOUR;
    }
  }
}
