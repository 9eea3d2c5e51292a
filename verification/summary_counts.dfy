/** What the numbers of the summary count, told from the stored records and the facts they are joined to. */
module SummaryCounts {
  import opened Common
  import opened Text
  import opened Join
  import opened Summary

  /** The lines the summary counts, for records as they stand in the store. */
  ghost predicate Read(lines: seq<Record>, facts: seq<Stored>, baseline: string, ls: seq<Line>) {
    && |ls| == |lines|
    && forall i :: 0 <= i < |ls| ==> FromStore(lines[i]) && ls[i] == LineOf(Loaded(lines[i]), facts, baseline)
  }

  /** The fact of the i-th record, if it has one. */
  function FactAt(lines: seq<Record>, facts: seq<Stored>, i: nat): Option<Stored>
    requires i < |lines|
  {
    Matched(facts, Loaded(lines[i]))
  }

  /** The channel a fact gives its record: the final provider, or else the resolved one. */
  function Shown(f: Stored): string {
    if f.said.routing.finalProvider != "" then f.said.routing.finalProvider else f.said.routing.resolvedProvider
  }

  /** The record has a fact, and its channel is another one than the baseline; case makes no difference. */
  ghost predicate OffAt(lines: seq<Record>, facts: seq<Stored>, baseline: string, i: int) {
    && 0 <= i < |lines|
    && FactAt(lines, facts, i).Some?
    && var channel := Shown(FactAt(lines, facts, i).value);
      channel != "" && baseline != "" && Lower(channel) != Lower(baseline)
  }

  /** The record has a fact, and it took more than one provider attempt. */
  ghost predicate FallbackAt(lines: seq<Record>, facts: seq<Stored>, i: int) {
    0 <= i < |lines| && FactAt(lines, facts, i).Some? && FactAt(lines, facts, i).value.said.routing.totalAttempts > 1
  }

  /** What one record is counted as. */
  lemma {:induction false} LineAt(lines: seq<Record>, facts: seq<Stored>, baseline: string, ls: seq<Line>, i: nat)
    requires Read(lines, facts, baseline, ls) && i < |lines|
    ensures ls[i].matched <==> FactAt(lines, facts, i).Some?
    ensures ls[i].off <==> OffAt(lines, facts, baseline, i)
    ensures ls[i].fallback <==> FallbackAt(lines, facts, i)
    ensures ls[i].failed <==> lines[i].failed
    ensures ls[i].input == lines[i].input && ls[i].output == lines[i].output && ls[i].cached == lines[i].cached
    ensures ls[i].channel == if FactAt(lines, facts, i).Some? then FactAt(lines, facts, i).value.said.routing.finalProvider
                             else ""
    ensures ls[i].credential == Loaded(lines[i]).credential
    ensures ls[i].hour <= lines[i].time < ls[i].hour + HOUR && ls[i].hour % HOUR == 0
  {
    hide Matched, GatewayChannel;
    var r := Loaded(lines[i]);
    StoredNamesNoChannel(lines[i]);
    if FactAt(lines, facts, i).Some? {
      JoinedChannel(r, FactAt(lines, facts, i).value);
    } else {
      assert r.gatewayProvider == "";
    }
  }

  /** A tally of a yes or no is the number of lines that say yes. */
  lemma {:induction false} TallyCounts(ls: seq<Line>, f: Line -> int, counted: set<int>)
    requires forall l :: f(l) == 0 || f(l) == 1
    requires forall i :: i in counted <==> 0 <= i < |ls| && f(ls[i]) == 1
    ensures Tally(ls, f) == |counted|
  {
    if ls == [] {
      assert forall i :: i !in counted;
      assert counted == {};
    } else {
      var n := |ls| - 1;
      TallyCounts(ls[..n], f, counted - {n});
      assert f(ls[n]) == 1 ==> counted == counted - {n} + {n};
      assert f(ls[n]) == 0 ==> counted == counted - {n};
    }
  }

  /**
   Off-baseline is the number of records whose fact names a final, or else a resolved, provider that differs from a
   non-empty baseline, ignoring case. Fallbacks, resolved, unresolved and failed count what they say.
   */
  lemma {:induction false} TotalsCount(lines: seq<Record>, facts: seq<Stored>, baseline: string, ls: seq<Line>)
    requires Read(lines, facts, baseline, ls)
    ensures TotalsOf(ls).off == |set i | 0 <= i < |lines| && OffAt(lines, facts, baseline, i)|
    ensures TotalsOf(ls).fallbacks == |set i | 0 <= i < |lines| && FallbackAt(lines, facts, i)|
    ensures TotalsOf(ls).resolved == |set i | 0 <= i < |lines| && FactAt(lines, facts, i).Some?|
    ensures TotalsOf(ls).unresolved == |set i | 0 <= i < |lines| && FactAt(lines, facts, i) == None|
    ensures TotalsOf(ls).failed == |set i | 0 <= i < |lines| && lines[i].failed|
  {
    hide LineOf, Loaded, FromStore, TotalsOf, FactAt, OffAt, FallbackAt, Read;
    ReadLength(lines, facts, baseline, ls);
    forall i | 0 <= i < |lines|
      ensures ls[i].matched <==> FactAt(lines, facts, i).Some?
      ensures ls[i].off <==> OffAt(lines, facts, baseline, i)
      ensures ls[i].fallback <==> FallbackAt(lines, facts, i)
      ensures ls[i].failed <==> lines[i].failed
    {
      LineAt(lines, facts, baseline, ls, i);
    }
    TotalsAre(ls, set i | 0 <= i < |lines| && OffAt(lines, facts, baseline, i),
              set i | 0 <= i < |lines| && FallbackAt(lines, facts, i),
              set i | 0 <= i < |lines| && FactAt(lines, facts, i).Some?,
              set i | 0 <= i < |lines| && FactAt(lines, facts, i) == None,
              set i | 0 <= i < |lines| && lines[i].failed);
  }

  lemma {:induction false} TotalsAre(ls: seq<Line>, off: set<int>, fallbacks: set<int>, resolved: set<int>,
                                     unresolved: set<int>, failed: set<int>)
    requires forall i :: i in off <==> 0 <= i < |ls| && ls[i].off
    requires forall i :: i in fallbacks <==> 0 <= i < |ls| && ls[i].fallback
    requires forall i :: i in resolved <==> 0 <= i < |ls| && ls[i].matched
    requires forall i :: i in unresolved <==> 0 <= i < |ls| && !ls[i].matched
    requires forall i :: i in failed <==> 0 <= i < |ls| && ls[i].failed
    ensures TotalsOf(ls).off == |off| && TotalsOf(ls).fallbacks == |fallbacks| && TotalsOf(ls).failed == |failed|
    ensures TotalsOf(ls).resolved == |resolved| && TotalsOf(ls).unresolved == |unresolved|
  {
    hide Tally;
    TallyCounts(ls, IsOff, off);
    TallyCounts(ls, IsFallback, fallbacks);
    TallyCounts(ls, IsMatched, resolved);
    TallyCounts(ls, IsUnmatched, unresolved);
    TallyCounts(ls, IsFailed, failed);
  }

  /** Without a baseline, or when every channel is the baseline in some spelling, nothing is off it. */
  lemma {:induction false} NothingOff(lines: seq<Record>, facts: seq<Stored>, baseline: string, ls: seq<Line>)
    requires Read(lines, facts, baseline, ls)
    requires baseline == "" || forall f :: f in facts ==> Shown(f) == "" || Lower(Shown(f)) == Lower(baseline)
    ensures TotalsOf(ls).off == 0
  {
    hide LineOf, TotalsOf, Matched;
    TotalsCount(lines, facts, baseline, ls);
    var off := set i | 0 <= i < |lines| && OffAt(lines, facts, baseline, i);
    forall i | i in off
      ensures false
    {
      MatchIsAFact(facts, Loaded(lines[i]));
    }
    assert off == {};
  }

  function SumBy(lines: seq<Record>, f: Record -> int): int {
    if lines == [] then 0 else SumBy(lines[..|lines| - 1], f) + f(lines[|lines| - 1])
  }

  lemma {:induction false} TallySums(lines: seq<Record>, ls: seq<Line>, f: Record -> int, g: Line -> int)
    requires |ls| == |lines| && forall i :: 0 <= i < |ls| ==> g(ls[i]) == f(lines[i])
    ensures Tally(ls, g) == SumBy(lines, f)
  {
    if ls != [] {
      TallySums(lines[..|lines| - 1], ls[..|ls| - 1], f, g);
    }
  }

  /** The three counters are the sums of the records' own. */
  lemma {:induction false} TotalsSum(lines: seq<Record>, facts: seq<Stored>, baseline: string, ls: seq<Line>)
    requires Read(lines, facts, baseline, ls)
    ensures TotalsOf(ls).input == SumBy(lines, (r: Record) => r.input)
    ensures TotalsOf(ls).output == SumBy(lines, (r: Record) => r.output)
    ensures TotalsOf(ls).cached == SumBy(lines, (r: Record) => r.cached)
  {
    hide LineOf, Loaded, FromStore, Tally;
    forall i | 0 <= i < |lines|
      ensures ls[i].input == lines[i].input && ls[i].output == lines[i].output && ls[i].cached == lines[i].cached
    {
      LineAt(lines, facts, baseline, ls, i);
    }
    TallySums(lines, ls, (r: Record) => r.input, (l: Line) => l.input);
    TallySums(lines, ls, (r: Record) => r.output, (l: Line) => l.output);
    TallySums(lines, ls, (r: Record) => r.cached, (l: Line) => l.cached);
  }

  // --- the timeline --------------------------------------------------------------------------------

  /** The i-th record lies in the hour that starts at `start`. */
  ghost predicate Within(lines: seq<Record>, start: int, i: int) {
    0 <= i < |lines| && start <= lines[i].time < start + 3_600_000_000_000
  }

  lemma {:induction false} InItsHour(lines: seq<Record>, facts: seq<Stored>, baseline: string, ls: seq<Line>, start: int,
                                     i: nat)
    requires Read(lines, facts, baseline, ls) && i < |lines| && start % HOUR == 0
    ensures ls[i].hour == start <==> Within(lines, start, i)
  {
    LineAt(lines, facts, baseline, ls, i);
    SameHour(ls[i].hour, start, lines[i].time);
  }

  lemma {:induction false} SameHour(a: int, b: int, t: int)
    requires a % HOUR == 0 && b % HOUR == 0 && a <= t < a + HOUR
    ensures a == b <==> b <= t < b + HOUR
  {
  }

  /** Each point of the timeline counts the records of its own hour. */
  lemma {:induction false} PointCounts(lines: seq<Record>, facts: seq<Stored>, baseline: string, ls: seq<Line>, start: int)
    requires Read(lines, facts, baseline, ls) && start % HOUR == 0
    ensures PointOf(ls, start).requests == |set i | 0 <= i < |lines| && Within(lines, start, i)|
    ensures PointOf(ls, start).off == |set i | 0 <= i < |lines| && Within(lines, start, i) && OffAt(lines, facts, baseline, i)|
    ensures PointOf(ls, start).failed == |set i | 0 <= i < |lines| && Within(lines, start, i) && lines[i].failed|
    ensures PointOf(ls, start).fallbacks
      == |set i | 0 <= i < |lines| && Within(lines, start, i) && FallbackAt(lines, facts, i)|
    ensures PointOf(ls, start).unresolved
      == |set i | 0 <= i < |lines| && Within(lines, start, i) && FactAt(lines, facts, i) == None|
  {
    hide PointOf, LineOf, FromStore, Loaded, FactAt, OffAt, FallbackAt, Within, Read;
    forall i | 0 <= i < |lines|
      ensures |ls| == |lines| && (ls[i].hour == start <==> Within(lines, start, i))
      ensures ls[i].matched <==> FactAt(lines, facts, i).Some?
      ensures ls[i].off <==> OffAt(lines, facts, baseline, i)
      ensures ls[i].fallback <==> FallbackAt(lines, facts, i)
      ensures ls[i].failed <==> lines[i].failed
    {
      ReadLength(lines, facts, baseline, ls);
      InItsHour(lines, facts, baseline, ls, start, i);
      LineAt(lines, facts, baseline, ls, i);
    }
    ReadLength(lines, facts, baseline, ls);
    PointIs(ls, start, set i | 0 <= i < |lines| && Within(lines, start, i),
            set i | 0 <= i < |lines| && Within(lines, start, i) && OffAt(lines, facts, baseline, i),
            set i | 0 <= i < |lines| && Within(lines, start, i) && lines[i].failed,
            set i | 0 <= i < |lines| && Within(lines, start, i) && FallbackAt(lines, facts, i),
            set i | 0 <= i < |lines| && Within(lines, start, i) && FactAt(lines, facts, i) == None);
  }

  lemma {:induction false} PointIs(ls: seq<Line>, start: int, all: set<int>, off: set<int>, failed: set<int>,
                                   fallbacks: set<int>, unresolved: set<int>)
    requires forall i :: i in all <==> 0 <= i < |ls| && ls[i].hour == start
    requires forall i :: i in off <==> 0 <= i < |ls| && ls[i].hour == start && ls[i].off
    requires forall i :: i in failed <==> 0 <= i < |ls| && ls[i].hour == start && ls[i].failed
    requires forall i :: i in fallbacks <==> 0 <= i < |ls| && ls[i].hour == start && ls[i].fallback
    requires forall i :: i in unresolved <==> 0 <= i < |ls| && ls[i].hour == start && !ls[i].matched
    ensures PointOf(ls, start) == Point(|all|, |off|, |failed|, |fallbacks|, |unresolved|)
  {
    hide Tally, InHour;
    HourTally(ls, start, One, all);
    HourTally(ls, start, IsOff, off);
    HourTally(ls, start, IsFailed, failed);
    HourTally(ls, start, IsFallback, fallbacks);
    HourTally(ls, start, IsUnmatched, unresolved);
  }

  lemma {:induction false} ReadLength(lines: seq<Record>, facts: seq<Stored>, baseline: string, ls: seq<Line>)
    requires Read(lines, facts, baseline, ls)
    ensures |ls| == |lines|
  {
  }

  lemma {:induction false} HourTally(ls: seq<Line>, start: int, f: Line -> int, counted: set<int>)
    requires forall l :: f(l) == 0 || f(l) == 1
    requires forall i :: i in counted <==> 0 <= i < |ls| && ls[i].hour == start && f(ls[i]) == 1
    ensures Tally(ls, InHour(start, f)) == |counted|
  {
    hide Tally;
    TallyCounts(ls, InHour(start, f), counted);
  }

  /**
   The timeline has a point for each of the hours from the one in which the window starts, 1, 24 or 168 hours ago, to the
   present one, and each point holds the counts of its hour.
   */
  lemma {:induction false} TimelineCovers(ls: seq<Line>, window: Window, now: int)
    ensures var n := match window case OneHour => 2 case OneDay => 25 case OneWeek => 169;
      var points := Timeline(ls, From(window, now), window.Hours() + 1);
      && |points| == n
      && points[0].hour <= now - (n - 1) * 3_600_000_000_000 < points[0].hour + 3_600_000_000_000
      && points[n - 1].hour <= now < points[n - 1].hour + 3_600_000_000_000
      && forall k :: 0 <= k < n ==>
           && points[k].hour % 3_600_000_000_000 == 0
           && points[k].hour == points[0].hour + k * 3_600_000_000_000
           && points[k].point == PointOf(ls, points[k].hour)
  {
    hide PointOf, Truncate;
    var n := window.Hours();
    OnTheHour(now - n * HOUR);
    PointsAre(ls, From(window, now), n + 1);
    HourCount(now, n);
  }

  lemma {:induction false} OnTheHour(t: int)
    ensures Truncate(t) % HOUR == 0 && Truncate(t) <= t < Truncate(t) + HOUR
  {
  }

  lemma {:induction false} PointsAre(ls: seq<Line>, from: int, n: nat)
    requires from % HOUR == 0
    ensures forall k :: 0 <= k < n ==>
      && Timeline(ls, from, n)[k].hour == from + k * HOUR && (from + k * HOUR) % HOUR == 0
      && Timeline(ls, from, n)[k].point == PointOf(ls, from + k * HOUR)
  {
    hide PointOf;
    if n > 0 {
      PointsAre(ls, from, n - 1);
      Shift(from + (n - 1) * HOUR, n - 1);
    }
  }

  // --- what the store holds ------------------------------------------------------------------------

  /** Lines of versions before 3, whatever they say, and lines of version 3 that name no channel. */
  lemma {:induction false} StoredExactly(line: Record)
    ensures FromStore(line) <==>
      || line.schema < 3
      || (line.schema == 3 && line.finalProvider == "" && line.resolvedProvider == "" && line.gatewayProvider == ""
          && line.gatewayResolved == "" && line.slug == "" && line.attempts == 0 && line.gatewayCost == 0.0
          && line.source == "")
  {
  }

  /** A line of version 3 is read as it stands; of an older one the channel fields are dropped and the rest is kept. */
  lemma {:induction false} LoadedExactly(line: Record)
    ensures line.schema >= 3 ==> Loaded(line) == line
    ensures line.schema < 3 ==>
      Loaded(line) == Record(line.schema, line.time, line.sessionID, Loaded(line).credential, line.failed, line.input,
                             line.output, line.cached, line.ttft, "", "", "", "", "", 0, 0.0, "")
    ensures line.schema < 3 ==>
      Loaded(line).credential == if line.credential != "" then line.credential
                                 else if line.finalProvider != "" then line.finalProvider else line.resolvedProvider
  {
    var names := [line.credential, line.finalProvider, line.resolvedProvider];
    Next(names);
    Next(names[1..]);
    Next(names[2..]);
    assert names[1..][1..] == names[2..] && names[2..][1..] == [];
  }

  // --- the rows ------------------------------------------------------------------------------------

  lemma {:induction false} RowCounts(ls: seq<Line>, pick: Line -> string, name: string, f: Line -> int, counted: set<int>)
    requires name != "" && forall l :: f(l) == 0 || f(l) == 1
    requires forall i :: i in counted <==> 0 <= i < |ls| && pick(ls[i]) == name && f(ls[i]) == 1
    ensures SumOf(Dimension(ls, pick), name, f) == |counted|
  {
    if ls == [] {
      assert forall i :: i !in counted;
      assert counted == {};
    } else {
      var n := |ls| - 1;
      RowCounts(ls[..n], pick, name, f, counted - {n});
      assert n in counted ==> counted == counted - {n} + {n};
      assert n !in counted ==> counted == counted - {n};
      var added, l := Dimension(ls[..n], pick), ls[n];
      assert added + [] == added && (added + [Named(pick(l), l)])[..|added|] == added;
    }
  }

  /**
   A channel's row counts the records whose fact names it as the final provider, those of them that are off the baseline
   and those that failed.
   */
  lemma {:induction false} ChannelRowCounts(lines: seq<Record>, facts: seq<Stored>, baseline: string, ls: seq<Line>,
                                            name: string)
    requires Read(lines, facts, baseline, ls) && name != ""
    ensures var row := RowOf(Dimension(ls, ChannelOf), name);
      && row.requests == |set i | 0 <= i < |lines| && IsFinal(lines, facts, i, name)|
      && row.off == |set i | 0 <= i < |lines| && IsFinal(lines, facts, i, name) && OffAt(lines, facts, baseline, i)|
      && row.failed == |set i | 0 <= i < |lines| && IsFinal(lines, facts, i, name) && lines[i].failed|
  {
    hide LineOf, FromStore, Loaded, FactAt, OffAt, IsFinal, Dimension, Read;
    ReadLength(lines, facts, baseline, ls);
    forall i | 0 <= i < |lines|
      ensures ls[i].channel == name <==> IsFinal(lines, facts, i, name)
      ensures ls[i].off <==> OffAt(lines, facts, baseline, i)
      ensures ls[i].failed <==> lines[i].failed
    {
      LineAt(lines, facts, baseline, ls, i);
      FinalAt(lines, facts, baseline, ls, i, name);
    }
    RowCounts(ls, ChannelOf, name, One, set i | 0 <= i < |lines| && IsFinal(lines, facts, i, name));
    RowCounts(ls, ChannelOf, name, IsOff,
              set i | 0 <= i < |lines| && IsFinal(lines, facts, i, name) && OffAt(lines, facts, baseline, i));
    RowCounts(ls, ChannelOf, name, IsFailed,
              set i | 0 <= i < |lines| && IsFinal(lines, facts, i, name) && lines[i].failed);
  }

  ghost predicate IsFinal(lines: seq<Record>, facts: seq<Stored>, i: int, name: string) {
    && 0 <= i < |lines| && FactAt(lines, facts, i).Some?
    && FactAt(lines, facts, i).value.said.routing.finalProvider == name
  }

  lemma {:induction false} FinalAt(lines: seq<Record>, facts: seq<Stored>, baseline: string, ls: seq<Line>, i: nat,
                                   name: string)
    requires Read(lines, facts, baseline, ls) && i < |lines| && name != ""
    ensures ls[i].channel == name <==> IsFinal(lines, facts, i, name)
  {
    LineAt(lines, facts, baseline, ls, i);
  }

  /** A credential's row counts the records that name it, and those of them that failed. */
  lemma {:induction false} CredentialRowCounts(lines: seq<Record>, facts: seq<Stored>, baseline: string, ls: seq<Line>,
                                               name: string)
    requires Read(lines, facts, baseline, ls) && name != ""
    ensures var row := RowOf(Dimension(OnBaseline(ls), CredentialOf), name);
      && row.requests == |set i | 0 <= i < |lines| && Loaded(lines[i]).credential == name|
      && row.failed == |set i | 0 <= i < |lines| && Loaded(lines[i]).credential == name && lines[i].failed|
  {
    hide LineOf, FromStore, Loaded, Dimension, Read;
    ReadLength(lines, facts, baseline, ls);
    forall i | 0 <= i < |lines|
      ensures ls[i].credential == Loaded(lines[i]).credential
      ensures ls[i].failed <==> lines[i].failed
    {
      LineAt(lines, facts, baseline, ls, i);
    }
    var on := OnBaseline(ls);
    RowCounts(on, CredentialOf, name, One, set i | 0 <= i < |lines| && Loaded(lines[i]).credential == name);
    RowCounts(on, CredentialOf, name, IsFailed,
              set i | 0 <= i < |lines| && Loaded(lines[i]).credential == name && lines[i].failed);
  }
}
