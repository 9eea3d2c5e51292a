/** The page windows aggregated from the retained official records, and what their numbers conserve. */
module Aggregate {
  import opened Common
  import opened Collector
  import opened CollectorRefines

  const HOUR: int := 3600 * SECOND
  const UNKNOWN_MODEL := "\U{672A}\U{77E5}\U{6A21}\U{578B}"

  /** Sums over a set of records; the cost is counted in millionths of a dollar. */
  datatype Totals = Totals(requests: int, input: int, output: int, cached: int, costMicro: int, credits: int, byok: int, streamed: int) {
    function Tokens(): int { input + output }

    function Plus(t: Totals): Totals {
      Totals(requests + t.requests, input + t.input, output + t.output, cached + t.cached,
             costMicro + t.costMicro, credits + t.credits, byok + t.byok, streamed + t.streamed)
    }
  }

  const ZERO := Totals(0, 0, 0, 0, 0, 0, 0, 0)

  function Of(item: Item): Totals {
    Totals(1, item.prompt, item.completion, item.cached, item.costMicro, item.credits,
           if item.byok then 1 else 0, if item.stream then 1 else 0)
  }

  datatype Shape = Shape(duration: int, buckets: nat)

  /** A page window: how long it is and in how many buckets its series is drawn. */
  type Spec = s: Shape | s.duration > 0 && s.buckets > 0 witness Shape(1, 1)

  const HOURLY: Spec := Shape(HOUR, 12)
  const DAILY: Spec := Shape(24 * HOUR, 24)

  function Width(spec: Spec): (w: int)
    ensures w > 0
  {
    var w := spec.duration / spec.buckets;
    if w <= 0 then SECOND else w
  }

  /** The bucket of a time, clamped at both ends. */
  function BucketOf(at: Time, from: Time, spec: Spec): (b: nat)
    ensures b < spec.buckets
  {
    Max(0, Min((at - from) / Width(spec), spec.buckets - 1))
  }

  type RowKey = (string, string)

  function RowKeyOf(item: Item): RowKey {
    (item.provider, if item.model == "" then UNKNOWN_MODEL else item.model)
  }

  /** The whole window, one bucket of its series, or one row of its table. */
  datatype Part = Whole | Bucket(spec: Spec, b: nat) | Row(key: RowKey)

  predicate Selects(part: Part, item: Item, from: Time) {
    item.at >= from &&
    match part
    case Whole => true
    case Bucket(spec, b) => BucketOf(item.at, from, spec) == b
    case Row(key) => RowKeyOf(item) == key
  }

  /** The sum over the records of a part of the window that starts at `from`. */
  function Sum(items: seq<Item>, from: Time, part: Part): Totals {
    if items == [] then ZERO else
      var last := items[|items| - 1];
      var rest := Sum(items[..|items| - 1], from, part);
      if Selects(part, last, from) then rest.Plus(Of(last)) else rest
  }

  function RowKeys(items: seq<Item>, from: Time): set<RowKey> {
    set i | i in items && i.at >= from :: RowKeyOf(i)
  }

  datatype Window = Window(
    from: Time, to: Time, totals: Totals, requests: seq<int>, tokens: seq<int>, cached: seq<int>,
    rows: map<RowKey, Totals>, covered: bool)

  function Covered(items: seq<Item>, created: Option<Time>, from: Time): bool {
    if created != None && created.value >= from then true
    else items != [] && items[|items| - 1].at <= from
  }

  datatype Series = Series(requests: seq<int>, tokens: seq<int>, cached: seq<int>)

  ghost predicate SeriesSums(s: Series, items: seq<Item>, from: Time, spec: Spec) {
    && |s.requests| == |s.tokens| == |s.cached| == spec.buckets
    && forall b: nat :: b < spec.buckets ==>
         s.requests[b] == Sum(items, from, Bucket(spec, b)).requests
         && s.tokens[b] == Sum(items, from, Bucket(spec, b)).Tokens()
         && s.cached[b] == Sum(items, from, Bucket(spec, b)).cached
  }

  ghost predicate RowsSum(rows: map<RowKey, Totals>, items: seq<Item>, from: Time) {
    && rows.Keys == RowKeys(items, from)
    && forall key :: key in rows ==> rows[key] == Sum(items, from, Row(key))
  }

  method WindowOf(items: seq<Item>, now: Time, created: Option<Time>, spec: Spec) returns (w: Window)
    ensures w.from == now - spec.duration
    ensures w.to == now
    ensures w.covered == Covered(items, created, w.from)
    ensures w.totals == Sum(items, w.from, Whole)
    ensures SeriesSums(Series(w.requests, w.tokens, w.cached), items, w.from, spec)
    ensures RowsSum(w.rows, items, w.from)
  {
    hide Sum, BucketOf, RowKeyOf;
    var from := now - spec.duration;
    var totals := ZERO;
    var s := Series(seq(spec.buckets, _ => 0), seq(spec.buckets, _ => 0), seq(spec.buckets, _ => 0));
    var rows: map<RowKey, Totals> := map[];
    NothingYet(items, from, spec, s);
    for n := 0 to |items|
      invariant totals == Sum(items[..n], from, Whole)
      invariant SeriesSums(s, items[..n], from, spec)
      invariant RowsSum(rows, items[..n], from)
    {
      if items[n].at < from {
        TooOld(items, n, from, spec, s, rows);
        continue;
      }
      SumStep(items, n, from, Whole);
      totals := totals.Plus(Of(items[n]));
      rows := AddRow(items, n, from, rows);
      s := AddToSeries(items, n, from, spec, s);
    }
    assert items[..|items|] == items;
    w := Window(from, now, totals, s.requests, s.tokens, s.cached, rows, Covered(items, created, from));
  }

  lemma {:induction false} NothingYet(items: seq<Item>, from: Time, spec: Spec, s: Series)
    requires s == Series(seq(spec.buckets, _ => 0), seq(spec.buckets, _ => 0), seq(spec.buckets, _ => 0))
    ensures Sum(items[..0], from, Whole) == ZERO && SeriesSums(s, items[..0], from, spec) && RowsSum(map[], items[..0], from)
  {
  }

  lemma {:induction false} TooOld(items: seq<Item>, n: nat, from: Time, spec: Spec, s: Series,
                                  rows: map<RowKey, Totals>)
    requires n < |items| && items[n].at < from
    requires SeriesSums(s, items[..n], from, spec) && RowsSum(rows, items[..n], from)
    ensures Sum(items[..n + 1], from, Whole) == Sum(items[..n], from, Whole)
    ensures SeriesSums(s, items[..n + 1], from, spec) && RowsSum(rows, items[..n + 1], from)
  {
    hide Sum, BucketOf, RowKeyOf;
    SumStep(items, n, from, Whole);
    assert items[..n + 1] == items[..n] + [items[n]];
    forall part
      ensures Sum(items[..n + 1], from, part) == Sum(items[..n], from, part)
    {
      SumStep(items, n, from, part);
    }
  }

  method AddRow(items: seq<Item>, n: nat, from: Time, rows: map<RowKey, Totals>) returns (r: map<RowKey, Totals>)
    requires n < |items| && items[n].at >= from && RowsSum(rows, items[..n], from)
    ensures RowsSum(r, items[..n + 1], from)
  {
    hide Sum, RowKeyOf;
    var key := RowKeyOf(items[n]);
    var row := if key in rows then rows[key] else ZERO;
    r := rows[key := row.Plus(Of(items[n]))];
    assert items[..n + 1] == items[..n] + [items[n]];
    forall k | k in r
      ensures r[k] == Sum(items[..n + 1], from, Row(k))
    {
      SumStep(items, n, from, Row(k));
      if k !in rows {
        SumNone(items[..n], from, Row(k));
      }
    }
  }

  method AddToSeries(items: seq<Item>, n: nat, from: Time, spec: Spec, s: Series) returns (r: Series)
    requires n < |items| && items[n].at >= from && SeriesSums(s, items[..n], from, spec)
    ensures SeriesSums(r, items[..n + 1], from, spec)
  {
    hide Sum;
    var item := items[n];
    var bucket := (item.at - from) / Width(spec);
    if bucket < 0 {
      bucket := 0;
    }
    if bucket >= spec.buckets {
      bucket := spec.buckets - 1;
    }
    r := Series(s.requests[bucket := s.requests[bucket] + 1],
                s.tokens[bucket := s.tokens[bucket] + item.prompt + item.completion],
                s.cached[bucket := s.cached[bucket] + item.cached]);
    forall b: nat | b < spec.buckets
      ensures Sum(items[..n + 1], from, Bucket(spec, b)) ==
        if b == bucket then Sum(items[..n], from, Bucket(spec, b)).Plus(Of(item)) else Sum(items[..n], from, Bucket(spec, b))
    {
      SumStep(items, n, from, Bucket(spec, b));
    }
  }

  // --- sums --------------------------------------------------------------------------------------------

  lemma {:induction false} SumStep(items: seq<Item>, n: nat, from: Time, part: Part)
    requires n < |items|
    ensures Sum(items[..n + 1], from, part) ==
      if Selects(part, items[n], from) then Sum(items[..n], from, part).Plus(Of(items[n])) else Sum(items[..n], from, part)
  {
    assert items[..n + 1][..n] == items[..n];
  }

  lemma {:induction false} SumNone(items: seq<Item>, from: Time, part: Part)
    requires forall i :: i in items ==> !Selects(part, i, from)
    ensures Sum(items, from, part) == ZERO
  {
    if items != [] {
      SumNone(items[..|items| - 1], from, part);
      assert items[|items| - 1] in items;
    }
  }

  function SumTo(n: nat, f: nat -> int): int { if n == 0 then 0 else SumTo(n - 1, f) + f(n - 1) }

  lemma {:induction false} SumToBump(n: nat, f: nat -> int, g: nat -> int, at: nat, d: int)
    requires at < n && (forall i: nat :: i < n ==> g(i) == f(i) + if i == at then d else 0)
    ensures SumTo(n, g) == SumTo(n, f) + d
  {
    if at < n - 1 {
      SumToBump(n - 1, f, g, at, d);
    } else {
      SumToSame(n - 1, f, g);
    }
  }

  lemma {:induction false} SumToSame(n: nat, f: nat -> int, g: nat -> int)
    requires forall i: nat :: i < n ==> g(i) == f(i)
    ensures SumTo(n, g) == SumTo(n, f)
  {
    if n > 0 {
      SumToSame(n - 1, f, g);
    }
  }

  // --- conservation --------------------------------------------------------------------------------------

  /** A number read off totals that adds up with them. */
  ghost predicate Additive(f: Totals -> int) {
    f(ZERO) == 0 && forall s: Totals, t: Totals :: f(s.Plus(t)) == f(s) + f(t)
  }

  ghost function BucketNumber(items: seq<Item>, from: Time, spec: Spec, f: Totals -> int): nat -> int {
    (b: nat) => f(Sum(items, from, Bucket(spec, b)))
  }

  ghost function RowNumber(items: seq<Item>, from: Time, f: Totals -> int): RowKey -> int {
    (key: RowKey) => f(Sum(items, from, Row(key)))
  }

  /** The buckets of the series add up to the window's own totals, for every record however late. */
  lemma {:induction false} BucketsAddUp(items: seq<Item>, from: Time, spec: Spec, f: Totals -> int)
    requires Additive(f)
    ensures SumTo(spec.buckets, BucketNumber(items, from, spec, f)) == f(Sum(items, from, Whole))
  {
    hide BucketOf, Sum;
    var g := BucketNumber(items, from, spec, f);
    if items == [] {
      NothingSums(from);
      SumToZero(spec.buckets, g);
    } else {
      var n := |items| - 1;
      var h := BucketNumber(items[..n], from, spec, f);
      BucketsAddUp(items[..n], from, spec, f);
      assert items[..n + 1] == items;
      SumStep(items, n, from, Whole);
      forall b: nat | b < spec.buckets
        ensures g(b) == h(b) + if Selects(Bucket(spec, b), items[n], from) then f(Of(items[n])) else 0
      {
        SumStep(items, n, from, Bucket(spec, b));
      }
      if items[n].at >= from {
        SumToBump(spec.buckets, h, g, BucketOf(items[n].at, from, spec), f(Of(items[n])));
      } else {
        SumToSame(spec.buckets, h, g);
      }
    }
  }

  lemma {:induction false} NothingSums(from: Time)
    ensures forall part :: Sum([], from, part) == ZERO
  {
  }

  /** The rows of the table add up to the window's own totals. */
  lemma {:induction false} RowsAddUp(items: seq<Item>, from: Time, f: Totals -> int)
    requires Additive(f)
    ensures SumSet(RowKeys(items, from), RowNumber(items, from, f)) == f(Sum(items, from, Whole))
  {
    hide RowKeyOf, Sum;
    if items == [] {
      NothingSums(from);
    } else {
      var n := |items| - 1;
      var keys := RowKeys(items[..n], from);
      var g, h := RowNumber(items, from, f), RowNumber(items[..n], from, f);
      RowsAddUp(items[..n], from, f);
      assert items[..n + 1] == items && items == items[..n] + [items[n]];
      SumStep(items, n, from, Whole);
      forall key: RowKey
        ensures g(key) == h(key) + if Selects(Row(key), items[n], from) then f(Of(items[n])) else 0
      {
        SumStep(items, n, from, Row(key));
      }
      if items[n].at >= from {
        var at := RowKeyOf(items[n]);
        assert RowKeys(items, from) == keys + {at};
        if at !in keys {
          SumNone(items[..n], from, Row(at));
        }
        SumBump(keys, at, f(Of(items[n])), h, g);
      } else {
        assert RowKeys(items, from) == keys;
        SumAgree(keys, h, g);
      }
    }
  }

  lemma {:induction false} SumToZero(n: nat, f: nat -> int)
    requires forall i: nat :: i < n ==> f(i) == 0
    ensures SumTo(n, f) == 0
  {
    if n > 0 {
      SumToZero(n - 1, f);
    }
  }

  /** A record lands in the bucket that contains its time; one exactly at the end lands in the last. */
  lemma {:induction false} BucketContains(at: Time, from: Time, spec: Spec)
    requires spec in {HOURLY, DAILY} && from <= at <= from + spec.duration
    ensures var b := BucketOf(at, from, spec);
      from + b * Width(spec) <= at && (at < from + (b + 1) * Width(spec) || (at == from + spec.duration && b == spec.buckets - 1))
  {
    var w := Width(spec);
    var q := (at - from) / w;
    assert w * q <= at - from < w * q + w;
  }

  ghost predicate NonNegative(items: seq<Item>) {
    forall i :: i in items ==> i.prompt >= 0 && i.completion >= 0 && i.cached >= 0 && i.costMicro >= 0 && i.credits >= 0
  }

  ghost predicate AtMost(s: Totals, t: Totals) {
    && 0 <= s.requests <= t.requests && 0 <= s.input <= t.input && 0 <= s.output <= t.output && 0 <= s.cached <= t.cached
    && 0 <= s.costMicro <= t.costMicro && 0 <= s.credits <= t.credits && 0 <= s.byok <= t.byok && 0 <= s.streamed <= t.streamed
  }

  /** A window that starts earlier has at least the totals of one that starts later. */
  lemma {:induction false} LongerWindowHasMore(items: seq<Item>, later: Time, earlier: Time)
    requires earlier <= later && NonNegative(items)
    ensures AtMost(Sum(items, later, Whole), Sum(items, earlier, Whole))
  {
    if items != [] {
      assert items[|items| - 1] in items;
      LongerWindowHasMore(items[..|items| - 1], later, earlier);
    }
  }

  // --- the official numbers and the server's -------------------------------------------------------------

  lemma {:induction false} SumOfKept(items: seq<Item>, from: Time)
    ensures Sum(items, from, Whole) == Sum(Kept(items, from), from, Whole)
  {
    if items != [] {
      var n := |items| - 1;
      SumOfKept(items[..n], from);
      var kept := Kept(items, from);
      if items[n].at >= from {
        assert kept == Kept(items[..n], from) + [items[n]];
        assert kept[..|kept| - 1] == Kept(items[..n], from);
      } else {
        assert kept == Kept(items[..n], from);
      }
    }
  }

  ghost predicate Descending(items: seq<Item>) {
    forall i, j :: 0 <= i < j < |items| ==> items[i].at > items[j].at
  }

  lemma {:induction false} SameHead(a: seq<Item>, b: seq<Item>)
    requires Descending(a) && Descending(b) && a != [] && forall y :: y in a <==> y in b
    ensures b != [] && a[0] == b[0]
  {
    assert a[0] in b;
    assert b[0] in a;
    var i :| 0 <= i < |b| && b[i] == a[0];
    var j :| 0 <= j < |a| && a[j] == b[0];
  }

  lemma {:induction false} TailMembers(a: seq<Item>, y: Item)
    requires Descending(a) && a != []
    ensures y in a[1..] <==> y in a && y != a[0]
  {
    assert a == [a[0]] + a[1..];
    if y in a[1..] {
      var i :| 0 <= i < |a| - 1 && a[1..][i] == y;
      assert a[0].at > a[i + 1].at;
    }
  }

  /** Two strictly descending lists with the same members are the same list. */
  lemma {:induction false} SameMembersSameList(a: seq<Item>, b: seq<Item>)
    requires Descending(a) && Descending(b) && forall y :: y in a <==> y in b
    ensures a == b
  {
    if a == [] {
      if b != [] {
        SameHead(b, a);
      }
    } else {
      SameHead(a, b);
      forall y
        ensures y in a[1..] <==> y in b[1..]
      {
        TailMembers(a, y);
        TailMembers(b, y);
      }
      SameMembersSameList(a[1..], b[1..]);
      assert a == [a[0]] + a[1..] && b == [b[0]] + b[1..];
    }
  }

  lemma {:induction false} KeptDescends(items: seq<Item>, from: Time)
    requires Descending(items)
    ensures Descending(Kept(items, from))
  {
    if items != [] {
      var n := |items| - 1;
      KeptDescends(items[..n], from);
      KeptMembers(items[..n], from);
      forall y | y in items[..n]
        ensures y.at > items[n].at
      {
        var i :| 0 <= i < n && items[..n][i] == y;
      }
    }
  }

  /**
   The window totals are the server's: after a clean history whose last walk succeeded every page window, all of
   which start inside the retention edge, has exactly the totals of the server's readable records in that window.
   */
  lemma {:induction false} WindowEqualsServer(visits: seq<Visit>, spec: Spec)
    requires CleanHistory(visits) && visits != [] && Clean(LastWalk(visits)) && spec in {HOURLY, DAILY}
    ensures var from := visits[|visits| - 1].call.now - spec.duration;
      Sum(After(CallsOf(visits)).items, from, Whole) == Sum(Parsed(ServerAfter(visits)), from, Whole)
  {
    hide Parsed, After, Sum, CleanHistory, LastWalk, ServerOrder, Ordered, NewestFirst, DistinctIds, ServerAfter, CallsOf, Ids;
    var from := visits[|visits| - 1].call.now - spec.duration;
    var items, server := After(CallsOf(visits)).items, Parsed(ServerAfter(visits));
    PagingRefinesTheServer(visits);
    assert visits[..|visits|] == visits;
    EveryStateWellKept(CallsOf(visits));
    ServerIsOrdered(visits);
    SameWindow(items, server, from);
  }

  lemma {:induction false} ServerIsOrdered(visits: seq<Visit>)
    requires CleanHistory(visits) && visits != []
    ensures Ordered(Parsed(ServerAfter(visits)))
  {
    hide Parsed;
  }

  lemma {:induction false} SameWindow(items: seq<Item>, server: seq<Item>, from: Time)
    requires Ordered(server) && NewestFirst(items) && DistinctIds(items)
    requires forall y :: y in server && y.at >= from ==> y in items
    requires forall y :: y in items ==> y in server
    ensures Sum(items, from, Whole) == Sum(server, from, Whole)
  {
    hide Kept, Sum;
    KeptMembers(items, from);
    KeptMembers(server, from);
    KeptDescends(items, from);
    KeptDescends(server, from);
    SameMembersSameList(Kept(items, from), Kept(server, from));
    SumOfKept(items, from);
    SumOfKept(server, from);
  }
}
