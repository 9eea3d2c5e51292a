/** What the numbers of a page window count, told from the records themselves. */
module WindowCounts {
  import opened Common
  import opened Collector
  import opened CollectorRefines
  import opened Aggregate

  // --- the buckets and the rows --------------------------------------------------------------------

  /** A record inside the window is in the bucket its time falls into; the last bucket has no end. */
  lemma {:induction false} BucketExactly(at: Time, from: Time, spec: Spec, w: int, b: nat)
    requires at >= from && b < spec.buckets && w == Width(spec)
    ensures BucketOf(at, from, spec) == b <==> from + b * w <= at && (b == spec.buckets - 1 || at < from + (b + 1) * w)
  {
    hide Width;
    var q := (at - from) / w;
    assert w * q <= at - from < w * q + w;
    if q <= b {
      assert q < b ==> w * (q + 1) <= w * b;
    } else {
      assert w * (b + 1) <= w * q;
    }
  }

  /** The hour is drawn in 12 buckets of five minutes ... */
  lemma {:induction false} HourlyBucket(at: Time, now: Time, b: nat)
    requires at >= now - 3_600_000_000_000 && b < 12
    ensures HOURLY == Shape(3_600_000_000_000, 12)
    ensures var from := now - 3_600_000_000_000;
      BucketOf(at, from, HOURLY) == b
      <==> from + b * 300_000_000_000 <= at && (b == 11 || at < from + (b + 1) * 300_000_000_000)
  {
    BucketExactly(at, now - 3_600_000_000_000, HOURLY, 300_000_000_000, b);
  }

  /** ... and the day in 24 of an hour. */
  lemma {:induction false} DailyBucket(at: Time, now: Time, b: nat)
    requires at >= now - 86_400_000_000_000 && b < 24
    ensures DAILY == Shape(86_400_000_000_000, 24)
    ensures var from := now - 86_400_000_000_000;
      BucketOf(at, from, DAILY) == b
      <==> from + b * 3_600_000_000_000 <= at && (b == 23 || at < from + (b + 1) * 3_600_000_000_000)
  {
    BucketExactly(at, now - 86_400_000_000_000, DAILY, 3_600_000_000_000, b);
  }

  /** A bucket is never narrower than the clock: one second when the window is too short for its buckets. */
  lemma {:induction false} WidthExactly(spec: Spec)
    ensures spec.duration >= spec.buckets ==> spec.buckets * Width(spec) <= spec.duration < spec.buckets * (Width(spec) + 1)
    ensures spec.duration < spec.buckets ==> Width(spec) == 1_000_000_000
  {
    var w := spec.duration / spec.buckets;
    assert spec.buckets * w <= spec.duration < spec.buckets * w + spec.buckets;
    if spec.duration >= spec.buckets {
      assert w > 0;
    }
  }

  /** The table has a row for each provider and model; a record without a model is under the label for that. */
  lemma {:induction false} RowExactly(item: Item, key: RowKey)
    ensures RowKeyOf(item) == key <==>
      item.provider == key.0
      && (if item.model != "" then item.model == key.1 else key.1 == "\U{672A}\U{77E5}\U{6A21}\U{578B}")
  {
  }

  // --- the numbers ---------------------------------------------------------------------------------

  /** One number summed over the records of a part. */
  function Total(items: seq<Item>, from: Time, part: Part, f: Item -> int): int {
    if items == [] then 0 else
      var last := items[|items| - 1];
      Total(items[..|items| - 1], from, part, f) + if Selects(part, last, from) then f(last) else 0
  }

  function EachOne(i: Item): int { 1 }

  function OwnKey(i: Item): int { if i.byok then 1 else 0 }

  function Streamed(i: Item): int { if i.stream then 1 else 0 }

  /** Each number of a sum is the records' own, under its own name. */
  lemma {:induction false} SumNumbers(items: seq<Item>, from: Time, part: Part)
    ensures var t := Sum(items, from, part);
      && t.input == Total(items, from, part, (i: Item) => i.prompt)
      && t.output == Total(items, from, part, (i: Item) => i.completion)
      && t.Tokens() == Total(items, from, part, (i: Item) => i.prompt + i.completion)
      && t.cached == Total(items, from, part, (i: Item) => i.cached)
      && t.costMicro == Total(items, from, part, (i: Item) => i.costMicro)
      && t.credits == Total(items, from, part, (i: Item) => i.credits)
      && t.requests == Total(items, from, part, EachOne)
      && t.byok == Total(items, from, part, OwnKey)
      && t.streamed == Total(items, from, part, Streamed)
  {
    hide Selects;
    if items != [] {
      SumNumbers(items[..|items| - 1], from, part);
    }
  }

  lemma {:induction false} TotalCounts(items: seq<Item>, from: Time, part: Part, f: Item -> int, counted: set<int>)
    requires forall i: Item :: f(i) == 0 || f(i) == 1
    requires forall k :: k in counted <==> 0 <= k < |items| && Selects(part, items[k], from) && f(items[k]) == 1
    ensures Total(items, from, part, f) == |counted|
  {
    hide Selects;
    if items == [] {
      assert forall k :: k !in counted;
      assert counted == {};
    } else {
      var n := |items| - 1;
      TotalCounts(items[..n], from, part, f, counted - {n});
      assert n in counted ==> counted == counted - {n} + {n};
      assert n !in counted ==> counted == counted - {n};
    }
  }

  /** Requests, records paid for with an own key and streamed ones are numbers of records. */
  lemma {:induction false} SumCounts(items: seq<Item>, from: Time, part: Part, all: set<int>, byok: set<int>, streamed: set<int>)
    requires forall k :: k in all <==> 0 <= k < |items| && Selects(part, items[k], from)
    requires forall k :: k in byok <==> k in all && items[k].byok
    requires forall k :: k in streamed <==> k in all && items[k].stream
    ensures var t := Sum(items, from, part);
      t.requests == |all| && t.byok == |byok| && t.streamed == |streamed|
  {
    hide Total, Sum, Selects;
    SumNumbers(items, from, part);
    TotalCounts(items, from, part, EachOne, all);
    TotalCounts(items, from, part, OwnKey, byok);
    TotalCounts(items, from, part, Streamed, streamed);
  }

  /** Inside the window means not before its start. */
  lemma {:induction false} SelectsExactly(part: Part, item: Item, from: Time)
    ensures Selects(part, item, from) <==>
      && from <= item.at
      && (part.Bucket? ==> BucketOf(item.at, from, part.spec) == part.b)
      && (part.Row? ==> RowKeyOf(item) == part.key)
  {
  }

  // --- the window as it is returned ----------------------------------------------------------------

  function SumOf(s: seq<int>): int { if s == [] then 0 else SumOf(s[..|s| - 1]) + s[|s| - 1] }

  lemma {:induction false} SumOfIs(s: seq<int>, n: nat, f: nat -> int)
    requires n <= |s| && forall b: nat :: b < n ==> s[b] == f(b)
    ensures SumOf(s[..n]) == SumTo(n, f)
  {
    if n > 0 {
      SumOfIs(s, n - 1, f);
      assert s[..n][..n - 1] == s[..n - 1];
    } else {
      assert s[..0] == [];
    }
  }

  lemma {:induction false} OneSeriesAddsUp(s: seq<int>, items: seq<Item>, from: Time, spec: Spec, f: Totals -> int)
    requires Additive(f) && |s| == spec.buckets
    requires forall b: nat :: b < spec.buckets ==> s[b] == f(Sum(items, from, Bucket(spec, b)))
    ensures SumOf(s) == f(Sum(items, from, Whole))
  {
    hide Sum, Additive;
    assert s[..spec.buckets] == s;
    SumOfIs(s, spec.buckets, BucketNumber(items, from, spec, f));
    BucketsAddUp(items, from, spec, f);
  }

  /** The three series add up to the totals of the window. */
  lemma {:induction false} SeriesAddUp(s: Series, items: seq<Item>, from: Time, spec: Spec)
    requires SeriesSums(s, items, from, spec)
    ensures |s.requests| == |s.tokens| == |s.cached| == spec.buckets
    ensures SumOf(s.requests) == Sum(items, from, Whole).requests
    ensures SumOf(s.tokens) == Sum(items, from, Whole).input + Sum(items, from, Whole).output
    ensures SumOf(s.cached) == Sum(items, from, Whole).cached
  {
    hide Sum, SumOf, Additive;
    NumbersAdd();
    OneSeriesAddsUp(s.requests, items, from, spec, Requests);
    OneSeriesAddsUp(s.tokens, items, from, spec, Tokens);
    OneSeriesAddsUp(s.cached, items, from, spec, CachedOf);
  }

  function Requests(t: Totals): int { t.requests }

  function Tokens(t: Totals): int { t.input + t.output }

  function CachedOf(t: Totals): int { t.cached }

  lemma {:induction false} NumbersAdd()
    ensures Additive(Requests) && Additive(Tokens) && Additive(CachedOf)
  {
  }

  /** A row's number, none where there is no row. */
  ghost function InRow(rows: map<RowKey, Totals>, f: Totals -> int): RowKey -> int {
    (key: RowKey) => if key in rows then f(rows[key]) else 0
  }

  /** The table has a row exactly for what occurs in the window, and its rows add up to the totals. */
  lemma {:induction false} TableAddsUp(rows: map<RowKey, Totals>, items: seq<Item>, from: Time, f: Totals -> int)
    requires RowsSum(rows, items, from) && Additive(f)
    ensures forall key :: key in rows <==> exists i :: i in items && from <= i.at && RowKeyOf(i) == key
    ensures SumSet(rows.Keys, InRow(rows, f)) == f(Sum(items, from, Whole))
  {
    hide Sum, RowKeyOf, Additive;
    RowsAddUp(items, from, f);
    SumAgree(RowKeys(items, from), InRow(rows, f), RowNumber(items, from, f));
    forall key
      ensures key in rows <==> exists i :: i in items && from <= i.at && RowKeyOf(i) == key
    {
      assert key in rows <==> key in RowKeys(items, from);
    }
  }

  /**
   A window is covered when the account is not older than it, or when some retained record is not newer than its start.
   */
  lemma {:induction false} CoveredExactly(items: seq<Item>, created: Option<Time>, from: Time)
    requires NewestFirst(items)
    ensures Covered(items, created, from) <==>
      (created.Some? && from <= created.value) || exists y :: y in items && y.at <= from
  {
    if items != [] {
      assert items[|items| - 1] in items;
    }
  }
}
