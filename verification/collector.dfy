/**
 The collector of official usage records: it pages from the newest record backwards until it meets the
 records it already has, keeps them newest first for a retention window and backs off on errors.
 */
module Collector {
  import opened Common
  import opened Text

  type Time = int

  const SECOND: int := 1_000_000_000
  const RETENTION: int := 26 * 3600 * SECOND
  const MAX_PAGES: nat := 80
  const MAX_ITEMS: nat := 40000
  const PAGES_STEADY: nat := 5
  const PAGES_EXTEND: nat := 60
  const MAX_BACKOFF: int := 30 * 60 * SECOND
  const DEFAULT_EVERY: int := 10 * 60 * SECOND

  datatype Item = Item(
    id: string, at: Time, prompt: int, completion: int, cached: int, costMicro: int,
    model: string, provider: string, credits: int, byok: bool, stream: bool)

  /** One upstream record; `createdAt` is None when its timestamp is missing or cannot be read. */
  datatype RawItem = RawItem(
    id: string, createdAt: Option<Time>, promptTokens: int, completionTokens: int, cachedTokens: int,
    costUnits: int, rawModel: string, modelName: string, providerName: string, creditsUsed: int,
    isByok: bool, isStream: bool)

  function ParseItem(raw: RawItem): Option<Item> {
    if raw.id == "" || raw.createdAt == None then None else
      Some(Item(raw.id, raw.createdAt.value, raw.promptTokens, raw.completionTokens, raw.cachedTokens, raw.costUnits,
                if Trim(raw.rawModel) == "" then Trim(raw.modelName) else Trim(raw.rawModel),
                Trim(raw.providerName), raw.creditsUsed, raw.isByok, raw.isStream))
  }

  /** The records of a list that can be read, in order. */
  function Parsed(raws: seq<RawItem>): seq<Item> {
    if raws == [] then [] else
      (if ParseItem(raws[0]) == None then [] else [ParseItem(raws[0]).value]) + Parsed(raws[1..])
  }

  function Ids(items: seq<Item>): set<string> { set i | i in items :: i.id }

  ghost predicate DistinctIds(items: seq<Item>) {
    forall i, j :: 0 <= i < j < |items| ==> items[i].id != items[j].id
  }

  ghost predicate NewestFirst(items: seq<Item>) {
    forall i, j :: 0 <= i < j < |items| ==> items[i].at >= items[j].at
  }

  // --- one walk over the pages ------------------------------------------------------------------------

  datatype PageReply = Failed(text: string) | Page(items: seq<RawItem>, more: bool)

  datatype Scan = Scan(collected: seq<Item>, known: set<string>, full: bool, stop: bool)

  /** Newer than the retention edge and than the newest record already held. */
  predicate Wanted(item: Item, cutoff: Time, watermark: Option<Time>) {
    item.at > cutoff && (watermark == None || item.at > watermark.value)
  }

  function ScanPage(items: seq<RawItem>, cutoff: Time, watermark: Option<Time>, limit: nat,
                    collected: seq<Item>, known: set<string>): Scan {
    if items == [] then Scan(collected, known, false, false) else
      match ParseItem(items[0])
      case None => ScanPage(items[1..], cutoff, watermark, limit, collected, known)
      case Some(item) =>
        if !Wanted(item, cutoff, watermark) then Scan(collected, known, true, true)
        else if item.id in known then ScanPage(items[1..], cutoff, watermark, limit, collected, known)
        else if |collected| >= limit then Scan(collected, known, false, true)
        else ScanPage(items[1..], cutoff, watermark, limit, collected + [item], known + {item.id})
  }

  datatype Walk = Walk(collected: seq<Item>, full: bool, error: string)

  /** The walk over the replies the upstream gives; an upstream that stops answering is an error. */
  function WalkPages(pages: seq<PageReply>, budget: nat, cutoff: Time, watermark: Option<Time>, limit: nat,
                     collected: seq<Item>, known: set<string>): Walk {
    if budget == 0 then Walk(collected, false, "")
    else if pages == [] then Walk(collected, false, "no reply")
    else match pages[0]
      case Failed(text) => Walk(collected, false, text)
      case Page(items, more) =>
        if items == [] then Walk(collected, true, "") else
          var s := ScanPage(items, cutoff, watermark, limit, collected, known);
          if s.stop then Walk(s.collected, s.full, "")
          else if !more then Walk(s.collected, true, "")
          else WalkPages(pages[1..], budget - 1, cutoff, watermark, limit, s.collected, s.known)
  }

  // --- the retained records ---------------------------------------------------------------------------

  /** Stable insertion into a newest-first list: after every record that is not older. */
  function Insert(items: seq<Item>, x: Item): seq<Item> {
    if items == [] || items[|items| - 1].at >= x.at then items + [x]
    else Insert(items[..|items| - 1], x) + [items[|items| - 1]]
  }

  function SortNewest(items: seq<Item>): seq<Item> {
    if items == [] then [] else Insert(SortNewest(items[..|items| - 1]), items[|items| - 1])
  }

  function Kept(items: seq<Item>, cutoff: Time): seq<Item> {
    if items == [] then [] else
      var last := items[|items| - 1];
      Kept(items[..|items| - 1], cutoff) + (if last.at < cutoff then [] else [last])
  }

  lemma {:induction false} KeptLength(items: seq<Item>, cutoff: Time)
    ensures |Kept(items, cutoff)| <= |items|
  {
    if items != [] {
      KeptLength(items[..|items| - 1], cutoff);
    }
  }

  lemma {:induction false} KeptNext(items: seq<Item>, i: nat, cutoff: Time)
    requires i < |items|
    ensures Kept(items[..i + 1], cutoff) ==
      Kept(items[..i], cutoff) + (if items[i].at < cutoff then [] else [items[i]])
  {
    assert items[..i + 1][..i] == items[..i];
  }

  function Dropped(items: seq<Item>, cutoff: Time): set<string> { set i | i in items && i.at < cutoff :: i.id }

  /** The ids the prune forgets: those of the positions past the kept count. */
  function Forgotten(items: seq<Item>, cutoff: Time): set<string> {
    KeptLength(items, cutoff);
    Ids(items[|Kept(items, cutoff)|..])
  }

  datatype Coll = Coll(
    items: seq<Item>, seen: set<string>, fetchedAt: Option<Time>, lastError: string,
    truncated: bool, failures: nat, retryAt: Option<Time>)

  const NOTHING := Coll([], {}, None, "", false, 0, None)

  datatype Limits = Limits(maxPages: int, maxItems: int) {
    function Pages(): nat { if maxPages > 0 then maxPages else MAX_PAGES }
    function Items(): nat { if maxItems > 0 then maxItems else MAX_ITEMS }
  }

  function Watermark(c: Coll): Option<Time> { if c.items == [] then None else Some(c.items[0].at) }

  function Budget(c: Coll, cutoff: Time, limits: Limits): nat {
    var covered := c.items != [] && c.items[|c.items| - 1].at <= cutoff;
    Min(if covered then PAGES_STEADY else PAGES_EXTEND, limits.Pages())
  }

  function Interval(every: int): int { if every <= 0 then DEFAULT_EVERY else every }

  function Backoff(failures: nat, every: int): int {
    Min(Interval(every) * Pow2(Max(0, Min(failures - 1, 4))), MAX_BACKOFF)
  }

  function FailureNoted(c: Coll, now: Time, every: int): Coll {
    c.(failures := c.failures + 1, retryAt := Some(now + Backoff(c.failures + 1, every)))
  }

  function WalkOf(c: Coll, pages: seq<PageReply>, limits: Limits, now: Time): Walk {
    var cutoff := now - RETENTION;
    WalkPages(pages, Budget(c, cutoff, limits), cutoff, Watermark(c), limits.Items(), [], c.seen)
  }

  /** The records merged in and pruned, before the outcome of the walk is noted. */
  function Merged(c: Coll, collected: seq<Item>, cutoff: Time): Coll {
    var sorted := SortNewest(c.items + collected);
    c.(items := Kept(sorted, cutoff), seen := c.seen + Ids(collected) - Forgotten(sorted, cutoff))
  }

  function Fetched(c: Coll, pages: seq<PageReply>, limits: Limits, every: int, now: Time): Coll {
    var walk := WalkOf(c, pages, limits, now);
    if walk.collected == [] && walk.error != "" then FailureNoted(c.(lastError := walk.error), now, every)
    else
      var merged := Merged(c, walk.collected, now - RETENTION).(
        lastError := walk.error, fetchedAt := Some(now), truncated := !walk.full);
      if walk.error == "" then merged.(failures := 0, retryAt := None) else FailureNoted(merged, now, every)
  }

  predicate Due(c: Coll, now: Time, every: int) {
    if c.retryAt != None && now < c.retryAt.value then false
    else c.fetchedAt == None || now - c.fetchedAt.value >= Interval(every)
  }

  // --- the object ----------------------------------------------------------------------------------------

  method ScanItems(items: seq<RawItem>, cutoff: Time, watermark: Option<Time>, limit: nat, collected0: seq<Item>,
                   known0: set<string>)
    returns (s: Scan)
    ensures s == ScanPage(items, cutoff, watermark, limit, collected0, known0)
  {
    var collected, known := collected0, known0;
    var i := 0;
    while i < |items|
      invariant 0 <= i <= |items|
      invariant ScanPage(items, cutoff, watermark, limit, collected0, known0)
        == ScanPage(items[i..], cutoff, watermark, limit, collected, known)
    {
      assert items[i..][1..] == items[i + 1..];
      var parsed := ParseItem(items[i]);
      i := i + 1;
      if parsed == None {
        continue;
      }
      var item := parsed.value;
      if item.at <= cutoff || (watermark != None && item.at <= watermark.value) {
        return Scan(collected, known, true, true);
      }
      if item.id in known {
        continue;
      }
      if |collected| >= limit {
        return Scan(collected, known, false, true);
      }
      collected, known := collected + [item], known + {item.id};
    }
    s := Scan(collected, known, false, false);
  }

  method WalkAll(pages: seq<PageReply>, budget: nat, cutoff: Time, watermark: Option<Time>, limit: nat,
                 known0: set<string>)
    returns (walk: Walk)
    ensures walk == WalkPages(pages, budget, cutoff, watermark, limit, [], known0)
  {
    var collected, known := [], known0;
    var page := 0;
    while page < budget
      invariant 0 <= page <= budget && page <= |pages|
      invariant WalkPages(pages, budget, cutoff, watermark, limit, [], known0)
        == WalkPages(pages[page..], budget - page, cutoff, watermark, limit, collected, known)
    {
      if page >= |pages| {
        return Walk(collected, false, "no reply");
      }
      assert pages[page..][1..] == pages[page + 1..];
      match pages[page] {
        case Failed(text) =>
          return Walk(collected, false, text);
        case Page(items, more) =>
          if |items| == 0 {
            return Walk(collected, true, "");
          }
          var s := ScanItems(items, cutoff, watermark, limit, collected, known);
          collected, known := s.collected, s.known;
          if s.stop {
            return Walk(collected, s.full, "");
          }
          if !more {
            return Walk(collected, true, "");
          }
      }
      page := page + 1;
    }
    walk := Walk(collected, false, "");
  }

  class OfficialUsageCollector {
    /** The retained records are the first `size` elements of `buf`. */
    var buf: array<Item>
    var size: nat
    var seen: set<string>
    var fetchedAt: Option<Time>
    var lastError: string
    var truncated: bool
    var failures: nat
    var retryAt: Option<Time>
    const limits: Limits

    ghost predicate Valid()
      reads this
    {
      size <= buf.Length
    }

    ghost function State(): Coll
      requires Valid()
      reads this, buf
    {
      Coll(buf[..size], seen, fetchedAt, lastError, truncated, failures, retryAt)
    }

    constructor (limits: Limits)
      ensures Valid() && State() == NOTHING && this.limits == limits && fresh(buf)
    {
      this.limits := limits;
      buf := new Item[0];
      size, seen, fetchedAt, lastError, truncated, failures, retryAt := 0, {}, None, "", false, 0, None;
    }

    method NoteFailure(now: Time, every: int)
      requires Valid()
      modifies this`failures, this`retryAt
      ensures Valid() && State() == FailureNoted(old(State()), now, every)
    {
      failures := failures + 1;
      var interval := if every <= 0 then DEFAULT_EVERY else every;
      var shift := failures - 1;
      if shift > 4 {
        shift := 4;
      }
      var backoff := interval * Pow2(shift);
      if backoff > MAX_BACKOFF {
        backoff := MAX_BACKOFF;
      }
      retryAt := Some(now + backoff);
    }

    /** Moves the records that stay to the front of the same storage. */
    method Compact(cutoff: Time) returns (kept: nat)
      requires Valid()
      modifies buf
      ensures kept <= size && buf[..kept] == Kept(old(buf[..size]), cutoff)
      ensures buf[kept..size] == old(buf[kept..size])
    {
      ghost var before := buf[..size];
      kept := 0;
      for i := 0 to size
        invariant kept <= i
        invariant buf[..kept] == Kept(before[..i], cutoff)
        invariant forall k :: kept <= k < size ==> buf[k] == before[k]
      {
        KeptNext(before, i, cutoff);
        if buf[i].at < cutoff {
          continue;
        }
        ghost var front := buf[..kept];
        buf[kept] := buf[i];
        assert buf[..kept] == front;
        assert buf[..kept + 1] == front + [buf[kept]];
        kept := kept + 1;
      }
      assert before[..size] == before;
      assert buf[kept..size] == before[kept..size];
    }

    /** Filters the records in place and forgets the ids of the tail left behind. */
    method Prune(cutoff: Time)
      requires Valid()
      modifies this`size, this`seen, buf
      ensures Valid()
      ensures buf[..size] == Kept(old(buf[..size]), cutoff)
      ensures seen == old(seen) - Forgotten(old(buf[..size]), cutoff)
    {
      var kept := Compact(cutoff);
      ghost var tail := buf[kept..size];
      assert Ids([]) == {};
      for i := kept to size
        invariant size == old(size) && buf[..kept] == Kept(old(buf[..size]), cutoff)
        invariant buf[kept..size] == tail
        invariant seen == old(seen) - Ids(tail[..i - kept])
      {
        assert tail[..i + 1 - kept] == tail[..i - kept] + [tail[i - kept]];
        assert buf[i] == tail[i - kept];
        seen := seen - {buf[i].id};
      }
      assert tail[..size - kept] == tail;
      assert tail == old(buf[..size])[kept..];
      size := kept;
    }

    method MarkSeen(collected: seq<Item>)
      modifies this`seen
      ensures seen == old(seen) + Ids(collected)
    {
      for i := 0 to |collected|
        invariant seen == old(seen) + Ids(collected[..i])
      {
        assert collected[..i + 1] == collected[..i] + [collected[i]];
        seen := seen + {collected[i].id};
      }
      assert collected[..|collected|] == collected;
    }

    /** Appends the collected records and sorts the whole newest first. */
    method Merge(collected: seq<Item>)
      requires Valid()
      modifies this`buf, this`size, this`seen
      ensures Valid() && fresh(buf)
      ensures buf[..size] == SortNewest(old(buf[..size]) + collected)
      ensures seen == old(seen) + Ids(collected)
    {
      var all := buf[..size] + collected;
      var next := new Item[|all|](i requires 0 <= i < |all| => all[i]);
      assert next[..] == all;
      InsertionSort(next);
      MarkSeen(collected);
      buf, size := next, next.Length;
      assert buf[..size] == next[..];
    }

    /** Folds a finished walk in. */
    method Absorb(walk: Walk, every: int, now: Time)
      requires Valid()
      modifies this, buf
      ensures Valid()
      ensures State() == (
        var merged := Merged(old(State()), walk.collected, now - RETENTION).(
          lastError := walk.error, fetchedAt := Some(now), truncated := !walk.full);
        if walk.error == "" then merged.(failures := 0, retryAt := None) else FailureNoted(merged, now, every))
    {
      hide SortNewest, Kept, Backoff;
      Merge(walk.collected);
      Prune(now - RETENTION);
      lastError, fetchedAt, truncated := walk.error, Some(now), !walk.full;
      if walk.error == "" {
        failures, retryAt := 0, None;
      } else {
        NoteFailure(now, every);
      }
    }

    method Fetch(pages: seq<PageReply>, every: int, now: Time)
      requires Valid()
      modifies this, buf
      ensures Valid() && State() == Fetched(old(State()), pages, limits, every, now)
    {
      var cutoff := now - RETENTION;
      var watermark := if size > 0 then Some(buf[0].at) else None;
      var covered := size > 0 && buf[size - 1].at <= cutoff;
      var budget := if covered then PAGES_STEADY else PAGES_EXTEND;
      if budget > limits.Pages() {
        budget := limits.Pages();
      }
      assert watermark == Watermark(State()) && budget == Budget(State(), cutoff, limits);
      var walk := WalkAll(pages, budget, cutoff, watermark, limits.Items(), seen);
      if |walk.collected| == 0 && walk.error != "" {
        lastError := walk.error;
        NoteFailure(now, every);
        return;
      }
      Absorb(walk, every, now);
    }
  }

  /** Sinks the element at `i` into the sorted prefix before it. */
  method Sink(a: array<Item>, i: nat)
    requires i < a.Length
    modifies a
    ensures a[..i + 1] == Insert(old(a[..i]), old(a[i]))
    ensures a[i + 1..] == old(a[i + 1..])
  {
    ghost var sorted := a[..i];
    if i > 0 && a[i].at > a[i - 1].at {
      assert sorted[..i - 1] == a[..i - 1];
      a[i], a[i - 1] := a[i - 1], a[i];
      assert a[..i - 1] == sorted[..i - 1];
      ghost var tail := a[i..];
      Sink(a, i - 1);
      assert a[i..] == tail;
      assert a[..i + 1] == a[..i] + [a[i]] && a[i] == tail[0];
    } else {
      assert a[..i + 1] == sorted + [a[i]];
    }
  }

  /** In-place stable insertion sort, newest first. */
  method InsertionSort(a: array<Item>)
    modifies a
    ensures a[..] == SortNewest(old(a[..]))
  {
    for i := 0 to a.Length
      invariant a[..i] == SortNewest(old(a[..])[..i])
      invariant a[i..] == old(a[i..])
    {
      assert old(a[..])[..i + 1][..i] == old(a[..])[..i];
      assert a[i] == a[i..][0];
      Sink(a, i);
      assert a[i + 1..] == old(a[i..])[1..];
    }
    assert a[..a.Length] == a[..] && old(a[..])[..a.Length] == old(a[..]);
  }
}
