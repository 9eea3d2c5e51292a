/** How far a walk gets: the pages it may read, the records it may hold, and exactly when it ends clean. */
module CollectorWalk {
  import opened Common
  import opened Text
  import opened Collector
  import opened CollectorRefines

  /** The records of a list that lie inside the window, in order. */
  function Inside(items: seq<Item>, edge: Time): seq<Item> {
    if items == [] then [] else (if items[0].at > edge then [items[0]] else []) + Inside(items[1..], edge)
  }

  lemma {:induction false} InsideConcat(a: seq<Item>, b: seq<Item>, edge: Time)
    ensures Inside(a + b, edge) == Inside(a, edge) + Inside(b, edge)
  {
    if a == [] {
      assert a + b == b;
    } else {
      InsideConcat(a[1..], b, edge);
      assert (a + b)[1..] == a[1..] + b && (a + b)[0] == a[0];
      var first := if a[0].at > edge then [a[0]] else [];
      assert first + (Inside(a[1..], edge) + Inside(b, edge)) == (first + Inside(a[1..], edge)) + Inside(b, edge);
    }
  }

  /** Some readable record of the page is at the window's edge or older, or not newer than what is held. */
  ghost predicate MeetsTheEnd(items: seq<RawItem>, edge: Time, newest: Option<Time>) {
    exists y :: y in Parsed(items) && (y.at <= edge || (newest != None && y.at <= newest.value))
  }

  /** Among the first `n` replies, before any failure, one is empty, is the last one or meets the end. */
  ghost predicate EndsWithin(pages: seq<PageReply>, n: nat, edge: Time, newest: Option<Time>) {
    && n > 0 && pages != [] && pages[0].Page?
    && (|| pages[0].items == [] || !pages[0].more || MeetsTheEnd(pages[0].items, edge, newest)
        || EndsWithin(pages[1..], n - 1, edge, newest))
  }

  /** The records inside the window that the replies hold, all replies together. */
  function Holding(pages: seq<PageReply>, edge: Time): nat {
    if pages == [] then 0 else
      (if pages[0].Page? then |Inside(Parsed(pages[0].items), edge)| else 0) + Holding(pages[1..], edge)
  }

  // --- one page ------------------------------------------------------------------------------------

  lemma {:induction false} PageWithRoom(items: seq<RawItem>, edge: Time, newest: Option<Time>, limit: nat,
                                        collected: seq<Item>, known: set<string>)
    requires |collected| + |Inside(Parsed(items), edge)| <= limit
    ensures var s := ScanPage(items, edge, newest, limit, collected, known);
      && (s.stop <==> s.full) && (s.full <==> MeetsTheEnd(items, edge, newest))
      && |s.collected| <= |collected| + |Inside(Parsed(items), edge)|
    decreases |items|
  {
    hide ParseItem;
    if items != [] {
      var p := ParseItem(items[0]);
      var rest := Parsed(items[1..]);
      if p == None {
        assert Parsed(items) == rest;
        PageWithRoom(items[1..], edge, newest, limit, collected, known);
      } else {
        assert Parsed(items) == [p.value] + rest && (([p.value] + rest)[1..] == rest);
        assert p.value in Parsed(items) && forall y :: y in Parsed(items) <==> y == p.value || y in rest;
        if Wanted(p.value, edge, newest) {
          if p.value.id in known {
            PageWithRoom(items[1..], edge, newest, limit, collected, known);
          } else {
            PageWithRoom(items[1..], edge, newest, limit, collected + [p.value], known + {p.value.id});
          }
        }
      }
    }
  }

  /** A page never takes the collection past the limit. */
  lemma {:induction false} PageKeepsLimit(items: seq<RawItem>, edge: Time, newest: Option<Time>, limit: nat,
                                          collected: seq<Item>, known: set<string>)
    requires |collected| <= limit
    ensures |ScanPage(items, edge, newest, limit, collected, known).collected| <= limit
    decreases |items|
  {
    hide ParseItem, Wanted;
    if items != [] {
      var p := ParseItem(items[0]);
      if p == None || (Wanted(p.value, edge, newest) && p.value.id in known) {
        PageKeepsLimit(items[1..], edge, newest, limit, collected, known);
      } else if Wanted(p.value, edge, newest) && |collected| < limit {
        PageKeepsLimit(items[1..], edge, newest, limit, collected + [p.value], known + {p.value.id});
      }
    }
  }

  // --- a whole walk --------------------------------------------------------------------------------

  lemma {:induction false} WalkWithRoom(pages: seq<PageReply>, budget: nat, edge: Time, newest: Option<Time>, limit: nat,
                                        collected: seq<Item>, known: set<string>)
    requires |collected| + Holding(pages, edge) <= limit
    ensures var w := WalkPages(pages, budget, edge, newest, limit, collected, known);
      (w.full <==> EndsWithin(pages, budget, edge, newest)) && (w.full ==> w.error == "")
    decreases budget
  {
    hide ScanPage, Parsed, MeetsTheEnd;
    if budget > 0 && pages != [] && pages[0].Page? && pages[0].items != [] {
      PageWithRoom(pages[0].items, edge, newest, limit, collected, known);
      var s := ScanPage(pages[0].items, edge, newest, limit, collected, known);
      if !s.stop && pages[0].more {
        WalkWithRoom(pages[1..], budget - 1, edge, newest, limit, s.collected, s.known);
      }
    }
  }

  lemma {:induction false} WalkKeepsLimit(pages: seq<PageReply>, budget: nat, edge: Time, newest: Option<Time>,
                                          limit: nat, collected: seq<Item>, known: set<string>)
    requires |collected| <= limit
    ensures |WalkPages(pages, budget, edge, newest, limit, collected, known).collected| <= limit
    decreases budget
  {
    hide ScanPage;
    if budget > 0 && pages != [] && pages[0].Page? && pages[0].items != [] {
      PageKeepsLimit(pages[0].items, edge, newest, limit, collected, known);
      var s := ScanPage(pages[0].items, edge, newest, limit, collected, known);
      if !s.stop && pages[0].more {
        WalkKeepsLimit(pages[1..], budget - 1, edge, newest, limit, s.collected, s.known);
      }
    }
  }

  lemma {:induction false} WalkReadsNoMore(pages: seq<PageReply>, others: seq<PageReply>, n: nat, budget: nat,
                                           edge: Time, newest: Option<Time>, limit: nat, collected: seq<Item>,
                                           known: set<string>)
    requires budget <= n <= |pages| && n <= |others| && pages[..n] == others[..n]
    ensures WalkPages(pages, budget, edge, newest, limit, collected, known)
      == WalkPages(others, budget, edge, newest, limit, collected, known)
    decreases budget
  {
    hide ScanPage;
    if budget > 0 {
      assert pages[0] == pages[..n][0] && others[0] == others[..n][0];
      if pages[0].Page? && pages[0].items != [] {
        var s := ScanPage(pages[0].items, edge, newest, limit, collected, known);
        if !s.stop && pages[0].more {
          assert pages[1..][..n - 1] == pages[..n][1..] && others[1..][..n - 1] == others[..n][1..];
          WalkReadsNoMore(pages[1..], others[1..], n - 1, budget - 1, edge, newest, limit, s.collected, s.known);
        }
      }
    }
  }

  // --- the walk of one fetch -----------------------------------------------------------------------

  /** The retained records reach the far edge of the window. */
  ghost predicate Reaches(c: Coll, edge: Time) { c.items != [] && c.items[|c.items| - 1].at <= edge }

  /** The time of the newest record held. */
  function Newest(c: Coll): Option<Time> { if c.items == [] then None else Some(c.items[0].at) }

  /**
   Exactly when a fetch walks clean under the default limits: when one of the replies it may read ends the walk. It may
   read 5 when the retained records reach the edge 26 hours back, and 60 when they do not or there are none.
   */
  lemma {:induction false} FetchIsCleanExactly(c: Coll, call: Call)
    requires call.limits.maxPages <= 0 && call.limits.maxItems <= 0
    requires Holding(call.pages, call.now - 93_600_000_000_000) <= 40000
    ensures var edge := call.now - 93_600_000_000_000;
      var walk := WalkOf(c, call.pages, call.limits, call.now);
      && (Clean(walk) <==> EndsWithin(call.pages, if Reaches(c, edge) then 5 else 60, edge, Newest(c)))
      && (walk.full <==> Clean(walk))
  {
    hide WalkPages, EndsWithin, Holding;
    var edge := call.now - RETENTION;
    WalkWithRoom(call.pages, if Reaches(c, edge) then 5 else 60, edge, Newest(c), 40000, [], c.seen);
  }

  /**
   No reply after the fifth makes a difference to a state that reaches the edge, none after the sixtieth to any, and none
   after the configured number of pages.
   */
  lemma {:induction false} LaterRepliesDoNotMatter(c: Coll, call: Call, others: seq<PageReply>, n: nat)
    requires || n == 60
             || (n == 5 && Reaches(c, call.now - 93_600_000_000_000))
             || (n == call.limits.maxPages && n > 0)
    requires n <= |call.pages| && n <= |others| && call.pages[..n] == others[..n]
    ensures Fetched(c, call.pages, call.limits, call.every, call.now)
      == Fetched(c, others, call.limits, call.every, call.now)
  {
    hide WalkPages, Merged, Backoff;
    var edge := call.now - RETENTION;
    WalkReadsNoMore(call.pages, others, n, Budget(c, edge, call.limits), edge, Watermark(c), call.limits.Items(), [],
      c.seen);
  }

  /** One walk collects at most the configured number of records, 40000 when none is configured. */
  lemma {:induction false} WalkIsBounded(c: Coll, call: Call)
    ensures |WalkOf(c, call.pages, call.limits, call.now).collected|
      <= if call.limits.maxItems > 0 then call.limits.maxItems else 40000
  {
    hide WalkPages;
    var edge := call.now - RETENTION;
    WalkKeepsLimit(call.pages, Budget(c, edge, call.limits), edge, Watermark(c), call.limits.Items(), [], c.seen);
  }

  // --- a whole list in sixty pages -----------------------------------------------------------------

  /** The replies are pages, and the last of them is the list's last one. */
  ghost predicate Answered(pages: seq<PageReply>) {
    && pages != []
    && (forall p :: p in pages ==> p.Page?)
    && (!pages[|pages| - 1].more || pages[|pages| - 1].items == [])
  }

  lemma {:induction false} AnsweredEnds(pages: seq<PageReply>, n: nat, edge: Time, newest: Option<Time>)
    requires Answered(pages) && |pages| <= n
    ensures EndsWithin(pages, n, edge, newest)
    decreases |pages|
  {
    hide MeetsTheEnd;
    assert pages[0] in pages;
    if |pages| > 1 {
      AnsweredEnds(pages[1..], n - 1, edge, newest);
    }
  }

  /** Up to the page that ends them, the replies hold what the list holds. */
  function Asked(pages: seq<PageReply>): seq<PageReply> {
    if pages == [] then [] else
      [pages[0]] + (if pages[0].Failed? || !pages[0].more || pages[0].items == [] then [] else Asked(pages[1..]))
  }

  lemma {:induction false} AskedWalk(pages: seq<PageReply>, budget: nat, edge: Time, newest: Option<Time>, limit: nat,
                                     collected: seq<Item>, known: set<string>)
    ensures WalkPages(Asked(pages), budget, edge, newest, limit, collected, known)
      == WalkPages(pages, budget, edge, newest, limit, collected, known)
    decreases budget
  {
    hide ScanPage;
    if budget > 0 && pages != [] && pages[0].Page? && pages[0].items != [] && pages[0].more {
      var s := ScanPage(pages[0].items, edge, newest, limit, collected, known);
      assert Asked(pages)[1..] == Asked(pages[1..]);
      if !s.stop {
        AskedWalk(pages[1..], budget - 1, edge, newest, limit, s.collected, s.known);
      }
    }
  }

  lemma {:induction false} AskedHolds(pages: seq<PageReply>, server: seq<RawItem>, edge: Time)
    requires Serves(pages, server)
    ensures Holding(Asked(pages), edge) <= |Inside(Parsed(server), edge)|
    decreases |pages|
  {
    hide Parsed, Inside;
    assert Holding([], edge) == 0;
    if pages != [] && pages[0].Page? {
      var items := pages[0].items;
      if !pages[0].more || items == [] {
        assert Asked(pages) == [pages[0]] && Asked(pages)[1..] == [];
      } else {
        var rest := server[|items|..];
        assert server == items + rest && Asked(pages)[1..] == Asked(pages[1..]);
        AskedHolds(pages[1..], rest, edge);
        ParsedConcat(items, rest);
        InsideConcat(Parsed(items), Parsed(rest), edge);
      }
    } else if pages != [] {
      assert Asked(pages) == [pages[0]] && Asked(pages)[1..] == [];
    }
  }

  lemma {:induction false} AskedIsAnswered(pages: seq<PageReply>)
    requires Answered(pages)
    ensures Answered(Asked(pages)) && |Asked(pages)| <= |pages|
    decreases |pages|
  {
    assert pages[0] in pages;
    if |pages| > 1 && pages[0].more && pages[0].items != [] {
      AskedIsAnswered(pages[1..]);
    }
  }

  /**
   Replies that serve the server's list in at most 60 pages, none of them a failure, with at most 40000 of its records
   inside the last 26 hours: a fetch from nothing, or from records that do not reach the edge, is clean.
   */
  lemma {:induction false} SixtyPagesAreClean(c: Coll, server: seq<RawItem>, call: Call)
    requires call.limits.maxPages <= 0 && call.limits.maxItems <= 0
    requires c.items == [] || c.items[|c.items| - 1].at > call.now - 93_600_000_000_000
    requires Serves(call.pages, server) && Answered(call.pages) && |call.pages| <= 60
    requires |Inside(Parsed(server), call.now - 93_600_000_000_000)| <= 40000
    ensures Clean(WalkOf(c, call.pages, call.limits, call.now))
  {
    hide WalkPages, EndsWithin, Holding, Serves, Answered, Asked, Parsed, Inside;
    var edge := call.now - RETENTION;
    var asked := Asked(call.pages);
    AskedHolds(call.pages, server, edge);
    AskedIsAnswered(call.pages);
    AnsweredEnds(asked, 60, edge, Newest(c));
    FetchIsCleanExactly(c, call.(pages := asked));
    AskedWalk(call.pages, 60, edge, Newest(c), 40000, [], c.seen);
  }

  /**
   Such a fetch brings the records up to the list, except for what was behind before; from nothing retained it always
   does. The state it leaves says so: no error, not truncated, no failure counted, fetched now.
   */
  lemma {:induction false} SixtyPagesRefine(c: Coll, server: seq<RawItem>, call: Call)
    requires WellKept(c) && ServerOrder(server) && forall y :: y in c.items ==> y in Parsed(server)
    requires call.limits.maxPages <= 0 && call.limits.maxItems <= 0
    requires c.items == [] || c.items[|c.items| - 1].at > call.now - 93_600_000_000_000
    requires Serves(call.pages, server) && Answered(call.pages) && |call.pages| <= 60
    requires |Inside(Parsed(server), call.now - 93_600_000_000_000)| <= 40000
    ensures var edge := call.now - 93_600_000_000_000;
      var c' := Fetched(c, call.pages, call.limits, call.every, call.now);
      && (Refines(c', server, edge) <==> forall y :: y in Parsed(server) && y.at > edge ==> !Behind(c, y))
      && (c.items == [] ==> Refines(c', server, edge))
      && c'.lastError == "" && !c'.truncated && c'.failures == 0 && c'.retryAt == None
      && c'.fetchedAt == Some(call.now)
  {
    hide WalkPages, Parsed, WellKept, ServerOrder, Serves, Answered, Inside, Merged, Refines;
    SixtyPagesAreClean(c, server, call);
    CleanFetchExactly(c, server, call);
  }

  // --- what a fetch notes, and when the next one is due --------------------------------------------

  /**
   A walk that failed with nothing new leaves the records, their time and the truncation mark alone. Any other is noted:
   when it was, whether it was cut short, and its error, which counts as a failure; without one none is counted.
   */
  lemma {:induction false} FetchNotes(c: Coll, call: Call)
    ensures var walk, c' := WalkOf(c, call.pages, call.limits, call.now),
                            Fetched(c, call.pages, call.limits, call.every, call.now);
      && c'.lastError == walk.error
      && (walk.error != "" ==> c'.failures == c.failures + 1 && c'.retryAt.Some?)
      && (walk.error == "" ==> c'.failures == 0 && c'.retryAt == None)
      && (EmptyHanded(walk) ==> (c'.items, c'.seen, c'.fetchedAt, c'.truncated) == (c.items, c.seen, c.fetchedAt, c.truncated))
      && (!EmptyHanded(walk) ==> c'.fetchedAt == Some(call.now) && (c'.truncated <==> !walk.full))
  {
    hide WalkPages, SortNewest, Kept, Forgotten, Backoff;
  }

  /** How long a failed walk puts the next one off. */
  function Delay(c: Coll, call: Call): int
    requires Fetched(c, call.pages, call.limits, call.every, call.now).retryAt.Some?
  {
    Fetched(c, call.pages, call.limits, call.every, call.now).retryAt.value - call.now
  }

  /** The first failure puts it off by the interval, ten minutes when none is configured, and half an hour at most. */
  lemma {:induction false} FirstFailureWaits(c: Coll, call: Call)
    requires WalkOf(c, call.pages, call.limits, call.now).error != "" && c.failures == 0
    ensures Fetched(c, call.pages, call.limits, call.every, call.now).retryAt.Some?
    ensures Delay(c, call) == Min(if call.every > 0 then call.every else 600_000_000_000, 1_800_000_000_000)
  {
    hide WalkPages, SortNewest, Kept, Forgotten;
    assert Pow2(0) == 1;
  }

  /** Each of the next four failures in a row puts it off twice as long, half an hour at most, and any later one as long. */
  lemma {:induction false} NextFailureWaits(c: Coll, call: Call, d: Coll, next: Call)
    requires WalkOf(c, call.pages, call.limits, call.now).error != ""
    requires WalkOf(d, next.pages, next.limits, next.now).error != ""
    requires d.failures == Fetched(c, call.pages, call.limits, call.every, call.now).failures && next.every == call.every
    ensures Fetched(c, call.pages, call.limits, call.every, call.now).retryAt.Some?
    ensures Fetched(d, next.pages, next.limits, next.every, next.now).retryAt.Some?
    ensures Delay(d, next) == if c.failures < 4 then Min(2 * Delay(c, call), 1_800_000_000_000) else Delay(c, call)
  {
    hide WalkPages, SortNewest, Kept, Forgotten, Backoff;
    BackoffSteps(c.failures + 1, call.every);
  }

  /** A fetch is due once the put-off time is over and the interval since the last noted fetch has passed. */
  lemma {:induction false} DueExactly(c: Coll, now: Time, every: int)
    ensures Due(c, now, every) <==>
      && (c.retryAt == None || c.retryAt.value <= now)
      && (c.fetchedAt == None
          || c.fetchedAt.value + (if every > 0 then every else 600_000_000_000) <= now)
  {
  }

  // --- where the retained records come from --------------------------------------------------------

  /** The record is the upstream's, field by field; the model is the raw one, or the named one when that is blank. */
  ghost predicate AsServed(y: Item, raw: RawItem) {
    && y.id == raw.id != "" && raw.createdAt == Some(y.at)
    && (y.prompt, y.completion, y.cached) == (raw.promptTokens, raw.completionTokens, raw.cachedTokens)
    && (y.costMicro, y.credits) == (raw.costUnits, raw.creditsUsed)
    && (y.byok, y.stream) == (raw.isByok, raw.isStream)
    && y.provider == Trim(raw.providerName)
    && y.model == (if Trim(raw.rawModel) != "" then Trim(raw.rawModel) else Trim(raw.modelName))
  }

  /** One of the replies holds the record. */
  ghost predicate Offered(pages: seq<PageReply>, raw: RawItem) {
    exists p :: p in pages && p.Page? && raw in p.items
  }

  /** A record can be read exactly when it has an id and a time. */
  lemma {:induction false} ReadableExactly(raw: RawItem)
    ensures ParseItem(raw).Some? <==> raw.id != "" && raw.createdAt.Some?
    ensures ParseItem(raw).Some? ==> AsServed(ParseItem(raw).value, raw)
  {
  }

  lemma {:induction false} PageOffers(items: seq<RawItem>, edge: Time, newest: Option<Time>, limit: nat,
                                      collected: seq<Item>, known: set<string>)
    ensures forall y :: y in ScanPage(items, edge, newest, limit, collected, known).collected ==>
      y in collected || exists raw :: raw in items && AsServed(y, raw)
    decreases |items|
  {
    hide ParseItem, Wanted, AsServed;
    if items != [] {
      var p := ParseItem(items[0]);
      ReadableExactly(items[0]);
      if p == None || (Wanted(p.value, edge, newest) && p.value.id in known) {
        PageOffers(items[1..], edge, newest, limit, collected, known);
      } else if Wanted(p.value, edge, newest) && |collected| < limit {
        PageOffers(items[1..], edge, newest, limit, collected + [p.value], known + {p.value.id});
      }
    }
  }

  lemma {:induction false} WalkOffers(pages: seq<PageReply>, budget: nat, edge: Time, newest: Option<Time>, limit: nat,
                                      collected: seq<Item>, known: set<string>)
    ensures forall y :: y in WalkPages(pages, budget, edge, newest, limit, collected, known).collected ==>
      y in collected || exists raw :: Offered(pages, raw) && AsServed(y, raw)
    decreases budget
  {
    hide ScanPage, AsServed;
    if budget > 0 && pages != [] && pages[0].Page? && pages[0].items != [] {
      PageOffers(pages[0].items, edge, newest, limit, collected, known);
      assert forall raw :: raw in pages[0].items ==> Offered(pages, raw);
      var s := ScanPage(pages[0].items, edge, newest, limit, collected, known);
      if !s.stop && pages[0].more {
        WalkOffers(pages[1..], budget - 1, edge, newest, limit, s.collected, s.known);
        assert forall raw :: Offered(pages[1..], raw) ==> Offered(pages, raw);
      }
    }
  }

  /** Every record retained after any fetches is one that a reply to one of them held, unchanged. */
  lemma {:induction false} RetainedAsServed(calls: seq<Call>)
    ensures forall y :: y in After(calls).items ==>
      exists i, raw :: 0 <= i < |calls| && Offered(calls[i].pages, raw) && AsServed(y, raw)
  {
    hide Fetched, WalkPages, Offered, AsServed, WellKept;
    if calls != [] {
      var n := |calls| - 1;
      var c, call := After(calls[..n]), calls[n];
      RetainedAsServed(calls[..n]);
      EveryStateWellKept(calls[..n]);
      FetchKeeps(c, call);
      var edge := call.now - RETENTION;
      WalkOffers(call.pages, Budget(c, edge, call.limits), edge, Watermark(c), call.limits.Items(), [], c.seen);
      forall y | y in After(calls).items
        ensures exists i, raw :: 0 <= i < |calls| && Offered(calls[i].pages, raw) && AsServed(y, raw)
      {
        if y in c.items {
          var i, raw :| 0 <= i < n && Offered(calls[..n][i].pages, raw) && AsServed(y, raw);
          assert calls[..n][i] == calls[i];
        }
      }
    }
  }
}
