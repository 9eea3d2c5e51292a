/** The collector against the server's records: the invariant of every state, and the full set it refines. */
module CollectorRefines {
  import opened Common
  import opened Collector

  // --- the invariant of every reachable state ---------------------------------------------------------

  ghost predicate WellKept(c: Coll) {
    NewestFirst(c.items) && DistinctIds(c.items) && c.seen == Ids(c.items)
  }

  lemma {:induction false} AddedLast(r: seq<Item>, last: Item)
    requires NewestFirst(r) && DistinctIds(r) && forall y :: y in r ==> y.at >= last.at && y.id != last.id
    ensures NewestFirst(r + [last]) && DistinctIds(r + [last])
  {
    assert forall i :: 0 <= i < |r| ==> r[i] in r;
  }

  lemma {:induction false} FirstOnes(items: seq<Item>)
    requires NewestFirst(items) && DistinctIds(items) && items != []
    ensures var rest, last := items[..|items| - 1], items[|items| - 1];
      && NewestFirst(rest) && DistinctIds(rest)
      && forall y :: y in rest ==> y in items && y.at >= last.at && y.id != last.id
  {
  }

  lemma {:induction false} InsertKeeps(items: seq<Item>, x: Item)
    requires NewestFirst(items) && DistinctIds(items) && x.id !in Ids(items)
    ensures NewestFirst(Insert(items, x))
    ensures DistinctIds(Insert(items, x))
    ensures forall y :: y in Insert(items, x) <==> y in items || y == x
    ensures |Insert(items, x)| == |items| + 1
  {
    hide NewestFirst, DistinctIds;
    if items == [] || items[|items| - 1].at >= x.at {
      if items != [] {
        FirstOnes(items);
      }
      assert items != [] ==> items == items[..|items| - 1] + [items[|items| - 1]];
      AddedLast(items, x);
    } else {
      var rest, last := items[..|items| - 1], items[|items| - 1];
      FirstOnes(items);
      InsertKeeps(rest, x);
      assert last in items;
      AddedLast(Insert(rest, x), last);
    }
  }

  lemma {:induction false} SortKeeps(items: seq<Item>)
    requires DistinctIds(items)
    ensures NewestFirst(SortNewest(items))
    ensures DistinctIds(SortNewest(items))
    ensures forall y :: y in SortNewest(items) <==> y in items
  {
    if items != [] {
      var rest, last := items[..|items| - 1], items[|items| - 1];
      SortKeeps(rest);
      assert items == rest + [last];
      assert last.id !in Ids(SortNewest(rest)) by {
        forall y | y in SortNewest(rest)
          ensures y.id != last.id
        {
          var i :| 0 <= i < |rest| && rest[i] == y;
          assert items[i] == y;
        }
      }
      InsertKeeps(SortNewest(rest), last);
    }
  }

  lemma {:induction false} KeptMembers(items: seq<Item>, cutoff: Time)
    ensures forall y :: y in Kept(items, cutoff) <==> y in items && y.at >= cutoff
  {
    if items != [] {
      KeptMembers(items[..|items| - 1], cutoff);
      assert items == items[..|items| - 1] + [items[|items| - 1]];
    }
  }

  /** In a newest-first list the records that stay are a prefix. */
  lemma {:induction false} KeptIsPrefix(items: seq<Item>, cutoff: Time)
    requires NewestFirst(items)
    ensures Kept(items, cutoff) <= items
  {
    if items != [] {
      var rest := items[..|items| - 1];
      KeptIsPrefix(rest, cutoff);
      if items[|items| - 1].at >= cutoff {
        KeptAll(items, cutoff);
      }
    }
  }

  lemma {:induction false} KeptAll(items: seq<Item>, cutoff: Time)
    requires forall i :: 0 <= i < |items| ==> items[i].at >= cutoff
    ensures Kept(items, cutoff) == items
  {
    if items != [] {
      KeptAll(items[..|items| - 1], cutoff);
    }
  }

  lemma {:induction false} KeptConcat(a: seq<Item>, b: seq<Item>, cutoff: Time)
    ensures Kept(a + b, cutoff) == Kept(a, cutoff) + Kept(b, cutoff)
  {
    if b == [] {
      assert a + b == a;
    } else {
      KeptConcat(a, b[..|b| - 1], cutoff);
      assert (a + b)[..|a + b| - 1] == a + b[..|b| - 1];
    }
  }

  lemma {:induction false} TailDropped(head: seq<Item>, tail: seq<Item>, cutoff: Time)
    requires Kept(head, cutoff) == head && Kept(tail, cutoff) == []
    ensures Ids(tail) == Dropped(head + tail, cutoff)
  {
    hide Kept;
    KeptMembers(head, cutoff);
    KeptMembers(tail, cutoff);
    assert forall i :: i in head + tail <==> i in head || i in tail;
  }

  lemma {:induction false} SuffixForgets(items: seq<Item>, cutoff: Time)
    requires DistinctIds(items) && Kept(items, cutoff) <= items
    ensures Forgotten(items, cutoff) == Dropped(items, cutoff)
  {
    hide Kept, Ids, Dropped, DistinctIds;
    var n := |Kept(items, cutoff)|;
    var head, tail := items[..n], items[n..];
    assert items == head + tail && head == Kept(items, cutoff);
    KeptMembers(items, cutoff);
    assert forall i :: 0 <= i < n ==> head[i] in head;
    KeptAll(head, cutoff);
    KeptConcat(head, tail, cutoff);
    assert |Kept(tail, cutoff)| == 0;
    TailDropped(head, tail, cutoff);
  }

  lemma {:induction false} ForgetsNeedsSuffix(items: seq<Item>, cutoff: Time)
    requires DistinctIds(items) && Forgotten(items, cutoff) == Dropped(items, cutoff)
    ensures Kept(items, cutoff) <= items
  {
    hide Kept;
    KeptLength(items, cutoff);
    var n := |Kept(items, cutoff)|;
    var head, tail := items[..n], items[n..];
    assert items == head + tail;
    forall i | 0 <= i < n
      ensures head[i].at >= cutoff
    {
      assert head[i] in head && head[i] in items;
      assert head[i].id !in Dropped(items, cutoff);
    }
    KeptAll(head, cutoff);
    KeptConcat(head, tail, cutoff);
  }

  /**
   The in-place prune forgets the ids found past the kept count. With distinct ids those are the ids of the
   dropped records if and only if the dropped records are a suffix of the list.
   */
  lemma {:induction false} PruneForgetsTheDropped(items: seq<Item>, cutoff: Time)
    requires DistinctIds(items)
    ensures Forgotten(items, cutoff) == Dropped(items, cutoff) <==> Kept(items, cutoff) <= items
  {
    hide Kept, Forgotten, Dropped;
    if Kept(items, cutoff) <= items {
      SuffixForgets(items, cutoff);
    }
    if Forgotten(items, cutoff) == Dropped(items, cutoff) {
      ForgetsNeedsSuffix(items, cutoff);
    }
  }

  /** What a scan adds to is distinct and unknown. */
  ghost predicate Collecting(collected: seq<Item>, known: set<string>, seen: set<string>) {
    DistinctIds(collected) && seen !! Ids(collected) && known == seen + Ids(collected)
  }

  lemma {:induction false} ScanCollects(items: seq<RawItem>, cutoff: Time, watermark: Option<Time>, limit: nat,
                                        collected: seq<Item>, known: set<string>, seen: set<string>)
    requires Collecting(collected, known, seen)
    ensures var s := ScanPage(items, cutoff, watermark, limit, collected, known);
      Collecting(s.collected, s.known, seen) && collected <= s.collected
    decreases |items|
  {
    if items != [] {
      var p := ParseItem(items[0]);
      if p == None {
        ScanCollects(items[1..], cutoff, watermark, limit, collected, known, seen);
      } else if Wanted(p.value, cutoff, watermark) {
        if p.value.id in known {
          ScanCollects(items[1..], cutoff, watermark, limit, collected, known, seen);
        } else if |collected| < limit {
          ScanCollects(items[1..], cutoff, watermark, limit, collected + [p.value], known + {p.value.id}, seen);
        }
      }
    }
  }

  lemma {:induction false} WalkCollects(pages: seq<PageReply>, budget: nat, cutoff: Time, watermark: Option<Time>,
                                        limit: nat,
                                        collected: seq<Item>, known: set<string>, seen: set<string>)
    requires Collecting(collected, known, seen)
    ensures var w := WalkPages(pages, budget, cutoff, watermark, limit, collected, known);
      DistinctIds(w.collected) && seen !! Ids(w.collected)
    decreases budget
  {
    if budget > 0 && pages != [] && pages[0].Page? && pages[0].items != [] {
      ScanCollects(pages[0].items, cutoff, watermark, limit, collected, known, seen);
      var s := ScanPage(pages[0].items, cutoff, watermark, limit, collected, known);
      if !s.stop && pages[0].more {
        WalkCollects(pages[1..], budget - 1, cutoff, watermark, limit, s.collected, s.known, seen);
      }
    }
  }

  lemma {:induction false} MergeKeeps(c: Coll, collected: seq<Item>, cutoff: Time)
    requires WellKept(c) && DistinctIds(collected) && c.seen !! Ids(collected)
    ensures WellKept(Merged(c, collected, cutoff))
    ensures forall y :: y in Merged(c, collected, cutoff).items <==> (y in c.items || y in collected) && y.at >= cutoff
  {
    hide SortNewest;
    var all := c.items + collected;
    forall i, j | 0 <= i < j < |all|
      ensures all[i].id != all[j].id
    {
      if i < |c.items| <= j {
        assert all[i].id in Ids(c.items) && all[j].id in Ids(collected);
      }
    }
    SortKeeps(all);
    var sorted := SortNewest(all);
    KeptIsPrefix(sorted, cutoff);
    KeptMembers(sorted, cutoff);
    PruneForgetsTheDropped(sorted, cutoff);
    var items := Kept(sorted, cutoff);
    forall id
      ensures id in c.seen + Ids(collected) - Forgotten(sorted, cutoff) <==> id in Ids(items)
    {
      IdAfterPrune(sorted, cutoff, id);
      assert id in Ids(sorted) <==> id in c.seen + Ids(collected);
    }
  }

  lemma {:induction false} IdAfterPrune(items: seq<Item>, cutoff: Time, id: string)
    requires DistinctIds(items)
    ensures id in Ids(Kept(items, cutoff)) <==> id in Ids(items) && id !in Dropped(items, cutoff)
  {
    KeptMembers(items, cutoff);
    assert forall y, z :: y in items && z in items && y.id == z.id ==> y == z;
  }

  /** One fetch, whatever the upstream answers. */
  datatype Call = Call(pages: seq<PageReply>, limits: Limits, every: int, now: Time)

  function After(calls: seq<Call>): Coll {
    if calls == [] then NOTHING else
      var call := calls[|calls| - 1];
      Fetched(After(calls[..|calls| - 1]), call.pages, call.limits, call.every, call.now)
  }

  /** The upstream failed before anything new was read; the records stay as they are. */
  predicate EmptyHanded(walk: Walk) { walk.collected == [] && walk.error != "" }

  predicate Clean(walk: Walk) { walk.full && walk.error == "" }

  lemma {:induction false} FetchKeeps(c: Coll, call: Call)
    requires WellKept(c)
    ensures WellKept(Fetched(c, call.pages, call.limits, call.every, call.now))
    ensures var walk, c' := WalkOf(c, call.pages, call.limits, call.now),
                            Fetched(c, call.pages, call.limits, call.every, call.now);
      if EmptyHanded(walk) then c'.items == c.items
      else forall y :: y in c'.items <==> (y in c.items || y in walk.collected) && y.at >= call.now - RETENTION
  {
    hide Merged, WalkPages, Backoff;
    var cutoff := call.now - RETENTION;
    assert Collecting([], c.seen, c.seen);
    WalkCollects(call.pages, Budget(c, cutoff, call.limits), cutoff, Watermark(c), call.limits.Items(), [], c.seen,
      c.seen);
    MergeKeeps(c, WalkOf(c, call.pages, call.limits, call.now).collected, cutoff);
  }

  /**
   In every reachable state, including after failed, truncated and out-of-order walks, the records are
   newest first, their ids are distinct and the seen set is exactly those ids.
   */
  lemma {:induction false} EveryStateWellKept(calls: seq<Call>)
    ensures WellKept(After(calls))
  {
    hide Fetched;
    if calls != [] {
      EveryStateWellKept(calls[..|calls| - 1]);
      FetchKeeps(After(calls[..|calls| - 1]), calls[|calls| - 1]);
    }
  }

  // --- refinement of the server's records ---------------------------------------------------------------

  /** The readable records of a server list: strictly newest first, with distinct ids. */
  ghost predicate ServerOrder(server: seq<RawItem>) {
    Ordered(Parsed(server))
  }

  /** The replies page through the list; what follows the last page is never asked for. */
  ghost predicate Serves(pages: seq<PageReply>, server: seq<RawItem>) {
    if pages == [] then true else match pages[0]
      case Failed(_) => true
      case Page(items, more) =>
        if !more then items == server
        else if items == [] then server == []
        else items <= server && Serves(pages[1..], server[|items|..])
  }

  lemma {:induction false} ParsedHead(items: seq<RawItem>)
    requires items != []
    ensures Parsed(items) == Parsed([items[0]]) + Parsed(items[1..])
  {
    assert [items[0]][1..] == [];
  }

  lemma {:induction false} ParsedConcat(a: seq<RawItem>, b: seq<RawItem>)
    ensures Parsed(a + b) == Parsed(a) + Parsed(b)
  {
    hide Parsed;
    if a == [] {
      assert a + b == b;
      ParsedNothing();
    } else {
      ParsedConcat(a[1..], b);
      ParsedHead(a);
      ParsedHead(a + b);
      assert (a + b)[1..] == a[1..] + b;
    }
  }

  ghost predicate Ordered(items: seq<Item>) {
    forall i, j :: 0 <= i < j < |items| ==> items[i].at > items[j].at && items[i].id != items[j].id
  }

  lemma {:induction false} OrderSplits(a: seq<Item>, b: seq<Item>)
    requires Ordered(a + b)
    ensures Ordered(a)
    ensures Ordered(b)
    ensures forall x, y :: x in a && y in b ==> x.at > y.at && x.id != y.id
  {
    var all := a + b;
    forall i, j | 0 <= i < j < |b|
      ensures b[i].at > b[j].at && b[i].id != b[j].id
    {
      assert all[|a| + i] == b[i] && all[|a| + j] == b[j];
    }
    forall i, j | 0 <= i < j < |a|
      ensures a[i].at > a[j].at && a[i].id != a[j].id
    {
      assert all[i] == a[i] && all[j] == a[j];
    }
    forall x, y | x in a && y in b
      ensures x.at > y.at && x.id != y.id
    {
      var i :| 0 <= i < |a| && a[i] == x;
      var j :| 0 <= j < |b| && b[j] == y;
      assert all[i] == x && all[|a| + j] == y;
    }
  }

  lemma {:induction false} OrderTail(a: seq<RawItem>, b: seq<RawItem>)
    requires ServerOrder(a + b)
    ensures ServerOrder(a) && ServerOrder(b)
    ensures forall x, y :: x in Parsed(a) && y in Parsed(b) ==> x.at > y.at && x.id != y.id
  {
    hide Parsed;
    ParsedConcat(a, b);
    OrderSplits(Parsed(a), Parsed(b));
  }

  /** Everything wanted of a list was collected or known before. */
  ghost predicate Covers(items: seq<Item>, cutoff: Time, watermark: Option<Time>, collected: seq<Item>,
                         known: set<string>) {
    forall y :: y in items && Wanted(y, cutoff, watermark) ==> y in collected || y.id in known
  }

  /** What a scan of a list does to a collection. */
  ghost predicate Scanned(items: seq<Item>, cutoff: Time, watermark: Option<Time>, collected: seq<Item>,
                          known: set<string>, s: Scan) {
    && (s.full || !s.stop ==> Covers(items, cutoff, watermark, s.collected, known))
    && (forall y :: y in s.collected ==> y in collected || y in items)
    && (forall y :: y in collected ==> y in s.collected)
    && (forall id :: id in s.known ==> id in known || exists y :: y in items && y.id == id && y in s.collected)
    && (s.full ==> exists y :: y in items && !Wanted(y, cutoff, watermark))
  }

  lemma {:induction false} ScannedMore(first: Item, items: seq<Item>, cutoff: Time, watermark: Option<Time>,
                                       collected: seq<Item>, known: set<string>,
                    collected': seq<Item>, known': set<string>, s: Scan)
    requires Scanned(items, cutoff, watermark, collected', known', s)
    requires if first.id in known then collected' == collected && known' == known
             else collected' == collected + [first] && known' == known + {first.id}
    requires forall y :: y in items ==> y.id != first.id
    ensures Scanned([first] + items, cutoff, watermark, collected, known, s)
  {
    if first.id !in known {
      assert first in collected';
    }
  }

  lemma {:induction false} ScanCovers(items: seq<RawItem>, cutoff: Time, watermark: Option<Time>, limit: nat,
                                      collected: seq<Item>, known: set<string>)
    requires ServerOrder(items)
    ensures Scanned(Parsed(items), cutoff, watermark, collected, known,
      ScanPage(items, cutoff, watermark, limit, collected, known))
    decreases |items|
  {
    hide ParseItem, Scanned, Ordered;
    if items == [] {
      ScannedNothing([], cutoff, watermark, collected, known, false);
    } else {
      assert items == [items[0]] + items[1..];
      OrderTail([items[0]], items[1..]);
      var p := ParseItem(items[0]);
      var rest := Parsed(items[1..]);
      if p == None {
        assert Parsed(items) == rest;
        ScanCovers(items[1..], cutoff, watermark, limit, collected, known);
      } else {
        if !Wanted(p.value, cutoff, watermark) {
          ScannedEdge(p.value, rest, cutoff, watermark, collected, known);
        } else if p.value.id in known {
          ScanCovers(items[1..], cutoff, watermark, limit, collected, known);
          ScannedMore(p.value, rest, cutoff, watermark, collected, known, collected, known,
                      ScanPage(items, cutoff, watermark, limit, collected, known));
        } else if |collected| < limit {
          ScanCovers(items[1..], cutoff, watermark, limit, collected + [p.value], known + {p.value.id});
          ScannedMore(p.value, rest, cutoff, watermark, collected, known, collected + [p.value], known + {p.value.id},
                      ScanPage(items, cutoff, watermark, limit, collected, known));
        } else {
          ScannedNothing(Parsed(items), cutoff, watermark, collected, known, true);
        }
      }
    }
  }

  lemma {:induction false} ScannedNothing(items: seq<Item>, cutoff: Time, watermark: Option<Time>, collected: seq<Item>,
                                          known: set<string>, stop: bool)
    requires stop || items == []
    ensures Scanned(items, cutoff, watermark, collected, known, Scan(collected, known, false, stop))
  {
  }

  lemma {:induction false} ScannedEdge(first: Item, items: seq<Item>, cutoff: Time, watermark: Option<Time>,
                                       collected: seq<Item>, known: set<string>)
    requires !Wanted(first, cutoff, watermark) && forall y :: y in items ==> y.at < first.at
    ensures Scanned([first] + items, cutoff, watermark, collected, known, Scan(collected, known, true, true))
  {
    assert first in [first] + items;
  }

  /** What a walk over the pages of a list does to a collection. */
  ghost predicate Walked(server: seq<RawItem>, cutoff: Time, watermark: Option<Time>, collected: seq<Item>,
                         known: set<string>, w: Walk) {
    && (w.full && w.error == "" ==> Covers(Parsed(server), cutoff, watermark, w.collected, known))
    && (forall y :: y in w.collected ==> y in collected || y in Parsed(server))
    && (forall y :: y in collected ==> y in w.collected)
  }

  lemma {:induction false} NoPage(server: seq<RawItem>, cutoff: Time, watermark: Option<Time>, collected: seq<Item>,
                                  known: set<string>, w: Walk)
    requires w.collected == collected && (!w.full || w.error != "" || server == [])
    ensures Walked(server, cutoff, watermark, collected, known, w)
  {
  }

  /** The walk ends inside a page, or with the last one. */
  lemma {:induction false} PageEnds(items: seq<RawItem>, rest: seq<RawItem>, cutoff: Time, watermark: Option<Time>,
                                    limit: nat,
                 collected: seq<Item>, known: set<string>)
    requires ServerOrder(items + rest)
    ensures var s := ScanPage(items, cutoff, watermark, limit, collected, known);
      s.stop || rest == [] ==>
        Walked(items + rest, cutoff, watermark, collected, known, Walk(s.collected, s.full || !s.stop, ""))
  {
    hide ScanPage, Parsed, ServerOrder;
    OrderTail(items, rest);
    ParsedConcat(items, rest);
    ParsedNothing();
    ScanCovers(items, cutoff, watermark, limit, collected, known);
  }

  lemma {:induction false} ParsedNothing()
    ensures Parsed([]) == []
  {
  }

  /** The walk goes on behind a page that was scanned whole. */
  lemma {:induction false} PageGoesOn(items: seq<RawItem>, rest: seq<RawItem>, cutoff: Time, watermark: Option<Time>,
                                      limit: nat,
                   collected: seq<Item>, known: set<string>, w: Walk)
    requires ServerOrder(items + rest)
    requires var s := ScanPage(items, cutoff, watermark, limit, collected, known);
      !s.stop && Walked(rest, cutoff, watermark, s.collected, s.known, w)
    ensures Walked(items + rest, cutoff, watermark, collected, known, w)
  {
    hide ScanPage, Parsed, ServerOrder;
    OrderTail(items, rest);
    ParsedConcat(items, rest);
    ScanCovers(items, cutoff, watermark, limit, collected, known);
  }

  lemma {:induction false} WalkCovers(pages: seq<PageReply>, server: seq<RawItem>, budget: nat, cutoff: Time,
                                      watermark: Option<Time>, limit: nat, collected: seq<Item>, known: set<string>)
    requires Serves(pages, server) && ServerOrder(server)
    ensures Walked(server, cutoff, watermark, collected, known,
      WalkPages(pages, budget, cutoff, watermark, limit, collected, known))
    decreases budget
  {
    hide Walked, ScanPage, Parsed, ServerOrder;
    if budget > 0 && pages != [] && pages[0].Page? && pages[0].items != [] {
      var items := pages[0].items;
      var rest := server[|items|..];
      assert server == items + rest;
      OrderTail(items, rest);
      var s := ScanPage(items, cutoff, watermark, limit, collected, known);
      PageEnds(items, rest, cutoff, watermark, limit, collected, known);
      if !s.stop && pages[0].more {
        WalkCovers(pages[1..], rest, budget - 1, cutoff, watermark, limit, s.collected, s.known);
        PageGoesOn(items, rest, cutoff, watermark, limit, collected, known,
                   WalkPages(pages[1..], budget - 1, cutoff, watermark, limit, s.collected, s.known));
      }
    } else {
      NoPage(server, cutoff, watermark, collected, known,
             WalkPages(pages, budget, cutoff, watermark, limit, collected, known));
    }
  }

  /** The retained records are the server's readable records newer than the cutoff; the cutoff itself goes either way. */
  ghost predicate Refines(c: Coll, server: seq<RawItem>, cutoff: Time) {
    && (forall y :: y in Parsed(server) && y.at > cutoff ==> y in c.items)
    && (forall y :: y in c.items ==> y in Parsed(server) && y.at >= cutoff)
  }

  /** Only records newer than the watermark and the cutoff are collected. */
  lemma {:induction false} ScanCollectsWanted(items: seq<RawItem>, cutoff: Time, watermark: Option<Time>, limit: nat,
                                              collected: seq<Item>, known: set<string>)
    ensures forall y :: y in ScanPage(items, cutoff, watermark, limit, collected, known).collected ==>
      y in collected || Wanted(y, cutoff, watermark)
    decreases |items|
  {
    hide ParseItem, Wanted;
    if items != [] {
      var p := ParseItem(items[0]);
      if p == None || (Wanted(p.value, cutoff, watermark) && p.value.id in known) {
        ScanCollectsWanted(items[1..], cutoff, watermark, limit, collected, known);
      } else if Wanted(p.value, cutoff, watermark) && |collected| < limit {
        ScanCollectsWanted(items[1..], cutoff, watermark, limit, collected + [p.value], known + {p.value.id});
      }
    }
  }

  lemma {:induction false} WalkCollectsWanted(pages: seq<PageReply>, budget: nat, cutoff: Time, watermark: Option<Time>,
                                              limit: nat, collected: seq<Item>, known: set<string>)
    ensures forall y :: y in WalkPages(pages, budget, cutoff, watermark, limit, collected, known).collected ==>
      y in collected || Wanted(y, cutoff, watermark)
    decreases budget
  {
    hide ScanPage, Wanted;
    if budget > 0 && pages != [] && pages[0].Page? && pages[0].items != [] {
      var s := ScanPage(pages[0].items, cutoff, watermark, limit, collected, known);
      ScanCollectsWanted(pages[0].items, cutoff, watermark, limit, collected, known);
      if !s.stop && pages[0].more {
        WalkCollectsWanted(pages[1..], budget - 1, cutoff, watermark, limit, s.collected, s.known);
      }
    }
  }

  /** The record is missing, and something at least as new is retained. */
  ghost predicate Behind(c: Coll, y: Item) { c.items != [] && y !in c.items && y.at <= c.items[0].at }

  /** A clean walk of a list leaves out exactly the records it was behind on: the others it collects or has. */
  lemma {:induction false} CleanFetchGets(c: Coll, server: seq<RawItem>, call: Call, y: Item)
    requires WellKept(c) && forall z :: z in c.items ==> z in Parsed(server)
    requires ServerOrder(server) && Serves(call.pages, server)
    requires Clean(WalkOf(c, call.pages, call.limits, call.now))
    requires y in Parsed(server) && y.at > call.now - RETENTION
    ensures y in Fetched(c, call.pages, call.limits, call.every, call.now).items <==> !Behind(c, y)
  {
    hide Fetched, WalkPages, Parsed, NewestFirst;
    var edge := call.now - RETENTION;
    WalkCovers(call.pages, server, Budget(c, edge, call.limits), edge, Watermark(c), call.limits.Items(), [], c.seen);
    WalkCollectsWanted(call.pages, Budget(c, edge, call.limits), edge, Watermark(c), call.limits.Items(), [], c.seen);
    FetchKeeps(c, call);
    if Wanted(y, edge, Watermark(c)) && y.id in c.seen {
      var z :| z in c.items && z.id == y.id;
      assert z == y;
    }
  }

  /**
   Exactly when a clean walk brings the records up to the list it walked: when it was behind on none of the records
   inside the retention window. What is newer than the watermark it collects, and what is not it never looks at.
   */
  lemma {:induction false} CleanFetchExactly(c: Coll, server: seq<RawItem>, call: Call)
    requires WellKept(c) && forall y :: y in c.items ==> y in Parsed(server)
    requires ServerOrder(server) && Serves(call.pages, server)
    requires Clean(WalkOf(c, call.pages, call.limits, call.now))
    ensures var edge := call.now - RETENTION;
      Refines(Fetched(c, call.pages, call.limits, call.every, call.now), server, edge) <==>
        forall y :: y in Parsed(server) && y.at > edge ==> !Behind(c, y)
  {
    hide Fetched, WalkPages, Parsed, WellKept, ServerOrder, Serves, Behind;
    var edge := call.now - RETENTION;
    var c' := Fetched(c, call.pages, call.limits, call.every, call.now);
    WalkCovers(call.pages, server, Budget(c, edge, call.limits), edge, Watermark(c), call.limits.Items(), [], c.seen);
    FetchKeeps(c, call);
    forall y | y in Parsed(server) && y.at > edge
      ensures y in c'.items <==> !Behind(c, y)
    {
      CleanFetchGets(c, server, call, y);
    }
  }

  /** Without a gap before, one clean fetch carries the refinement to the grown list and the new retention edge. */
  lemma {:induction false} FetchRefines(c: Coll, server: seq<RawItem>, cutoff: Time, head: seq<RawItem>, call: Call)
    requires WellKept(c) && Refines(c, server, cutoff)
    requires ServerOrder(head + server) && Serves(call.pages, head + server)
    requires cutoff <= call.now - RETENTION
    requires Clean(WalkOf(c, call.pages, call.limits, call.now))
    ensures Refines(Fetched(c, call.pages, call.limits, call.every, call.now), head + server, call.now - RETENTION)
  {
    hide Fetched, WalkPages, WalkOf, Parsed, Ordered, WellKept;
    ParsedConcat(head, server);
    OrderTail(head, server);
    assert forall y :: y in Parsed(head + server) <==> y in Parsed(head) || y in Parsed(server);
    CleanFetchExactly(c, head + server, call);
  }

  /** A fetch of a list that grew by `head` at its newest end. */
  datatype Visit = Visit(head: seq<RawItem>, call: Call)

  function ServerAfter(visits: seq<Visit>): seq<RawItem> {
    if visits == [] then [] else visits[|visits| - 1].head + ServerAfter(visits[..|visits| - 1])
  }

  function CallsOf(visits: seq<Visit>): seq<Call> {
    if visits == [] then [] else CallsOf(visits[..|visits| - 1]) + [visits[|visits| - 1].call]
  }

  /** The walk of the last fetch of a history. */
  function LastWalk(visits: seq<Visit>): Walk
    requires visits != []
  {
    var last := visits[|visits| - 1].call;
    WalkOf(After(CallsOf(visits[..|visits| - 1])), last.pages, last.limits, last.now)
  }

  /**
   The clock never goes back, the list stays in order, and every walk so far ended full and without error, or
   failed with nothing new in hand.
   */
  ghost predicate CleanHistory(visits: seq<Visit>) {
    visits != [] ==>
      var rest, last := visits[..|visits| - 1], visits[|visits| - 1];
      && CleanHistory(rest) && ServerOrder(ServerAfter(visits))
      && (forall v :: v in rest ==> v.call.now <= last.call.now)
      && (EmptyHanded(LastWalk(visits)) || (Clean(LastWalk(visits)) && Serves(last.call.pages, ServerAfter(visits))))
  }

  /** How many fetches there were when a walk last succeeded. */
  function LastClean(visits: seq<Visit>): (k: nat)
    ensures k <= |visits|
  {
    if visits == [] then 0
    else if Clean(LastWalk(visits)) then |visits|
    else LastClean(visits[..|visits| - 1])
  }

  /** The last fetch of a history, as its definition has it. */
  lemma {:induction false} LastVisit(visits: seq<Visit>)
    requires visits != []
    ensures ServerAfter(visits) == visits[|visits| - 1].head + ServerAfter(visits[..|visits| - 1])
    ensures var c, call := After(CallsOf(visits[..|visits| - 1])), visits[|visits| - 1].call;
      After(CallsOf(visits)) == Fetched(c, call.pages, call.limits, call.every, call.now)
      && LastWalk(visits) == WalkOf(c, call.pages, call.limits, call.now)
  {
    hide Fetched, WalkOf;
    assert CallsOf(visits)[..|CallsOf(visits[..|visits| - 1])|] == CallsOf(visits[..|visits| - 1]);
  }

  /** The list as it was is a tail of the list as it is. */
  lemma {:induction false} ServerGrows(visits: seq<Visit>, k: nat) returns (head: seq<RawItem>)
    requires k <= |visits|
    ensures ServerAfter(visits) == head + ServerAfter(visits[..k])
    decreases |visits|
  {
    if k == |visits| {
      head := [];
      assert visits[..k] == visits;
    } else {
      var rest := visits[..|visits| - 1];
      var h := ServerGrows(rest, k);
      assert rest[..k] == visits[..k];
      head := visits[|visits| - 1].head + h;
      assert head + ServerAfter(visits[..k]) == visits[|visits| - 1].head + (h + ServerAfter(visits[..k]));
    }
  }

  /** What the history up to `visits` comes to, if its last clean walk was visit `k`. */
  ghost predicate RefinedAt(visits: seq<Visit>, k: nat)
    requires k <= |visits|
  {
    var c := After(CallsOf(visits));
    if k == 0 then c.items == [] else Refines(c, ServerAfter(visits[..k]), visits[k - 1].call.now - RETENTION)
  }

  /** A clean walk brings the records up to the list it walked. */
  lemma {:induction false} CleanWalkRefines(visits: seq<Visit>, k: nat)
    requires CleanHistory(visits) && k < |visits| && Clean(LastWalk(visits))
    requires RefinedAt(visits[..|visits| - 1], k)
    ensures RefinedAt(visits, |visits|)
  {
    hide Fetched, WalkOf, ServerOrder, Serves, After, CallsOf, ServerAfter, WellKept, Parsed, LastWalk, Refines;
    var rest, last := visits[..|visits| - 1], visits[|visits| - 1];
    var c := After(CallsOf(rest));
    EveryStateWellKept(CallsOf(rest));
    LastVisit(visits);
    var head := ServerGrows(rest, k);
    var older := ServerAfter(rest[..k]);
    assert last.head + head + older == last.head + (head + older) && visits[..|visits|] == visits;
    if k == 0 {
      NothingRefines(c, last.call.now - RETENTION);
      assert rest[..0] == [];
      FetchRefines(c, older, last.call.now - RETENTION, last.head + head, last.call);
    } else {
      assert rest[k - 1] in rest;
      FetchRefines(c, older, rest[k - 1].call.now - RETENTION, last.head + head, last.call);
    }
  }

  /**
   Incremental paging refines the full set. In every clean history the retained records are exactly the readable
   records that the server had at the last successful walk and that are newer than that walk's retention edge (a
   record exactly on it may go either way); failed walks in between change nothing.
   */
  lemma {:induction false} PagingRefinesTheServer(visits: seq<Visit>)
    requires CleanHistory(visits)
    ensures var c, k := After(CallsOf(visits)), LastClean(visits);
      if k == 0 then c.items == [] else Refines(c, ServerAfter(visits[..k]), visits[k - 1].call.now - RETENTION)
    decreases |visits|
  {
    hide Fetched, WalkOf, ServerOrder, Serves, After, CallsOf, ServerAfter, WellKept, Parsed, LastWalk, Refines;
    if visits == [] {
      NothingYet();
    } else {
      var rest, last := visits[..|visits| - 1], visits[|visits| - 1];
      var c, k := After(CallsOf(rest)), LastClean(rest);
      PagingRefinesTheServer(rest);
      if Clean(LastWalk(visits)) {
        CleanWalkRefines(visits, k);
      } else {
        EveryStateWellKept(CallsOf(rest));
        LastVisit(visits);
        FetchKeeps(c, last.call);
        assert rest[..k] == visits[..k];
        if k > 0 {
          SameItemsRefine(c, After(CallsOf(visits)), ServerAfter(rest[..k]), rest[k - 1].call.now - RETENTION);
        }
      }
    }
  }

  lemma {:induction false} SameItemsRefine(c: Coll, c': Coll, server: seq<RawItem>, cutoff: Time)
    requires Refines(c, server, cutoff) && c'.items == c.items
    ensures Refines(c', server, cutoff)
  {
  }

  lemma {:induction false} NothingYet()
    ensures After(CallsOf([])).items == [] && LastClean([]) == 0
  {
  }

  lemma {:induction false} NothingRefines(c: Coll, cutoff: Time)
    requires c.items == []
    ensures Refines(c, ServerAfter([]), cutoff)
  {
  }

  // --- backoff ----------------------------------------------------------------------------------------

  /** After a walk that failed empty-handed nothing is due before the backoff, which doubles from the interval up to 16 times it. */
  lemma {:induction false} FailureBacksOff(c: Coll, call: Call, later: Time)
    requires var walk := WalkOf(c, call.pages, call.limits, call.now); walk.error != ""
    ensures var c' := Fetched(c, call.pages, call.limits, call.every, call.now);
      && c'.failures == c.failures + 1
      && (later < call.now + Backoff(c'.failures, call.every) ==> !Due(c', later, call.every))
      && 0 < Backoff(c'.failures, call.every) <= MAX_BACKOFF
      && Backoff(c'.failures + 1, call.every) ==
         (if c'.failures < 5 then Min(2 * Backoff(c'.failures, call.every), MAX_BACKOFF)
           else Backoff(c'.failures, call.every))
  {
    hide SortNewest, Kept, Forgotten, WalkPages, Backoff;
    BackoffSteps(c.failures + 1, call.every);
  }

  lemma {:induction false} BackoffSteps(n: nat, every: int)
    requires n >= 1
    ensures 0 < Backoff(n, every) <= MAX_BACKOFF
    ensures Backoff(n + 1, every) == if n < 5 then Min(2 * Backoff(n, every), MAX_BACKOFF) else Backoff(n, every)
  {
    var i := Interval(every);
    assert Pow2(0) == 1 && Pow2(1) == 2 && Pow2(2) == 4 && Pow2(3) == 8 && Pow2(4) == 16 by {
      assert Pow2(1) == 2 * Pow2(0);
      assert Pow2(2) == 2 * Pow2(1);
      assert Pow2(3) == 2 * Pow2(2);
    }
  }
}
