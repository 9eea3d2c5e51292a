/** What a walk that stopped early leaves out stays out: the watermark ends every later walk before it. */
module CollectorGaps {
  import opened Common
  import opened Collector
  import opened CollectorRefines

  /** A record that is not retained and is not newer than the newest retained one, or is past an edge. */
  ghost predicate LeftOut(y: Item, c: Coll, edge: Time) {
    y !in c.items && (y.at < edge || (c.items != [] && y.at <= c.items[0].at))
  }

  /** Whatever the upstream answers, a fetch does not bring it in. */
  lemma {:induction false} FetchLeavesOut(y: Item, c: Coll, edge: Time, call: Call)
    requires WellKept(c) && LeftOut(y, c, edge) && edge <= call.now - RETENTION
    ensures LeftOut(y, Fetched(c, call.pages, call.limits, call.every, call.now), call.now - RETENTION)
  {
    hide Fetched, WalkPages, DistinctIds;
    var cutoff := call.now - RETENTION;
    var c' := Fetched(c, call.pages, call.limits, call.every, call.now);
    FetchKeeps(c, call);
    WalkCollectsWanted(call.pages, Budget(c, cutoff, call.limits), cutoff, Watermark(c), call.limits.Items(), [],
      c.seen);
    if y.at >= cutoff && !EmptyHanded(WalkOf(c, call.pages, call.limits, call.now)) {
      assert WellKept(c') && c.items[0] in c'.items;
    }
  }

  /** The clock of the calls never goes back. */
  ghost predicate Forward(calls: seq<Call>) {
    forall i, j :: 0 <= i < j < |calls| ==> calls[i].now <= calls[j].now
  }

  /**
   The gap is for good: what is not retained when something newer is, is never retained again, in any run of
   later fetches, successful or not.
   */
  lemma {:induction false} GapsStay(y: Item, before: seq<Call>, later: seq<Call>)
    requires Forward(later) && After(before).items != []
    requires y !in After(before).items && y.at <= After(before).items[0].at
    ensures y !in After(before + later).items
    ensures later != [] ==> LeftOut(y, After(before + later), later[|later| - 1].now - RETENTION)
    decreases |later|
  {
    hide Fetched, After, WellKept;
    if later == [] {
      assert before + later == before;
    } else {
      var n := |later| - 1;
      var calls := before + later[..n];
      GapsStay(y, before, later[..n]);
      EveryStateWellKept(calls);
      assert before + later == calls + [later[n]];
      AfterOneMore(calls, later[n]);
      var edge := if n == 0 then later[n].now - RETENTION else later[n - 1].now - RETENTION;
      assert n == 0 ==> calls == before;
      FetchLeavesOut(y, After(calls), edge, later[n]);
    }
  }

  lemma {:induction false} AfterOneMore(calls: seq<Call>, call: Call)
    ensures After(calls + [call]) == Fetched(After(calls), call.pages, call.limits, call.every, call.now)
  {
    hide Fetched;
    assert (calls + [call])[..|calls|] == calls;
  }

  // --- exactly when the records are the server's ----------------------------------------------------------

  /**
   The clock never goes back, the list stays in order, and every walk that got anywhere walked pages of that list.
   Walks may stop early at any limit, or fail after some pages.
   */
  ghost predicate ServedHistory(visits: seq<Visit>) {
    visits != [] ==>
      var rest, last := visits[..|visits| - 1], visits[|visits| - 1];
      && ServedHistory(rest) && ServerOrder(ServerAfter(visits))
      && (forall v :: v in rest ==> v.call.now <= last.call.now)
      && (EmptyHanded(LastWalk(visits)) || Serves(last.call.pages, ServerAfter(visits)))
  }

  lemma {:induction false} CleanIsServed(visits: seq<Visit>)
    requires CleanHistory(visits)
    ensures ServedHistory(visits)
  {
    hide LastWalk, ServerOrder, Serves, ServerAfter;
    if visits != [] {
      CleanIsServed(visits[..|visits| - 1]);
    }
  }

  /** Nothing is retained that the server does not have. */
  lemma {:induction false} RetainedAreServed(visits: seq<Visit>)
    requires ServedHistory(visits)
    ensures forall y :: y in After(CallsOf(visits)).items ==> y in Parsed(ServerAfter(visits))
  {
    hide Fetched, WalkPages, Parsed, ServerOrder, Serves, After, CallsOf, ServerAfter, LastWalk, WellKept;
    if visits == [] {
      NothingYet();
    } else {
      var rest, last := visits[..|visits| - 1], visits[|visits| - 1];
      var c, call := After(CallsOf(rest)), last.call;
      RetainedAreServed(rest);
      EveryStateWellKept(CallsOf(rest));
      LastVisit(visits);
      ParsedConcat(last.head, ServerAfter(rest));
      FetchKeeps(c, call);
      var cutoff := call.now - RETENTION;
      if !EmptyHanded(LastWalk(visits)) {
        WalkCovers(call.pages, ServerAfter(visits), Budget(c, cutoff, call.limits), cutoff, Watermark(c),
          call.limits.Items(), [], c.seen);
      }
    }
  }

  /** Some earlier fetch left the record behind: it was not retained and something at least as new was. */
  ghost predicate LeftBehind(visits: seq<Visit>, y: Item) {
    exists k :: 0 <= k < |visits| && Behind(After(CallsOf(visits[..k])), y)
  }

  lemma {:induction false} CallsAre(visits: seq<Visit>)
    ensures |CallsOf(visits)| == |visits| && forall i :: 0 <= i < |visits| ==> CallsOf(visits)[i] == visits[i].call
  {
    if visits != [] {
      CallsAre(visits[..|visits| - 1]);
    }
  }

  lemma {:induction false} ClockOf(visits: seq<Visit>)
    requires ServedHistory(visits)
    ensures forall i, j :: 0 <= i < j < |visits| ==> visits[i].call.now <= visits[j].call.now
  {
    hide LastWalk, ServerOrder, Serves, ServerAfter;
    if visits != [] {
      var rest := visits[..|visits| - 1];
      ClockOf(rest);
      forall i, j | 0 <= i < j < |visits|
        ensures visits[i].call.now <= visits[j].call.now
      {
        assert rest[i] == visits[i] && rest[i] in rest;
        assert j < |rest| ==> rest[j] == visits[j];
      }
    }
  }

  /** What was left behind once is not retained at the end. */
  lemma {:induction false} LeftBehindStays(visits: seq<Visit>, y: Item)
    requires ServedHistory(visits) && LeftBehind(visits, y)
    ensures y !in After(CallsOf(visits)).items
  {
    hide After, LastWalk, ServerOrder, Serves, ServerAfter, ServedHistory, CallsOf;
    var k :| 0 <= k < |visits| && Behind(After(CallsOf(visits[..k])), y);
    ClockOf(visits);
    CallsAre(visits);
    CallsAre(visits[..k]);
    CallsAre(visits[k..]);
    assert CallsOf(visits) == CallsOf(visits[..k]) + CallsOf(visits[k..]);
    GapsStay(y, CallsOf(visits[..k]), CallsOf(visits[k..]));
  }

  /**
   After a clean walk a record of the server inside the retention window is retained if and only if no fetch before
   left it behind, whatever walks those were.
   */
  lemma {:induction false} RetainedExactly(visits: seq<Visit>, y: Item)
    requires ServedHistory(visits) && visits != [] && Clean(LastWalk(visits))
    requires y in Parsed(ServerAfter(visits)) && y.at > visits[|visits| - 1].call.now - RETENTION
    ensures y in After(CallsOf(visits)).items <==> !LeftBehind(visits, y)
  {
    hide Fetched, WalkOf, Parsed, ServerOrder, Serves, After, CallsOf, ServerAfter, LastWalk, WellKept, Behind;
    if LeftBehind(visits, y) {
      LeftBehindStays(visits, y);
    } else {
      var rest, last := visits[..|visits| - 1], visits[|visits| - 1];
      assert !Behind(After(CallsOf(rest)), y);
      RetainedAreServed(rest);
      EveryStateWellKept(CallsOf(rest));
      LastVisit(visits);
      ParsedConcat(last.head, ServerAfter(rest));
      CleanFetchGets(After(CallsOf(rest)), ServerAfter(visits), last.call, y);
    }
  }

  /**
   In every history, truncated and failed walks included, the records after a clean walk are the server's in the
   retention window if and only if nothing that is still in it was ever left behind.
   */
  lemma {:induction false} RefinesExactly(visits: seq<Visit>)
    requires ServedHistory(visits) && visits != [] && Clean(LastWalk(visits))
    ensures var edge := visits[|visits| - 1].call.now - RETENTION;
      Refines(After(CallsOf(visits)), ServerAfter(visits), edge) <==>
        forall y :: y in Parsed(ServerAfter(visits)) && y.at > edge ==> !LeftBehind(visits, y)
  {
    hide Parsed, ServedHistory, After, CallsOf, ServerAfter, LastWalk, LeftBehind;
    var edge := visits[|visits| - 1].call.now - RETENTION;
    RetainedAreServed(visits);
    RetainedInWindow(visits);
    forall y | y in Parsed(ServerAfter(visits)) && y.at > edge
      ensures y in After(CallsOf(visits)).items <==> !LeftBehind(visits, y)
    {
      RetainedExactly(visits, y);
    }
  }

  lemma {:induction false} RetainedInWindow(visits: seq<Visit>)
    requires visits != [] && Clean(LastWalk(visits))
    ensures forall y :: y in After(CallsOf(visits)).items ==> y.at >= visits[|visits| - 1].call.now - RETENTION
  {
    hide Fetched, WalkPages, After, CallsOf, LastWalk, WellKept;
    var rest := visits[..|visits| - 1];
    EveryStateWellKept(CallsOf(rest));
    LastVisit(visits);
    FetchKeeps(After(CallsOf(rest)), visits[|visits| - 1].call);
  }

  /** A clean history leaves nothing behind that is still in the window. */
  lemma {:induction false} CleanLeavesNothingBehind(visits: seq<Visit>, y: Item)
    requires CleanHistory(visits) && visits != [] && Clean(LastWalk(visits))
    requires y in Parsed(ServerAfter(visits)) && y.at > visits[|visits| - 1].call.now - RETENTION
    ensures !LeftBehind(visits, y)
  {
    hide Parsed, CleanHistory, After, CallsOf, ServerAfter, LastWalk, LeftBehind;
    CleanIsServed(visits);
    PagingRefinesTheServer(visits);
    assert visits[..|visits|] == visits;
    RefinesExactly(visits);
  }

  // --- one truncated walk -------------------------------------------------------------------------------

  /** A walk with a budget of one page over a list whose pages hold one record each. */
  function ShortWalk(newer: RawItem, older: RawItem, now: Time): Call {
    Call([Page([newer], true), Page([older], false)], Limits(1, 0), 0, now)
  }

  /** A walk with a budget of one page that holds one new record. */
  lemma {:induction false} OnePageRead(newer: RawItem, last: bool, more: seq<PageReply>, cutoff: Time,
                                       watermark: Option<Time>,
                                       limit: nat, known: set<string>)
    requires ParseItem(newer).Some? && Wanted(ParseItem(newer).value, cutoff, watermark) && limit > 0
    requires ParseItem(newer).value.id !in known
    ensures WalkPages([Page([newer], !last)] + more, 1, cutoff, watermark, limit, [], known) ==
      Walk([ParseItem(newer).value], last, "")
  {
    hide ParseItem;
    var item := ParseItem(newer).value;
    assert [newer][1..] == [];
    assert ScanPage([], cutoff, watermark, limit, [item], known + {item.id}) ==
      Scan([item], known + {item.id}, false, false);
    assert ScanPage([newer], cutoff, watermark, limit, [], known) == Scan([item], known + {item.id}, false, false);
  }

  lemma {:induction false} OneRecordKept(item: Item, cutoff: Time)
    requires item.at >= cutoff
    ensures Kept(SortNewest([] + [item]), cutoff) == [item]
  {
    assert [] + [item] == [item] && [item][..0] == [];
    assert SortNewest([item]) == [item];
  }

  /**
   A walk of one page over two records, both inside the retention window: the older one is not collected, and
   no later fetch will ever bring it in.
   */
  lemma {:induction false} TruncatedWalkLeavesGap(newer: RawItem, older: RawItem, now: Time, later: seq<Call>)
    requires ParseItem(newer).Some? && ParseItem(older).Some?
    requires now - RETENTION < ParseItem(older).value.at < ParseItem(newer).value.at
    requires Forward(later)
    ensures Serves(ShortWalk(newer, older, now).pages, [newer, older])
    ensures After([ShortWalk(newer, older, now)]).items == [ParseItem(newer).value]
    ensures ParseItem(older).value !in After([ShortWalk(newer, older, now)] + later).items
  {
    hide ParseItem, WalkPages, SortNewest, Kept, Forgotten, Backoff;
    var call, item := ShortWalk(newer, older, now), ParseItem(newer).value;
    assert call.pages == [Page([newer], true)] + [Page([older], false)];
    assert call.pages[1..] == [Page([older], false)] && [newer, older][1..] == [older];
    assert [call][..0] == [];
    OnePageRead(newer, false, [Page([older], false)], now - RETENTION, None, MAX_ITEMS, {});
    OneRecordKept(item, now - RETENTION);
    assert Fetched(NOTHING, call.pages, call.limits, call.every, call.now).items == [item];
    GapsStay(ParseItem(older).value, [call], later);
  }

  /** The same list on one page: the walk is clean, and both records are retained. */
  lemma {:induction false} WholePageLeavesNone(newer: RawItem, older: RawItem, now: Time)
    requires ParseItem(newer).Some? && ParseItem(older).Some? && ParseItem(newer).value.id != ParseItem(older).value.id
    requires now - RETENTION < ParseItem(older).value.at < ParseItem(newer).value.at
    ensures var history := [Visit([newer, older], Call([Page([newer, older], false)], Limits(1, 0), 0, now))];
      && CleanHistory(history) && Clean(LastWalk(history))
      && ParseItem(newer).value in After(CallsOf(history)).items
      && ParseItem(older).value in After(CallsOf(history)).items
  {
    hide ParseItem, Fetched, ScanPage;
    var list, cutoff := [newer, older], now - RETENTION;
    var call := Call([Page(list, false)], Limits(1, 0), 0, now);
    var history := [Visit(list, call)];
    FittingPage(list, cutoff, MAX_ITEMS, [], {});
    assert history[..0] == [] && history[..1] == history;
    assert CallsOf([]) == [] && ServerAfter([]) == [];
    assert ServerAfter(history) == list;
    assert list[1..] == [older] && [older][1..] == [];
    assert Parsed([older]) == [ParseItem(older).value];
    assert Parsed(list) == [ParseItem(newer).value, ParseItem(older).value];
    assert LastClean(history) == 1;
    PagingRefinesTheServer(history);
  }

  /** A page that fits the limit is read to its end, or to a record that is not wanted. */
  lemma {:induction false} FittingPage(items: seq<RawItem>, cutoff: Time, limit: nat, collected: seq<Item>,
                                       known: set<string>)
    requires |collected| + |items| <= limit
    ensures var s := ScanPage(items, cutoff, None, limit, collected, known); s.stop ==> s.full
    decreases |items|
  {
    hide ParseItem;
    if items != [] {
      var p := ParseItem(items[0]);
      if p == None || (Wanted(p.value, cutoff, None) && p.value.id in known) {
        FittingPage(items[1..], cutoff, limit, collected, known);
      } else if Wanted(p.value, cutoff, None) {
        FittingPage(items[1..], cutoff, limit, collected + [p.value], known + {p.value.id});
      }
    }
  }
}
