/** The page windows over histories with gaps: exactly when their totals are the server's, covered or not. */
module WindowGaps {
  import opened Common
  import opened Collector
  import opened CollectorRefines
  import opened CollectorGaps
  import opened Aggregate

  lemma {:induction false} RequestsOf(items: seq<Item>, from: Time)
    ensures Sum(items, from, Whole).requests == |Kept(items, from)|
  {
    if items != [] {
      RequestsOf(items[..|items| - 1], from);
    }
  }

  function Members(items: seq<Item>): set<Item> { set y | y in items }

  lemma {:induction false} DescendingSize(items: seq<Item>)
    requires Descending(items)
    ensures |Members(items)| == |items|
  {
    if items != [] {
      var n := |items| - 1;
      DescendingSize(items[..n]);
      assert Members(items) == Members(items[..n]) + {items[n]};
      assert items[n] !in items[..n];
    }
  }

  lemma {:induction false} SameSizeSameSet(a: set<Item>, b: set<Item>)
    requires a <= b && |a| == |b|
    ensures a == b
  {
    assert |b - a| == |b| - |a|;
  }

  /** The totals are the server's if and only if no record of the server in the window is missing. */
  lemma {:induction false} WindowExactly(items: seq<Item>, server: seq<Item>, from: Time)
    requires Ordered(server) && NewestFirst(items) && DistinctIds(items) && forall y :: y in items ==> y in server
    ensures Sum(items, from, Whole) == Sum(server, from, Whole) <==>
      forall y :: y in server && y.at >= from ==> y in items
  {
    hide Kept, Sum;
    if forall y :: y in server && y.at >= from ==> y in items {
      SameWindow(items, server, from);
    } else {
      var mine, theirs := Kept(items, from), Kept(server, from);
      KeptMembers(items, from);
      KeptMembers(server, from);
      DescendsWithin(items, server);
      KeptDescends(items, from);
      KeptDescends(server, from);
      DescendingSize(mine);
      DescendingSize(theirs);
      RequestsOf(items, from);
      RequestsOf(server, from);
      var y :| y in server && y.at >= from && y !in items;
      assert y in Members(theirs) && y !in Members(mine);
      if |mine| == |theirs| {
        SameSizeSameSet(Members(mine), Members(theirs));
      }
    }
  }

  lemma {:induction false} DescendsWithin(items: seq<Item>, server: seq<Item>)
    requires Ordered(server) && NewestFirst(items) && DistinctIds(items) && forall y :: y in items ==> y in server
    ensures Descending(items) && Descending(server)
  {
    forall i, j | 0 <= i < j < |items|
      ensures items[i].at > items[j].at
    {
      assert items[i] in server && items[j] in server && items[i].id != items[j].id;
    }
  }

  /**
   After a clean walk, in any history with whatever truncated and failed walks before, the totals of a page window
   are the server's if and only if no record of the window was ever left behind. Whether the window is reported as
   covered has no part in it.
   */
  lemma {:induction false} WindowTotalsExactly(visits: seq<Visit>, spec: Spec)
    requires ServedHistory(visits) && visits != [] && Clean(LastWalk(visits)) && spec in {HOURLY, DAILY}
    ensures var from := visits[|visits| - 1].call.now - spec.duration;
      Sum(After(CallsOf(visits)).items, from, Whole) == Sum(Parsed(ServerAfter(visits)), from, Whole) <==>
        forall y :: y in Parsed(ServerAfter(visits)) && y.at >= from ==> !LeftBehind(visits, y)
  {
    hide Parsed, After, Sum, LastWalk, Ordered, NewestFirst, DistinctIds, ServerAfter, CallsOf, Ids, LeftBehind;
    var from := visits[|visits| - 1].call.now - spec.duration;
    var items, server := After(CallsOf(visits)).items, Parsed(ServerAfter(visits));
    RetainedAreServed(visits);
    EveryStateWellKept(CallsOf(visits));
    forall y | y in server && y.at >= from
      ensures y in items <==> !LeftBehind(visits, y)
    {
      RetainedExactly(visits, y);
    }
    WindowExactly(items, server, from);
  }

  // --- one such history -----------------------------------------------------------------------------------

  function FirstCall(oldest: RawItem, before: Time): Call { Call([Page([oldest], false)], Limits(1, 0), 0, before) }

  function SecondCall(oldest: RawItem, middle: RawItem, newer: RawItem, now: Time): Call {
    Call([Page([newer], true), Page([middle, oldest], false)], Limits(1, 0), 0, now)
  }

  /** A record read in full; then two more, of which a walk of one page brings in the newer. */
  function GappyHistory(oldest: RawItem, middle: RawItem, newer: RawItem, before: Time, now: Time): seq<Visit> {
    [Visit([oldest], FirstCall(oldest, before)), Visit([newer, middle], SecondCall(oldest, middle, newer, now))]
  }

  /** The three records can be read, the oldest is still retained, and the others lie in the window of a day. */
  ghost predicate Spread(oldest: RawItem, middle: RawItem, newer: RawItem, before: Time, now: Time) {
    && ParseItem(oldest).Some? && ParseItem(middle).Some? && ParseItem(newer).Some? && before <= now
    && var o, m, n := ParseItem(oldest).value, ParseItem(middle).value, ParseItem(newer).value;
       && o.id != m.id && m.id != n.id && o.id != n.id && o.at < m.at < n.at
       && now - RETENTION < o.at <= now - DAILY.duration <= m.at
  }

  lemma {:induction false} ListsRead(oldest: RawItem, middle: RawItem, newer: RawItem)
    requires ParseItem(oldest).Some? && ParseItem(middle).Some? && ParseItem(newer).Some?
    ensures Parsed([oldest]) == [ParseItem(oldest).value]
    ensures Parsed([newer, middle, oldest]) ==
      [ParseItem(newer).value, ParseItem(middle).value, ParseItem(oldest).value]
  {
    hide ParseItem;
    assert [oldest][1..] == [] && [middle, oldest][1..] == [oldest] && [newer, middle, oldest][1..] == [middle, oldest];
    assert Parsed([oldest]) == [ParseItem(oldest).value] + Parsed([]);
    assert Parsed([middle, oldest]) == [ParseItem(middle).value, ParseItem(oldest).value];
  }

  lemma {:induction false} HistoryParts(oldest: RawItem, middle: RawItem, newer: RawItem, before: Time, now: Time)
    ensures var visits := GappyHistory(oldest, middle, newer, before, now);
      && CallsOf(visits) == [FirstCall(oldest, before), SecondCall(oldest, middle, newer, now)]
      && CallsOf(visits[..1]) == [FirstCall(oldest, before)] && CallsOf(visits[..0]) == []
      && ServerAfter(visits) == [newer, middle, oldest] && ServerAfter(visits[..1]) == [oldest]
  {
    var visits := GappyHistory(oldest, middle, newer, before, now);
    assert visits[..1][..0] == [] && visits[..0] == [] && visits[..1] == [visits[0]];
    assert CallsOf(visits[..1]) == [FirstCall(oldest, before)];
    assert ServerAfter(visits[..1]) == [oldest] + [] == [oldest];
    assert [newer, middle] + [oldest] == [newer, middle, oldest];
  }

  lemma {:induction false} FirstFetch(oldest: RawItem, before: Time)
    requires ParseItem(oldest).Some? && ParseItem(oldest).value.at > before - RETENTION
    ensures After([FirstCall(oldest, before)]).items == [ParseItem(oldest).value]
    ensures After([FirstCall(oldest, before)]).seen == {ParseItem(oldest).value.id}
  {
    hide ParseItem, WalkPages, SortNewest, Kept, Forgotten, Backoff;
    var call, item := FirstCall(oldest, before), ParseItem(oldest).value;
    assert [call][..0] == [] && call.pages == [Page([oldest], !true)] + [];
    OnePageRead(oldest, true, [], before - RETENTION, None, MAX_ITEMS, {});
    OneRecordKept(item, before - RETENTION);
    assert Fetched(NOTHING, call.pages, call.limits, call.every, call.now).items == [item];
    EveryStateWellKept([call]);
  }

  lemma {:induction false} SecondFetch(oldest: RawItem, middle: RawItem, newer: RawItem, before: Time, now: Time)
    requires Spread(oldest, middle, newer, before, now)
    ensures var items := After([FirstCall(oldest, before), SecondCall(oldest, middle, newer, now)]).items;
      forall y :: y in items <==> y == ParseItem(oldest).value || y == ParseItem(newer).value
  {
    hide ParseItem, WalkPages, Fetched;
    var first, call := FirstCall(oldest, before), SecondCall(oldest, middle, newer, now);
    var c, o := After([first]), ParseItem(oldest).value;
    FirstFetch(oldest, before);
    assert [first, call][..1] == [first];
    assert call.pages == [Page([newer], !false)] + [Page([middle, oldest], false)];
    OnePageRead(newer, false, [Page([middle, oldest], false)], now - RETENTION, Some(o.at), MAX_ITEMS, {o.id});
    EveryStateWellKept([first]);
    FetchKeeps(c, call);
  }

  lemma {:induction false} HistoryIsServed(oldest: RawItem, middle: RawItem, newer: RawItem, before: Time, now: Time)
    requires Spread(oldest, middle, newer, before, now)
    ensures ServedHistory(GappyHistory(oldest, middle, newer, before, now))
  {
    hide ParseItem, Parsed, LastWalk, ServerAfter, CallsOf;
    var visits := GappyHistory(oldest, middle, newer, before, now);
    HistoryParts(oldest, middle, newer, before, now);
    ListsRead(oldest, middle, newer);
    var first, second := FirstCall(oldest, before), SecondCall(oldest, middle, newer, now);
    assert visits[..1][..0] == [] && visits[..1] == [visits[0]];
    assert Serves(first.pages, [oldest]) && ServerOrder([oldest]);
    assert ServedHistory(visits[..1][..0]);
    assert ServedHistory(visits[..1]);
    assert second.pages[1..] == [Page([middle, oldest], false)] && [newer, middle, oldest][1..] == [middle, oldest];
    assert [newer] <= [newer, middle, oldest];
    assert Serves(second.pages[1..], [middle, oldest]);
    assert Serves(second.pages, [newer, middle, oldest]) && ServerOrder([newer, middle, oldest]);
  }

  /** A window that is reported as covered, because the oldest record lies before it, and lacks the middle one. */
  lemma {:induction false} CoveredWithAGap(oldest: RawItem, middle: RawItem, newer: RawItem, before: Time, now: Time)
    requires Spread(oldest, middle, newer, before, now)
    ensures var visits, from := GappyHistory(oldest, middle, newer, before, now), now - DAILY.duration;
      && ServedHistory(visits) && Covered(After(CallsOf(visits)).items, None, from)
      && Sum(After(CallsOf(visits)).items, from, Whole) != Sum(Parsed(ServerAfter(visits)), from, Whole)
  {
    hide ParseItem, Parsed, Sum, After, ServedHistory;
    var visits, from := GappyHistory(oldest, middle, newer, before, now), now - DAILY.duration;
    var o, m, n := ParseItem(oldest).value, ParseItem(middle).value, ParseItem(newer).value;
    HistoryParts(oldest, middle, newer, before, now);
    HistoryIsServed(oldest, middle, newer, before, now);
    ListsRead(oldest, middle, newer);
    SecondFetch(oldest, middle, newer, before, now);
    EveryStateWellKept(CallsOf(visits));
    var items := After(CallsOf(visits)).items;
    OldestIsLast(items, o);
    assert m in [n, m, o] && m !in items;
    WindowExactly(items, [n, m, o], from);
  }

  lemma {:induction false} OldestIsLast(items: seq<Item>, y: Item)
    requires NewestFirst(items) && y in items
    ensures items != [] && items[|items| - 1].at <= y.at
  {
  }
}
