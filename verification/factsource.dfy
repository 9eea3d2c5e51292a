/** The facts a view joins against: those on disk and those of the live ring, merged newest first. */
module FactSource {
  import opened Common
  import opened Join

  const FACT_SOURCE_MAX := 40000

  datatype FactKey = FactKey(file: string, time: int)

  function FactKeyOf(f: Stored): FactKey { FactKey(f.file, f.time) }

  function FactKeys(facts: seq<Stored>): set<FactKey> { set f | f in facts :: FactKeyOf(f) }

  // --- sorting ------------------------------------------------------------------------------------------

  /** Sinks a fact past the older ones at the end. */
  function Sunk(facts: seq<Stored>, x: Stored): seq<Stored> {
    if facts == [] || facts[|facts| - 1].time >= x.time then facts + [x]
    else Sunk(facts[..|facts| - 1], x) + [facts[|facts| - 1]]
  }

  function ByNewest(facts: seq<Stored>): seq<Stored> {
    if facts == [] then [] else Sunk(ByNewest(facts[..|facts| - 1]), facts[|facts| - 1])
  }

  predicate Sorted(facts: seq<Stored>) { forall i, j :: 0 <= i < j < |facts| ==> facts[i].time >= facts[j].time }

  lemma {:induction false} SunkHolds(facts: seq<Stored>, x: Stored)
    ensures multiset(Sunk(facts, x)) == multiset(facts) + multiset{x}
    ensures forall k :: 0 <= k < |Sunk(facts, x)| ==> Sunk(facts, x)[k] == x || Sunk(facts, x)[k] in facts
  {
    if facts != [] && facts[|facts| - 1].time < x.time {
      var before, last := facts[..|facts| - 1], facts[|facts| - 1];
      SunkHolds(before, x);
      assert facts == before + [last];
    }
  }

  lemma {:induction false} SunkSorted(facts: seq<Stored>, x: Stored)
    requires Sorted(facts)
    ensures Sorted(Sunk(facts, x))
  {
    if facts == [] || facts[|facts| - 1].time >= x.time {
    } else {
      var before, last := facts[..|facts| - 1], facts[|facts| - 1];
      SunkSorted(before, x);
      SunkHolds(before, x);
      assert forall f :: f in before ==> f.time >= last.time;
    }
  }

  lemma {:induction false} ByNewestSorts(facts: seq<Stored>)
    ensures multiset(ByNewest(facts)) == multiset(facts)
    ensures Sorted(ByNewest(facts))
  {
    if facts != [] {
      ByNewestSorts(facts[..|facts| - 1]);
      SunkHolds(ByNewest(facts[..|facts| - 1]), facts[|facts| - 1]);
      SunkSorted(ByNewest(facts[..|facts| - 1]), facts[|facts| - 1]);
      assert facts == facts[..|facts| - 1] + [facts[|facts| - 1]];
    }
  }

  /** Bubbles the element at `i` down to its place. */
  method Sink(a: array<Stored>, i: nat)
    requires i < a.Length
    modifies a
    ensures a[..i + 1] == Sunk(old(a[..i]), old(a[i])) && a[i + 1..] == old(a[i + 1..])
  {
    hide Sunk;
    var j: nat := i;
    ghost var x, before := a[i], a[..i];
    assert a[..i + 1] == Placed(before, x, i);
    assert before[..i] == before && before[i..] == [];
    while j > 0 && a[j].time > a[j - 1].time
      invariant j <= i && a[..i + 1] == Placed(before, x, j)
      invariant a[i + 1..] == old(a[i + 1..])
      invariant Sunk(before, x) == Sunk(before[..j], x) + before[j..]
    {
      PlacedDown(before, x, j);
      ghost var s := a[..i + 1];
      assert a[j] == s[j] && a[j - 1] == s[j - 1];
      a[j], a[j - 1] := a[j - 1], a[j];
      assert a[..i + 1] == s[j := s[j - 1]][j - 1 := s[j]];
      j := j - 1;
    }
    assert j > 0 ==> a[j - 1] == a[..i + 1][j - 1] && a[j] == a[..i + 1][j];
    SunkHere(before, x, j);
  }

  /** A sequence with one element put in at `j`. */
  function Placed(before: seq<Stored>, x: Stored, j: nat): seq<Stored>
    requires j <= |before|
  {
    before[..j] + [x] + before[j..]
  }

  lemma {:induction false} PlacedDown(before: seq<Stored>, x: Stored, j: nat)
    requires 0 < j <= |before|
    ensures var s := Placed(before, x, j);
      && |s| == |before| + 1 && s[j] == x && s[j - 1] == before[j - 1]
      && s[j := s[j - 1]][j - 1 := s[j]] == Placed(before, x, j - 1)
    ensures before[j - 1].time < x.time ==> Sunk(before[..j], x) + before[j..] == Sunk(before[..j - 1], x) + before[j - 1..]
  {
    assert before[..j][..j - 1] == before[..j - 1];
    assert before[j - 1..] == [before[j - 1]] + before[j..];
  }

  lemma {:induction false} SunkHere(before: seq<Stored>, x: Stored, j: nat)
    requires j <= |before| && (j > 0 ==> before[j - 1].time >= x.time)
    ensures Sunk(before[..j], x) + before[j..] == Placed(before, x, j)
  {
  }

  method SortFactsNewestFirst(a: array<Stored>)
    modifies a
    ensures a[..] == ByNewest(old(a[..]))
  {
    for i := 0 to a.Length
      invariant a[..i] == ByNewest(old(a[..])[..i])
      invariant a[i..] == old(a[i..])
    {
      assert old(a[..])[..i + 1][..i] == old(a[..])[..i];
      assert a[i] == a[i..][0];
      Sink(a, i);
      assert a[i + 1..] == old(a[i..])[1..];
    }
    assert a[..a.Length] == a[..] && old(a[..])[..a.Length] == old(a[..]);
  }

  // --- merging ------------------------------------------------------------------------------------------

  /** The live facts whose key is not taken yet, by a stored fact or an earlier live one. */
  function Unheld(taken: set<FactKey>, live: seq<Stored>): seq<Stored> {
    if live == [] then [] else
      var before, f := Unheld(taken, live[..|live| - 1]), live[|live| - 1];
      if FactKeyOf(f) in taken + FactKeys(live[..|live| - 1]) then before else before + [f]
  }

  /** The union before the cap. */
  function Union(stored: seq<Stored>, live: seq<Stored>): seq<Stored> {
    ByNewest(stored + Unheld(FactKeys(stored), live))
  }

  function Capped(facts: seq<Stored>): seq<Stored> {
    if |facts| > FACT_SOURCE_MAX then facts[..FACT_SOURCE_MAX] else facts
  }

  function Merged(stored: seq<Stored>, live: seq<Stored>): seq<Stored> {
    if live == [] then stored else if stored == [] then live else Capped(Union(stored, live))
  }

  lemma {:induction false} KeysMore(facts: seq<Stored>, f: Stored)
    ensures FactKeys(facts + [f]) == FactKeys(facts) + {FactKeyOf(f)}
  {
    assert forall g :: g in facts + [f] <==> g in facts || g == f;
  }

  method MergeFacts(stored: seq<Stored>, live: seq<Stored>) returns (merged: seq<Stored>)
    ensures merged == Merged(stored, live)
  {
    hide ByNewest, FactKeys;
    if |live| == 0 {
      return stored;
    }
    if |stored| == 0 {
      return live;
    }
    var seen := KeysOf(stored);
    merged := stored;
    KeysNone();
    for i := 0 to |live|
      invariant merged == stored + Unheld(FactKeys(stored), live[..i])
      invariant seen == FactKeys(stored) + FactKeys(live[..i])
    {
      assert live[..i + 1][..i] == live[..i] && live[..i + 1] == live[..i] + [live[i]];
      KeysMore(live[..i], live[i]);
      var key := FactKeyOf(live[i]);
      if key in seen {
        continue;
      }
      seen := seen + {key};
      merged := merged + [live[i]];
    }
    assert live[..|live|] == live;
    var a := new Stored[|merged|](i requires 0 <= i < |merged| => merged[i]);
    assert a[..] == merged;
    SortFactsNewestFirst(a);
    merged := a[..];
    if |merged| > FACT_SOURCE_MAX {
      merged := merged[..FACT_SOURCE_MAX];
    }
  }

  lemma {:induction false} KeysNone()
    ensures FactKeys([]) == {}
  {
  }

  method KeysOf(facts: seq<Stored>) returns (seen: set<FactKey>)
    ensures seen == FactKeys(facts)
  {
    hide FactKeys;
    seen := {};
    KeysNone();
    for i := 0 to |facts|
      invariant seen == FactKeys(facts[..i])
    {
      assert facts[..i + 1] == facts[..i] + [facts[i]];
      KeysMore(facts[..i], facts[i]);
      seen := seen + {FactKeyOf(facts[i])};
    }
    assert facts[..|facts|] == facts;
  }

  // --- what the merge keeps -----------------------------------------------------------------------------

  ghost predicate DistinctFactKeys(facts: seq<Stored>) {
    forall i, j :: 0 <= i < j < |facts| ==> FactKeyOf(facts[i]) != FactKeyOf(facts[j])
  }

  lemma {:induction false} UnheldAre(taken: set<FactKey>, live: seq<Stored>)
    ensures forall f :: f in Unheld(taken, live) ==> f in live && FactKeyOf(f) !in taken
    ensures FactKeys(Unheld(taken, live)) == FactKeys(live) - taken
    ensures DistinctFactKeys(Unheld(taken, live))
  {
    hide FactKeys, FactKeyOf;
    if live == [] {
      KeysNone();
    } else {
      var before, f := live[..|live| - 1], live[|live| - 1];
      assert live == before + [f];
      UnheldAre(taken, before);
      KeysMore(before, f);
      KeysMore(Unheld(taken, before), f);
      if FactKeyOf(f) !in taken + FactKeys(before) {
        NewKeyIsDistinct(Unheld(taken, before), f);
      }
    }
  }

  lemma {:induction false} NewKeyIsDistinct(facts: seq<Stored>, f: Stored)
    requires DistinctFactKeys(facts) && FactKeyOf(f) !in FactKeys(facts)
    ensures DistinctFactKeys(facts + [f])
  {
    hide FactKeyOf;
    assert forall i :: 0 <= i < |facts| ==> FactKeyOf(facts[i]) in FactKeys(facts);
  }

  lemma {:induction false} BothDistinct(a: seq<Stored>, b: seq<Stored>)
    requires DistinctFactKeys(a) && DistinctFactKeys(b) && FactKeys(a) !! FactKeys(b)
    ensures DistinctFactKeys(a + b)
  {
    hide FactKeyOf;
    assert forall i :: 0 <= i < |a| ==> FactKeyOf(a[i]) in FactKeys(a);
    assert forall i :: 0 <= i < |b| ==> FactKeyOf(b[i]) in FactKeys(b);
  }

  /** FactKeys are distinct when every key is that of exactly one element. */
  ghost predicate OneEach(m: multiset<Stored>) {
    && (forall f :: f in m ==> m[f] == 1)
    && (forall f, g :: f in m && g in m && FactKeyOf(f) == FactKeyOf(g) ==> f == g)
  }

  lemma {:induction false} DistinctIsOneEach(facts: seq<Stored>)
    ensures DistinctFactKeys(facts) <==> OneEach(multiset(facts))
    decreases |facts|
  {
    hide FactKeyOf;
    if facts != [] {
      var before, f := facts[..|facts| - 1], facts[|facts| - 1];
      assert facts == before + [f];
      DistinctIsOneEach(before);
      LastOfDistinct(before, f);
      assert multiset(facts) == multiset(before) + multiset{f};
      OneMoreEach(multiset(before), f);
      assert forall g :: g in before <==> g in multiset(before);
    }
  }

  lemma {:induction false} LastOfDistinct(before: seq<Stored>, f: Stored)
    ensures DistinctFactKeys(before + [f]) <==> DistinctFactKeys(before) && forall g :: g in before ==> FactKeyOf(g) != FactKeyOf(f)
  {
    hide FactKeyOf;
    var facts := before + [f];
    if DistinctFactKeys(facts) {
      forall i, j | 0 <= i < j < |before|
        ensures FactKeyOf(before[i]) != FactKeyOf(before[j])
      {
        assert FactKeyOf(facts[i]) != FactKeyOf(facts[j]);
      }
      forall g | g in before
        ensures FactKeyOf(g) != FactKeyOf(f)
      {
        var i :| 0 <= i < |before| && before[i] == g;
        assert FactKeyOf(facts[i]) != FactKeyOf(facts[|before|]);
      }
    }
    if DistinctFactKeys(before) && forall g :: g in before ==> FactKeyOf(g) != FactKeyOf(f) {
      forall i, j | 0 <= i < j < |facts|
        ensures FactKeyOf(facts[i]) != FactKeyOf(facts[j])
      {
        assert facts[i] == before[i] && before[i] in before;
      }
    }
  }

  lemma {:induction false} OneMoreEach(m: multiset<Stored>, f: Stored)
    ensures OneEach(m + multiset{f}) <==> OneEach(m) && forall g :: g in m ==> FactKeyOf(g) != FactKeyOf(f)
  {
    hide FactKeyOf;
    var n := m + multiset{f};
    assert n[f] == m[f] + 1;
    if OneEach(n) {
      assert forall g :: g in m ==> g in n && g != f;
      assert forall g :: g in m ==> m[g] == n[g];
      assert f in n;
    }
  }

  /**
   Two lists with distinct keys merge into one with distinct keys, newest first; before the cap it holds
   every stored fact, every live fact whose key is not stored, and nothing else.
   */
  lemma {:induction false} MergeIsUnion(stored: seq<Stored>, live: seq<Stored>)
    requires stored != [] && live != [] && DistinctFactKeys(stored)
    ensures Sorted(Merged(stored, live))
    ensures DistinctFactKeys(Merged(stored, live))
    ensures Merged(stored, live) == Capped(Union(stored, live))
    ensures FactKeys(Union(stored, live)) == FactKeys(stored) + FactKeys(live)
    ensures forall f :: f in Union(stored, live) <==> f in stored || f in Unheld(FactKeys(stored), live)
  {
    hide FactKeys, Unheld, ByNewest, DistinctFactKeys, Sorted;
    var more := Unheld(FactKeys(stored), live);
    var all := stored + more;
    UnheldAre(FactKeys(stored), live);
    BothDistinct(stored, more);
    ByNewestSorts(all);
    DistinctIsOneEach(all);
    DistinctIsOneEach(ByNewest(all));
    assert forall f :: f in ByNewest(all) <==> f in multiset(ByNewest(all));
    assert forall f :: f in all <==> f in multiset(all);
    SameKeys(ByNewest(all), stored, more);
    CappedKeeps(Union(stored, live));
  }

  lemma {:induction false} SameKeys(all: seq<Stored>, a: seq<Stored>, b: seq<Stored>)
    requires forall f :: f in all <==> f in a || f in b
    ensures FactKeys(all) == FactKeys(a) + FactKeys(b)
  {
  }

  lemma {:induction false} CappedKeeps(facts: seq<Stored>)
    ensures Sorted(facts) ==> Sorted(Capped(facts))
    ensures DistinctFactKeys(facts) ==> DistinctFactKeys(Capped(facts))
  {
  }

  /** What the cap drops is never newer than what it keeps. */
  lemma {:induction false} CapDropsTheOldest(stored: seq<Stored>, live: seq<Stored>, f: Stored, g: Stored)
    requires stored != [] && live != [] && DistinctFactKeys(stored)
    requires f in Union(stored, live) && f !in Merged(stored, live) && g in Merged(stored, live)
    ensures f.time <= g.time && |Merged(stored, live)| == 40000
  {
    hide Union, FactKeys;
    var all := Union(stored, live);
    ByNewestSorts(stored + Unheld(FactKeys(stored), live));
    assert Sorted(all) by {
      UnionIsSorted(stored, live);
    }
    var i :| 0 <= i < |all| && all[i] == f;
    assert |all| > FACT_SOURCE_MAX;
    assert i < FACT_SOURCE_MAX ==> all[..FACT_SOURCE_MAX][i] == f;
    var j :| 0 <= j < FACT_SOURCE_MAX && all[..FACT_SOURCE_MAX][j] == g;
    assert all[j] == g;
  }

  lemma {:induction false} UnionIsSorted(stored: seq<Stored>, live: seq<Stored>)
    ensures Sorted(Union(stored, live))
  {
    ByNewestSorts(stored + Unheld(FactKeys(stored), live));
  }

  /** A request both halves hold under one key is one candidate: it stays joined, by the stored fact. */
  lemma {:induction false} HeldTwiceJoinsOnce(stored: seq<Stored>, live: seq<Stored>, f: Stored, r: Record)
    requires stored != [] && live != [] && DistinctFactKeys(stored) && |Union(stored, live)| <= 40000
    requires f in stored && OfUsage(f, r)
    requires forall g :: (g in stored || g in live) && OfUsage(g, r) ==> FactKeyOf(g) == FactKeyOf(f)
    ensures ByUsage(Merged(stored, live), r) == Some(f)
  {
    hide FactKeys, Unheld, ByNewest, DistinctFactKeys, Sorted, OfUsage, FactKeyOf;
    var all := Union(stored, live);
    MergeIsUnion(stored, live);
    UnheldAre(FactKeys(stored), live);
    DistinctIsOneEach(all);
    assert forall g :: g in all <==> g in multiset(all);
    assert forall g :: g in all && OfUsage(g, r) ==> FactKeyOf(g) == FactKeyOf(f) && g == f;
    UsageIsUnique(all, r, f);
  }

}
