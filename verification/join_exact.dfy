/** Which fact a record is joined to, told from the fact's and the record's own fields. */
module JoinExact {
  import opened Common
  import opened LogParser
  import opened Join

  ghost predicate NamesSomething(f: Stored) {
    var c := f.said.routing;
    !(c.finalProvider == "" && c.resolvedProvider == "" && c.canonicalSlug == "" && c.originalModelID == ""
      && c.pinnedProvider == "")
  }

  /** The two times are less than `span` nanoseconds apart. */
  ghost predicate Within(f: Stored, r: Record, span: int) { -span < f.time - r.time < span }

  /** The log carried a session header with an id, the record's session id has that id in it, within two seconds. */
  ghost predicate SameSession(f: Stored, r: Record) {
    && NamesSomething(f) && f.said.info.session.Some? && f.said.uuid != ""
    && (exists a, b :: r.sessionID == a + f.said.uuid + b)
    && Within(f, r, 2_000_000_000)
  }

  /** Both counters are the record's own, and not both zero, within five seconds or exactly five. */
  ghost predicate SameCounters(f: Stored, r: Record) {
    && NamesSomething(f) && (f.said.prompt, f.said.completion) == (r.input, r.output) != (0, 0)
    && Within(f, r, 5_000_000_001)
  }

  lemma {:induction false} ContainsExactly(s: string, t: string)
    ensures Contains(s, t) <==> exists a, b :: s == a + t + b
  {
    if Contains(s, t) {
      var i :| 0 <= i <= |s| && StandsAt(s, t, i);
      assert s == s[..i] + t + s[i + |t|..];
    }
    if a, b :| s == a + t + b {
      assert StandsAt(s, t, |a|);
    }
  }

  lemma {:induction false} CandidateExactly(f: Stored, r: Record)
    ensures OfSession(f, r) <==> SameSession(f, r)
    ensures OfUsage(f, r) <==> SameCounters(f, r)
  {
    hide Contains;
    ContainsExactly(r.sessionID, f.said.uuid);
  }

  /** How far apart the two times are. */
  function Apart(f: Stored, r: Record): int { Max(f.time - r.time, r.time - f.time) }

  /** The i-th fact is of the record's session, every such fact before it is further away, and none behind it is closer. */
  ghost predicate FirstOfClosest(facts: seq<Stored>, r: Record, i: int) {
    && 0 <= i < |facts| && SameSession(facts[i], r)
    && (forall k :: 0 <= k < i && SameSession(facts[k], r) ==> Apart(facts[k], r) > Apart(facts[i], r))
    && (forall k :: i < k < |facts| && SameSession(facts[k], r) ==> Apart(facts[k], r) >= Apart(facts[i], r))
  }

  lemma {:induction false} ClosestIs(facts: seq<Stored>, r: Record) returns (i: int)
    ensures BySession(facts, r) == None ==> forall k :: 0 <= k < |facts| ==> !SameSession(facts[k], r)
    ensures BySession(facts, r).Some? ==> FirstOfClosest(facts, r, i) && BySession(facts, r) == Some(facts[i])
  {
    hide SameSession, OfSession;
    i := 0;
    if facts != [] {
      var n := |facts| - 1;
      i := ClosestIs(facts[..n], r);
      assert forall k :: 0 <= k < n ==> facts[..n][k] == facts[k];
      CandidateExactly(facts[n], r);
      if BySession(facts, r) != BySession(facts[..n], r) {
        i := n;
      }
    }
  }

  /** The fact joined by its session is the first of the closest, and there is one when any is of the session. */
  lemma {:induction false} SessionMatchExactly(facts: seq<Stored>, r: Record, f: Stored)
    ensures BySession(facts, r) == Some(f) <==> exists i :: FirstOfClosest(facts, r, i) && facts[i] == f
    ensures BySession(facts, r) == None <==> forall k :: 0 <= k < |facts| ==> !SameSession(facts[k], r)
  {
    hide SameSession, BySession, Apart;
    var j := ClosestIs(facts, r);
    if i :| FirstOfClosest(facts, r, i) && facts[i] == f {
      assert i == j;
    }
  }

  /** The fact joined by its counters is the only one of the list that has the record's counters, and only once in it. */
  lemma {:induction false} UsageMatchExactly(facts: seq<Stored>, r: Record, f: Stored)
    ensures ByUsage(facts, r) == Some(f) <==>
      SameCounters(f, r) && multiset(facts)[f] == 1 && forall g :: g in facts && SameCounters(g, r) ==> g == f
  {
    hide SameCounters, OfUsage, ByUsage;
    UsageIsUnique(facts, r, f);
    forall g
      ensures OfUsage(g, r) <==> SameCounters(g, r)
    {
      CandidateExactly(g, r);
    }
  }

  /** A record is joined by its session when that finds a fact, and by its counters only when it does not. */
  lemma {:induction false} SessionGoesFirst(facts: seq<Stored>, r: Record)
    ensures (exists g :: g in facts && SameSession(g, r)) ==> Matched(facts, r) == BySession(facts, r) && Matched(facts, r).Some?
    ensures (forall g :: g in facts ==> !SameSession(g, r)) ==> Matched(facts, r) == ByUsage(facts, r)
  {
    hide SameSession, BySession, ByUsage;
    if BySession(facts, r).Some? {
      SessionMatchExactly(facts, r, BySession(facts, r).value);
    } else {
      NoSessionMatch(facts, r);
    }
  }

  lemma {:induction false} NoSessionMatch(facts: seq<Stored>, r: Record)
    requires BySession(facts, r) == None
    ensures forall g :: g in facts ==> !SameSession(g, r)
  {
    hide SameSession, BySession;
    forall g | g in facts
      ensures !SameSession(g, r)
    {
      SessionMatchExactly(facts, r, g);
    }
  }

  /** What a joined record shows: its own half as it was, and the gateway's half from the fact, under both names. */
  lemma {:induction false} JoinedExactly(r: Record, f: Stored)
    ensures var c := f.said.routing;
      WithChannel(r, f) == Record(
        r.schema, r.time, r.sessionID, r.credential, r.failed, r.input, r.output, r.cached, r.ttft,
        c.finalProvider, c.resolvedProvider, c.finalProvider, c.resolvedProvider, c.canonicalSlug, c.totalAttempts, c.cost,
        "log")
  {
  }
}
