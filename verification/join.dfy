/** Joining a usage record to the request-log fact that describes the same request. */
module Join {
  import opened Common
  import opened LogParser

  /** A stored fact: the log file it came from, the request's arrival, and what the log said. */
  datatype Stored = Stored(file: string, time: int, said: Fact) {
    predicate Named() { NamesChannel(said.routing) }

    predicate HasSession() { said.info.session.Some? && said.uuid != "" }

    predicate Counted() { said.prompt != 0 || said.completion != 0 }
  }

  /** A usage record: what the usage hook reported, and the fields a view fills in from a fact. */
  datatype Record = Record(schema: int, time: int, sessionID: string, credential: string, failed: bool,
                           input: int, output: int, cached: int, ttft: int,
                           finalProvider: string, resolvedProvider: string,
                           gatewayProvider: string, gatewayResolved: string, slug: string,
                           attempts: int, gatewayCost: real, source: string)

  // Nanoseconds. The session window is open, the usage window closed.
  const JOIN_WINDOW := 2_000_000_000
  const JOIN_USAGE_WINDOW := 5_000_000_000

  predicate Contains(s: string, t: string) { exists i :: 0 <= i <= |s| && StandsAt(s, t, i) }

  predicate StandsAt(s: string, t: string, i: nat) { i + |t| <= |s| && s[i..i + |t|] == t }

  function Distance(f: Stored, r: Record): (d: int)
    ensures d >= 0
  {
    if r.time < f.time then f.time - r.time else r.time - f.time
  }

  // --- the session match --------------------------------------------------------------------------------

  predicate OfSession(f: Stored, r: Record) {
    && f.Named() && f.HasSession() && r.sessionID != "" && Contains(r.sessionID, f.said.uuid)
    && Distance(f, r) < JOIN_WINDOW
  }

  /** The closest fact of the record's session, the first one among equally close. */
  function BySession(facts: seq<Stored>, r: Record): Option<Stored> {
    if facts == [] then None else
      var f, best := facts[|facts| - 1], BySession(facts[..|facts| - 1], r);
      if OfSession(f, r) && (best == None || Distance(f, r) < Distance(best.value, r)) then Some(f) else best
  }

  method MatchBySession(facts: seq<Stored>, r: Record) returns (best: Option<Stored>)
    ensures best == BySession(facts, r)
  {
    hide OfSession;
    best := None;
    for i := 0 to |facts|
      invariant best == BySession(facts[..i], r)
    {
      assert facts[..i + 1][..i] == facts[..i];
      var fact := facts[i];
      if !OfSession(fact, r) {
        continue;
      }
      if best == None || Distance(fact, r) < Distance(best.value, r) {
        best := Some(fact);
      }
    }
    assert facts[..|facts|] == facts;
  }

  ghost predicate IsClosest(best: Stored, facts: seq<Stored>, r: Record) {
    && best in facts && OfSession(best, r)
    && forall f :: f in facts && OfSession(f, r) ==> Distance(best, r) <= Distance(f, r)
  }

  /** The session match finds a closest candidate exactly when there is one. */
  lemma {:induction false} SessionIsClosest(facts: seq<Stored>, r: Record)
    ensures BySession(facts, r) == None <==> forall f :: f in facts ==> !OfSession(f, r)
    ensures BySession(facts, r).Some? ==> IsClosest(BySession(facts, r).value, facts, r)
  {
    hide OfSession, Distance;
    if facts != [] {
      var before, last := facts[..|facts| - 1], facts[|facts| - 1];
      SessionIsClosest(before, r);
      assert forall f :: f in facts <==> f in before || f == last;
    }
  }

  /** More facts never lose a session match and never put it further away. */
  lemma {:induction false} MoreFactsMatchCloser(facts: seq<Stored>, more: seq<Stored>, r: Record)
    requires forall f :: f in facts ==> f in more
    requires BySession(facts, r).Some?
    ensures BySession(more, r).Some?
    ensures Distance(BySession(more, r).value, r) <= Distance(BySession(facts, r).value, r)
  {
    hide OfSession, Distance, BySession;
    SessionIsClosest(facts, r);
    SessionIsClosest(more, r);
  }

  // --- the counter match --------------------------------------------------------------------------------

  predicate OfUsage(f: Stored, r: Record) {
    && f.Named() && f.Counted() && f.said.prompt == r.input && f.said.completion == r.output
    && Distance(f, r) <= JOIN_USAGE_WINDOW
  }

  function Candidates(facts: seq<Stored>, r: Record): seq<Stored> {
    if facts == [] then [] else
      Candidates(facts[..|facts| - 1], r) + if OfUsage(facts[|facts| - 1], r) then [facts[|facts| - 1]] else []
  }

  /** The only candidate, or nothing. */
  function ByUsage(facts: seq<Stored>, r: Record): Option<Stored> {
    if |Candidates(facts, r)| == 1 then Some(Candidates(facts, r)[0]) else None
  }

  method MatchByUsage(facts: seq<Stored>, r: Record) returns (m: Option<Stored>)
    ensures m == ByUsage(facts, r)
  {
    hide OfUsage;
    if r.input == 0 && r.output == 0 {
      NoCountersNoMatch(facts, r);
      return None;
    }
    var candidate, candidates := None, 0;
    for i := 0 to |facts|
      invariant candidates == |Candidates(facts[..i], r)|
      invariant candidates > 0 ==> candidate == Some(Candidates(facts[..i], r)[candidates - 1])
    {
      assert facts[..i + 1][..i] == facts[..i];
      var fact := facts[i];
      if !OfUsage(fact, r) {
        continue;
      }
      candidate := Some(fact);
      candidates := candidates + 1;
    }
    assert facts[..|facts|] == facts;
    if candidates != 1 {
      return None;
    }
    return candidate;
  }

  /** A record without counters matches nothing: two zeros never pair up. */
  lemma {:induction false} NoCountersNoMatch(facts: seq<Stored>, r: Record)
    requires r.input == 0 && r.output == 0
    ensures Candidates(facts, r) == []
  {
    if facts != [] {
      NoCountersNoMatch(facts[..|facts| - 1], r);
    }
  }

  /** Each candidate occurs among the candidates as often as among the facts, anything else not at all. */
  lemma {:induction false} CandidatesCount(facts: seq<Stored>, r: Record, f: Stored)
    ensures multiset(Candidates(facts, r))[f] == if OfUsage(f, r) then multiset(facts)[f] else 0
  {
    hide OfUsage;
    if facts != [] {
      var before, last := facts[..|facts| - 1], facts[|facts| - 1];
      assert facts == before + [last];
      CandidatesCount(before, r, f);
    }
  }

  lemma {:induction false} CandidatesAre(facts: seq<Stored>, r: Record, f: Stored)
    ensures f in Candidates(facts, r) <==> f in facts && OfUsage(f, r)
  {
    hide OfUsage;
    CandidatesCount(facts, r, f);
    assert f in Candidates(facts, r) <==> multiset(Candidates(facts, r))[f] > 0;
    assert f in facts <==> multiset(facts)[f] > 0;
  }

  /** The counter match returns a fact exactly when one element of the list, and no other, is a candidate. */
  lemma {:induction false} UsageIsUnique(facts: seq<Stored>, r: Record, f: Stored)
    ensures ByUsage(facts, r) == Some(f) <==>
      OfUsage(f, r) && multiset(facts)[f] == 1 && forall g :: g in facts && OfUsage(g, r) ==> g == f
  {
    hide OfUsage, Candidates;
    var c := Candidates(facts, r);
    CandidatesCount(facts, r, f);
    forall g
      ensures g in c <==> g in facts && OfUsage(g, r)
    {
      CandidatesAre(facts, r, g);
    }
    if ByUsage(facts, r) == Some(f) {
      assert c == [f];
    } else if OfUsage(f, r) && multiset(facts)[f] == 1 && forall g :: g in facts && OfUsage(g, r) ==> g == f {
      assert forall i :: 0 <= i < |c| ==> c[i] in c;
      AllTheSame(c, f);
    }
  }

  lemma {:induction false} AllTheSame(c: seq<Stored>, f: Stored)
    requires forall i :: 0 <= i < |c| ==> c[i] == f
    ensures |c| == multiset(c)[f]
    ensures |c| == 1 ==> c[0] == f
  {
    if c != [] {
      assert c == c[..|c| - 1] + [c[|c| - 1]];
      AllTheSame(c[..|c| - 1], f);
    }
  }

  /** The order of the facts does not matter to the counter match. */
  lemma {:induction false} UsageIgnoresOrder(facts: seq<Stored>, other: seq<Stored>, r: Record)
    requires multiset(facts) == multiset(other)
    ensures ByUsage(facts, r) == ByUsage(other, r)
  {
    hide OfUsage, ByUsage;
    assert forall g :: g in facts <==> g in multiset(facts);
    assert forall g :: g in other <==> g in multiset(other);
    SameMatches(facts, other, r);
    SameMatches(other, facts, r);
  }

  lemma {:induction false} SameMatches(facts: seq<Stored>, other: seq<Stored>, r: Record)
    requires multiset(facts) == multiset(other) && forall g :: g in facts <==> g in other
    ensures ByUsage(facts, r).Some? ==> ByUsage(other, r) == ByUsage(facts, r)
  {
    hide OfUsage, ByUsage;
    if ByUsage(facts, r).Some? {
      UsageIsUnique(facts, r, ByUsage(facts, r).value);
      UsageIsUnique(other, r, ByUsage(facts, r).value);
    }
  }

  // --- both ---------------------------------------------------------------------------------------------

  method Match(facts: seq<Stored>, r: Record) returns (m: Option<Stored>)
    ensures m == Matched(facts, r)
  {
    m := MatchBySession(facts, r);
    if m == None {
      m := MatchByUsage(facts, r);
    }
  }

  function Matched(facts: seq<Stored>, r: Record): Option<Stored> {
    if BySession(facts, r).Some? then BySession(facts, r) else ByUsage(facts, r)
  }

  /** Whatever is joined is one of the facts, names a channel and lies within five seconds; a session goes first. */
  lemma {:induction false} MatchIsAFact(facts: seq<Stored>, r: Record)
    requires Matched(facts, r).Some?
    ensures Matched(facts, r).value in facts && Matched(facts, r).value.Named()
    ensures Distance(Matched(facts, r).value, r) <= JOIN_USAGE_WINDOW
    ensures (exists g :: g in facts && OfSession(g, r)) ==> OfSession(Matched(facts, r).value, r)
  {
    SessionIsClosest(facts, r);
    if BySession(facts, r) == None {
      CandidatesAre(facts, r, ByUsage(facts, r).value);
    }
  }

  function WithChannel(r: Record, f: Stored): Record {
    var c := f.said.routing;
    r.(finalProvider := c.finalProvider, resolvedProvider := c.resolvedProvider, gatewayProvider := c.finalProvider,
       gatewayResolved := c.resolvedProvider, slug := c.canonicalSlug, attempts := c.totalAttempts, gatewayCost := c.cost,
       source := "log")
  }

  function FirstNonEmpty(values: seq<string>): string {
    if values == [] then "" else if values[0] != "" then values[0] else FirstNonEmpty(values[1..])
  }

  function GatewayChannel(r: Record): string {
    FirstNonEmpty([r.gatewayProvider, r.finalProvider, r.gatewayResolved, r.resolvedProvider])
  }

  /**
   A joined record shows a channel exactly when its fact names a final or a resolved provider. A fact that
   names only a model or a pinned provider is joined and still shows none.
   */
  lemma {:induction false} JoinedChannel(r: Record, f: Stored)
    ensures GatewayChannel(WithChannel(r, f)) ==
      if f.said.routing.finalProvider != "" then f.said.routing.finalProvider else f.said.routing.resolvedProvider
    ensures WithChannel(r, f).time == r.time && WithChannel(r, f).input == r.input && WithChannel(r, f).output == r.output
  {
    var j := WithChannel(r, f);
    var values := [j.gatewayProvider, j.finalProvider, j.gatewayResolved, j.resolvedProvider];
    Next(values);
    Next(values[1..]);
    Next(values[2..]);
    Next(values[3..]);
    assert values[1..][1..] == values[2..] && values[2..][1..] == values[3..] && values[3..][1..] == [];
  }

  lemma {:induction false} Next(values: seq<string>)
    requires values != []
    ensures FirstNonEmpty(values) == if values[0] != "" then values[0] else FirstNonEmpty(values[1..])
  {
  }
}
