/** What holds of the channel-log scanner over any number of passes. */
module ScannerRuns {
  import opened Common
  import opened LogParser
  import opened Scanner

  /** The files the seen-set still knows after it was trimmed. */
  const KEPT := 15001

  // --- readings of the trail ----------------------------------------------------------------------------

  /** The files that were done with, in order. */
  function Marks(trail: seq<Event>): seq<FileKey> {
    if trail == [] then [] else
      Marks(trail[..|trail| - 1]) + match trail[|trail| - 1] case Marked(key) => [key] case _ => []
  }

  /** A fact written to disk, and how many files had been done with by then. */
  datatype Storing = Storing(key: FileKey, at: nat)

  function Stores(trail: seq<Event>): seq<Storing> {
    if trail == [] then [] else
      var before := trail[..|trail| - 1];
      Stores(before) + match trail[|trail| - 1] case Appended(key, _) => [Storing(key, |Marks(before)|)] case _ => []
  }

  /** The stored facts, newest first. */
  function Newest(trail: seq<Event>): seq<Fact> {
    if trail == [] then [] else
      (match trail[|trail| - 1] case Appended(_, fact) => [fact] case _ => []) + Newest(trail[..|trail| - 1])
  }

  function Unlinks(trail: seq<Event>): nat {
    if trail == [] then 0 else Unlinks(trail[..|trail| - 1]) + if trail[|trail| - 1].Unlinked? then 1 else 0
  }

  lemma {:induction false} OneMore(trail: seq<Event>, e: Event)
    ensures Marks(trail + [e]) == if e.Marked? then Marks(trail) + [e.key] else Marks(trail)
    ensures Stores(trail + [e]) == if e.Appended? then Stores(trail) + [Storing(e.key, |Marks(trail)|)] else Stores(trail)
    ensures Newest(trail + [e]) == if e.Appended? then [e.fact] + Newest(trail) else Newest(trail)
    ensures Unlinks(trail + [e]) == Unlinks(trail) + if e.Unlinked? then 1 else 0
  {
    assert (trail + [e])[..|trail|] == trail;
  }

  // --- what every state satisfies -----------------------------------------------------------------------

  /** A log is unlinked only right after its own fact was appended. */
  ghost predicate UnlinksFollow(trail: seq<Event>) {
    forall i :: 0 <= i < |trail| && trail[i].Unlinked? ==> i > 0 && trail[i - 1].Appended? && trail[i - 1].key == trail[i].key
  }

  /** The seen-set is the last files done with, and never fewer than KEPT once there were that many. */
  ghost predicate Window(s: State, marks: seq<FileKey>) {
    && |s.seenKeys| <= |marks| && s.seenKeys == marks[|marks| - |s.seenKeys|..]
    && Min(|marks|, KEPT) <= |s.seenKeys| <= 20000
    && s.seen == KeySet(s.seenKeys) && Distinct(s.seenKeys)
  }

  /** Every stored file was done with right afterwards. */
  ghost predicate Backed(stores: seq<Storing>, marks: seq<FileKey>) {
    forall a :: 0 <= a < |stores| ==> stores[a].at < |marks| && marks[stores[a].at] == stores[a].key
  }

  /** Between two facts of one file lie its own mark and at least KEPT others. */
  ghost predicate Spaced(stores: seq<Storing>) {
    forall a, b :: 0 <= a < b < |stores| && stores[a].key == stores[b].key ==> stores[b].at - stores[a].at > KEPT
  }

  predicate Balanced(s: State, stored: nat, unlinked: nat) {
    s.health.parsed == stored && s.health.deleted == unlinked && s.health.parsed == s.health.withChannel + s.health.withoutChannel
  }

  ghost predicate Sound(s: State, o: Settings) {
    && UnlinksFollow(s.trail)
    && Window(s, Marks(s.trail))
    && Backed(Stores(s.trail), Marks(s.trail))
    && Spaced(Stores(s.trail))
    && Balanced(s, |Stores(s.trail)|, Unlinks(s.trail))
    && s.facts == FirstN(Newest(s.trail), o.maxFacts)
    && (!o.deleteAfterRead ==> Unlinks(s.trail) == 0)
  }

  // --- marking ------------------------------------------------------------------------------------------

  lemma {:induction false} WindowStep(s: State, marks: seq<FileKey>, key: FileKey)
    requires Window(s, marks) && key !in s.seen
    ensures Window(MarkedIn(s, key), marks + [key])
  {
    hide KeySet;
    var keys, t := s.seenKeys + [key], MarkedIn(s, key);
    KeySetPlus(s.seenKeys, key);
    assert key !in s.seenKeys by {
      KeySetHas(s.seenKeys, key);
    }
    assert Distinct(keys);
    if |keys| > SEEN_CAP {
      KeySetCut(keys, SEEN_TRIM);
      assert keys[SEEN_TRIM..] == (marks + [key])[|marks| + 1 - |t.seenKeys|..];
    } else {
      assert keys == (marks + [key])[|marks| + 1 - |keys|..];
    }
  }

  lemma {:induction false} KeySetHas(keys: seq<FileKey>, key: FileKey)
    ensures key in KeySet(keys) <==> key in keys
  {
  }

  lemma {:induction false} KeySetPlus(keys: seq<FileKey>, key: FileKey)
    ensures KeySet(keys + [key]) == KeySet(keys) + {key}
  {
  }

  lemma {:induction false} KeySetCut(keys: seq<FileKey>, n: nat)
    requires n <= |keys| && Distinct(keys)
    ensures KeySet(keys[n..]) == KeySet(keys) - KeySet(keys[..n]) && Distinct(keys[n..])
  {
    assert keys == keys[..n] + keys[n..];
    forall k | k in keys[..n]
      ensures k !in keys[n..]
    {
      var i :| 0 <= i < n && keys[i] == k;
      assert forall j :: n <= j < |keys| ==> keys[j] != keys[i];
    }
  }

  lemma {:induction false} BackedMore(stores: seq<Storing>, marks: seq<FileKey>, key: FileKey)
    requires Backed(stores, marks)
    ensures Backed(stores, marks + [key]) && Backed(stores + [Storing(key, |marks|)], marks + [key])
  {
  }

  /** A file that is not in the seen-set was stored long ago, if ever. */
  lemma {:induction false} SpacedMore(s: State, stores: seq<Storing>, marks: seq<FileKey>, key: FileKey)
    requires Window(s, marks) && Backed(stores, marks) && Spaced(stores) && key !in s.seen
    ensures Spaced(stores + [Storing(key, |marks|)])
  {
    var after := stores + [Storing(key, |marks|)];
    var w := |marks| - |s.seenKeys|;
    forall m | w <= m < |marks|
      ensures marks[m] in s.seen
    {
      assert s.seenKeys[m - w] == marks[m];
    }
    assert forall a :: 0 <= a < |stores| && stores[a].key == key ==> stores[a].at < w;
  }

  /** A file done with but not stored: it changed while it was read. */
  lemma {:induction false} MarkKeeps(s: State, key: FileKey, o: Settings)
    requires Sound(s, o) && key !in s.seen
    ensures Sound(MarkedIn(s, key), o)
  {
    hide Window, Backed, Spaced, Marks, Stores, Newest, Unlinks;
    OneMore(s.trail, Marked(key));
    MarkedTrail(s, key);
    WindowStep(s, Marks(s.trail), key);
    BackedMore(Stores(s.trail), Marks(s.trail), key);
  }

  lemma {:induction false} MarkedTrail(s: State, key: FileKey)
    requires key !in s.seen
    ensures MarkedIn(s, key).trail == s.trail + [Marked(key)]
    ensures MarkedIn(s, key).facts == s.facts && MarkedIn(s, key).health == s.health
  {
  }

  lemma {:induction false} FirstNPlus<T>(s: seq<T>, x: T, n: nat)
    ensures FirstN([x] + FirstN(s, n), n) == FirstN([x] + s, n)
  {
  }

  /** A stored file. */
  lemma {:induction false} StoreKeeps(s: State, key: FileKey, fact: Fact, unlinks: bool, o: Settings)
    requires Sound(s, o) && key !in s.seen
    ensures Sound(MarkedIn(StoredIn(s, key, fact, unlinks, o), key), o)
  {
    hide Window, Backed, Spaced, Marks, Stores, Newest, Unlinks, FirstN;
    var t := StoredIn(s, key, fact, unlinks, o);
    var u := MarkedIn(t, key);
    var gone := o.deleteAfterRead && unlinks;
    var trail, marks, stores := s.trail + [Appended(key, fact)], Marks(s.trail), Stores(s.trail);
    OneMore(s.trail, Appended(key, fact));
    OneMore(trail, Unlinked(key));
    assert trail + [] == trail;
    OneMore(t.trail, Marked(key));
    MarkedTrail(t, key);
    FirstNPlus(Newest(s.trail), fact, o.maxFacts);
    WindowOnly(s, t, marks);
    WindowStep(t, marks, key);
    BackedMore(stores, marks, key);
    SpacedMore(s, stores, marks, key);
    FollowStep(s.trail, key, fact, gone);
  }

  lemma {:induction false} WindowOnly(s: State, t: State, marks: seq<FileKey>)
    requires Window(s, marks) && t.seen == s.seen && t.seenKeys == s.seenKeys
    ensures Window(t, marks)
  {
  }

  lemma {:induction false} FollowStep(trail: seq<Event>, key: FileKey, fact: Fact, gone: bool)
    requires UnlinksFollow(trail)
    ensures UnlinksFollow(trail + [Appended(key, fact)] + (if gone then [Unlinked(key)] else []) + [Marked(key)])
  {
  }

  lemma {:induction false} OtherCounters(s: State, t: State, o: Settings)
    requires Sound(s, o) && t.seen == s.seen && t.seenKeys == s.seenKeys && t.facts == s.facts && t.trail == s.trail
    requires t.health.parsed == s.health.parsed && t.health.deleted == s.health.deleted
    requires t.health.withChannel == s.health.withChannel && t.health.withoutChannel == s.health.withoutChannel
    ensures Sound(t, o)
  {
    hide UnlinksFollow, Backed, Spaced, Marks, Stores, Newest, Unlinks, FirstN;
  }

  lemma {:induction false} OneKeeps(s: State, e: Entry, now: int, o: Settings)
    requires Sound(s, o)
    ensures Sound(One(s, e, now, o), o)
  {
    hide Sound, StoredIn, MarkedIn;
    if Judge(e, now, o, s.seen) != ToRead {
      OtherCounters(s, One(s, e, now, o), o);
    } else {
      ReadingKeeps(s, e.Key(), e.file, o);
    }
  }

  lemma {:induction false} ReadingKeeps(s: State, key: FileKey, file: File, o: Settings)
    requires Sound(s, o) && key !in s.seen
    ensures var (t, done) := Read(s, key, file, o); Sound(if done then MarkedIn(t, key) else Failure(t), o)
  {
    hide Sound, StoredIn, MarkedIn;
    var (t, done) := Read(s, key, file, o);
    if file.Opened? {
      var r := s.(health := s.health.(scanned := s.health.scanned + 1));
      OtherCounters(s, r, o);
      if file.failed || !file.closes {
        OtherCounters(r, Failure(t), o);
      } else if file.bytes != key.size {
        OtherCounters(r, t, o);
        MarkKeeps(t, key, o);
      } else if !file.appends {
        OtherCounters(r, Failure(t), o);
      } else {
        StoreKeeps(r, key, Dated(file.fact, key.modified), file.unlinks, o);
      }
    } else {
      OtherCounters(s, Failure(t), o);
    }
  }

  lemma {:induction false} EnteredKeeps(s: State, entries: seq<Entry>, now: int, o: Settings)
    requires Sound(s, o)
    ensures Sound(Entered(s, entries, now, o), o)
  {
    hide Sound, One;
    if entries != [] {
      EnteredKeeps(s, entries[..|entries| - 1], now, o);
      OneKeeps(Entered(s, entries[..|entries| - 1], now, o), entries[|entries| - 1], now, o);
    }
  }

  /** A pass as the polling loop makes it. */
  datatype Tick = Tick(listing: Option<seq<Entry>>, now: int)

  function Passes(ticks: seq<Tick>, o: Settings): State {
    if ticks == [] then NEW_STATE else
      var t := ticks[|ticks| - 1];
      Pass(Passes(ticks[..|ticks| - 1], o), t.listing, t.now, o)
  }

  /** A scanner that has not looked yet. */
  predicate IsNew(s: State) {
    |s.seen| == |s.seenKeys| == |s.facts| == |s.trail| == 0 && s.health == NO_HEALTH
  }

  /** What an invariant says of a trail without events and a seen-set without keys. */
  ghost predicate Unmarked(s: State) {
    UnlinksFollow(s.trail) && Window(s, Marks(s.trail)) && Backed(Stores(s.trail), Marks(s.trail)) && Spaced(Stores(s.trail))
  }

  lemma {:induction false} NewIsUnmarked(s: State)
    requires IsNew(s)
    ensures Unmarked(s)
  {
    assert KeySet(s.seenKeys) == {};
  }

  lemma {:induction false} NewIsSound(s: State, o: Settings)
    requires IsNew(s) && Unmarked(s)
    ensures Sound(s, o)
  {
    hide Window, Backed, Spaced, UnlinksFollow;
  }

  /** After any passes over any directories, with any failures. */
  lemma {:induction false} EveryRunSound(ticks: seq<Tick>, o: Settings)
    ensures Sound(Passes(ticks, o), o)
  {
    hide Sound, Entered;
    if ticks == [] {
      NewIsUnmarked(Passes(ticks, o));
      NewIsSound(Passes(ticks, o), o);
    } else {
      var s, t := Passes(ticks[..|ticks| - 1], o), ticks[|ticks| - 1];
      EveryRunSound(ticks[..|ticks| - 1], o);
      if t.listing.Some? {
        OtherCounters(s, s.(pending := 0), o);
        EnteredKeeps(s.(pending := 0), t.listing.value, t.now, o);
      }
    }
  }

  /** Two facts of one file are more than 15001 files done with apart, and no log is gone whose fact is not on disk. */
  lemma {:induction false} StoredAtMostOnce(ticks: seq<Tick>, o: Settings)
    ensures var stores := Stores(Passes(ticks, o).trail);
      forall a, b :: 0 <= a < b < |stores| && stores[a].key == stores[b].key ==> stores[b].at - stores[a].at > 15001
    ensures var trail := Passes(ticks, o).trail;
      forall i :: 0 <= i < |trail| && trail[i].Unlinked? ==> i > 0 && trail[i - 1].Appended? && trail[i - 1].key == trail[i].key
  {
    hide Window, Marks, Stores, Newest, Unlinks, FirstN;
    EveryRunSound(ticks, o);
  }

  /**
   A fact is stored only from a regular log other than main.log that was quiet long enough, had the size it was
   listed with when it was looked at again, was read to exactly that size, and is not in the seen-set; and only
   with it may the log be unlinked.
   */
  lemma {:induction false} OnlyQuietWholeFilesAreStored(s: State, e: Entry, now: int, o: Settings)
    requires |Stores(One(s, e, now, o).trail)| > |Stores(s.trail)| || Unlinks(One(s, e, now, o).trail) > Unlinks(s.trail)
    ensures !e.special && HasSuffix(e.name, ".log") && e.name != "main.log" && e.info.Some? && e.info.value.regular
    ensures now - e.info.value.modified >= o.minAge && e.again == Some(e.info.value.size) && e.Key() !in s.seen
    ensures e.file.Opened? && e.file.bytes == e.info.value.size && !e.file.failed && e.file.closes && e.file.appends
    ensures Stores(One(s, e, now, o).trail) == Stores(s.trail) + [Storing(e.Key(), |Marks(s.trail)|)]
    ensures Newest(One(s, e, now, o).trail) == [Dated(e.file.fact, e.info.value.modified)] + Newest(s.trail)
    ensures Unlinks(One(s, e, now, o).trail) == Unlinks(s.trail) + if o.deleteAfterRead && e.file.unlinks then 1 else 0
  {
    hide Stores, Marks, Newest, Unlinks, FirstN, HasChannel, KeySet, HasSuffix, MarkedIn;
    if Judge(e, now, o, s.seen) == ToRead {
      var key := e.Key();
      OneMore(s.trail, Marked(key));
      MarkedTrail(s, key);
      if e.file.Opened? {
        var fact := Dated(e.file.fact, key.modified);
        var t := StoredIn(s.(health := s.health.(scanned := s.health.scanned + 1)), key, fact, e.file.unlinks, o);
        var u := s.(health := s.health.(scanned := s.health.scanned + 1, growing := s.health.growing + 1));
        MarkedTrail(t, key);
        MarkedTrail(u, key);
        OneMore(s.trail, Appended(key, fact));
        OneMore(s.trail + [Appended(key, fact)], Unlinked(key));
        OneMore(t.trail, Marked(key));
        assert s.trail + [Appended(key, fact)] + [] == s.trail + [Appended(key, fact)];
      }
    }
  }

  // --- counting the entries of a pass -------------------------------------------------------------------

  /** A regular request log, or an entry whose details could not be read. */
  predicate Candidate(e: Entry) {
    !e.special && HasSuffix(e.name, ".log") && e.name != "main.log" && (e.info == None || e.info.value.regular)
  }

  function Candidates(entries: seq<Entry>): nat {
    if entries == [] then 0 else Candidates(entries[..|entries| - 1]) + if Candidate(entries[|entries| - 1]) then 1 else 0
  }

  function Handled(h: Health): nat { h.parsed + h.failures + h.young + h.growing + h.seen }

  lemma {:induction false} OneCountsOnce(s: State, e: Entry, now: int, o: Settings)
    ensures Handled(One(s, e, now, o).health) == Handled(s.health) + if Candidate(e) then 1 else 0
  {
    hide FirstN, HasChannel, KeySet;
  }

  /** Every candidate of a listing adds exactly one to parsed, failed, young, growing and seen together. */
  lemma {:induction false} EveryCandidateCountsOnce(s: State, entries: seq<Entry>, now: int, o: Settings)
    ensures Handled(Entered(s, entries, now, o).health) == Handled(s.health) + Candidates(entries)
  {
    hide One, Candidate, Handled;
    if entries != [] {
      EveryCandidateCountsOnce(s, entries[..|entries| - 1], now, o);
      OneCountsOnce(Entered(s, entries[..|entries| - 1], now, o), entries[|entries| - 1], now, o);
    }
  }

  /** Over a whole run nothing is lost between the counters. */
  function AllCandidates(ticks: seq<Tick>): nat {
    if ticks == [] then 0 else
      var t := ticks[|ticks| - 1];
      AllCandidates(ticks[..|ticks| - 1]) + if t.listing == None then 0 else Candidates(t.listing.value)
  }

  lemma {:induction false} CountersAccount(ticks: seq<Tick>, o: Settings)
    ensures Handled(Passes(ticks, o).health) == AllCandidates(ticks)
  {
    hide Entered;
    if ticks != [] {
      CountersAccount(ticks[..|ticks| - 1], o);
      var s, t := Passes(ticks[..|ticks| - 1], o), ticks[|ticks| - 1];
      if t.listing.Some? {
        EveryCandidateCountsOnce(s.(pending := 0), t.listing.value, t.now, o);
      }
    }
  }
}
