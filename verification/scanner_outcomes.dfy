/** What one directory entry comes to, from the entry's own fields: stored, left for later, or given up on. */
module ScannerOutcomes {
  import opened Common
  import opened LogParser
  import opened Scanner
  import opened ScannerRuns

  /** A request log by its name; the main log is none. */
  ghost predicate IsLog(e: Entry) {
    !e.special && e.name != "main.log" && exists base :: e.name == base + ".log"
  }

  /** A regular request log, untouched for the configured time, with the size it was listed with on a second look. */
  ghost predicate IsQuiet(e: Entry, now: int, o: Settings) {
    && IsLog(e) && e.info.Some? && e.info.value.regular
    && e.info.value.modified + o.minAge <= now
    && e.again == Some(e.info.value.size)
  }

  /** It opens, reads without an error to the listed size, closes, and its fact reaches the store. */
  ghost predicate GoesWell(e: Entry)
    requires e.info.Some?
  {
    e.file.Opened? && !e.file.failed && e.file.closes && e.file.bytes == e.info.value.size && e.file.appends
  }

  lemma {:induction false} LogByName(e: Entry)
    ensures IsLog(e) <==> !e.special && e.name != "main.log" && HasSuffix(e.name, ".log")
  {
    if HasSuffix(e.name, ".log") {
      assert e.name == e.name[..|e.name| - 4] + ".log";
    }
    if base :| e.name == base + ".log" {
      assert e.name[|e.name| - 4..] == ".log";
    }
  }

  lemma {:induction false} MainByName()
    ensures HasSuffix("main.log", ".log")
  {
    var name := "main.log";
    assert name[4..] == ".log";
  }

  /** The fact of a log without a timestamp is dated by its file. */
  function FactFrom(e: Entry): Fact
    requires e.file.Opened? && e.info.Some?
  {
    var f := e.file.fact;
    f.(info := Info(f.info.path, f.info.verb, if f.info.time.Some? then f.info.time else Some(e.info.value.modified),
                    f.info.session))
  }

  ghost predicate NamesProvider(f: Fact) {
    !(f.routing.finalProvider == "" && f.routing.resolvedProvider == "" && f.routing.canonicalSlug == ""
      && f.routing.originalModelID == "" && f.routing.pinnedProvider == "")
  }

  /**
   A quiet log that is not in the seen-set and goes well is stored: its fact is appended and goes to the front of the ring,
   the file is unlinked when that is asked for and works, and it is noted as done.
   */
  lemma {:induction false} QuietWholeLogIsStored(s: State, e: Entry, now: int, o: Settings)
    requires IsQuiet(e, now, o) && GoesWell(e) && e.Key() !in s.seen
    ensures var t, key, fact := One(s, e, now, o), e.Key(), FactFrom(e);
      var gone := o.deleteAfterRead && e.file.unlinks;
      && key == FileKey(e.name, e.info.value.size, e.info.value.modified)
      && t.trail == s.trail + [Appended(key, fact)] + (if gone then [Unlinked(key)] else []) + [Marked(key)]
      && |t.facts| == Min(|s.facts| + 1, o.maxFacts)
      && (o.maxFacts > 0 ==> t.facts[0] == fact)
      && (forall i :: 0 < i < |t.facts| ==> t.facts[i] == s.facts[i - 1])
      && t.pending == s.pending
      && t.health == s.health.(
           scanned := s.health.scanned + 1, parsed := s.health.parsed + 1,
           withChannel := s.health.withChannel + (if NamesProvider(fact) then 1 else 0),
           withoutChannel := s.health.withoutChannel + (if NamesProvider(fact) then 0 else 1),
           deleted := s.health.deleted + (if gone then 1 else 0),
           deletedBytes := s.health.deletedBytes + (if gone then e.info.value.size else 0))
  {
    hide KeySet, HasSuffix, IsLog, MarkedIn;
    LogByName(e);
    var key, fact := e.Key(), FactFrom(e);
    assert Dated(e.file.fact, key.modified) == fact;
    var r := s.(health := s.health.(scanned := s.health.scanned + 1));
    var t := StoredIn(r, key, fact, e.file.unlinks, o);
    assert One(s, e, now, o) == MarkedIn(t, key);
    MarkedTrail(t, key);
    MarkedPending(t, key);
  }

  lemma {:induction false} MarkedPending(s: State, key: FileKey)
    ensures MarkedIn(s, key).pending == s.pending
  {
  }

  /** What is not stored is counted once, under the one heading that says why; only a log that grew is noted as done. */
  lemma {:induction false} NotStored(s: State, e: Entry, now: int, o: Settings)
    ensures var t, h := One(s, e, now, o), s.health;
      && (!e.special && e.name == "main.log" ==> t == s.(health := h.(mainLog := h.mainLog + 1)))
      && (e.name != "main.log" && !IsLog(e) ==> t == s)
      && (IsLog(e) && e.info == None ==> t == s.(health := h.(failures := h.failures + 1)))
      && (IsLog(e) && e.info.Some? ==>
            var info := e.info.value;
            && (!info.regular ==> t == s)
            && (info.regular && info.modified + o.minAge > now ==>
                  t == s.(health := h.(young := h.young + 1), pending := s.pending + 1))
            && (info.regular && info.modified + o.minAge <= now && e.again == None ==>
                  t == s.(health := h.(failures := h.failures + 1)))
            && (info.regular && info.modified + o.minAge <= now && e.again.Some? && e.again.value != info.size ==>
                  t == s.(health := h.(growing := h.growing + 1), pending := s.pending + 1)))
      && (IsQuiet(e, now, o) && e.Key() in s.seen ==> t == s.(health := h.(seen := h.seen + 1)))
  {
    hide Read, MarkedIn, HasSuffix;
    LogByName(e);
    MainByName();
  }

  /** A quiet, unseen log that does not go well. */
  lemma {:induction false} ReadingFails(s: State, e: Entry, now: int, o: Settings)
    requires IsQuiet(e, now, o) && e.Key() !in s.seen && !GoesWell(e)
    ensures var t, h, f := One(s, e, now, o), s.health, e.file;
      && (f.CannotOpen? ==> t == s.(health := h.(failures := h.failures + 1)))
      && (f.Opened? && (f.failed || !f.closes || (f.bytes == e.info.value.size && !f.appends)) ==>
            t == s.(health := h.(scanned := h.scanned + 1, failures := h.failures + 1)))
      && (f.Opened? && !f.failed && f.closes && f.bytes != e.info.value.size ==>
            && t.trail == s.trail + [Marked(e.Key())] && t.facts == s.facts && t.pending == s.pending
            && t.health == h.(scanned := h.scanned + 1, growing := h.growing + 1))
  {
    hide StoredIn, MarkedIn, HasSuffix, IsLog;
    LogByName(e);
    if e.file.Opened? && !e.file.failed && e.file.closes && e.file.bytes != e.info.value.size {
      var r := s.(health := s.health.(scanned := s.health.scanned + 1, growing := s.health.growing + 1));
      assert One(s, e, now, o) == MarkedIn(r, e.Key());
      MarkedTrail(r, e.Key());
      MarkedPending(r, e.Key());
    }
  }

  /** Before the first pass nothing is seen, stored or counted. */
  lemma {:induction false} FreshScanner(ticks: seq<Tick>, o: Settings)
    requires ticks == []
    ensures Passes(ticks, o) == State({}, [], [], Health(0, 0, 0, 0, 0, 0, 0, 0, 0, 0, 0), 0, [])
  {
  }

  /** A pass starts with an empty backlog and takes the entries in order. */
  lemma {:induction false} PassTakesInOrder(s: State, entries: seq<Entry>, e: Entry, now: int, o: Settings)
    ensures Pass(s, Some([]), now, o) == s.(pending := 0)
    ensures Pass(s, Some(entries + [e]), now, o) == One(Pass(s, Some(entries), now, o), e, now, o)
    ensures Pass(s, None, now, o) == s
  {
    hide One;
    assert (entries + [e])[..|entries|] == entries;
  }
}
