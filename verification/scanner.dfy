/** The scanner that turns finished request logs into stored facts, over an abstract directory. */
module Scanner {
  import opened Common
  import opened LogParser

  const SEEN_CAP := 20000
  const SEEN_TRIM := 5000

  /** A file as the seen-set knows it. */
  datatype FileKey = FileKey(name: string, size: int, modified: int)

  datatype Settings = Settings(minAge: int, maxFacts: nat, deleteAfterRead: bool)

  // --- what a pass finds --------------------------------------------------------------------------------

  datatype FileInfo = FileInfo(size: int, modified: int, regular: bool)

  /** How reading one file goes: what was read and parsed, and whether the calls around it succeed. */
  datatype File =
    | CannotOpen
    | Opened(bytes: int, fact: Fact, failed: bool, closes: bool, appends: bool, unlinks: bool)

  /** One directory entry: directories and links are `special`; `again` is the size a second look gives. */
  datatype Entry = Entry(name: string, special: bool, info: Option<FileInfo>, again: Option<int>, file: File) {
    function Key(): FileKey
      requires info.Some?
    {
      FileKey(name, info.value.size, info.value.modified)
    }
  }

  // --- what the scanner keeps ---------------------------------------------------------------------------

  datatype Health = Health(scanned: nat, parsed: nat, withChannel: nat, withoutChannel: nat, failures: nat,
                           deleted: nat, deletedBytes: int, young: nat, growing: nat, seen: nat, mainLog: nat)

  const NO_HEALTH := Health(0, 0, 0, 0, 0, 0, 0, 0, 0, 0, 0)

  /** What the outside world can observe, in order: a fact on disk, a log gone, and a file noted as done. */
  datatype Event = Appended(key: FileKey, fact: Fact) | Unlinked(key: FileKey) | Marked(key: FileKey)

  datatype State = State(seen: set<FileKey>, seenKeys: seq<FileKey>, facts: seq<Fact>, health: Health,
                         pending: nat, trail: seq<Event>)

  predicate HasChannel(f: Fact) { NamesChannel(f.routing) }

  /** A log without a timestamp is taken to have arrived when its file was last written. */
  function Dated(f: Fact, modified: int): Fact {
    if f.info.time == None then f.(info := f.info.(time := Some(modified))) else f
  }

  function FirstN<T>(s: seq<T>, n: nat): seq<T> { if |s| <= n then s else s[..n] }

  function KeySet(keys: seq<FileKey>): set<FileKey> { set k | k in keys }

  function MarkedIn(s: State, key: FileKey): State {
    if key in s.seen then s else
      var keys := s.seenKeys + [key];
      if |keys| > SEEN_CAP
      then s.(seenKeys := keys[SEEN_TRIM..], seen := s.seen + {key} - KeySet(keys[..SEEN_TRIM]), trail := s.trail + [Marked(key)])
      else s.(seenKeys := keys, seen := s.seen + {key}, trail := s.trail + [Marked(key)])
  }

  /** A fact on disk: counted, put in front of the ring, and its log unlinked when that is asked for. */
  function StoredIn(s: State, key: FileKey, fact: Fact, unlinks: bool, o: Settings): State {
    var h := s.health;
    var gone := o.deleteAfterRead && unlinks;
    s.(facts := FirstN([fact] + s.facts, o.maxFacts),
       health := h.(parsed := h.parsed + 1,
                    withChannel := h.withChannel + (if HasChannel(fact) then 1 else 0),
                    withoutChannel := h.withoutChannel + (if HasChannel(fact) then 0 else 1),
                    deleted := h.deleted + (if gone then 1 else 0),
                    deletedBytes := h.deletedBytes + (if gone then key.size else 0)),
       trail := s.trail + [Appended(key, fact)] + (if gone then [Unlinked(key)] else []))
  }

  /** Reading one file: the new state, and whether the file is done with. */
  function Read(s: State, key: FileKey, file: File, o: Settings): (State, bool) {
    match file
    case CannotOpen => (s, false)
    case Opened(bytes, fact, failed, closes, appends, unlinks) =>
      var t := s.(health := s.health.(scanned := s.health.scanned + 1));
      if failed || !closes then (t, false)
      else if bytes != key.size then (t.(health := t.health.(growing := t.health.growing + 1)), true)
      else if !appends then (t, false)
      else (StoredIn(t, key, Dated(fact, key.modified), unlinks, o), true)
  }

  function Failure(s: State): State { s.(health := s.health.(failures := s.health.failures + 1)) }

  datatype Verdict = Passed | MainLog | Broken | Young | Growing | AlreadySeen | ToRead

  /** The gates of one entry, in the order they are asked. */
  function Judge(e: Entry, now: int, o: Settings, seen: set<FileKey>): (v: Verdict)
    ensures v == ToRead || v == AlreadySeen || v == Growing || v == Young ==> e.info.Some?
  {
    if e.special || !HasSuffix(e.name, ".log") then Passed
    else if e.name == "main.log" then MainLog
    else if e.info == None then Broken
    else if !e.info.value.regular then Passed
    else if now - e.info.value.modified < o.minAge then Young
    else if e.again == None then Broken
    else if e.again.value != e.info.value.size then Growing
    else if e.Key() in seen then AlreadySeen
    else ToRead
  }

  function One(s: State, e: Entry, now: int, o: Settings): State {
    var h := s.health;
    match Judge(e, now, o, s.seen)
    case Passed => s
    case MainLog => s.(health := h.(mainLog := h.mainLog + 1))
    case Broken => Failure(s)
    case Young => s.(health := h.(young := h.young + 1), pending := s.pending + 1)
    case Growing => s.(health := h.(growing := h.growing + 1), pending := s.pending + 1)
    case AlreadySeen => s.(health := h.(seen := h.seen + 1))
    case ToRead =>
      var (t, done) := Read(s, e.Key(), e.file, o);
      if done then MarkedIn(t, e.Key()) else Failure(t)
  }

  function Entered(s: State, entries: seq<Entry>, now: int, o: Settings): State {
    if entries == [] then s else One(Entered(s, entries[..|entries| - 1], now, o), entries[|entries| - 1], now, o)
  }

  /** A pass over the directory; an unreadable directory changes nothing. */
  function Pass(s: State, listing: Option<seq<Entry>>, now: int, o: Settings): State {
    match listing
    case None => s
    case Some(entries) => Entered(s.(pending := 0), entries, now, o)
  }

  const NEW_STATE := State({}, [], [], NO_HEALTH, 0, [])

  // --- the object ---------------------------------------------------------------------------------------

  class ChannelScanner {
    var seen: set<FileKey>
    var seenKeys: seq<FileKey>
    var facts: seq<Fact>
    var stats: Health
    var pendingFiles: nat
    const options: Settings
    ghost var trail: seq<Event>

    ghost function View(): State
      reads this
    {
      State(seen, seenKeys, facts, stats, pendingFiles, trail)
    }

    constructor (options: Settings)
      ensures View() == NEW_STATE && this.options == options
    {
      seen, seenKeys, facts, stats, pendingFiles := {}, [], [], NO_HEALTH, 0;
      trail := [];
      this.options := options;
    }

    method MarkSeen(key: FileKey)
      modifies this`seen, this`seenKeys, this`trail
      ensures View() == MarkedIn(old(View()), key)
    {
      if key in seen {
        return;
      }
      seen := seen + {key};
      seenKeys := seenKeys + [key];
      trail := trail + [Marked(key)];
      if |seenKeys| > SEEN_CAP {
        ghost var before := seen;
        for i := 0 to SEEN_TRIM
          invariant seenKeys == old(seenKeys) + [key] && trail == old(trail) + [Marked(key)]
          invariant seen == before - KeySet(seenKeys[..i])
        {
          assert seenKeys[..i + 1] == seenKeys[..i] + [seenKeys[i]];
          seen := seen - {seenKeys[i]};
        }
        seenKeys := seenKeys[SEEN_TRIM..];
      }
    }

    method RecordFact(fact: Fact)
      modifies this`stats, this`facts
      ensures stats == old(stats).(parsed := old(stats).parsed + 1)
      ensures facts == FirstN([fact] + old(facts), options.maxFacts)
    {
      stats := stats.(parsed := stats.parsed + 1);
      facts := [fact] + facts;
      if |facts| > options.maxFacts {
        facts := facts[..options.maxFacts];
      }
    }

    method ScanFile(key: FileKey, file: File) returns (done: bool)
      modifies this`stats, this`facts, this`trail
      ensures (View(), done) == Read(old(View()), key, file, options)
    {
      if file.CannotOpen? {
        return false;
      }
      stats := stats.(scanned := stats.scanned + 1);
      var fact := file.fact;
      if file.failed || !file.closes {
        return false;
      }
      if file.bytes != key.size {
        stats := stats.(growing := stats.growing + 1);
        return true;
      }
      if fact.info.time == None {
        fact := fact.(info := fact.info.(time := Some(key.modified)));
      }
      if !file.appends {
        return false;
      }
      trail := trail + [Appended(key, fact)];
      if HasChannel(fact) {
        stats := stats.(withChannel := stats.withChannel + 1);
      } else {
        stats := stats.(withoutChannel := stats.withoutChannel + 1);
      }
      RecordFact(fact);
      if options.deleteAfterRead && file.unlinks {
        trail := trail + [Unlinked(key)];
        stats := stats.(deleted := stats.deleted + 1, deletedBytes := stats.deletedBytes + key.size);
      }
      assert old(trail) + [Appended(key, fact)] + [] == old(trail) + [Appended(key, fact)];
      return true;
    }

    /** One entry of the listing; true when it was left for a later pass. */
    method ScanEntry(e: Entry, now: int) returns (deferred: bool)
      modifies this
      ensures View() == One(old(View()), e, now, options).(pending := old(pendingFiles))
      ensures One(old(View()), e, now, options).pending == old(pendingFiles) + if deferred then 1 else 0
    {
      hide Read;
      if e.special || !HasSuffix(e.name, ".log") {
        return false;
      }
      if e.name == "main.log" {
        stats := stats.(mainLog := stats.mainLog + 1);
        return false;
      }
      if e.info == None {
        stats := stats.(failures := stats.failures + 1);
        return false;
      }
      if !e.info.value.regular {
        return false;
      }
      if now - e.info.value.modified < options.minAge {
        stats := stats.(young := stats.young + 1);
        return true;
      }
      if e.again == None {
        stats := stats.(failures := stats.failures + 1);
        return false;
      }
      if e.again.value != e.info.value.size {
        stats := stats.(growing := stats.growing + 1);
        return true;
      }
      if e.Key() in seen {
        stats := stats.(seen := stats.seen + 1);
        return false;
      }
      var done := ScanFile(e.Key(), e.file);
      if done {
        MarkSeen(e.Key());
      } else {
        stats := stats.(failures := stats.failures + 1);
      }
      return false;
    }

    method ScanOnce(listing: Option<seq<Entry>>, now: int)
      modifies this
      ensures View() == Pass(old(View()), listing, now, options)
    {
      hide One;
      if listing == None {
        return;
      }
      var entries, deferred := listing.value, 0;
      ghost var start := View().(pending := 0);
      for i := 0 to |entries|
        invariant deferred == Entered(start, entries[..i], now, options).pending
        invariant View().(pending := 0) == Entered(start, entries[..i], now, options).(pending := 0)
      {
        assert entries[..i + 1][..i] == entries[..i];
        PendingApart(View(), Entered(start, entries[..i], now, options), entries[i], now, options);
        var left := ScanEntry(entries[i], now);
        if left {
          deferred := deferred + 1;
        }
      }
      assert entries[..|entries|] == entries;
      pendingFiles := deferred;
    }
  }

  /** The backlog is counted beside everything else. */
  lemma {:induction false} PendingApart(s: State, t: State, e: Entry, now: int, o: Settings)
    requires s.(pending := 0) == t.(pending := 0)
    ensures One(s, e, now, o).(pending := 0) == One(t, e, now, o).(pending := 0)
    ensures One(s, e, now, o).pending - s.pending == One(t, e, now, o).pending - t.pending
  {
    hide HasChannel, FirstN, KeySet, HasSuffix;
    assert t == s.(pending := t.pending);
  }
}
