/**
 The guard over whole runs of rounds: which request tokens were consumed, what the streaks count and
 when a dry-run report is due, all read off the history of what happened to each account.
 */
module GuardHistory {
  import opened Common
  import opened Text
  import opened Guard
  import opened GuardRounds

  /** One thing that happened to one account. */
  datatype Event = Consumed(c: Consumption) | Judged(key: string, verdict: Verdict)

  datatype Batch = Batch(samples: seq<Sample>, accounts: seq<Account>, now: Time, options: Options)

  // --- reading a history -------------------------------------------------------------------------

  /** The request tokens consumed, in order. */
  function Tokens(h: seq<Event>): seq<Token> {
    if h == [] then [] else
      var e := h[|h| - 1];
      Tokens(h[..|h| - 1]) + (if e.Consumed? then [e.c.token] else [])
  }

  /** A baseline request, a release or a foreign disable forgets the account's streak. */
  predicate Clears(e: Event, key: string) {
    match e
    case Consumed(c) => c.key == key && !c.off
    case Judged(k, v) => k == key && (v == Releases || v == LetsGo || v == Ignores)
  }

  /** Just past the last event that cleared the account. */
  function LastClear(h: seq<Event>, key: string): (n: nat)
    ensures n <= |h|
    ensures n > 0 ==> Clears(h[n - 1], key)
    ensures forall i :: n <= i < |h| ==> !Clears(h[i], key)
  {
    if h == [] then 0
    else if Clears(h[|h| - 1], key) then |h|
    else LastClear(h[..|h| - 1], key)
  }

  /** The off-baseline channels of the account, in the order they were consumed. */
  function OffChannels(h: seq<Event>, key: string): seq<string> {
    if h == [] then [] else
      var e := h[|h| - 1];
      OffChannels(h[..|h| - 1], key)
      + (if e.Consumed? && e.c.key == key && e.c.off then [e.c.channel] else [])
  }

  function SinceClear(h: seq<Event>, key: string): seq<Event> { h[LastClear(h, key)..] }

  /** The memory is what the history says it is. */
  ghost predicate SlotExplained(slot: AccountState, h: seq<Event>, key: string) {
    && slot.streak == |OffChannels(SinceClear(h, key), key)|
    && slot.channels == LastN(OffChannels(SinceClear(h, key), key), 5)
    && (slot.dryRunReported <==> Judged(key, Reports) in SinceClear(h, key))
  }

  ghost predicate Explained(m: Memory, h: seq<Event>) {
    && m.seen == LastN(Tokens(h), 4096)
    && forall key :: SlotExplained(m.Slot(key), h, key)
  }

  /** A token comes back only after at least 4096 other tokens were consumed in between. */
  ghost predicate ExactlyOnce(h: seq<Event>) {
    forall i, j :: 0 <= i < j < |h| && h[i].Consumed? && h[j].Consumed? && h[i].c.token == h[j].c.token ==>
      |Tokens(h[i + 1..j])| >= 4096
  }

  /** Between two dry-run reports of an account its streak was cleared. */
  ghost predicate ReportsOnce(h: seq<Event>) {
    forall i, j, key :: 0 <= i < j < |h| && h[i] == Judged(key, Reports) && h[j] == Judged(key, Reports) ==>
      exists c :: i < c < j && Clears(h[c], key)
  }

  // --- growing a history by one event --------------------------------------------------------------

  lemma {:induction false} TokensConcat(a: seq<Event>, b: seq<Event>)
    ensures Tokens(a + b) == Tokens(a) + Tokens(b)
  {
    if b == [] {
      assert a + b == a;
    } else {
      TokensConcat(a, b[..|b| - 1]);
      assert (a + b)[..|a + b| - 1] == a + b[..|b| - 1];
    }
  }

  lemma {:induction false} GrowSince(h: seq<Event>, e: Event, key: string)
    ensures SinceClear(h + [e], key) == if Clears(e, key) then [] else SinceClear(h, key) + [e]
  {
    assert (h + [e])[..|h|] == h;
  }

  /** An event about another account explains nothing new. */
  lemma {:induction false} GrowOther(slot: AccountState, h: seq<Event>, e: Event, key: string)
    requires SlotExplained(slot, h, key)
    requires match e case Consumed(c) => c.key != key case Judged(k, _) => k != key
    ensures SlotExplained(slot, h + [e], key)
  {
    GrowSince(h, e, key);
  }

  lemma {:induction false} ConsumeExplained(slot: AccountState, h: seq<Event>, c: Consumption)
    requires SlotExplained(slot, h, c.key)
    ensures SlotExplained(Absorb(slot, c), h + [Consumed(c)], c.key)
  {
    GrowSince(h, Consumed(c), c.key);
    if c.off {
      LastNAppend(OffChannels(SinceClear(h, c.key), c.key), c.channel, 5);
    }
  }

  lemma {:induction false} SettleExplained(slot: AccountState, h: seq<Event>, a: Account, v: Verdict, now: Time,
                                           o: Options)
    requires SlotExplained(slot, h, a.Key())
    ensures SlotExplained(Settle(slot, a, v, now, o), h + [Judged(a.Key(), v)], a.Key())
  {
    hide NormalizeKey, BackoffNext;
    var e := Judged(a.Key(), v);
    GrowSince(h, e, a.Key());
    if !Clears(e, a.Key()) {
    }
  }

  /** A token consumed within the last 4096 consumptions is in the ring. */
  lemma {:induction false} RingHit(h: seq<Event>, i: nat)
    requires i < |h| && h[i].Consumed?
    ensures |Tokens(h[i + 1..])| >= 4096 || h[i].c.token in LastN(Tokens(h), 4096)
  {
    var left, right := h[..i], h[i + 1..];
    assert h == left + [h[i]] + right;
    TokensConcat(left + [h[i]], right);
    var all := Tokens(h);
    assert all == Tokens(left) + [h[i].c.token] + Tokens(right);
    if |Tokens(right)| < 4096 {
      var ring := LastN(all, 4096);
      assert ring[|Tokens(left)| - (|all| - |ring|)] == h[i].c.token;
    }
  }

  lemma {:induction false} GrowExactlyOnce(m: Memory, h: seq<Event>, c: Consumption)
    requires Explained(m, h) && ExactlyOnce(h) && c.token !in m.seen
    ensures ExactlyOnce(h + [Consumed(c)])
  {
    var g := h + [Consumed(c)];
    forall i, j | 0 <= i < j < |g| && g[i].Consumed? && g[j].Consumed? && g[i].c.token == g[j].c.token
      ensures |Tokens(g[i + 1..j])| >= 4096
    {
      if j < |h| {
        assert g[i + 1..j] == h[i + 1..j];
      } else {
        RingHit(h, i);
        assert g[i + 1..j] == h[i + 1..];
      }
    }
  }

  lemma {:induction false} JudgingConsumesNothing(h: seq<Event>, key: string, v: Verdict)
    requires ExactlyOnce(h)
    ensures ExactlyOnce(h + [Judged(key, v)])
  {
    hide Tokens;
    var g := h + [Judged(key, v)];
    forall i, j | 0 <= i < j < |g| && g[i].Consumed? && g[j].Consumed? && g[i].c.token == g[j].c.token
      ensures |Tokens(g[i + 1..j])| >= 4096
    {
      assert g[i + 1..j] == h[i + 1..j];
    }
  }

  lemma {:induction false} GrowByJudging(h: seq<Event>, key: string, v: Verdict)
    requires ExactlyOnce(h) && ReportsOnce(h)
    requires v == Reports ==> Judged(key, Reports) !in SinceClear(h, key)
    ensures ExactlyOnce(h + [Judged(key, v)]) && ReportsOnce(h + [Judged(key, v)])
  {
    hide ExactlyOnce;
    JudgingConsumesNothing(h, key, v);
    var g := h + [Judged(key, v)];
    forall i, j, k | 0 <= i < j < |g| && g[i] == Judged(k, Reports) && g[j] == Judged(k, Reports)
      ensures exists c :: i < c < j && Clears(g[c], k)
    {
      if j < |h| {
        var c :| i < c < j && Clears(h[c], k);
        assert Clears(g[c], k);
      } else {
        var n := LastClear(h, k);
        assert i < n;
        assert i != n - 1;
        assert Clears(g[n - 1], k);
      }
    }
  }

  lemma {:induction false} GrowReportsOnce(h: seq<Event>, c: Consumption)
    requires ReportsOnce(h)
    ensures ReportsOnce(h + [Consumed(c)])
  {
    var g := h + [Consumed(c)];
    forall i, j, k | 0 <= i < j < |g| && g[i] == Judged(k, Reports) && g[j] == Judged(k, Reports)
      ensures exists c :: i < c < j && Clears(g[c], k)
    {
      var c :| i < c < j && Clears(h[c], k);
      assert Clears(g[c], k);
    }
  }

  // --- the history of a run --------------------------------------------------------------------------

  function CountEvents(m: Memory, samples: seq<Sample>, index: map<string, Account>, baseline: string): seq<Event> {
    if samples == [] then [] else
      var rest := samples[..|samples| - 1];
      CountEvents(m, rest, index, baseline)
      + match ConsumptionOf(CountAll(m, rest, index, baseline), samples[|samples| - 1], index, baseline)
        case None => []
        case Some(c) => [Consumed(c)]
  }

  function DecideEvents(m: Memory, accounts: seq<Account>, enabled: nat, now: Time, o: Options): seq<Event> {
    if accounts == [] then [] else
      var rest, a := accounts[..|accounts| - 1], accounts[|accounts| - 1];
      var r := DecideUpTo(m, rest, enabled, now, o);
      DecideEvents(m, rest, enabled, now, o)
      + (if a.Key() == "" then [] else
           [Judged(a.Key(), Judge(r.mem.Slot(a.Key()), a, enabled - r.disables, now, o))])
  }

  function BatchCountEvents(m: Memory, b: Batch): seq<Event> {
    var o := b.options.Normalized();
    if o.CanJudge() then CountEvents(m, b.samples, Index(UniqueAccounts(b.accounts)), Trim(o.baseline)) else []
  }

  function BatchEvents(m: Memory, b: Batch): seq<Event> {
    var o := b.options.Normalized();
    var unique := UniqueAccounts(b.accounts);
    BatchCountEvents(m, b)
    + DecideEvents(Counted(m, b.samples, b.accounts, o), unique, EnabledInScope(unique, o), b.now, o)
  }

  function After(m: Memory, b: Batch): Memory { Advanced(m, b.samples, b.accounts, b.now, b.options).mem }

  function MemoryOf(run: seq<Batch>): Memory {
    if run == [] then EMPTY else After(MemoryOf(run[..|run| - 1]), run[|run| - 1])
  }

  function History(run: seq<Batch>): seq<Event> {
    if run == [] then [] else
      History(run[..|run| - 1]) + BatchEvents(MemoryOf(run[..|run| - 1]), run[|run| - 1])
  }

  ghost predicate Sound(m: Memory, h: seq<Event>) {
    Explained(m, h) && ExactlyOnce(h) && ReportsOnce(h)
  }

  lemma {:induction false} ConsumeSound(m: Memory, h: seq<Event>, c: Consumption)
    requires Sound(m, h) && c.token !in m.seen
    ensures Sound(Consume(m, c), h + [Consumed(c)])
  {
    hide SlotExplained, ExactlyOnce, ReportsOnce, LastN, Absorb;
    GrowExactlyOnce(m, h, c);
    GrowReportsOnce(h, c);
    LastNAppend(Tokens(h), c.token, 4096);
    forall key
      ensures SlotExplained(Consume(m, c).Slot(key), h + [Consumed(c)], key)
    {
      assert SlotExplained(m.Slot(key), h, key);
      if key == c.key {
        ConsumeExplained(m.Slot(key), h, c);
      } else {
        GrowOther(m.Slot(key), h, Consumed(c), key);
      }
    }
  }

  lemma {:induction false} CountSound(m: Memory, h: seq<Event>, samples: seq<Sample>, index: map<string, Account>,
                                      baseline: string)
    requires Sound(m, h)
    ensures Sound(CountAll(m, samples, index, baseline), h + CountEvents(m, samples, index, baseline))
  {
    hide Sound, Consume;
    if samples == [] {
      assert h + [] == h;
    } else {
      var rest := samples[..|samples| - 1];
      var before, events := CountAll(m, rest, index, baseline), CountEvents(m, rest, index, baseline);
      CountSound(m, h, rest, index, baseline);
      match ConsumptionOf(before, samples[|samples| - 1], index, baseline) {
        case None => assert CountEvents(m, samples, index, baseline) == events;
        case Some(c) =>
          ConsumeSound(before, h + events, c);
          assert h + events + [Consumed(c)] == h + CountEvents(m, samples, index, baseline);
      }
    }
  }

  lemma {:induction false} ReportsUnreported(slot: AccountState, a: Account, left: int, now: Time, o: Options)
    ensures Judge(slot, a, left, now, o) == Reports ==> !slot.dryRunReported
  {
  }

  lemma {:induction false} JudgeExplained(m: Memory, h: seq<Event>, a: Account, v: Verdict, now: Time, o: Options,
                                          key: string)
    requires SlotExplained(m.Slot(key), h, key)
    ensures SlotExplained(SettleIn(m, a, v, now, o).Slot(key), h + [Judged(a.Key(), v)], key)
  {
    hide SlotExplained, Settle, NormalizeKey;
    if key == a.Key() {
      SettleExplained(m.Slot(key), h, a, v, now, o);
    } else {
      GrowOther(m.Slot(key), h, Judged(a.Key(), v), key);
    }
  }

  lemma {:induction false} JudgeAllExplained(m: Memory, h: seq<Event>, a: Account, v: Verdict, now: Time, o: Options)
    requires Explained(m, h)
    ensures Explained(SettleIn(m, a, v, now, o), h + [Judged(a.Key(), v)])
  {
    hide SlotExplained, Settle, NormalizeKey;
    forall key
      ensures SlotExplained(SettleIn(m, a, v, now, o).Slot(key), h + [Judged(a.Key(), v)], key)
    {
      assert SlotExplained(m.Slot(key), h, key);
      JudgeExplained(m, h, a, v, now, o, key);
    }
  }

  lemma {:induction false} JudgeSound(m: Memory, h: seq<Event>, a: Account, left: int, now: Time, o: Options)
    requires Sound(m, h)
    ensures var v := Judge(m.Slot(a.Key()), a, left, now, o);
      Sound(SettleIn(m, a, v, now, o), h + [Judged(a.Key(), v)])
  {
    hide NormalizeKey, SettleIn, Judge, ExactlyOnce, ReportsOnce;
    var v := Judge(m.Slot(a.Key()), a, left, now, o);
    ReportsUnreported(m.Slot(a.Key()), a, left, now, o);
    assert SlotExplained(m.Slot(a.Key()), h, a.Key());
    GrowByJudging(h, a.Key(), v);
    JudgeAllExplained(m, h, a, v, now, o);
  }

  lemma {:induction false} DecideSound(m: Memory, h: seq<Event>, accounts: seq<Account>, enabled: nat, now: Time,
                                       o: Options)
    requires Sound(m, h)
    ensures Sound(DecideUpTo(m, accounts, enabled, now, o).mem, h + DecideEvents(m, accounts, enabled, now, o))
  {
    hide Sound, Judge, SettleIn, NormalizeKey;
    if accounts == [] {
      assert h + [] == h;
    } else {
      var rest, a := accounts[..|accounts| - 1], accounts[|accounts| - 1];
      var r, events := DecideUpTo(m, rest, enabled, now, o), DecideEvents(m, rest, enabled, now, o);
      DecideSound(m, h, rest, enabled, now, o);
      if a.Key() == "" {
        assert DecideEvents(m, accounts, enabled, now, o) == events;
      } else {
        JudgeSound(r.mem, h + events, a, enabled - r.disables, now, o);
        var v := Judge(r.mem.Slot(a.Key()), a, enabled - r.disables, now, o);
        assert h + events + [Judged(a.Key(), v)] == h + DecideEvents(m, accounts, enabled, now, o);
      }
    }
  }

  lemma {:induction false} BatchSound(m: Memory, h: seq<Event>, b: Batch)
    requires Sound(m, h)
    ensures Sound(Counted(m, b.samples, b.accounts, b.options.Normalized()), h + BatchCountEvents(m, b))
    ensures Sound(After(m, b), h + BatchEvents(m, b))
  {
    hide Sound, CountAll, DecideUpTo, NormalizeKey;
    var o := b.options.Normalized();
    var unique := UniqueAccounts(b.accounts);
    var counted := Counted(m, b.samples, b.accounts, o);
    if o.CanJudge() {
      CountSound(m, h, b.samples, Index(unique), Trim(o.baseline));
    } else {
      assert h + [] == h;
    }
    DecideSound(counted, h + BatchCountEvents(m, b), unique, EnabledInScope(unique, o), b.now, o);
    assert h + BatchEvents(m, b) == h + BatchCountEvents(m, b)
      + DecideEvents(counted, unique, EnabledInScope(unique, o), b.now, o);
  }

  /**
   In every run from an empty state: the dedup ring is the last 4096 consumed tokens, no token is consumed
   twice with fewer than 4096 others in between, every streak is the number of off-baseline requests
   consumed since the account was last cleared and its channels are the last five of them, and a dry-run
   report is never repeated before the streak was cleared.
   */
  lemma {:induction false} EveryRunSound(run: seq<Batch>)
    ensures Sound(MemoryOf(run), History(run))
  {
    hide After, BatchEvents;
    if run != [] {
      EveryRunSound(run[..|run| - 1]);
      BatchSound(MemoryOf(run[..|run| - 1]), History(run[..|run| - 1]), run[|run| - 1]);
    }
  }

  /** Counting consumes: afterwards the token of every sample that carries a channel was consumed. */
  lemma {:induction false} CountConsumes(m: Memory, h: seq<Event>, samples: seq<Sample>, i: nat,
                                         index: map<string, Account>, baseline: string)
    requires Sound(m, h) && i < |samples|
    requires NormalizeKey(samples[i].providerKey) != "" && NormalizeKey(samples[i].providerKey) in index
    requires Trim(samples[i].channel) != ""
    ensures TokenOf(samples[i], NormalizeKey(samples[i].providerKey)) in Tokens(h + CountEvents(m, samples, index, baseline))
  {
    hide Sound, Consume;
    var n := |samples| - 1;
    var rest := samples[..n];
    var before, events := CountAll(m, rest, index, baseline), CountEvents(m, rest, index, baseline);
    var key := NormalizeKey(samples[i].providerKey);
    match ConsumptionOf(before, samples[n], index, baseline) {
      case None =>
        assert CountEvents(m, samples, index, baseline) == events;
        if i == n {
          CountSound(m, h, rest, index, baseline);
          RingSubset(before, h + events, TokenOf(samples[i], key));
        }
      case Some(c) =>
        assert h + CountEvents(m, samples, index, baseline) == h + events + [Consumed(c)];
    }
    if i < n {
      CountConsumes(m, h, rest, i, index, baseline);
    }
  }

  lemma {:induction false} RingSubset(m: Memory, h: seq<Event>, token: Token)
    requires Sound(m, h) && token in m.seen
    ensures token in Tokens(h)
  {
  }

  lemma {:induction false} DryRunVerdict(slot: AccountState, a: Account, left: int, now: Time, o: Options)
    requires o.dryRun && !a.disabled && !slot.disabledByGuard
    ensures var said := Said(slot, a, Judge(slot, a, left, now, o), now, o);
      && (said == None || said.value.action == DisableDry)
      && (said != None <==> o.CanJudge() && o.InScope(a.name) && slot.streak >= o.threshold && !slot.dryRunReported)
  {
    hide Trim, NormalizeKey;
  }

  /** What a round of a run says about one of its accounts, judged on the counted memory. */
  lemma {:induction false} RoundSays(m: Memory, b: Batch, a: Account) returns (left: int)
    requires a in UniqueAccounts(b.accounts)
    ensures var o := b.options.Normalized();
      var slot := Counted(m, b.samples, b.accounts, o).Slot(a.Key());
      && LastDecision(Advanced(m, b.samples, b.accounts, b.now, b.options).decisions, a.Key())
         == Said(slot, a, Judge(slot, a, left, b.now, o), b.now, o)
      && slot.disabledByGuard == m.Owns(a.Key())
  {
    hide Settle, Judge, Said, NormalizeKey;
    var o := b.options.Normalized();
    var unique := UniqueAccounts(b.accounts);
    UniqueAccountsDistinct(b.accounts);
    if o.CanJudge() {
      CountingKeepsOwnership(m, b.samples, Index(unique), Trim(o.baseline));
    }
    left := SettledFor(Counted(m, b.samples, b.accounts, o), unique, a, EnabledInScope(unique, o), b.now, o);
  }

  /**
   A dry-run report is made exactly when it is due. In any round of any run with dry run on, an enabled
   account the guard does not own is reported if and only if the round judges it and the off-baseline
   requests since its last clear have reached the threshold (however far past it one batch carried them)
   with no report since that clear.
   */
  lemma {:induction false} DryRunReportsWhenDue(run: seq<Batch>, b: Batch, a: Account)
    requires b.options.dryRun && a in UniqueAccounts(b.accounts) && !a.disabled && !MemoryOf(run).Owns(a.Key())
    ensures var o := b.options.Normalized();
      var h := History(run) + BatchCountEvents(MemoryOf(run), b);
      var said := LastDecision(Advanced(MemoryOf(run), b.samples, b.accounts, b.now, b.options).decisions, a.Key());
      && (said == None || said.value.action == DisableDry)
      && (said != None <==>
            && o.CanJudge() && o.InScope(a.name)
            && |OffChannels(SinceClear(h, a.Key()), a.Key())| >= o.threshold
            && Judged(a.Key(), Reports) !in SinceClear(h, a.Key()))
  {
    hide Advanced, Counted, Judge, Said, NormalizeKey, OffChannels, SinceClear, ExactlyOnce, ReportsOnce, BatchCountEvents;
    var m, o := MemoryOf(run), b.options.Normalized();
    var slot := Counted(m, b.samples, b.accounts, o).Slot(a.Key());
    EveryRunSound(run);
    BatchSound(m, History(run), b);
    var left := RoundSays(m, b, a);
    DryRunVerdict(slot, a, left, b.now, o);
    assert SlotExplained(slot, History(run) + BatchCountEvents(m, b), a.Key());
  }

  lemma {:induction false} DisableVerdict(slot: AccountState, a: Account, left: int, now: Time, o: Options)
    requires !o.dryRun && !a.disabled && !slot.disabledByGuard
    ensures var said := Said(slot, a, Judge(slot, a, left, now, o), now, o);
      && (said == None || (said.value.action == Disable && said.value.streak == slot.streak && said.value.channels == slot.channels))
      && (said != None <==> o.CanJudge() && o.InScope(a.name) && slot.streak >= o.threshold && left > o.minEnabled)
  {
    hide Trim, NormalizeKey;
  }

  /** How many in-scope accounts are still enabled when the round comes to its i-th account. */
  function LeftAt(m: Memory, b: Batch, i: nat): int
    requires i < |UniqueAccounts(b.accounts)|
  {
    var o, unique := b.options.Normalized(), UniqueAccounts(b.accounts);
    var enabled := EnabledInScope(unique, o);
    enabled - DecideUpTo(Counted(m, b.samples, b.accounts, o), unique[..i], enabled, b.now, o).disables
  }

  lemma {:induction false} RoundSaysAt(m: Memory, b: Batch, i: nat)
    requires i < |UniqueAccounts(b.accounts)|
    ensures var o, a := b.options.Normalized(), UniqueAccounts(b.accounts)[i];
      var slot := Counted(m, b.samples, b.accounts, o).Slot(a.Key());
      && LastDecision(Advanced(m, b.samples, b.accounts, b.now, b.options).decisions, a.Key())
         == Said(slot, a, Judge(slot, a, LeftAt(m, b, i), b.now, o), b.now, o)
      && slot.disabledByGuard == m.Owns(a.Key())
  {
    hide Judge, Said, Settle, NormalizeKey, DecideUpTo, CountAll, UniqueAccounts, EnabledInScope, Trim;
    var o, unique := b.options.Normalized(), UniqueAccounts(b.accounts);
    UniqueAccountsDistinct(b.accounts);
    if o.CanJudge() {
      CountingKeepsOwnership(m, b.samples, Index(unique), Trim(o.baseline));
    }
    RoundSettles(Counted(m, b.samples, b.accounts, o), unique, i, EnabledInScope(unique, o), b.now, o);
  }

  /**
   Outside dry run an enabled account the guard does not own is disabled if and only if the round judges it,
   the off-baseline requests since its last clear have reached the threshold, and the accounts still enabled
   before its turn are more than the floor. The decision carries the evidence: how many those requests are
   and the last five of their channels.
   */
  lemma {:induction false} DisablesWhenDue(run: seq<Batch>, b: Batch, i: nat)
    requires !b.options.dryRun && i < |UniqueAccounts(b.accounts)|
    requires var a := UniqueAccounts(b.accounts)[i]; !a.disabled && !MemoryOf(run).Owns(a.Key())
    ensures var o := b.options.Normalized();
      var a := UniqueAccounts(b.accounts)[i];
      var off := OffChannels(SinceClear(History(run) + BatchCountEvents(MemoryOf(run), b), a.Key()), a.Key());
      var said := LastDecision(Advanced(MemoryOf(run), b.samples, b.accounts, b.now, b.options).decisions, a.Key());
      && (said != None <==> o.CanJudge() && o.InScope(a.name) && |off| >= o.threshold && LeftAt(MemoryOf(run), b, i) > o.minEnabled)
      && (said != None ==>
            said.value.action == Disable && said.value.streak == |off| && said.value.channels == LastN(off, 5))
  {
    hide Advanced, Counted, Judge, Said, NormalizeKey, OffChannels, SinceClear, ExactlyOnce, ReportsOnce, BatchCountEvents,
      DecideUpTo, UniqueAccounts, EnabledInScope, LastN, History, MemoryOf;
    var m, o := MemoryOf(run), b.options.Normalized();
    var a := UniqueAccounts(b.accounts)[i];
    var slot := Counted(m, b.samples, b.accounts, o).Slot(a.Key());
    EveryRunSound(run);
    BatchSound(m, History(run), b);
    RoundSaysAt(m, b, i);
    DisableVerdict(slot, a, LeftAt(m, b, i), b.now, o);
    assert SlotExplained(slot, History(run) + BatchCountEvents(m, b), a.Key());
  }
}
