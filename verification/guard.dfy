/**
 The account guard's decision logic: one round folds joined samples into per-account streaks and
 decides which accounts to disable, enable, report or let go.

 `Memory` is the value of the guard's state; the functions over it say what a round means, and the
 class `State` is the object that is updated in place.
 */
module Guard {
  import opened Common
  import opened Text

  const SEEN_LIMIT: nat := 4096
  const CHANNEL_MEMORY: nat := 5
  const MINUTE: int := 60_000_000_000

  type Time = int

  datatype Options = Options(
    enabled: bool,
    dryRun: bool,
    threshold: int,
    minEnabled: int,
    scopeNames: seq<string>,
    reenableMinutes: int,
    maxDisableMinutes: int,
    baseline: string)
  {
    predicate CanJudge() { enabled && Trim(baseline) != "" }

    /** The documented defaults; a zero reenableMinutes is meaningful and kept. */
    function Normalized(): (o: Options)
      ensures o.threshold > 0
      ensures o.minEnabled > 0
      ensures o.reenableMinutes >= 0
      ensures o.maxDisableMinutes > 0
      ensures o.reenableMinutes == 0 <==> reenableMinutes == 0
    {
      this.(threshold := if threshold <= 0 then 3 else threshold,
            minEnabled := if minEnabled <= 0 then 1 else minEnabled,
            reenableMinutes := if reenableMinutes < 0 then 5 else reenableMinutes,
            maxDisableMinutes := if maxDisableMinutes <= 0 then 360 else maxDisableMinutes)
    }

    function Scope(): set<string> {
      set n | n in scopeNames && NormalizeKey(n) != "" :: NormalizeKey(n)
    }

    predicate InScope(name: string) { Scope() == {} || NormalizeKey(name) in Scope() }
  }

  datatype Account = Account(name: string, providerKey: string, disabled: bool) {
    function Key(): string { NormalizeKey(providerKey) }
  }

  datatype Sample = Sample(time: Time, requestID: string, providerKey: string, channel: string)

  /** The deduplication identity of one sample. */
  datatype Token = ById(key: string, id: string) | ByTime(key: string, time: Time)

  datatype Action = Disable | Enable | DisableDry | EnableExternal

  datatype Decision = Decision(
    time: Time, name: string, providerKey: string, action: Action,
    streak: nat, baseline: string, channels: seq<string>)
  {
    function Key(): string { NormalizeKey(providerKey) }
  }

  datatype AccountState = AccountState(
    name: string,
    streak: nat,
    channels: seq<string>,
    disabledByGuard: bool,
    disableCount: nat,
    nextRetryAt: Option<Time>,
    lastChannel: string,
    lastSampleAt: Option<Time>,
    dryRunReported: bool)

  const FRESH := AccountState("", 0, [], false, 0, None, "", None, false)

  datatype Memory = Memory(accounts: map<string, AccountState>, seen: seq<Token>) {
    function Slot(key: string): AccountState {
      if key in accounts then accounts[key] else FRESH
    }

    predicate Owns(key: string) { Slot(key).disabledByGuard }
  }

  const EMPTY := Memory(map[], [])

  // --- the accounts of a round ------------------------------------------------------------

  function Keys(accounts: seq<Account>): set<string> {
    set a | a in accounts :: a.Key()
  }

  /** The first entry of every non-empty provider key, in order. */
  function UniqueAccounts(accounts: seq<Account>): seq<Account> {
    if accounts == [] then [] else
      var rest := UniqueAccounts(accounts[..|accounts| - 1]);
      var a := accounts[|accounts| - 1];
      if a.Key() == "" || a.Key() in Keys(rest) then rest else rest + [a]
  }

  ghost predicate DistinctKeys(accounts: seq<Account>) {
    && (forall i :: 0 <= i < |accounts| ==> accounts[i].Key() != "")
    && forall i, j :: 0 <= i < j < |accounts| ==> accounts[i].Key() != accounts[j].Key()
  }

  lemma {:induction false} UniqueAccountsDistinct(accounts: seq<Account>)
    ensures DistinctKeys(UniqueAccounts(accounts))
    ensures forall a :: a in UniqueAccounts(accounts) ==> a in accounts
    ensures forall a :: a in accounts && a.Key() != "" ==> a.Key() in Keys(UniqueAccounts(accounts))
  {
    hide NormalizeKey;
    if accounts != [] {
      var rest := accounts[..|accounts| - 1];
      UniqueAccountsDistinct(rest);
      assert accounts == rest + [accounts[|accounts| - 1]];
    }
  }

  /** Account by key; the accounts have distinct keys when this is used. */
  function Index(accounts: seq<Account>): map<string, Account> {
    if accounts == [] then map[] else
      var a := accounts[|accounts| - 1];
      Index(accounts[..|accounts| - 1])[a.Key() := a]
  }

  // --- counting ------------------------------------------------------------------------------

  function TokenOf(sample: Sample, key: string): Token {
    if Trim(sample.requestID) != "" then ById(key, Trim(sample.requestID)) else ByTime(key, sample.time)
  }

  /** A sample that counts: its account is listed, it carries a channel and it was not consumed yet. */
  datatype Consumption = Consumption(
    key: string, token: Token, name: string, channel: string, at: Time, off: bool)

  function ConsumptionOf(m: Memory, sample: Sample, index: map<string, Account>,
                         baseline: string): Option<Consumption> {
    var key := NormalizeKey(sample.providerKey);
    var channel := Trim(sample.channel);
    if key == "" || key !in index || channel == "" || TokenOf(sample, key) in m.seen then None
    else Some(Consumption(key, TokenOf(sample, key), index[key].name, channel, sample.time, !EqualFold(channel, baseline)))
  }

  function Remember(seen: seq<Token>, token: Token): seq<Token> {
    LastN(seen + [token], SEEN_LIMIT)
  }

  function Absorb(slot: AccountState, c: Consumption): AccountState {
    var named := slot.(
      name := if slot.name == "" then c.name else slot.name,
      lastChannel := c.channel,
      lastSampleAt := Some(c.at));
    if c.off then named.(streak := slot.streak + 1, channels := LastN(slot.channels + [c.channel], CHANNEL_MEMORY))
    else named.(streak := 0, channels := [], dryRunReported := false)
  }

  function Consume(m: Memory, c: Consumption): Memory {
    Memory(m.accounts[c.key := Absorb(m.Slot(c.key), c)], Remember(m.seen, c.token))
  }

  function CountOne(m: Memory, sample: Sample, index: map<string, Account>, baseline: string): Memory {
    match ConsumptionOf(m, sample, index, baseline)
    case None => m
    case Some(c) => Consume(m, c)
  }

  function CountAll(m: Memory, samples: seq<Sample>, index: map<string, Account>, baseline: string): Memory {
    if samples == [] then m else
      CountOne(CountAll(m, samples[..|samples| - 1], index, baseline), samples[|samples| - 1], index, baseline)
  }

  // --- deciding ------------------------------------------------------------------------------

  function BackoffMinutes(n: nat, o: Options): int
    requires n >= 1
  {
    Min(o.reenableMinutes * Pow2(n - 1), o.maxDisableMinutes)
  }

  function BackoffNext(now: Time, n: nat, o: Options): Option<Time>
    requires n >= 1
  {
    if o.reenableMinutes == 0 then None else Some(now + BackoffMinutes(n, o) * MINUTE)
  }

  /** What one account's round comes to. */
  datatype Verdict = Waits | Releases | LetsGo | Ignores | Calm | AlreadyReported | Reports | Floored | Bars

  function Judge(slot: AccountState, a: Account, enabledLeft: int, now: Time, o: Options): Verdict {
    if a.disabled then
      if slot.disabledByGuard then
        if slot.nextRetryAt == None || now < slot.nextRetryAt.value then Waits else Releases
      else Ignores
    else if slot.disabledByGuard then LetsGo
    else if !o.CanJudge() || !o.InScope(a.name) || slot.streak < o.threshold then Calm
    else if o.dryRun then (if slot.dryRunReported then AlreadyReported else Reports)
    else if enabledLeft <= o.minEnabled then Floored
    else Bars
  }

  function Settle(slot: AccountState, a: Account, v: Verdict, now: Time, o: Options): AccountState {
    var named := slot.(name := a.name);
    match v
    case Releases => named.(disabledByGuard := false, streak := 0, channels := [], dryRunReported := false, nextRetryAt := None)
    case LetsGo => named.(disabledByGuard := false, streak := 0, channels := [], dryRunReported := false, disableCount := 0, nextRetryAt := None)
    case Ignores => named.(streak := 0, channels := [], dryRunReported := false)
    case Reports => named.(dryRunReported := true)
    case Bars => named.(disabledByGuard := true, disableCount := slot.disableCount + 1,
                        nextRetryAt := BackoffNext(now, slot.disableCount + 1, o))
    case _ => named
  }

  /** The memory with the verdict carried out on the account's slot. */
  function SettleIn(m: Memory, a: Account, v: Verdict, now: Time, o: Options): Memory {
    m.(accounts := m.accounts[a.Key() := Settle(m.Slot(a.Key()), a, v, now, o)])
  }

  function ActionOf(v: Verdict): Option<Action> {
    match v
    case Releases => Some(Enable)
    case LetsGo => Some(EnableExternal)
    case Reports => Some(DisableDry)
    case Bars => Some(Disable)
    case _ => None
  }

  function Said(slot: AccountState, a: Account, v: Verdict, now: Time, o: Options): Option<Decision> {
    match ActionOf(v)
    case None => None
    case Some(action) =>
      Some(Decision(now, a.name, a.providerKey, action, slot.streak, Trim(o.baseline), slot.channels))
  }

  function Announce(slot: AccountState, a: Account, v: Verdict, now: Time, o: Options): seq<Decision> {
    var said := Said(slot, a, v, now, o);
    if said == None then [] else [said.value]
  }

  function EnabledInScope(accounts: seq<Account>, o: Options): nat {
    if accounts == [] then 0 else
      EnabledInScope(accounts[..|accounts| - 1], o)
      + (if o.InScope(accounts[|accounts| - 1].name) && !accounts[|accounts| - 1].disabled then 1 else 0)
  }

  /** The state of a deciding round after some of its accounts. */
  datatype Round = Round(mem: Memory, disables: nat, decisions: seq<Decision>)

  function DecideOne(r: Round, a: Account, enabled: nat, now: Time, o: Options): Round {
    if a.Key() == "" then r else
      var slot := r.mem.Slot(a.Key());
      var v := Judge(slot, a, enabled - r.disables, now, o);
      Round(SettleIn(r.mem, a, v, now, o),
            if v == Bars then r.disables + 1 else r.disables,
            r.decisions + Announce(slot, a, v, now, o))
  }

  function DecideUpTo(m: Memory, accounts: seq<Account>, enabled: nat, now: Time, o: Options): Round {
    if accounts == [] then Round(m, 0, []) else
      DecideOne(DecideUpTo(m, accounts[..|accounts| - 1], enabled, now, o), accounts[|accounts| - 1], enabled, now, o)
  }

  function DecideAll(m: Memory, accounts: seq<Account>, now: Time, o: Options): Round {
    DecideUpTo(m, accounts, EnabledInScope(accounts, o), now, o)
  }

  /** One whole round: count when judging is allowed, then decide. */
  function Counted(m: Memory, samples: seq<Sample>, accounts: seq<Account>, o: Options): Memory {
    if o.CanJudge() then CountAll(m, samples, Index(UniqueAccounts(accounts)), Trim(o.baseline)) else m
  }

  function Advanced(m: Memory, samples: seq<Sample>, accounts: seq<Account>, now: Time, options: Options): Round {
    var o := options.Normalized();
    DecideAll(Counted(m, samples, accounts, o), UniqueAccounts(accounts), now, o)
  }

  // --- recovering ownership from the audit trail ----------------------------------------------

  /** The last audited decision about a key. */
  function LastDecision(audit: seq<Decision>, key: string): Option<Decision> {
    if audit == [] then None
    else if audit[|audit| - 1].Key() == key then Some(audit[|audit| - 1])
    else LastDecision(audit[..|audit| - 1], key)
  }

  predicate LastIsDisable(audit: seq<Decision>, key: string) {
    LastDecision(audit, key) != None && LastDecision(audit, key).value.action == Disable
  }

  predicate Claims(m: Memory, a: Account, audit: seq<Decision>) {
    a.Key() != "" && a.disabled && !m.Owns(a.Key()) && LastIsDisable(audit, a.Key())
  }

  function AdoptedNames(m: Memory, accounts: seq<Account>, audit: seq<Decision>, now: Time, o: Options): seq<string> {
    if accounts == [] then [] else
      var rest := accounts[..|accounts| - 1];
      var a := accounts[|accounts| - 1];
      AdoptedNames(m, rest, audit, now, o)
      + (if Claims(AdoptAll(m, rest, audit, now, o), a, audit) then [a.name] else [])
  }

  function AdoptOne(m: Memory, a: Account, audit: seq<Decision>, now: Time, o: Options): Memory {
    var key := a.Key();
    if key == "" || !a.disabled then m else
      var slot := m.Slot(key);
      if slot.disabledByGuard || !LastIsDisable(audit, key) then m.(accounts := m.accounts[key := slot])
      else
        var count := Max(slot.disableCount, 1);
        m.(accounts := m.accounts[key := slot.(name := a.name, disabledByGuard := true, disableCount := count,
                                               nextRetryAt := BackoffNext(now, count, o))])
  }

  function AdoptAll(m: Memory, accounts: seq<Account>, audit: seq<Decision>, now: Time, o: Options): Memory {
    if accounts == [] then m else
      AdoptOne(AdoptAll(m, accounts[..|accounts| - 1], audit, now, o), accounts[|accounts| - 1], audit, now, o)
  }

  function Adopted(m: Memory, accounts: seq<Account>, audit: seq<Decision>, now: Time, options: Options): Memory {
    AdoptAll(m, UniqueAccounts(accounts), audit, now, options.Normalized())
  }

  // --- the object -----------------------------------------------------------------------------

  method UniqueAccountList(accounts: seq<Account>) returns (unique: seq<Account>)
    ensures unique == UniqueAccounts(accounts)
    ensures DistinctKeys(unique)
    ensures forall a :: a in accounts && a.Key() != "" ==> a.Key() in Keys(unique)
  {
    var seen: set<string> := {};
    unique := [];
    for i := 0 to |accounts|
      invariant unique == UniqueAccounts(accounts[..i])
      invariant seen == Keys(unique)
    {
      assert accounts[..i + 1][..i] == accounts[..i];
      var key := accounts[i].Key();
      if key == "" || key in seen {
        continue;
      }
      seen := seen + {key};
      unique := unique + [accounts[i]];
    }
    assert accounts[..|accounts|] == accounts;
    UniqueAccountsDistinct(accounts);
  }

  class State {
    var accounts: map<string, AccountState>
    var ring: seq<Token>
    /** `ring` as a set, for lookups. */
    var lookup: set<Token>

    ghost predicate Valid()
      reads this
    {
      Distinct(ring) && |ring| <= SEEN_LIMIT && lookup == set t | t in ring
    }

    ghost function Snapshot(): Memory
      reads this
    {
      Memory(accounts, ring)
    }

    constructor ()
      ensures Valid() && Snapshot() == EMPTY
    {
      accounts, ring, lookup := map[], [], {};
    }

    /** Rebuilds the object from a saved memory; `lookup` is never saved. */
    constructor Load(m: Memory)
      requires Distinct(m.seen) && |m.seen| <= SEEN_LIMIT
      ensures Valid() && Snapshot() == m
    {
      accounts, ring, lookup := m.accounts, m.seen, set t | t in m.seen;
    }

    function Slot(key: string): (slot: AccountState)
      reads this
      ensures slot == Snapshot().Slot(key)
    {
      if key in accounts then accounts[key] else FRESH
    }

    method MarkSeen(token: Token) returns (already: bool)
      requires Valid()
      modifies this`ring, this`lookup
      ensures Valid()
      ensures already <==> token in old(ring)
      ensures ring == if already then old(ring) else Remember(old(ring), token)
    {
      if token in lookup {
        return true;
      }
      lookup := lookup + {token};
      ring := ring + [token];
      if |ring| > SEEN_LIMIT {
        var drop := |ring| - SEEN_LIMIT;
        assert drop == 1;
        for i := 0 to drop
          invariant ring == old(ring) + [token]
          invariant lookup == (set t | t in ring) - (set t | t in ring[..i])
        {
          lookup := lookup - {ring[i]};
          assert ring[..i + 1] == ring[..i] + [ring[i]];
        }
        ghost var full := ring;
        assert Distinct(full);
        ring := ring[drop..];
        assert full == full[..drop] + ring;
        assert forall t :: t in full[..drop] ==> t !in ring;
      }
      return false;
    }

    /** Folds one consumed request into its account's streak. */
    method Extend(key: string, token: Token, name: string, channel: string, at: Time, baseline: string)
      requires Valid()
      modifies this`accounts
      ensures Valid()
      ensures accounts == old(accounts)[key := Absorb(old(Slot(key)),
        Consumption(key, token, name, channel, at, !EqualFold(channel, baseline)))]
    {
      var slot := Slot(key);
      if slot.name == "" {
        slot := slot.(name := name);
      }
      slot := slot.(lastChannel := channel, lastSampleAt := Some(at));
      if EqualFold(channel, baseline) {
        slot := slot.(streak := 0, channels := [], dryRunReported := false);
      } else {
        slot := slot.(streak := slot.streak + 1, channels := LastN(slot.channels + [channel], CHANNEL_MEMORY));
      }
      accounts := accounts[key := slot];
    }

    method CountSample(sample: Sample, index: map<string, Account>, baseline: string)
      requires Valid()
      modifies this
      ensures Valid()
      ensures Snapshot() == CountOne(old(Snapshot()), sample, index, baseline)
    {
      var key := NormalizeKey(sample.providerKey);
      if key == "" || key !in index {
        return;
      }
      var channel := Trim(sample.channel);
      if channel == "" {
        return;
      }
      var token := TokenOf(sample, key);
      var already := MarkSeen(token);
      if already {
        return;
      }
      Extend(key, token, index[key].name, channel, sample.time, baseline);
    }

    method Count(samples: seq<Sample>, index: map<string, Account>, o: Options)
      requires Valid()
      modifies this
      ensures Valid()
      ensures Snapshot() == CountAll(old(Snapshot()), samples, index, Trim(o.baseline))
    {
      for i := 0 to |samples|
        invariant Valid()
        invariant Snapshot() == CountAll(old(Snapshot()), samples[..i], index, Trim(o.baseline))
      {
        assert samples[..i + 1][..i] == samples[..i];
        CountSample(samples[i], index, Trim(o.baseline));
      }
      assert samples[..|samples|] == samples;
    }

    method CountEnabled(list: seq<Account>, o: Options) returns (enabled: nat)
      ensures enabled == EnabledInScope(list, o)
    {
      enabled := 0;
      for i := 0 to |list|
        invariant enabled == EnabledInScope(list[..i], o)
      {
        assert list[..i + 1][..i] == list[..i];
        if o.InScope(list[i].name) && !list[i].disabled {
          enabled := enabled + 1;
        }
      }
      assert list[..|list|] == list;
    }

    /** One turn of the deciding loop; `disables` is how many accounts this round barred so far. */
    method DecideAccount(a: Account, enabled: nat, disables: nat, now: Time, o: Options)
      returns (barred: nat, decisions: seq<Decision>)
      requires Valid()
      modifies this`accounts
      ensures Valid()
      ensures forall earlier :: (Round(Snapshot(), barred, earlier + decisions)
        == DecideOne(Round(old(Snapshot()), disables, earlier), a, enabled, now, o))
    {
      hide BackoffNext, NormalizeKey, Trim;
      barred, decisions := disables, [];
      var key := a.Key();
      if key == "" {
        assert forall earlier: seq<Decision> :: earlier + [] == earlier;
        return;
      }
      var slot := Slot(key).(name := a.name);
      var d := Decision(now, a.name, a.providerKey, Enable, slot.streak, Trim(o.baseline), slot.channels);
      if a.disabled && slot.disabledByGuard {
        if slot.nextRetryAt != None && now >= slot.nextRetryAt.value {
          decisions := [d];
          slot := slot.(disabledByGuard := false, streak := 0, channels := [], dryRunReported := false, nextRetryAt := None);
        }
      } else if !a.disabled && slot.disabledByGuard {
        decisions := [d.(action := EnableExternal)];
        slot := slot.(disabledByGuard := false, streak := 0, channels := [], dryRunReported := false,
                      disableCount := 0, nextRetryAt := None);
      } else if a.disabled {
        slot := slot.(streak := 0, channels := [], dryRunReported := false);
      } else if o.CanJudge() && o.InScope(a.name) && slot.streak >= o.threshold {
        if o.dryRun {
          if !slot.dryRunReported {
            slot := slot.(dryRunReported := true);
            decisions := [d.(action := DisableDry)];
          }
        } else if enabled - disables > o.minEnabled {
          barred := disables + 1;
          slot := slot.(disabledByGuard := true, disableCount := slot.disableCount + 1);
          slot := slot.(nextRetryAt := BackoffNext(now, slot.disableCount, o));
          decisions := [d.(action := Disable)];
        }
      }
      accounts := accounts[key := slot];
    }

    method Decide(list: seq<Account>, now: Time, o: Options) returns (decisions: seq<Decision>)
      requires Valid()
      modifies this`accounts
      ensures Valid()
      ensures Snapshot() == DecideAll(old(Snapshot()), list, now, o).mem
      ensures decisions == DecideAll(old(Snapshot()), list, now, o).decisions
    {
      var enabled := CountEnabled(list, o);
      decisions := [];
      var disables := 0;
      for i := 0 to |list|
        invariant Valid()
        invariant Round(Snapshot(), disables, decisions) == DecideUpTo(old(Snapshot()), list[..i], enabled, now, o)
      {
        assert list[..i + 1][..i] == list[..i];
        var more;
        disables, more := DecideAccount(list[i], enabled, disables, now, o);
        decisions := decisions + more;
      }
      assert list[..|list|] == list;
    }

    method Advance(samples: seq<Sample>, list: seq<Account>, now: Time,
                   options: Options) returns (decisions: seq<Decision>)
      requires Valid()
      modifies this
      ensures Valid()
      ensures Snapshot() == Advanced(old(Snapshot()), samples, list, now, options).mem
      ensures decisions == Advanced(old(Snapshot()), samples, list, now, options).decisions
    {
      hide UniqueAccounts, CountAll, DecideUpTo, EnabledInScope;
      var o := options.Normalized();
      var unique := UniqueAccountList(list);
      var index: map<string, Account> := map[];
      for i := 0 to |unique|
        invariant index == Index(unique[..i])
      {
        assert unique[..i + 1][..i] == unique[..i];
        index := index[unique[i].Key() := unique[i]];
      }
      assert unique[..|unique|] == unique;
      if o.CanJudge() {
        Count(samples, index, o);
      }
      decisions := Decide(unique, now, o);
    }

    method AdoptAccount(a: Account, claimed: bool, ghost audit: seq<Decision>, now: Time,
                        o: Options) returns (adopted: bool)
      requires Valid()
      requires a.Key() != "" ==> claimed == LastIsDisable(audit, a.Key())
      modifies this`accounts
      ensures Valid()
      ensures Snapshot() == AdoptOne(old(Snapshot()), a, audit, now, o)
      ensures adopted == Claims(old(Snapshot()), a, audit)
    {
      var key := a.Key();
      if key == "" || !a.disabled {
        return false;
      }
      var slot := Slot(key);
      adopted := !slot.disabledByGuard && claimed;
      if adopted {
        slot := slot.(name := a.name, disabledByGuard := true);
        if slot.disableCount < 1 {
          slot := slot.(disableCount := 1);
        }
        slot := slot.(nextRetryAt := BackoffNext(now, slot.disableCount, o));
      }
      accounts := accounts[key := slot];
    }

    method AdoptOwnership(list: seq<Account>, audit: seq<Decision>, now: Time,
                          options: Options) returns (names: seq<string>)
      requires Valid()
      modifies this`accounts
      ensures Valid()
      ensures Snapshot() == Adopted(old(Snapshot()), list, audit, now, options)
      ensures names == AdoptedNames(old(Snapshot()), UniqueAccounts(list), audit, now, options.Normalized())
    {
      hide AdoptOne, Claims, UniqueAccounts, NormalizeKey;
      var o := options.Normalized();
      var last := LastDecisions(audit);
      var unique := UniqueAccountList(list);
      names := [];
      for i := 0 to |unique|
        invariant Valid()
        invariant Snapshot() == AdoptAll(old(Snapshot()), unique[..i], audit, now, o)
        invariant names == AdoptedNames(old(Snapshot()), unique[..i], audit, now, o)
      {
        assert unique[..i + 1][..i] == unique[..i];
        var key := unique[i].Key();
        var adopted := AdoptAccount(unique[i], key in last && last[key].action == Disable, audit, now, o);
        if adopted {
          names := names + [unique[i].name];
        }
      }
      assert unique[..|unique|] == unique;
    }
  }

  method LastDecisions(audit: seq<Decision>) returns (last: map<string, Decision>)
    ensures forall key :: key != "" ==>
      LastDecision(audit, key) == if key in last then Some(last[key]) else None
  {
    last := map[];
    for i := 0 to |audit|
      invariant forall key :: key != "" ==>
        LastDecision(audit[..i], key) == if key in last then Some(last[key]) else None
    {
      assert audit[..i + 1][..i] == audit[..i];
      if audit[i].Key() != "" {
        last := last[audit[i].Key() := audit[i]];
      }
    }
    assert audit[..|audit|] == audit;
  }

  /** Adoption only ever adds claims. */
  lemma {:induction false} AdoptionKeeps(m: Memory, accounts: seq<Account>, audit: seq<Decision>, now: Time, o: Options)
    ensures forall k :: m.Owns(k) ==> AdoptAll(m, accounts, audit, now, o).Owns(k)
    ensures AdoptAll(m, accounts, audit, now, o).seen == m.seen
  {
    if accounts != [] {
      AdoptionKeeps(m, accounts[..|accounts| - 1], audit, now, o);
    }
  }
}
