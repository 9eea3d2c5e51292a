/** What one deciding round does, account by account: decisions, the enabled floor, the backoff. */
module GuardRounds {
  import opened Common
  import opened Text
  import opened Guard

  /** The verdict the loop reaches for the i-th account, judged on the memory the round started from. */
  function VerdictAt(m: Memory, accounts: seq<Account>, i: nat, enabled: nat, now: Time, o: Options): Verdict
    requires i < |accounts|
  {
    Judge(m.Slot(accounts[i].Key()), accounts[i], enabled - DecideUpTo(m, accounts[..i], enabled, now, o).disables, now, o)
  }

  /** The flag an account shows once the round's decisions are carried out. */
  function ShownAfter(a: Account, decisions: seq<Decision>): bool {
    match LastDecision(decisions, a.Key())
    case Some(d) => if d.action == Disable then true else if d.action == Enable then false else a.disabled
    case None => a.disabled
  }

  function AccountsAfter(accounts: seq<Account>, decisions: seq<Decision>): (r: seq<Account>)
    ensures |r| == |accounts|
    ensures forall i :: 0 <= i < |r| ==> r[i] == accounts[i].(disabled := ShownAfter(accounts[i], decisions))
  {
    seq(|accounts|, i requires 0 <= i < |accounts| => accounts[i].(disabled := ShownAfter(accounts[i], decisions)))
  }

  ghost predicate OnePerKey(decisions: seq<Decision>) {
    forall i, j :: 0 <= i < j < |decisions| ==> decisions[i].Key() != decisions[j].Key()
  }

  /** What a round says about one of its accounts. */
  ghost predicate Settled(m: Memory, a: Account, v: Verdict, r: Round, now: Time, o: Options) {
    && r.mem.Slot(a.Key()) == Settle(m.Slot(a.Key()), a, v, now, o)
    && LastDecision(r.decisions, a.Key()) == Said(m.Slot(a.Key()), a, v, now, o)
  }

  lemma {:induction false} LastDecisionOf(decisions: seq<Decision>, key: string)
    ensures LastDecision(decisions, key) != None ==>
      LastDecision(decisions, key).value in decisions && LastDecision(decisions, key).value.Key() == key
    ensures LastDecision(decisions, key) == None <==> forall d :: d in decisions ==> d.Key() != key
  {
    hide NormalizeKey;
    if decisions != [] {
      LastDecisionOf(decisions[..|decisions| - 1], key);
      assert decisions == decisions[..|decisions| - 1] + [decisions[|decisions| - 1]];
    }
  }

  /** One turn of the loop settles its account ... */
  lemma {:induction false} TurnSettles(m: Memory, r: Round, a: Account, enabled: nat, now: Time, o: Options)
    requires a.Key() != "" && r.mem.Slot(a.Key()) == m.Slot(a.Key())
    requires LastDecision(r.decisions, a.Key()) == None
    ensures Settled(m, a, Judge(m.Slot(a.Key()), a, enabled - r.disables, now, o), DecideOne(r, a, enabled, now, o), now, o)
  {
    hide Judge, Settle, NormalizeKey;
    var said := Said(m.Slot(a.Key()), a, Judge(m.Slot(a.Key()), a, enabled - r.disables, now, o), now, o);
    if said == None {
      assert DecideOne(r, a, enabled, now, o).decisions == r.decisions;
    } else {
      assert DecideOne(r, a, enabled, now, o).decisions == r.decisions + [said.value];
    }
  }

  /** ... leaves every other key as it was ... */
  lemma {:induction false} TurnKeeps(r: Round, a: Account, enabled: nat, now: Time, o: Options, k: string)
    requires k != a.Key()
    ensures DecideOne(r, a, enabled, now, o).mem.Slot(k) == r.mem.Slot(k)
    ensures LastDecision(DecideOne(r, a, enabled, now, o).decisions, k) == LastDecision(r.decisions, k)
  {
    hide Judge, Settle, NormalizeKey;
    if a.Key() != "" {
      var slot := r.mem.Slot(a.Key());
      var said := Said(slot, a, Judge(slot, a, enabled - r.disables, now, o), now, o);
      if said == None {
        assert DecideOne(r, a, enabled, now, o).decisions == r.decisions;
      } else {
        assert DecideOne(r, a, enabled, now, o).decisions == r.decisions + [said.value];
        assert (r.decisions + [said.value])[..|r.decisions|] == r.decisions;
      }
    }
  }

  /** ... and announces at most one decision per key. */
  lemma {:induction false} TurnOnePerKey(r: Round, a: Account, enabled: nat, now: Time, o: Options)
    requires OnePerKey(r.decisions) && LastDecision(r.decisions, a.Key()) == None
    ensures OnePerKey(DecideOne(r, a, enabled, now, o).decisions)
  {
    hide Judge, Settle, NormalizeKey;
    LastDecisionOf(r.decisions, a.Key());
    if a.Key() != "" {
      var slot := r.mem.Slot(a.Key());
      var said := Said(slot, a, Judge(slot, a, enabled - r.disables, now, o), now, o);
      if said == None {
        assert DecideOne(r, a, enabled, now, o).decisions == r.decisions;
      } else {
        assert DecideOne(r, a, enabled, now, o).decisions == r.decisions + [said.value];
      }
    }
  }

  /** Keys that are not listed are left alone, and no key is decided about twice. */
  lemma {:induction false} RoundLeavesOthers(m: Memory, accounts: seq<Account>, enabled: nat, now: Time, o: Options)
    requires DistinctKeys(accounts)
    ensures OnePerKey(DecideUpTo(m, accounts, enabled, now, o).decisions)
    ensures DecideUpTo(m, accounts, enabled, now, o).mem.seen == m.seen
    ensures forall k :: k !in Keys(accounts) ==>
      DecideUpTo(m, accounts, enabled, now, o).mem.Slot(k) == m.Slot(k) &&
      LastDecision(DecideUpTo(m, accounts, enabled, now, o).decisions, k) == None
  {
    hide Judge, Settle, Said, NormalizeKey;
    if accounts != [] {
      var rest, a := accounts[..|accounts| - 1], accounts[|accounts| - 1];
      var before := DecideUpTo(m, rest, enabled, now, o);
      RoundLeavesOthers(m, rest, enabled, now, o);
      assert a.Key() !in Keys(rest);
      TurnOnePerKey(before, a, enabled, now, o);
      forall k | k !in Keys(accounts)
        ensures DecideUpTo(m, accounts, enabled, now, o).mem.Slot(k) == m.Slot(k)
        ensures LastDecision(DecideUpTo(m, accounts, enabled, now, o).decisions, k) == None
      {
        assert accounts[|accounts| - 1] in accounts;
        assert k !in Keys(rest);
        TurnKeeps(before, a, enabled, now, o, k);
      }
    }
  }

  /** Each listed account is settled by the verdict on the memory the round started from. */
  lemma {:induction false} RoundSettles(m: Memory, accounts: seq<Account>, i: nat, enabled: nat, now: Time, o: Options)
    requires DistinctKeys(accounts) && i < |accounts|
    ensures Settled(m, accounts[i], VerdictAt(m, accounts, i, enabled, now, o), DecideUpTo(m, accounts, enabled, now, o), now, o)
  {
    hide Judge, Settle, Said, NormalizeKey, DecideOne, LastDecision, Settled;
    var n := |accounts| - 1;
    var rest, a := accounts[..n], accounts[n];
    var before := DecideUpTo(m, rest, enabled, now, o);
    if i == n {
      RoundLeavesOthers(m, rest, enabled, now, o);
      assert a.Key() !in Keys(rest);
      TurnSettles(m, before, a, enabled, now, o);
    } else {
      RoundSettles(m, rest, i, enabled, now, o);
      assert rest[..i] == accounts[..i];
      TurnKeeps(before, a, enabled, now, o, accounts[i].Key());
      SettledStays(m, accounts[i], VerdictAt(m, rest, i, enabled, now, o), before, DecideOne(before, a, enabled, now, o), now, o);
    }
  }

  lemma {:induction false} SettledStays(m: Memory, a: Account, v: Verdict, before: Round, r: Round, now: Time,
                                        o: Options)
    requires Settled(m, a, v, before, now, o)
    requires r.mem.Slot(a.Key()) == before.mem.Slot(a.Key())
    requires LastDecision(r.decisions, a.Key()) == LastDecision(before.decisions, a.Key())
    ensures Settled(m, a, v, r, now, o)
  {
    hide Settle, Said, NormalizeKey, LastDecision;
  }

  /** What the round settles for the account of a key; `left` is the headroom it was judged with. */
  lemma {:induction false} SettledFor(m: Memory, accounts: seq<Account>, a: Account, enabled: nat, now: Time,
                                      o: Options) returns (left: int)
    requires DistinctKeys(accounts) && a in accounts
    ensures Settled(m, a, Judge(m.Slot(a.Key()), a, left, now, o), DecideUpTo(m, accounts, enabled, now, o), now, o)
  {
    hide Settle, Said, NormalizeKey;
    var i :| 0 <= i < |accounts| && accounts[i] == a;
    RoundSettles(m, accounts, i, enabled, now, o);
    left := enabled - DecideUpTo(m, accounts[..i], enabled, now, o).disables;
  }

  lemma {:induction false} ShownAfterAgrees(a: Account, d1: seq<Decision>, d2: seq<Decision>)
    requires LastDecision(d1, a.Key()) == LastDecision(d2, a.Key())
    ensures ShownAfter(a, d1) == ShownAfter(a, d2)
  {
  }

  /** An account shows disabled after its turn only if it did before or this turn barred it. */
  lemma {:induction false} ShownAfterTurn(m: Memory, a: Account, v: Verdict, r: Round, now: Time, o: Options)
    requires Settled(m, a, v, r, now, o)
    ensures ShownAfter(a, r.decisions) ==> a.disabled || v == Bars
  {
    hide Settle;
  }

  lemma {:induction false} FloorStep(m: Memory, accounts: seq<Account>, enabled: nat, now: Time, o: Options)
    requires DistinctKeys(accounts)
    ensures var r := DecideUpTo(m, accounts, enabled, now, o);
      && EnabledInScope(AccountsAfter(accounts, r.decisions), o) >= EnabledInScope(accounts, o) - r.disables
      && (r.disables > 0 ==> enabled - r.disables >= o.minEnabled)
  {
    if accounts != [] {
      var n := |accounts| - 1;
      var rest, a := accounts[..n], accounts[n];
      var before := DecideUpTo(m, rest, enabled, now, o);
      var r := DecideUpTo(m, accounts, enabled, now, o);
      FloorStep(m, rest, enabled, now, o);
      FloorTurn(m, accounts, enabled, now, o);
    }
  }

  lemma {:induction false} FloorTurn(m: Memory, accounts: seq<Account>, enabled: nat, now: Time, o: Options)
    requires DistinctKeys(accounts) && accounts != []
    ensures var rest, a := accounts[..|accounts| - 1], accounts[|accounts| - 1];
      var before, r := DecideUpTo(m, rest, enabled, now, o), DecideUpTo(m, accounts, enabled, now, o);
      && EnabledInScope(AccountsAfter(accounts, r.decisions), o) ==
         EnabledInScope(AccountsAfter(rest, before.decisions), o)
         + (if o.InScope(a.name) && !ShownAfter(a, r.decisions) then 1 else 0)
      && (ShownAfter(a, r.decisions) && !a.disabled ==> r.disables == before.disables + 1)
      && before.disables <= r.disables <= before.disables + 1
      && (r.disables > before.disables ==> enabled - before.disables > o.minEnabled)
  {
    hide Settle, Said, NormalizeKey;
    var n := |accounts| - 1;
    var rest, a := accounts[..n], accounts[n];
    var before := DecideUpTo(m, rest, enabled, now, o);
    var r := DecideUpTo(m, accounts, enabled, now, o);
    RoundLeavesOthers(m, rest, enabled, now, o);
    assert a.Key() !in Keys(rest);
    TurnSettles(m, before, a, enabled, now, o);
    var v := Judge(m.Slot(a.Key()), a, enabled - before.disables, now, o);
    ShownAfterTurn(m, a, v, r, now, o);
    var after := AccountsAfter(accounts, r.decisions);
    assert after[..n] == AccountsAfter(rest, before.decisions) by {
      forall i | 0 <= i < n
        ensures after[i] == AccountsAfter(rest, before.decisions)[i]
      {
        TurnKeeps(before, a, enabled, now, o, accounts[i].Key());
        ShownAfterAgrees(accounts[i], before.decisions, r.decisions);
      }
    }
    assert after[n].name == a.name && after[n].disabled == ShownAfter(a, r.decisions);
  }

  /**
   A round leaves at least min(enabled before, minEnabled) in-scope accounts enabled, and decides about
   each account at most once.
   */
  lemma {:induction false} EnabledFloor(m: Memory, samples: seq<Sample>, accounts: seq<Account>, now: Time,
                                        options: Options)
    ensures var o := options.Normalized();
      var unique := UniqueAccounts(accounts);
      var r := Advanced(m, samples, accounts, now, options);
      && EnabledInScope(AccountsAfter(unique, r.decisions), o) >= Min(EnabledInScope(unique, o), o.minEnabled)
      && OnePerKey(r.decisions)
  {
    var o := options.Normalized();
    var unique := UniqueAccounts(accounts);
    UniqueAccountsDistinct(accounts);
    var counted := Counted(m, samples, accounts, o);
    FloorStep(counted, unique, EnabledInScope(unique, o), now, o);
    RoundLeavesOthers(counted, unique, EnabledInScope(unique, o), now, o);
  }

  // --- backoff ---------------------------------------------------------------------------------

  /** b(n+1) = min(2 b(n), M): the disable time doubles until the cap, and never shrinks. */
  lemma {:induction false} BackoffDoubles(n: nat, o: Options)
    requires n >= 1 && o == o.Normalized()
    ensures BackoffMinutes(n + 1, o) == Min(2 * BackoffMinutes(n, o), o.maxDisableMinutes)
    ensures 0 <= BackoffMinutes(n, o) <= BackoffMinutes(n + 1, o) <= o.maxDisableMinutes
    ensures BackoffMinutes(1, o) == Min(o.reenableMinutes, o.maxDisableMinutes)
  {
    var p := Pow2(n - 1);
    assert Pow2(n) == 2 * p;
    assert o.reenableMinutes * (2 * p) == 2 * (o.reenableMinutes * p);
    assert o.reenableMinutes * p >= 0;
  }

  /**
   An account the guard owns and that shows disabled is enabled again in the first round at or after its
   retry time, and waits before it, whatever the switch, the baseline, dry run and the scope say.
   */
  lemma {:induction false} RetryDecides(m: Memory, samples: seq<Sample>, accounts: seq<Account>, a: Account, now: Time,
                                        options: Options)
    requires a in UniqueAccounts(accounts) && a.disabled && m.Owns(a.Key())
    requires m.Slot(a.Key()).nextRetryAt.Some?
    ensures var r := Advanced(m, samples, accounts, now, options);
      if now >= m.Slot(a.Key()).nextRetryAt.value then
        !r.mem.Owns(a.Key()) && exists d :: d in r.decisions && d.Key() == a.Key() && d.action == Enable
      else
        r.mem.Owns(a.Key()) && forall d :: d in r.decisions ==> d.Key() != a.Key()
  {
    hide UniqueAccounts, NormalizeKey, EnabledInScope, DecideUpTo, CountAll, Trim;
    var o := options.Normalized();
    var unique := UniqueAccounts(accounts);
    var counted := Counted(m, samples, accounts, o);
    UniqueAccountsDistinct(accounts);
    if o.CanJudge() {
      CountingKeepsOwnership(m, samples, Index(unique), Trim(o.baseline));
    }
    RoundLeavesOthers(counted, unique, EnabledInScope(unique, o), now, o);
    var left := SettledFor(counted, unique, a, EnabledInScope(unique, o), now, o);
    LastDecisionOf(Advanced(m, samples, accounts, now, options).decisions, a.Key());
  }

  /** Counting touches streaks only: ownership, the retry time and the disable count stay. */
  lemma {:induction false} CountingKeepsOwnership(m: Memory, samples: seq<Sample>, index: map<string, Account>,
                                                  baseline: string)
    ensures forall k :: var after, before := CountAll(m, samples, index, baseline).Slot(k), m.Slot(k);
      && after.disabledByGuard == before.disabledByGuard
      && after.nextRetryAt == before.nextRetryAt
      && after.disableCount == before.disableCount
  {
    if samples != [] {
      CountingKeepsOwnership(m, samples[..|samples| - 1], index, baseline);
    }
  }

  /** How one round changes who owns an account: exactly through an announced decision. */
  ghost predicate OwnershipFollows(before: AccountState, after: AccountState, said: Option<Decision>, now: Time,
                                   o: Options) {
    match said
    case None => after.disabledByGuard == before.disabledByGuard && after.nextRetryAt == before.nextRetryAt
                 && after.disableCount == before.disableCount
    case Some(d) => d.time == now && match d.action
      case Disable => !before.disabledByGuard && after.disabledByGuard && after.disableCount == before.disableCount + 1
                      && after.nextRetryAt == BackoffNext(now, after.disableCount, o)
      case DisableDry => !before.disabledByGuard && !after.disabledByGuard && after.disableCount == before.disableCount
                         && after.nextRetryAt == before.nextRetryAt
      case Enable => before.disabledByGuard && !after.disabledByGuard && after.disableCount == before.disableCount
                     && after.nextRetryAt == None
      case EnableExternal => before.disabledByGuard && !after.disabledByGuard && after.disableCount == 0
                             && after.nextRetryAt == None
  }

  lemma {:induction false} RoundOwnership(m: Memory, samples: seq<Sample>, accounts: seq<Account>, now: Time,
                                          options: Options)
    ensures var r := Advanced(m, samples, accounts, now, options);
      forall k :: OwnershipFollows(m.Slot(k), r.mem.Slot(k), LastDecision(r.decisions, k), now, options.Normalized())
  {
    var o := options.Normalized();
    var unique := UniqueAccounts(accounts);
    var counted := Counted(m, samples, accounts, o);
    var r := Advanced(m, samples, accounts, now, options);
    UniqueAccountsDistinct(accounts);
    if o.CanJudge() {
      CountingKeepsOwnership(m, samples, Index(unique), Trim(o.baseline));
    }
    RoundLeavesOthers(counted, unique, EnabledInScope(unique, o), now, o);
    forall k
      ensures OwnershipFollows(m.Slot(k), r.mem.Slot(k), LastDecision(r.decisions, k), now, o)
    {
      if k in Keys(unique) {
        var a :| a in unique && a.Key() == k;
        var left := SettledFor(counted, unique, a, EnabledInScope(unique, o), now, o);
        TurnOwnership(counted, a, left, r, now, o);
      }
    }
  }

  lemma {:induction false} TurnOwnership(m: Memory, a: Account, left: int, r: Round, now: Time, o: Options)
    requires Settled(m, a, Judge(m.Slot(a.Key()), a, left, now, o), r, now, o)
    ensures OwnershipFollows(m.Slot(a.Key()), r.mem.Slot(a.Key()), LastDecision(r.decisions, a.Key()), now, o)
  {
    hide NormalizeKey, BackoffNext;
  }

  /** In dry run a round never disables an account and never gains one. */
  lemma {:induction false} DryRunIsInert(m: Memory, samples: seq<Sample>, accounts: seq<Account>, now: Time,
                                         options: Options)
    requires options.dryRun
    ensures var r := Advanced(m, samples, accounts, now, options);
      && (forall d :: d in r.decisions ==> d.action != Disable)
      && (forall k :: r.mem.Owns(k) ==> m.Owns(k))
  {
    var o := options.Normalized();
    var unique := UniqueAccounts(accounts);
    var counted := Counted(m, samples, accounts, o);
    var r := Advanced(m, samples, accounts, now, options);
    UniqueAccountsDistinct(accounts);
    RoundOwnership(m, samples, accounts, now, options);
    RoundLeavesOthers(counted, unique, EnabledInScope(unique, o), now, o);
    forall d | d in r.decisions
      ensures d.action != Disable
    {
      LastDecisionOf(r.decisions, d.Key());
      OnlyOne(r.decisions, d);
      if d.action == Disable {
        NeverBars(counted, unique, d, now, o);
      }
    }
    forall k | r.mem.Owns(k)
      ensures m.Owns(k)
    {
      LastDecisionOf(r.decisions, k);
    }
  }

  lemma {:induction false} NeverBars(m: Memory, accounts: seq<Account>, d: Decision, now: Time, o: Options)
    requires DistinctKeys(accounts) && o.dryRun
    requires d.Key() in Keys(accounts)
    ensures LastDecision(DecideAll(m, accounts, now, o).decisions, d.Key()) != Some(d.(action := Disable))
  {
    hide Settle, NormalizeKey, LastDecision, DecideUpTo, EnabledInScope, Trim;
    var a :| a in accounts && a.Key() == d.Key();
    var left := SettledFor(m, accounts, a, EnabledInScope(accounts, o), now, o);
  }

  lemma {:induction false} OnlyOne(decisions: seq<Decision>, d: Decision)
    requires OnePerKey(decisions) && d in decisions
    ensures LastDecision(decisions, d.Key()) == Some(d)
  {
    LastDecisionOf(decisions, d.Key());
    var e := LastDecision(decisions, d.Key()).value;
    var i :| 0 <= i < |decisions| && decisions[i] == d;
    var j :| 0 <= j < |decisions| && decisions[j] == e;
    assert i == j;
  }
}
