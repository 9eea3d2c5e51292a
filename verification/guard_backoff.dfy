/**
 The retry times a round leaves behind, read off the memory after it: how long an account the guard
 disabled or took over stays disabled, and what becomes of one that has no retry time.
 */
module GuardBackoff {
  import opened Common
  import opened Text
  import opened Guard
  import opened GuardRounds

  /** What a disable leaves in its account's slot. */
  lemma {:induction false} DisabledSlot(m: Memory, samples: seq<Sample>, accounts: seq<Account>, now: Time,
                                        options: Options, d: Decision)
    requires d in Advanced(m, samples, accounts, now, options).decisions && d.action == Disable
    ensures var r := Advanced(m, samples, accounts, now, options);
      && d.time == now
      && !m.Owns(d.Key()) && r.mem.Owns(d.Key())
      && r.mem.Slot(d.Key()).disableCount == m.Slot(d.Key()).disableCount + 1
      && r.mem.Slot(d.Key()).nextRetryAt
         == BackoffNext(now, m.Slot(d.Key()).disableCount + 1, options.Normalized())
  {
    hide NormalizeKey, UniqueAccounts, CountAll, DecideUpTo, EnabledInScope, BackoffNext, LastDecision;
    var o := options.Normalized();
    var unique := UniqueAccounts(accounts);
    var r := Advanced(m, samples, accounts, now, options);
    UniqueAccountsDistinct(accounts);
    RoundLeavesOthers(Counted(m, samples, accounts, o), unique, EnabledInScope(unique, o), now, o);
    OnlyOne(r.decisions, d);
    RoundOwnership(m, samples, accounts, now, options);
    assert OwnershipFollows(m.Slot(d.Key()), r.mem.Slot(d.Key()), LastDecision(r.decisions, d.Key()), now, o);
  }

  /**
   The first disable of an account lasts the configured minutes, cut at the longest time; with no minutes
   configured it has no end.
   */
  lemma {:induction false} FirstDisableLasts(m: Memory, samples: seq<Sample>, accounts: seq<Account>, now: Time,
                                             options: Options, d: Decision)
    requires d in Advanced(m, samples, accounts, now, options).decisions && d.action == Disable
    ensures var o := options.Normalized();
      var next := Advanced(m, samples, accounts, now, options).mem.Slot(d.Key()).nextRetryAt;
      && (o.reenableMinutes == 0 <==> next == None)
      && (o.reenableMinutes > 0 && m.Slot(d.Key()).disableCount == 0 ==>
            next == Some(now + 60_000_000_000 * Min(o.reenableMinutes, o.maxDisableMinutes)))
  {
    hide NormalizeKey, Advanced;
    DisabledSlot(m, samples, accounts, now, options, d);
    BackoffDoubles(1, options.Normalized());
  }

  /** Of two disables, the one with the count next to the other's lasts twice as long, cut at the longest time. */
  lemma {:induction false} NextDisableLastsTwiceAsLong(
      m1: Memory, samples1: seq<Sample>, accounts1: seq<Account>, now1: Time, d1: Decision,
      m2: Memory, samples2: seq<Sample>, accounts2: seq<Account>, now2: Time, d2: Decision, options: Options)
    requires d1 in Advanced(m1, samples1, accounts1, now1, options).decisions && d1.action == Disable
    requires d2 in Advanced(m2, samples2, accounts2, now2, options).decisions && d2.action == Disable
    requires options.Normalized().reenableMinutes > 0
    requires Advanced(m2, samples2, accounts2, now2, options).mem.Slot(d2.Key()).disableCount
          == Advanced(m1, samples1, accounts1, now1, options).mem.Slot(d1.Key()).disableCount + 1
    ensures var next1 := Advanced(m1, samples1, accounts1, now1, options).mem.Slot(d1.Key()).nextRetryAt;
      var next2 := Advanced(m2, samples2, accounts2, now2, options).mem.Slot(d2.Key()).nextRetryAt;
      && next1.Some? && next2.Some?
      && next2.value - now2 == Min(2 * (next1.value - now1), 60_000_000_000 * options.Normalized().maxDisableMinutes)
  {
    hide NormalizeKey, Advanced;
    DisabledSlot(m1, samples1, accounts1, now1, options, d1);
    DisabledSlot(m2, samples2, accounts2, now2, options, d2);
    BackoffDoubles(m1.Slot(d1.Key()).disableCount + 1, options.Normalized());
  }

  /** An account the guard owns, shown disabled, without a retry time: no round decides about it. */
  lemma {:induction false} NoRetryTimeWaits(m: Memory, samples: seq<Sample>, accounts: seq<Account>, a: Account,
                                            now: Time, options: Options)
    requires a in UniqueAccounts(accounts) && a.disabled && m.Owns(a.Key())
    requires m.Slot(a.Key()).nextRetryAt == None
    ensures var r := Advanced(m, samples, accounts, now, options);
      && (forall d :: d in r.decisions ==> d.Key() != a.Key())
      && r.mem.Owns(a.Key()) && r.mem.Slot(a.Key()).nextRetryAt == None
  {
    hide UniqueAccounts, NormalizeKey, EnabledInScope, DecideUpTo, CountAll, Trim;
    var o := options.Normalized();
    var unique := UniqueAccounts(accounts);
    var counted := Counted(m, samples, accounts, o);
    UniqueAccountsDistinct(accounts);
    if o.CanJudge() {
      CountingKeepsOwnership(m, samples, Index(unique), Trim(o.baseline));
    }
    var left := SettledFor(counted, unique, a, EnabledInScope(unique, o), now, o);
    LastDecisionOf(Advanced(m, samples, accounts, now, options).decisions, a.Key());
  }

  // --- accounts taken over from the audit trail ------------------------------------------------

  /** An account that is taken over gets the retry time of a disable made now with the count it ends with. */
  lemma {:induction false} AdoptedSlot(m: Memory, accounts: seq<Account>, audit: seq<Decision>, now: Time,
                                       o: Options, k: string)
    requires !m.Owns(k) && AdoptAll(m, accounts, audit, now, o).Owns(k)
    ensures var slot := AdoptAll(m, accounts, audit, now, o).Slot(k);
      && slot.disableCount == Max(m.Slot(k).disableCount, 1)
      && slot.nextRetryAt == BackoffNext(now, slot.disableCount, o)
  {
    hide NormalizeKey, BackoffNext, LastIsDisable;
    if accounts != [] {
      var before := AdoptAll(m, accounts[..|accounts| - 1], audit, now, o);
      if before.Owns(k) {
        AdoptedSlot(m, accounts[..|accounts| - 1], audit, now, o, k);
      } else {
        NotAdoptedSlot(m, accounts[..|accounts| - 1], audit, now, o, k);
      }
    }
  }

  lemma {:induction false} NotAdoptedSlot(m: Memory, accounts: seq<Account>, audit: seq<Decision>, now: Time,
                                          o: Options, k: string)
    requires !AdoptAll(m, accounts, audit, now, o).Owns(k)
    ensures AdoptAll(m, accounts, audit, now, o).Slot(k) == m.Slot(k)
  {
    hide NormalizeKey, BackoffNext, LastIsDisable;
    if accounts != [] {
      NotAdoptedSlot(m, accounts[..|accounts| - 1], audit, now, o, k);
    }
  }

  /**
   Taking over counts as a disable made now: an account with no counted disable gets the configured minutes,
   one with a count keeps it and gets the time a disable that reached the same count would have got.
   */
  lemma {:induction false} TakenOverRetries(m: Memory, accounts: seq<Account>, audit: seq<Decision>, now: Time,
                                            options: Options, k: string)
    requires !m.Owns(k) && Adopted(m, accounts, audit, now, options).Owns(k)
    ensures var o := options.Normalized();
      var slot := Adopted(m, accounts, audit, now, options).Slot(k);
      && (o.reenableMinutes == 0 <==> slot.nextRetryAt == None)
      && slot.disableCount == Max(m.Slot(k).disableCount, 1)
      && (o.reenableMinutes > 0 && slot.disableCount == 1 ==>
            slot.nextRetryAt == Some(now + 60_000_000_000 * Min(o.reenableMinutes, o.maxDisableMinutes)))
  {
    AdoptedSlot(m, UniqueAccounts(accounts), audit, now, options.Normalized(), k);
    BackoffDoubles(1, options.Normalized());
  }

  lemma {:induction false} TakenOverAsDisabled(m1: Memory, samples: seq<Sample>, accounts1: seq<Account>, now1: Time,
                                               d: Decision, m2: Memory, accounts2: seq<Account>,
                                               audit: seq<Decision>, now2: Time, options: Options, k: string)
    requires d in Advanced(m1, samples, accounts1, now1, options).decisions && d.action == Disable
    requires !m2.Owns(k) && Adopted(m2, accounts2, audit, now2, options).Owns(k)
    requires Adopted(m2, accounts2, audit, now2, options).Slot(k).disableCount
          == Advanced(m1, samples, accounts1, now1, options).mem.Slot(d.Key()).disableCount
    requires options.Normalized().reenableMinutes > 0
    ensures var disabled := Advanced(m1, samples, accounts1, now1, options).mem.Slot(d.Key()).nextRetryAt;
      var taken := Adopted(m2, accounts2, audit, now2, options).Slot(k).nextRetryAt;
      disabled.Some? && taken.Some? && taken.value - now2 == disabled.value - now1
  {
    hide NormalizeKey, Advanced;
    DisabledSlot(m1, samples, accounts1, now1, options, d);
    AdoptedSlot(m2, UniqueAccounts(accounts2), audit, now2, options.Normalized(), k);
  }

  // --- which accounts are taken over ---------------------------------------------------------------

  /** The names of the accounts that changed hands, in order. */
  function Taken(accounts: seq<Account>, before: Memory, after: Memory): seq<string> {
    if accounts == [] then [] else
      var a := accounts[|accounts| - 1];
      Taken(accounts[..|accounts| - 1], before, after)
      + (if !before.Owns(a.Key()) && after.Owns(a.Key()) then [a.name] else [])
  }

  lemma {:induction false} TakenAgrees(accounts: seq<Account>, before: Memory, after: Memory, other: Memory)
    requires forall a :: a in accounts ==> after.Owns(a.Key()) == other.Owns(a.Key())
    ensures Taken(accounts, before, after) == Taken(accounts, before, other)
  {
    if accounts != [] {
      assert accounts[|accounts| - 1] in accounts;
      TakenAgrees(accounts[..|accounts| - 1], before, after, other);
    }
  }

  lemma {:induction false} OthersUntouched(m: Memory, accounts: seq<Account>, audit: seq<Decision>, now: Time, o: Options,
                                           k: string)
    requires k !in Keys(accounts)
    ensures AdoptAll(m, accounts, audit, now, o).Slot(k) == m.Slot(k)
  {
    hide NormalizeKey, BackoffNext, LastIsDisable;
    if accounts != [] {
      assert accounts[|accounts| - 1] in accounts && forall a :: a in accounts[..|accounts| - 1] ==> a in accounts;
      OthersUntouched(m, accounts[..|accounts| - 1], audit, now, o, k);
    }
  }

  /** The names reported are those of the accounts that changed hands, in the order of the list. */
  lemma {:induction false} NamesAreTaken(m: Memory, accounts: seq<Account>, audit: seq<Decision>, now: Time, o: Options)
    requires DistinctKeys(accounts)
    ensures AdoptedNames(m, accounts, audit, now, o) == Taken(accounts, m, AdoptAll(m, accounts, audit, now, o))
  {
    hide NormalizeKey, BackoffNext, LastIsDisable, Taken;
    if accounts == [] {
      NothingTaken(m);
    } else {
      var rest, a := accounts[..|accounts| - 1], accounts[|accounts| - 1];
      var before, after := AdoptAll(m, rest, audit, now, o), AdoptAll(m, accounts, audit, now, o);
      NamesAreTaken(m, rest, audit, now, o);
      assert a.Key() !in Keys(rest);
      OthersUntouched(m, rest, audit, now, o, a.Key());
      TakenAgrees(rest, m, before, after);
      TakenNext(accounts, m, after);
    }
  }

  lemma {:induction false} NothingTaken(m: Memory)
    ensures Taken([], m, m) == []
  {
  }

  lemma {:induction false} TakenNext(accounts: seq<Account>, before: Memory, after: Memory)
    requires accounts != []
    ensures Taken(accounts, before, after) == Taken(accounts[..|accounts| - 1], before, after)
      + (if !before.Owns(accounts[|accounts| - 1].Key()) && after.Owns(accounts[|accounts| - 1].Key())
         then [accounts[|accounts| - 1].name] else [])
  {
  }

  /**
   Taking over, account by account of the list: one changes hands exactly when it is shown disabled, was not owned and was
   last disabled by the guard, as the audit trail has it; it is then known under its name in the list.
   */
  lemma {:induction false} TakenOverExactly(m: Memory, accounts: seq<Account>, audit: seq<Decision>, now: Time,
                                            options: Options, a: Account)
    requires a in UniqueAccounts(accounts)
    ensures var after := Adopted(m, accounts, audit, now, options);
      && (!m.Owns(a.Key()) && after.Owns(a.Key()) <==>
            a.disabled && !m.Owns(a.Key()) && exists d :: LastDecision(audit, a.Key()) == Some(d) && d.action == Disable)
      && (!m.Owns(a.Key()) && after.Owns(a.Key()) ==> after.Slot(a.Key()).name == a.name)
  {
    hide UniqueAccounts, NormalizeKey, BackoffNext;
    UniqueAccountsDistinct(accounts);
    TakenIn(m, UniqueAccounts(accounts), audit, now, options.Normalized(), a);
  }

  lemma {:induction false} TakenIn(m: Memory, accounts: seq<Account>, audit: seq<Decision>, now: Time, o: Options,
                                   a: Account)
    requires DistinctKeys(accounts) && a in accounts
    ensures var after := AdoptAll(m, accounts, audit, now, o);
      && (!m.Owns(a.Key()) && after.Owns(a.Key()) <==> a.disabled && !m.Owns(a.Key()) && LastIsDisable(audit, a.Key()))
      && (!m.Owns(a.Key()) && after.Owns(a.Key()) ==> after.Slot(a.Key()).name == a.name)
  {
    hide NormalizeKey, BackoffNext, LastIsDisable;
    var rest, last := accounts[..|accounts| - 1], accounts[|accounts| - 1];
    if a == last {
      assert last.Key() !in Keys(rest);
      OthersUntouched(m, rest, audit, now, o, last.Key());
    } else {
      assert a in rest && a.Key() != last.Key();
      TakenIn(m, rest, audit, now, o, a);
    }
  }
}
