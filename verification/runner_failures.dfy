/**
 What failed writes come to in the file, on runs from a fresh installation with two accounts: the first account is
 disabled in both, and in the second tick its enable is not written.
 */
module RunnerFailures {
  import opened Common
  import opened Text
  import opened Guard
  import opened Runner
  import opened RunnerOverlay
  import opened RunnerLimits
  import opened RunnerFloor
  import opened RunnerStranded
  import opened RunnerScenarios

  const RETRY_AT: Time := 5 * MINUTE
  const RELEASED := Decision(RETRY_AT, "a", KEY_A, Enable, 1, "x", ["y"])

  /** The tick at the retry time, whose write fails. */
  const RETRY := Env(RETRY_AT, true, true, [], OPTIONS, [NOT_WRITTEN], true)

  predicate HasReleased(m: Memory) {
    && m.Slot(KEY_A) == SLOT_A.(disabledByGuard := false, streak := 0, channels := [], nextRetryAt := None)
    && m.Slot(KEY_B) == FRESH.(name := "b") && m.seen == [ById(KEY_A, "r")]
  }

  /** With the first account shown off, only the second counts as enabled. */
  lemma {:induction false} OneEnabled()
    ensures EnabledInScope([AccountA(true), AccountB()], OPTIONS) == 1
  {
    hide NormalizeKey;
    BothEnabled();
    var two := [AccountA(true), AccountB()];
    assert two[..1] == [AccountA(true)] && two[..1][..0] == [];
    assert EnabledInScope(two[..1], OPTIONS) == 0;
  }

  lemma {:induction false} RetryRound(m: Memory)
    requires HasBarred(m)
    ensures var r := Advanced(m, [], [AccountA(true), AccountB()], RETRY_AT, OPTIONS);
      r.decisions == [RELEASED] && HasReleased(r.mem)
  {
    hide ProviderKey, NormalizeKey, Trim, EqualFold, UniqueAccounts, EnabledInScope, Index;
    Channels();
    AccountKeys(true);
    BothEnabled();
    OneEnabled();
    Names();
    var a, b, o := AccountA(true), AccountB(), OPTIONS;
    assert Counted(m, [], [a, b], o) == m;
    TwoTurns(m, a, b, 1, RETRY_AT, o);
    var r := DecideOne(Round(m, 0, []), a, 1, RETRY_AT, o);
    assert r.decisions == [RELEASED];
    assert r.mem.Slot(KEY_B) == m.Slot(KEY_B);
  }

  /** The world after the disable was written and the enable was not. */
  function Retried(): World { Ticks(Start(TWO_ACCOUNTS), [First([]), RETRY]) }

  lemma {:induction false} AfterRetry()
    ensures var w := Retried();
      && w.audit == [BARRED, RELEASED] && HasReleased(w.mem) && w.Stored() == w.mem && w.adopted
      && w.file == FileWith(Present(true)) && w.pending == map[KEY_A := false]
  {
    hide ProviderKey, NormalizeKey, Trim, Advanced, View, FindEntry, Ticked, Targeted, HasBarred, HasReleased;
    var w := Ticked(Start(TWO_ACCOUNTS), First([]));
    assert [First([]), RETRY][..1] == [First([])] && [First([])][..0] == [];
    assert Ticks(Start(TWO_ACCOUNTS), [First([])]) == w;
    AfterFirst([]);
    Names();
    Views(Present(true), map[]);
    RetryRound(w.mem);
    assert TickRound(w, RETRY).decisions == [RELEASED];
    FileIsTargeted(Present(true));
    OneDecisionTick(w, RETRY, RELEASED, 0);
    assert map[][KEY_A := false] == map[KEY_A := false];
  }

  lemma {:induction false} FileIsTargeted(setting: Setting)
    ensures Targeted(FileWith(setting)) && FirstOfKey(FileWith(setting), 0) && FirstOfKey(FileWith(setting), 1)
  {
    hide Targeted, Trim, ProviderKey;
    Names();
    TwoAccountsAreTargeted();
    TargetedSame(TWO_ACCOUNTS, FileWith(setting));
  }

  /**
   After a restart that account is stranded: the trail and the state say it was let go, the file says it is off,
   and no tick of the new runner ever turns it on.
   */
  lemma {:induction false} RestartStrandsTheAccount(later: seq<Env>)
    ensures var w := Ticks(Next(Retried(), Restart), later);
      w.file != [] && w.file[0] == Entry("a", true, Present(true), false) && !w.mem.Owns(KEY_A)
  {
    hide ProviderKey, NormalizeKey, Trim, Ticks, Targeted, Stranded, Retried, HasReleased;
    var w := Retried();
    AfterRetry();
    Names();
    FileIsTargeted(Present(true));
    assert !w.Stored().Owns(KEY_A) by { ReleasedIsFree(w.mem); }
    forall k: nat | FirstReadable(later, k)
      ensures !ReadAsDisabled(w, later[k], KEY_A)
    {
      assert LastN(w.audit, 500) == [BARRED, RELEASED] && RELEASED.Key() == KEY_A;
    }
    RestartStrands(w, later, 0);
    StrandedIsFree(w, later);
  }

  lemma {:induction false} ReleasedIsFree(m: Memory)
    requires HasReleased(m)
    ensures !m.Owns(KEY_A)
  {
  }

  lemma {:induction false} StrandedIsFree(w: World, later: seq<Env>)
    requires w.file == FileWith(Present(true)) && ProviderKey("a") == KEY_A && !w.Stored().Owns(KEY_A)
    requires var w' := Ticks(Next(w, Restart), later);
      w' == Next(w, Restart) || (Stranded(w', 0) && w'.file[0] == w.file[0])
    ensures var w' := Ticks(Next(w, Restart), later);
      w'.file != [] && w'.file[0] == Entry("a", true, Present(true), false) && !w'.mem.Owns(KEY_A)
  {
    hide Ticks, ProviderKey, Targeted;
  }

  // --- the floor of the file ----------------------------------------------------------------------------------

  const REQUEST_B := Sample(0, "r", KEY_B, "y")
  const BARRED_B := Decision(6 * MINUTE, "b", KEY_B, Disable, 1, "x", ["y"])

  /** A later tick with a request that tells against the second account; everything goes well in it. */
  const THIRD := Env(6 * MINUTE, true, true, [REQUEST_B], OPTIONS, [], true)

  lemma {:induction false} EvidenceB(m: Memory)
    requires HasReleased(m)
    ensures var counted := Counted(m, [REQUEST_B], [AccountA(false), AccountB()], OPTIONS);
      && counted.Slot(KEY_A) == m.Slot(KEY_A)
      && counted.Slot(KEY_B).streak == 1 && counted.Slot(KEY_B).channels == ["y"] && !counted.Owns(KEY_B)
  {
    hide ProviderKey, NormalizeKey, Trim, EqualFold, UniqueAccounts, Index;
    Names();
    Channels();
    AccountKeys(false);
    IndexOfBoth();
    var index := map[KEY_A := AccountA(false), KEY_B := AccountB()];
    assert [REQUEST_B][..0] == [];
    assert CountAll(m, [REQUEST_B], index, "x") == CountOne(m, REQUEST_B, index, "x");
    assert ConsumptionOf(m, REQUEST_B, index, "x") == Some(Consumption(KEY_B, ById(KEY_B, "r"), "b", "y", 0, true));
    assert FRESH.channels + ["y"] == ["y"];
  }

  /** Both accounts are shown enabled, so the round may bar the second one. */
  lemma {:induction false} ThirdRound(m: Memory)
    requires HasReleased(m)
    ensures Advanced(m, [REQUEST_B], [AccountA(false), AccountB()], 6 * MINUTE, OPTIONS).decisions == [BARRED_B]
  {
    hide ProviderKey, NormalizeKey, Trim, EqualFold, Counted, UniqueAccounts, EnabledInScope, BackoffNext;
    Channels();
    EvidenceB(m);
    AccountKeys(false);
    BothEnabled();
    Names();
    var a, b, o := AccountA(false), AccountB(), OPTIONS;
    var counted := Counted(m, [REQUEST_B], [a, b], o);
    TwoTurns(counted, a, b, 2, 6 * MINUTE, o);
    var r := DecideOne(Round(counted, 0, []), a, 2, 6 * MINUTE, o);
    assert r.decisions == [];
    assert r.mem.Slot(KEY_B) == counted.Slot(KEY_B);
  }

  /** Both entries say off. */
  const BOTH_OFF := [Entry("a", true, Present(true), false), Entry("b", true, Present(true), false)]

  function AccountsOff(): seq<Account> { [AccountA(true), Account("b", KEY_B, true)] }

  lemma {:induction false} BothOffView()
    ensures InFile(BOTH_OFF) == AccountsOff() && EnabledInScope(InFile(BOTH_OFF), OPTIONS) == 0
  {
    hide ProviderKey, NormalizeKey, Trim, UniqueAccounts, EnabledInScope;
    Names();
    assert BOTH_OFF[..1] == [BOTH_OFF[0]] && BOTH_OFF[..1][..0] == [];
    assert View(BOTH_OFF[..1], map[]) == [AccountA(true)];
    assert View(BOTH_OFF, map[]) == AccountsOff();
    BothListed();
    NoneEnabled();
  }

  lemma {:induction false} BothListed()
    ensures UniqueAccounts(AccountsOff()) == AccountsOff()
  {
    hide ProviderKey, NormalizeKey;
    Names();
    var a, b := AccountA(true), Account("b", KEY_B, true);
    assert AccountsOff()[..1] == [a] && [a][..0] == [];
    assert UniqueAccounts([a]) == [a];
    assert Keys([a]) == {KEY_A};
  }

  lemma {:induction false} NoneEnabled()
    ensures EnabledInScope(AccountsOff(), OPTIONS) == 0
  {
    hide NormalizeKey;
    assert AccountsOff()[..1] == [AccountA(true)] && AccountsOff()[..1][..0] == [];
    assert EnabledInScope(AccountsOff()[..1], OPTIONS) == 0;
  }

  /**
   The floor is one of the guard's view: with at least one account to be kept enabled, a failed enable of the first
   and a disable of the second leave the file with none, while the guard is still shown one.
   */
  lemma {:induction false} NobodyIsLeftOn()
    ensures var w := Ticks(Start(TWO_ACCOUNTS), [First([]), RETRY, THIRD]);
      && w.file == BOTH_OFF && EnabledInScope(InFile(w.file), OPTIONS) == 0 < OPTIONS.minEnabled
      && EnabledInScope(w.Shown(), OPTIONS) >= OPTIONS.minEnabled
  {
    hide ProviderKey, NormalizeKey, Trim, Advanced, View, UniqueAccounts, FindEntry, Ticked, Targeted, HasReleased,
         InFile, EnabledInScope;
    var envs := [First([]), RETRY, THIRD];
    var w := Retried();
    assert envs[..2] == [First([]), RETRY] && Ticks(Start(TWO_ACCOUNTS), envs) == Ticked(w, THIRD);
    AfterRetry();
    Names();
    Views(Present(true), w.pending);
    ThirdRound(w.mem);
    assert TickRound(w, THIRD).decisions == [BARRED_B];
    FileIsTargeted(Present(true));
    OneDecisionTick(w, THIRD, BARRED_B, 1);
    assert w.file[1 := w.file[1].(setting := Present(true))] == BOTH_OFF;
    BothOffView();
    Views(Absent, map[]);
    AccountKeys(false);
    BothEnabled();
    TwoAccountsAreTargeted();
    assert FileWith(Absent) == TWO_ACCOUNTS;
    FloorHoldsForever(Start(TWO_ACCOUNTS), envs, OPTIONS);
  }

  // --- a pending write waits ----------------------------------------------------------------------------------

  /** The first tick after a disable that was not written, before its retry time: nothing is decided. */
  lemma {:induction false} WaitingRound(m: Memory, now: Time)
    requires HasBarred(m) && now < RETRY_AT
    ensures Advanced(m, [], [AccountA(true), AccountB()], now, OPTIONS).decisions == []
  {
    hide ProviderKey, NormalizeKey, Trim, EqualFold, UniqueAccounts, EnabledInScope, Index;
    Channels();
    AccountKeys(true);
    BothEnabled();
    OneEnabled();
    Names();
    var a, b, o := AccountA(true), AccountB(), OPTIONS;
    assert Counted(m, [], [a, b], o) == m;
    TwoTurns(m, a, b, 1, now, o);
    var r := DecideOne(Round(m, 0, []), a, 1, now, o);
    assert r.decisions == [];
    assert r.mem.Slot(KEY_B) == m.Slot(KEY_B);
  }

  /** The write of that disable is not tried again: the file still says enabled, and it is still pending. */
  lemma {:induction false} PendingDisableWaits(now: Time)
    requires now < RETRY_AT
    ensures var w := Ticked(Start(TWO_ACCOUNTS), First([NOT_WRITTEN])); var w' := Ticked(w, Later(now));
      && w.pending == w'.pending == map[KEY_A := true] && w.file == w'.file == TWO_ACCOUNTS
  {
    hide ProviderKey, NormalizeKey, Trim, Advanced, View, FindEntry, Targeted, HasBarred;
    var w := Ticked(Start(TWO_ACCOUNTS), First([NOT_WRITTEN]));
    AfterFirst([NOT_WRITTEN]);
    assert FileWith(Absent) == TWO_ACCOUNTS;
    Names();
    Views(Absent, w.pending);
    WaitingRound(w.mem, now);
    assert TickRound(w, Later(now)).decisions == [];
  }
}
