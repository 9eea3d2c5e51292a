/**
 Two short runs from a fresh installation with two accounts. Both begin with a tick that bars the first account
 on the evidence of one request; in one of them the write fails.
 */
module RunnerScenarios {
  import opened Common
  import opened Text
  import opened Guard
  import opened Runner
  import opened RunnerOwnership
  import opened RunnerOverlay
  import opened RunnerLimits
  import opened RunnerCrash
  import opened RunnerFile

  const TWO_ACCOUNTS := [Entry("a", true, Absent, false), Entry("b", true, Absent, false)]
  const KEY_A := PREFIX + "a"
  const KEY_B := PREFIX + "b"

  const OPTIONS := Options(true, false, 1, 1, [], 5, 360, "x")
  const REQUEST := Sample(0, "r", KEY_A, "y")
  const BARRED := Decision(0, "a", KEY_A, Disable, 1, "x", ["y"])

  /** A write that fails and leaves the old bytes, with everything around it answering well. */
  const NOT_WRITTEN := Outcome(true, true, true, false, false, false)

  /** The state is not saved, and everything else goes well. */
  const NOT_SAVED := FINE.(saved := false)

  function First(outcomes: seq<Outcome>): Env { Env(0, true, true, [REQUEST], OPTIONS, outcomes, true) }

  function Later(now: Time): Env { Env(now, true, true, [], OPTIONS, [], true) }

  lemma {:induction false} Names()
    ensures Trim("a") == "a" && Trim("b") == "b" && ProviderKey("a") == KEY_A && ProviderKey("b") == KEY_B
    ensures NormalizeKey(KEY_A) == KEY_A && NormalizeKey(KEY_B) == KEY_B && KEY_A != "" && KEY_A != KEY_B
  {
    TrimFixed("a");
    TrimFixed("b");
    LowerFixed("a");
    LowerFixed("b");
    assert ProviderKey("a") == KEY_A && ProviderKey("b") == KEY_B;
    ProviderKeyNormal("a");
    ProviderKeyNormal("b");
    assert KEY_A[|PREFIX|] != KEY_B[|PREFIX|];
  }

  lemma {:induction false} Channels()
    ensures Trim("x") == "x" && Trim("y") == "y" && Trim("r") == "r" && !EqualFold("y", "x")
  {
    TrimFixed("x");
    TrimFixed("y");
    TrimFixed("r");
    assert Lower("x")[0] != Lower("y")[0];
  }

  function AccountA(disabled: bool): Account { Account("a", KEY_A, disabled) }

  function AccountB(): Account { Account("b", KEY_B, false) }

  function FileWith(setting: Setting): seq<Entry> { TWO_ACCOUNTS[0 := Entry("a", true, setting, false)] }

  lemma {:induction false} AccountKeys(disabled: bool)
    ensures AccountA(disabled).Key() == KEY_A && AccountB().Key() == KEY_B
    ensures UniqueAccounts([AccountA(disabled), AccountB()]) == [AccountA(disabled), AccountB()]
  {
    hide ProviderKey, NormalizeKey, Trim;
    Names();
    var a, b := AccountA(disabled), AccountB();
    assert [a, b][..1] == [a] && [a][..0] == [];
    assert UniqueAccounts([a]) == [a];
    assert Keys([a]) == {KEY_A};
  }

  /** What the guard is shown of a file with the first setting as given. */
  lemma {:induction false} Views(setting: Setting, pending: map<string, bool>)
    requires KEY_B !in pending
    ensures View(FileWith(setting), pending) ==
      [AccountA(if KEY_A in pending then pending[KEY_A] else setting == Present(true)), AccountB()]
  {
    hide ProviderKey;
    Names();
    var file := FileWith(setting);
    assert file[..1] == [file[0]] && file[..1][..0] == [];
    assert View(file[..1], pending) == [AccountA(if KEY_A in pending then pending[KEY_A]
      else setting == Present(true))];
  }

  lemma {:induction false} IndexOfBoth()
    ensures Index([AccountA(false), AccountB()]) == map[KEY_A := AccountA(false), KEY_B := AccountB()]
  {
    hide NormalizeKey;
    AccountKeys(false);
    var two := [AccountA(false), AccountB()];
    assert two[..1] == [AccountA(false)] && two[..1][..0] == [];
    assert Index(two[..1]) == map[KEY_A := AccountA(false)];
  }

  /** The one request is counted as an off-baseline one. */
  lemma {:induction false} Evidence()
    ensures var m := Counted(EMPTY, [REQUEST], [AccountA(false), AccountB()], OPTIONS.Normalized());
      && m.Slot(KEY_A) == FRESH.(name := "a", streak := 1, channels := ["y"], lastChannel := "y",
        lastSampleAt := Some(0))
      && m.Slot(KEY_B) == FRESH && m.seen == [ById(KEY_A, "r")]
  {
    hide ProviderKey, NormalizeKey, Trim, EqualFold, UniqueAccounts, Index;
    Names();
    Channels();
    AccountKeys(false);
    IndexOfBoth();
    var index := map[KEY_A := AccountA(false), KEY_B := AccountB()];
    assert [REQUEST][..0] == [];
    assert CountAll(EMPTY, [REQUEST], index, "x") == CountOne(EMPTY, REQUEST, index, "x");
    assert ConsumptionOf(EMPTY, REQUEST, index, "x") == Some(Consumption(KEY_A, ById(KEY_A, "r"), "a", "y", 0, true));
    assert FRESH.channels + ["y"] == ["y"];
  }

  lemma {:induction false} BothEnabled()
    ensures EnabledInScope([AccountA(false), AccountB()], OPTIONS) == 2 && OPTIONS.Normalized() == OPTIONS
    ensures OPTIONS.InScope("a") && OPTIONS.InScope("b")
  {
    hide NormalizeKey;
    var two := [AccountA(false), AccountB()];
    assert OPTIONS.Scope() == {};
    assert two[..1] == [AccountA(false)] && two[..1][..0] == [];
    assert EnabledInScope(two[..1], OPTIONS) == 1;
  }

  /** What the guard remembers of the account it barred. */
  const SLOT_A := FRESH.(
    name := "a", streak := 1, channels := ["y"], lastChannel := "y", lastSampleAt := Some(0),
    disabledByGuard := true, disableCount := 1, nextRetryAt := Some(5 * MINUTE))

  predicate HasBarred(m: Memory) {
    m.Slot(KEY_A) == SLOT_A && m.Slot(KEY_B) == FRESH.(name := "b") && m.seen == [ById(KEY_A, "r")]
  }

  lemma {:induction false} FirstBackoff()
    ensures BackoffNext(0, 1, OPTIONS) == Some(5 * MINUTE)
  {
    assert Pow2(0) == 1;
  }

  /** The first tick's round bars the first account: the other one keeps the floor. */
  lemma {:induction false} FirstRound()
    ensures var r := Advanced(EMPTY, [REQUEST], [AccountA(false), AccountB()], 0, OPTIONS);
      r.decisions == [BARRED] && HasBarred(r.mem)
  {
    hide ProviderKey, NormalizeKey, Trim, EqualFold, Counted, UniqueAccounts, EnabledInScope, BackoffNext;
    FirstBackoff();
    Channels();
    Evidence();
    AccountKeys(false);
    BothEnabled();
    var a, b, o := AccountA(false), AccountB(), OPTIONS;
    var m := Counted(EMPTY, [REQUEST], [a, b], o);
    TwoTurns(m, a, b, 2, 0, o);
    var r := DecideOne(Round(m, 0, []), a, 2, 0, o);
    assert r.decisions == [BARRED];
    assert r.mem.Slot(KEY_B) == FRESH;
  }

  lemma {:induction false} TwoTurns(m: Memory, a: Account, b: Account, enabled: nat, now: Time, o: Options)
    ensures DecideUpTo(m, [a, b], enabled, now, o) ==
      DecideOne(DecideOne(Round(m, 0, []), a, enabled, now, o), b, enabled, now, o)
  {
    hide DecideOne;
    assert [a, b][..1] == [a] && [a][..0] == [];
    assert DecideUpTo(m, [a], enabled, now, o) == DecideOne(Round(m, 0, []), a, enabled, now, o);
  }

  // --- ticks with one decision --------------------------------------------------------------------------------

  /** The account's entry is the one found by its name, can be written, and does not say what is wanted yet. */
  ghost predicate Ready(file: seq<Entry>, i: nat, d: Decision) {
    && Targeted(file) && FirstOfKey(file, i) && d.name == file[i].name && d.providerKey == file[i].Key()
    && Writes(d) && Trim(d.name) != "" && Writable(file[i], d.action == Disable)
  }

  lemma {:induction false} DecisionCarried(w: World, d: Decision, o: Outcome, i: nat)
    requires Ready(w.file, i, d) && (o == FINE || o == NOT_WRITTEN)
    ensures var w', want := Applied(w, d, o), d.action == Disable;
      if o == FINE then
        w' == w.(saved := Some(w.mem), file := w.file[i := w.file[i].(setting := Present(want))],
          pending := w.pending - {d.providerKey})
      else
        w' == w.(saved := Some(w.mem), pending := w.pending[d.providerKey := want])
  {
    hide ProviderKey, Trim, SetEntryDisabled, EntryDisabled, Targeted, FindEntry;
    var want := d.action == Disable;
    EditIs(w.file, i, want);
    WrittenReadsBack(w.file, i, want);
  }

  lemma {:induction false} WrittenReadsBack(file: seq<Entry>, i: nat, want: bool)
    requires Targeted(file) && FirstOfKey(file, i) && Trim(file[i].name) != ""
    ensures EntryDisabled(file[i := file[i].(setting := Present(want))], file[i].name, want)
  {
    hide ProviderKey, Trim, Targeted, FindEntry;
    TargetAt(file, i);
    FindIsFirst(file, Trim(file[i].name));
    var g := file[i := file[i].(setting := Present(want))];
    assert g[i].name == file[i].name && g[i].Disabled() == want;
  }

  /** A tick whose round makes one decision, written or not, with the state saved. */
  lemma {:induction false} OneDecisionTick(w: World, env: Env, d: Decision, i: nat)
    requires env.readOk && env.saveOk && (env.outcomes == [] || env.outcomes == [NOT_WRITTEN])
    requires TickRound(w, env).decisions == [d] && Ready(w.file, i, d)
    ensures var w', want, m := Ticked(w, env), d.action == Disable, TickRound(w, env).mem;
      && w'.mem == m && w'.Stored() == m && w'.adopted && w'.audit == w.audit + [d]
      && w'.file == (if env.outcomes == [] then w.file[i := w.file[i].(setting := Present(want))] else w.file)
      && w'.pending == if env.outcomes == [] then w.pending - {d.providerKey} else w.pending[d.providerKey := want]
  {
    hide Ready, View, Advanced, Adopted, Unclaimed, Applied, FirstOfKey, Trim;
    var ready := Reconciled(w, View(w.file, w.pending), env).(mem := TickRound(w, env).mem);
    assert [d][..0] == [];
    assert Carried(ready, [], env) == ready;
    DecisionCarried(Recorded(ready, d, true), d, env.OutcomeOf(0), i);
  }

  /** The world after the first tick, with and without the write. */
  lemma {:induction false} AfterFirst(outcomes: seq<Outcome>)
    requires outcomes == [] || outcomes == [NOT_WRITTEN]
    ensures var w, written := Ticked(Start(TWO_ACCOUNTS), First(outcomes)), outcomes == [];
      && w.audit == [BARRED] && HasBarred(w.mem) && w.Stored() == w.mem && w.adopted
      && w.file == FileWith(if written then Present(true) else Absent)
      && w.pending == if written then map[] else map[KEY_A := true]
  {
    hide ProviderKey, NormalizeKey, Trim, Advanced, View, FindEntry, Ticked, Targeted, HasBarred;
    Names();
    FirstRound();
    Views(Absent, map[]);
    var start, env := Start(TWO_ACCOUNTS), First(outcomes);
    assert FileWith(Absent) == TWO_ACCOUNTS;
    NothingUnclaimed();
    TwoAccountsAreTargeted();
    assert TickRound(start, env).decisions == [BARRED];
    OneDecisionTick(start, env, BARRED, 0);
    assert start.pending - {KEY_A} == map[];
  }

  lemma {:induction false} NothingUnclaimed()
    ensures Unclaimed([AccountA(false), AccountB()], EMPTY) == []
  {
    var two := [AccountA(false), AccountB()];
    assert two[..1] == [AccountA(false)] && two[..1][..0] == [];
    assert Unclaimed(two[..1], EMPTY) == [];
  }

  lemma {:induction false} FindsFirst()
    ensures FindEntry(TWO_ACCOUNTS, "a") == Some(0)
  {
    hide Trim;
    Names();
    assert TWO_ACCOUNTS[..1] == [TWO_ACCOUNTS[0]];
    assert FindEntry(TWO_ACCOUNTS[..1], "a") == Some(0);
  }

  /**
   No operator is in this run: the guard disables an account, the write fails while the state is saved, the runner
   is restarted, and its first tick takes the account for enabled by hand.
   */
  lemma {:induction false} RestartInventsAnOperator(now: Time)
    ensures var w := Run(Start(TWO_ACCOUNTS), [Tick(First([NOT_WRITTEN])), Restart]);
      var said := LastDecision(TickRound(w, Later(now)).decisions, KEY_A);
      said != None && said.value.action == EnableExternal
  {
    hide ProviderKey, NormalizeKey, Trim, Ticked, TickRound, View, UniqueAccounts;
    var first := Tick(First([NOT_WRITTEN]));
    var w := Ticked(Start(TWO_ACCOUNTS), First([NOT_WRITTEN]));
    assert [first, Restart][..1] == [first] && [first][..0] == [];
    assert Run(Start(TWO_ACCOUNTS), [first]) == w;
    AfterFirst([NOT_WRITTEN]);
    Views(Absent, map[]);
    AccountKeys(false);
    RestartForgetsPending(w, Later(now), AccountA(false));
  }

  /** The bound on the disable time speaks of real runs: here the account is enabled when it is up. */
  lemma {:induction false} DisabledThenReleased()
    ensures var w := Run(Start(TWO_ACCOUNTS), [Tick(First([]))]);
      var w' := Ticked(w, Later(360 * MINUTE));
      && AccountA(true) in w.Shown() && w.mem.Owns(KEY_A)
      && !w'.mem.Owns(KEY_A)
      && LastDecision(w'.audit, KEY_A).Some? && LastDecision(w'.audit, KEY_A).value.action == Enable
  {
    hide ProviderKey, NormalizeKey, Trim, Ticked, View, UniqueAccounts;
    var first := Tick(First([]));
    var w := Ticked(Start(TWO_ACCOUNTS), First([]));
    assert [first][..0] == [];
    assert Run(Start(TWO_ACCOUNTS), [first]) == w;
    AfterFirst([]);
    Names();
    Views(Present(true), map[]);
    AccountKeys(true);
    assert w.Shown() == [AccountA(true), AccountB()];
    assert [BARRED][..0] == [];
    DisableTimeIsBounded(TWO_ACCOUNTS, [first], Later(360 * MINUTE), 360, AccountA(true), BARRED);
  }

  lemma {:induction false} TwoAccountsAreTargeted()
    ensures Targeted(TWO_ACCOUNTS)
  {
    hide Trim, NormalizeKey, ProviderKey;
    Names();
    FindsFirst();
    assert FindEntry(TWO_ACCOUNTS, "b") == Some(1);
  }

  /** The state is not saved and the runner dies right after the write: the next one owns the account all the same. */
  lemma {:induction false} CrashAfterTheWrite(next: Env)
    requires next.auditReadable
    ensures var w, env := Start(TWO_ACCOUNTS), First([NOT_SAVED]);
      && TickRound(w, env).decisions == [BARRED]
      && var s := CrashedAt(w, env, 0, Written);
         && s.file == FileWith(Present(true)) && s.saved == None
         && Reconciled(Next(s, Restart), View(s.file, map[]), next).mem.Owns(KEY_A)
  {
    hide ProviderKey, NormalizeKey, Trim, Advanced, View, FindEntry, Targeted, Unclaimed, UniqueAccounts;
    Names();
    FirstRound();
    Views(Absent, map[]);
    AccountKeys(false);
    NothingUnclaimed();
    TwoAccountsAreTargeted();
    var start, env := Start(TWO_ACCOUNTS), First([NOT_SAVED]);
    assert FileWith(Absent) == TWO_ACCOUNTS;
    var r := TickRound(start, env);
    assert r.decisions == [BARRED] && [BARRED][..0] == [];
    FindsFirst();
    assert SetEntryDisabled(TWO_ACCOUNTS, "a", true) == Changed(FileWith(Present(true))) by {
      assert FileWith(Present(true))[0].name == "a";
    }
    var s := CrashedAt(start, env, 0, Written);
    assert s.file == FileWith(Present(true));
    assert s.file[0].Key() == KEY_A;
    CrashIsRecovered(start, env, 0, Written, next, 0);
  }
}
