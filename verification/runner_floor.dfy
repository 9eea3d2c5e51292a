/** The enabled floor and the time an account stays off, in terms of what the configuration file says. */
module RunnerFloor {
  import opened Common
  import opened Text
  import opened Guard
  import opened GuardRounds
  import opened Runner
  import opened RunnerOwnership
  import opened RunnerOverlay
  import opened RunnerFile

  // --- the file's count and the guard's -------------------------------------------------------------------

  /** The accounts as the file alone shows them. */
  function InFile(file: seq<Entry>): seq<Account> { UniqueAccounts(View(file, map[])) }

  /** The pending write of an account says `want`, and its entry does not. */
  predicate Missing(a: Account, pending: map<string, bool>, want: bool) {
    a.Key() in pending && pending[a.Key()] == want && a.disabled != want
  }

  /** How many in-scope accounts have a pending write of that kind which the file lacks. */
  function CountMissing(accounts: seq<Account>, pending: map<string, bool>, want: bool, o: Options): nat {
    if accounts == [] then 0 else
      var a := accounts[|accounts| - 1];
      CountMissing(accounts[..|accounts| - 1], pending, want, o)
      + (if o.InScope(a.name) && Missing(a, pending, want) then 1 else 0)
  }

  /**
   The exact account: what the file has enabled is what the guard is shown enabled, with the pending disables
   the file lacks added and the pending enables it lacks taken away.
   */
  lemma {:induction false} FileAccount(file: seq<Entry>, pending: map<string, bool>, o: Options)
    ensures EnabledInScope(InFile(file), o) ==
      EnabledInScope(UniqueAccounts(View(file, pending)), o)
      + CountMissing(InFile(file), pending, true, o) - CountMissing(InFile(file), pending, false, o)
    ensures Keys(InFile(file)) == Keys(UniqueAccounts(View(file, pending)))
  {
    hide ProviderKey, NormalizeKey, View, UniqueAccounts, Keys, EnabledInScope, CountMissing, Overlay, Missing;
    if file == [] {
      EmptyView(pending);
      EmptyView(map[]);
      NothingCounted(pending, o);
    } else {
      var n := |file| - 1;
      var e := file[n];
      FileAccount(file[..n], pending, o);
      ShownGrows(file, pending);
      ShownGrows(file, map[]);
      OneMore(InFile(file[..n]), UniqueAccounts(View(file[..n], pending)), e, pending, o);
    }
  }

  lemma {:induction false} NothingCounted(pending: map<string, bool>, o: Options)
    ensures EnabledInScope([], o) == CountMissing([], pending, true, o) == CountMissing([], pending, false, o) == 0
  {
  }

  /** One more entry in both views. */
  lemma {:induction false} OneMore(inFile: seq<Account>, shown: seq<Account>, e: Entry, pending: map<string, bool>,
                                   o: Options)
    ensures var a, b := Account(e.name, e.Key(), Overlay(e, map[])), Account(e.name, e.Key(), Overlay(e, pending));
      && EnabledInScope(inFile + [a], o) - EnabledInScope(inFile, o) ==
         EnabledInScope(shown + [b], o) - EnabledInScope(shown, o)
         + CountMissing(inFile + [a], pending, true, o) - CountMissing(inFile, pending, true, o)
         - CountMissing(inFile + [a], pending, false, o) + CountMissing(inFile, pending, false, o)
      && (Keys(inFile) == Keys(shown) ==> Keys(inFile + [a]) == Keys(shown + [b]))
  {
    hide ProviderKey, NormalizeKey;
    var a, b := Account(e.name, e.Key(), Overlay(e, map[])), Account(e.name, e.Key(), Overlay(e, pending));
    ShownKey(e, map[]);
    ShownKey(e, pending);
    KeysPlus(inFile, a);
    KeysPlus(shown, b);
    assert (inFile + [a])[..|inFile|] == inFile && (shown + [b])[..|shown|] == shown;
  }

  lemma {:induction false} KeysPlus(accounts: seq<Account>, a: Account)
    ensures Keys(accounts + [a]) == Keys(accounts) + {a.Key()}
  {
    hide NormalizeKey;
  }

  // --- the file's floor -------------------------------------------------------------------------------------

  lemma {:induction false} NothingMissing(file: seq<Entry>, pending: map<string, bool>, accounts: seq<Account>,
                                          o: Options)
    requires NothingHangs(file, pending) && forall a :: a in accounts ==> a in InFile(file)
    ensures CountMissing(accounts, pending, false, o) == 0
  {
    hide ProviderKey, NormalizeKey, View, UniqueAccounts;
    if accounts != [] {
      var a := accounts[|accounts| - 1];
      NothingMissing(file, pending, accounts[..|accounts| - 1], o);
      assert a in accounts;
      var i := ShownIsFirst(file, map[], a);
    }
  }

  /** Every enable of the run reaches the disk. */
  ghost predicate AllEnablesLand(w: World, envs: seq<Env>) {
    forall k :: 0 <= k < |envs| && envs[k].readOk ==>
      EnablesLand(TickRound(Ticks(w, envs[..k]), envs[k]).decisions, envs[k])
  }

  lemma {:induction false} TickHangs(w: World, env: Env)
    requires Targeted(w.file) && NothingHangs(w.file, w.pending)
    requires env.readOk ==> EnablesLand(TickRound(w, env).decisions, env)
    ensures NothingHangs(Ticked(w, env).file, Ticked(w, env).pending)
  {
    hide NormalizeKey, View, UniqueAccounts, Advanced, Adopted, Unclaimed, Targeted, About, Applied, NothingHangs,
         EnablesLand;
    if env.readOk {
      var r, accounts := TickRound(w, env), View(w.file, w.pending);
      var before := Reconciled(w, accounts, env);
      EnabledFloor(before.mem, TickSamples(env), accounts, env.now, env.options);
      RoundAbout(before.mem, TickSamples(env), accounts, env.now, env.options);
      CarriedHangs(before.(mem := r.mem), r.decisions, env);
    }
  }

  /**
   The floor of the file: in a run with fixed options and no operator edits whose enables all reach the disk, the
   file itself never has fewer in-scope accounts enabled than min(initially shown enabled, minEnabled), whatever
   else fails.
   */
  lemma {:induction false} FileFloorHolds(w: World, envs: seq<Env>, options: Options)
    requires Targeted(w.file) && NothingHangs(w.file, w.pending) && AllEnablesLand(w, envs)
    requires forall env :: env in envs ==> env.options == options
    ensures NothingHangs(Ticks(w, envs).file, Ticks(w, envs).pending)
    ensures var o := options.Normalized();
      EnabledInScope(InFile(Ticks(w, envs).file), o) >= Min(EnabledInScope(w.Shown(), o), o.minEnabled)
  {
    hide Targeted, NothingHangs, Ticked, EnabledInScope, View, UniqueAccounts, TickRound, EnablesLand;
    var w', o := Ticks(w, envs), options.Normalized();
    RunHangs(w, envs);
    FloorHoldsForever(w, envs, options);
    FileAccount(w'.file, w'.pending, o);
    NothingMissing(w'.file, w'.pending, InFile(w'.file), o);
  }

  lemma {:induction false} RunHangs(w: World, envs: seq<Env>)
    requires Targeted(w.file) && NothingHangs(w.file, w.pending) && AllEnablesLand(w, envs)
    ensures Targeted(Ticks(w, envs).file) && NothingHangs(Ticks(w, envs).file, Ticks(w, envs).pending)
  {
    hide Targeted, NothingHangs, Ticked, TickRound, EnablesLand;
    if envs != [] {
      var n := |envs| - 1;
      assert forall k :: 0 <= k < n ==> envs[..n][..k] == envs[..k] && envs[..n][k] == envs[k];
      RunHangs(w, envs[..n]);
      TickHangs(Ticks(w, envs[..n]), envs[n]);
      if envs[n].readOk {
        TickShows(Ticks(w, envs[..n]), envs[n]);
        TargetedSame(Ticks(w, envs[..n]).file, Ticks(w, envs).file);
      } else {
        UnreadTick(Ticks(w, envs[..n]), envs[n]);
      }
    }
  }

  // --- when an account is on again in the file ----------------------------------------------------------------

  /**
   The bound on the disable time, in the file: by the first readable tick that long after the disable an enable is
   recorded, and from then the account's entry says enabled if and only if it did before or that edit reached the
   disk. (What is pending otherwise is never tried again: RunnerFile.NeverRetried.)
   */
  lemma {:induction false} FileTimeIsBounded(file: seq<Entry>, steps: seq<Step>, env: Env, minutes: int, a: Account,
                                             disable: Decision) returns (i: nat, turn: nat)
    requires Durable(steps) && LoseState !in steps && Recovering(steps, minutes)
    requires env.readOk && AllGood(env)
    requires var w := Run(Start(file), steps);
      && Targeted(w.file) && a in w.Shown() && a.disabled && w.mem.Owns(a.Key())
      && LastDecision(w.audit, a.Key()) == Some(disable)
      && env.now >= disable.time + minutes * MINUTE
    ensures var w := Run(Start(file), steps); var w', decisions := Ticked(w, env), TickRound(w, env).decisions;
      && FirstOfKey(w.file, i) && w.file[i].Key() == a.Key()
      && TurnOf(decisions, a.Key()) == Some(turn) && decisions[turn].action == Enable
      && |w'.file| == |w.file|
      && (w'.file[i].Disabled() <==> w.file[i].Disabled() && !Reaches(a.name, env.OutcomeOf(turn)))
  {
    hide Ticked, TickRound, View, UniqueAccounts, NormalizeKey, ProviderKey, Targeted, Trim, Run;
    var w := Run(Start(file), steps);
    DisableTimeIsBounded(file, steps, env, minutes, a, disable);
    OwnershipMatchesAudit(file, steps);
    TickShape(w, env);
    LastOfConcat(w.audit, TickRound(w, env).decisions, a.Key());
    LastIsTurn(TickRound(w, env).decisions, a.Key());
    i := ShownIsFirst(w.file, w.pending, a);
    turn := TurnOf(TickRound(w, env).decisions, a.Key()).value;
    TickWrites(w, env);
    assert Ticked(w, env).file[i] == Carrying(w.file, i, TickRound(w, env).decisions, env);
  }
}
