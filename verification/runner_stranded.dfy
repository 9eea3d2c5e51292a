/**
 Accounts that stay off: what the first tick of a new runner takes charge of, and what becomes of an account that it
 does not.
 */
module RunnerStranded {
  import opened Common
  import opened Text
  import opened Guard
  import opened GuardRounds
  import opened Runner
  import opened RunnerOwnership
  import opened RunnerOverlay
  import opened RunnerLimits
  import opened RunnerFile

  /** A round owns or decides about an account that shows disabled exactly if the memory owned it before. */
  lemma {:induction false} RoundTakesCharge(m: Memory, samples: seq<Sample>, accounts: seq<Account>, a: Account,
                                            now: Time,
                                            options: Options)
    requires a in UniqueAccounts(accounts) && a.disabled
    ensures var r := Advanced(m, samples, accounts, now, options);
      (r.mem.Owns(a.Key()) || TurnOf(r.decisions, a.Key()) != None) <==> m.Owns(a.Key())
  {
    hide NormalizeKey, Settle, Judge, Said;
    var o := options.Normalized();
    var unique := UniqueAccounts(accounts);
    var counted := Counted(m, samples, accounts, o);
    UniqueAccountsDistinct(accounts);
    if o.CanJudge() {
      CountingKeepsOwnership(m, samples, Index(unique), Trim(o.baseline));
    }
    var left := SettledFor(counted, unique, a, EnabledInScope(unique, o), now, o);
    OffIsOwnedOrLeft(counted.Slot(a.Key()), a, left, now, o);
    LastIsTurn(Advanced(m, samples, accounts, now, options).decisions, a.Key());
  }

  lemma {:induction false} OffIsOwnedOrLeft(slot: AccountState, a: Account, left: int, now: Time, o: Options)
    requires a.disabled
    ensures var v := Judge(slot, a, left, now, o);
      (Settle(slot, a, v, now, o).disabledByGuard || Said(slot, a, v, now, o) != None) <==> slot.disabledByGuard
  {
    hide NormalizeKey, Trim;
  }

  /**
   The first readable tick of a new runner owns or decides about an account that is off in the file if and only if
   the stored state owns it or the part of the trail that is read ends with a disable of it.
   */
  lemma {:induction false} FirstTickTakesCharge(w: World, env: Env, a: Account)
    requires env.readOk && a in UniqueAccounts(View(w.file, map[])) && a.disabled
    ensures var r := TickRound(Next(w, Restart), env);
      (r.mem.Owns(a.Key()) || TurnOf(r.decisions, a.Key()) != None) <==>
        w.Stored().Owns(a.Key()) || ReadAsDisabled(w, env, a.Key())
  {
    hide NormalizeKey, View, UniqueAccounts, Advanced, Adopted, Unclaimed, LastIsDisable;
    var w' := Next(w, Restart);
    var accounts := View(w.file, map[]);
    if env.auditReadable {
      ReconcileExactly(w', env, a.Key());
      UniqueAccountsDistinct(accounts);
    }
    RoundTakesCharge(Reconciled(w', accounts, env).mem, TickSamples(env), accounts, a, env.now, env.options);
  }

  // --- off for good -------------------------------------------------------------------------------------------

  /** The account of entry `i` is off, nobody's, and past the reconciliation: no tick will ever touch it. */
  ghost predicate Stranded(w: World, i: nat) {
    && Targeted(w.file) && FirstOfKey(w.file, i) && w.file[i].Disabled()
    && w.file[i].Key() !in w.pending && w.adopted && !w.mem.Owns(w.file[i].Key())
  }

  /** The entry of a key as the guard is shown it. */
  lemma {:induction false} ShownEntry(file: seq<Entry>, pending: map<string, bool>, i: nat) returns (a: Account)
    requires FirstOfKey(file, i)
    ensures a in UniqueAccounts(View(file, pending))
    ensures a == Account(file[i].name, file[i].Key(), Overlay(file[i], pending))
    ensures a.Key() == file[i].Key()
  {
    hide ProviderKey, NormalizeKey, Overlay, View, UniqueAccounts;
    var key := file[i].Key();
    ShownKeys(file, pending, key);
    a :| a in UniqueAccounts(View(file, pending)) && a.Key() == key;
    var j := ShownIsFirst(file, pending, a);
    assert j == i;
  }

  lemma {:induction false} StrandedTick(w: World, env: Env, i: nat)
    requires Stranded(w, i)
    ensures Stranded(Ticked(w, env), i) && Ticked(w, env).file[i] == w.file[i]
    ensures env.readOk ==> TurnOf(TickRound(w, env).decisions, w.file[i].Key()) == None
  {
    hide ProviderKey, NormalizeKey, View, UniqueAccounts, Advanced, Targeted, Adopted, Unclaimed, Ticked;
    if env.readOk {
      var accounts := View(w.file, w.pending);
      var a := ShownEntry(w.file, w.pending, i);
      RoundTakesCharge(w.mem, TickSamples(env), accounts, a, env.now, env.options);
      TickWrites(w, env);
      TickShows(w, env);
      TargetedSame(w.file, Ticked(w, env).file);
      SameFirst(w.file, Ticked(w, env).file, i);
      assert Ticked(w, env).file[i] == Carrying(w.file, i, TickRound(w, env).decisions, env);
    } else {
      UnreadTick(w, env);
    }
  }

  lemma {:induction false} StrandedStays(w: World, envs: seq<Env>, i: nat)
    requires Stranded(w, i)
    ensures Stranded(Ticks(w, envs), i) && Ticks(w, envs).file[i] == w.file[i]
  {
    hide Stranded, Ticked, FirstOfKey;
    if envs != [] {
      StrandedStays(w, envs[..|envs| - 1], i);
      assert Stranded(w, i) ==> i < |w.file| by { InFileAt(w, i); }
      StrandedTick(Ticks(w, envs[..|envs| - 1]), envs[|envs| - 1], i);
    } else {
      InFileAt(w, i);
    }
  }

  lemma {:induction false} InFileAt(w: World, i: nat)
    requires Stranded(w, i)
    ensures i < |w.file|
  {
  }

  // --- after a restart ----------------------------------------------------------------------------------------

  /** The first tick of the runner that can read the configuration. */
  predicate FirstReadable(envs: seq<Env>, k: nat) {
    k < |envs| && envs[k].readOk && forall j :: 0 <= j < k ==> !envs[j].readOk
  }

  /** What nobody claims in the first readable tick is stranded by it. */
  lemma {:induction false} FirstTickStrands(w: World, env: Env, i: nat)
    requires env.readOk && Targeted(w.file) && FirstOfKey(w.file, i) && w.file[i].Disabled()
    requires !w.Stored().Owns(w.file[i].Key()) && !ReadAsDisabled(w, env, w.file[i].Key())
    ensures Stranded(Ticked(Next(w, Restart), env), i) && Ticked(Next(w, Restart), env).file[i] == w.file[i]
  {
    hide ProviderKey, NormalizeKey, View, UniqueAccounts, Advanced, Targeted, Adopted, Unclaimed, Ticked,
         ReadAsDisabled;
    var w' := Next(w, Restart);
    var a := ShownEntry(w.file, map[], i);
    FirstTickTakesCharge(w, env, a);
    TickWrites(w', env);
    TickShows(w', env);
    TargetedSame(w.file, Ticked(w', env).file);
    SameFirst(w.file, Ticked(w', env).file, i);
    assert Ticked(w', env).file[i] == Carrying(w.file, i, TickRound(w', env).decisions, env);
  }

  /**
   An account that is off in the file, that the stored state does not own and that the first readable tick does not
   read as disabled, stays off in every run of the new runner, whatever happens.
   */
  lemma {:induction false} RestartStrands(w: World, envs: seq<Env>, i: nat)
    requires Targeted(w.file) && FirstOfKey(w.file, i) && w.file[i].Disabled()
    requires !w.Stored().Owns(w.file[i].Key())
    requires forall k: nat :: FirstReadable(envs, k) ==> !ReadAsDisabled(w, envs[k], w.file[i].Key())
    ensures var w' := Ticks(Next(w, Restart), envs);
      if forall env :: env in envs ==> !env.readOk then w' == Next(w, Restart)
      else Stranded(w', i) && w'.file[i] == w.file[i]
  {
    hide Stranded, Ticked, ProviderKey, Targeted, ReadAsDisabled, Next;
    if envs != [] {
      var n := |envs| - 1;
      var rest, before := envs[..n], Ticks(Next(w, Restart), envs[..n]);
      assert envs == rest + [envs[n]];
      forall k: nat | FirstReadable(rest, k)
        ensures !ReadAsDisabled(w, rest[k], w.file[i].Key())
      {
        assert FirstReadable(envs, k) && rest[k] == envs[k];
      }
      RestartStrands(w, rest, i);
      if forall env :: env in rest ==> !env.readOk {
        if envs[n].readOk {
          assert FirstReadable(envs, n);
          FirstTickStrands(w, envs[n], i);
        } else {
          UnreadTick(before, envs[n]);
        }
      } else {
        InFileAt(before, i);
        StrandedTick(before, envs[n], i);
      }
    }
  }
}
