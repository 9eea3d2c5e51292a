/** A crash in the middle of a tick: between the audit line, the saved state and the written configuration. */
module RunnerCrash {
  import opened Common
  import opened Text
  import opened Guard
  import opened GuardRounds
  import opened Runner
  import opened RunnerOwnership
  import opened RunnerOverlay
  import opened RunnerLimits
  import opened RunnerFile
  import opened RunnerStranded

  /** How far one decision got: its audit line, the state saved before the write, the write itself. */
  datatype Stage = Audited | Saved | Written

  function Interrupted(w: World, d: Decision, o: Outcome, stage: Stage): World {
    var r := Recorded(w, d, o.audited);
    if stage == Audited || (d.action != Disable && d.action != Enable) || !o.readOk then r else
      match SetEntryDisabled(r.file, d.name, d.action == Disable)
      case Changed(updated) =>
        var kept := if o.saved then r.(saved := Some(r.mem)) else r;
        if stage == Saved then kept else kept.(file := updated)
      case _ => r
  }

  /** The world at the crash: `n` decisions of the tick were carried out and the next one got to `stage`. */
  function CrashedAt(w: World, env: Env, n: nat, stage: Stage): World
    requires n < |TickRound(w, env).decisions|
  {
    var r := TickRound(w, env);
    var ready := Reconciled(w, View(w.file, w.pending), env).(mem := r.mem);
    Interrupted(Carried(ready, r.decisions[..n], env), r.decisions[n], env.OutcomeOf(n), stage)
  }

  /** Whatever was changed in a file was changed by one of the decisions, to what that decision wants. */
  ghost predicate Accounted(base: seq<Entry>, file: seq<Entry>, decisions: seq<Decision>) {
    && SameEntries(base, file)
    && forall i :: 0 <= i < |file| && file[i] != base[i] ==>
         exists d :: d in decisions && d.Key() == file[i].Key() && file[i].Disabled() == (d.action == Disable)
  }

  /** A file with the decision written or not. */
  lemma {:induction false} DecisionAccounts(base: seq<Entry>, w: World, file: seq<Entry>, decisions: seq<Decision>,
                                            d: Decision,
                                            a: Account)
    requires Accounted(base, w.file, decisions) && Targeted(w.file) && a in w.Shown()
    requires d.name == a.name && d.providerKey == a.providerKey
    requires file == w.file
      || (Writes(d) && SetEntryDisabled(w.file, d.name, d.action == Disable) == Changed(file))
    ensures Accounted(base, file, decisions + [d])
  {
    hide ProviderKey, NormalizeKey, View, UniqueAccounts, SetEntryDisabled, Trim, Targeted, Overlay, FindEntry;
    var i := ShownIsFirst(w.file, w.pending, a);
    TargetAt(w.file, i);
    EditAt(w.file, i, d.action == Disable);
    assert d in decisions + [d] && forall e :: e in decisions ==> e in decisions + [d];
  }

  /** What the first decisions of a tick leave behind, and what the next one may already have written. */
  lemma {:induction false} CarriedAccounts(w: World, decisions: seq<Decision>, env: Env)
    requires Targeted(w.file) && OnePerKey(decisions) && About(decisions, w.Shown())
    ensures Accounted(w.file, Carried(w, decisions, env).file, decisions)
    ensures Targeted(Carried(w, decisions, env).file)
    ensures Carried(w, decisions, env).Shown() == AccountsAfter(w.Shown(), decisions)
  {
    hide NormalizeKey, View, UniqueAccounts, Targeted, SetEntryDisabled, Applied, Accounted;
    CarriedShows(w, decisions, env);
    TargetedSame(w.file, Carried(w, decisions, env).file);
    if decisions == [] {
      NothingToAccount(w.file);
    } else {
      var n := |decisions| - 1;
      var rest, d := decisions[..n], decisions[n];
      assert decisions == rest + [d] && d in decisions;
      assert OnePerKey(rest) && About(rest, w.Shown());
      CarriedAccounts(w, rest, env);
      var before := Recorded(Carried(w, rest, env), d, env.OutcomeOf(n).audited);
      var a := ShownBefore(w, rest, d, before.Shown());
      AppliedFile(before, d, env.OutcomeOf(n));
      DecisionAccounts(w.file, before, Carried(w, decisions, env).file, rest, d, a);
    }
  }

  /** A decision leaves the file as it was or as the edit makes it. */
  lemma {:induction false} AppliedFile(w: World, d: Decision, o: Outcome)
    ensures Applied(w, d, o).file == w.file
      || ((d.action == Disable || d.action == Enable)
          && SetEntryDisabled(w.file, d.name, d.action == Disable) == Changed(Applied(w, d, o).file))
  {
    hide SetEntryDisabled, EntryDisabled;
  }

  lemma {:induction false} NothingToAccount(file: seq<Entry>)
    ensures Accounted(file, file, [])
  {
  }

  lemma {:induction false} InterruptedAccounts(w: World, decisions: seq<Decision>, n: nat, env: Env, stage: Stage)
    requires n < |decisions| && Targeted(w.file) && OnePerKey(decisions) && About(decisions, w.Shown())
    requires forall o :: o in env.outcomes ==> o.audited
    ensures var s := Interrupted(Carried(w, decisions[..n], env), decisions[n], env.OutcomeOf(n), stage);
      Accounted(w.file, s.file, decisions[..n + 1]) && s.audit == w.audit + decisions[..n + 1]
  {
    hide NormalizeKey, View, UniqueAccounts, Targeted, SetEntryDisabled, Carried;
    var rest, d := decisions[..n], decisions[n];
    assert decisions[..n + 1] == rest + [d];
    assert OnePerKey(rest) && About(rest, w.Shown()) && d in decisions;
    CarriedAccounts(w, rest, env);
    CarriedAudits(w, rest, env);
    var before := Carried(w, rest, env);
    var a := ShownBefore(w, rest, d, before.Shown());
    DecisionAccounts(w.file, before, Interrupted(before, d, env.OutcomeOf(n), stage).file, rest, d, a);
  }

  // --- the saved state at the crash -------------------------------------------------------------------------

  /** The state is saved before the edit of a decision is written: the edit changes something, and the save succeeds. */
  ghost predicate SavesState(file: seq<Entry>, d: Decision, o: Outcome) {
    && Writes(d) && o.readOk && o.saved
    && exists i: nat :: FirstOfKey(file, i) && file[i].Key() == d.Key() && EditOf(file, i, d.action == Disable).Changed?
  }

  /** One of the decisions saved the state. */
  ghost predicate SavedAmong(file: seq<Entry>, decisions: seq<Decision>, env: Env) {
    exists j :: 0 <= j < |decisions| && SavesState(file, decisions[j], env.OutcomeOf(j))
  }

  /** A decision that got far enough saves the state exactly when its edit changes something. */
  lemma {:induction false} InterruptedSaves(w: World, d: Decision, o: Outcome, stage: Stage, i: nat)
    requires Targeted(w.file) && FirstOfKey(w.file, i)
    requires d.name == w.file[i].name && d.providerKey == w.file[i].Key() == d.Key()
    ensures Applied(w, d, o).saved == if SavesState(w.file, d, o) then Some(w.mem) else w.saved
    ensures Interrupted(w, d, o, stage).saved ==
      if stage != Audited && SavesState(w.file, d, o) then Some(w.mem) else w.saved
  {
    hide ProviderKey, NormalizeKey, SetEntryDisabled, EntryDisabled, Targeted, EditOf;
    EditIs(w.file, i, d.action == Disable);
  }

  /** Decisions about other keys leave the entry, and so what its decision will save, as they were. */
  lemma {:induction false} SavesSame(file: seq<Entry>, before: seq<Entry>, rest: seq<Decision>, env: Env, d: Decision,
                                     o: Outcome)
    requires CarriedInto(file, before, rest, env) && SameEntries(file, before) && TurnOf(rest, d.Key()) == None
    ensures SavesState(before, d, o) <==> SavesState(file, d, o)
  {
    hide ProviderKey, NormalizeKey, Trim;
    forall i: nat | i < |file| && file[i].Key() == d.Key()
      ensures before[i] == file[i] && (FirstOfKey(file, i) <==> FirstOfKey(before, i))
    {
      SameFirst(file, before, i);
      assert before[i] == Carrying(file, i, rest, env);
    }
  }

  lemma {:induction false} CarriedSaves(w: World, decisions: seq<Decision>, env: Env)
    requires Targeted(w.file) && OnePerKey(decisions) && About(decisions, w.Shown())
    ensures Carried(w, decisions, env).saved == if SavedAmong(w.file, decisions, env) then Some(w.mem) else w.saved
  {
    hide NormalizeKey, View, UniqueAccounts, Targeted, Applied, SavesState, SavedAmong, CarriedInto, OnePerKey,
         About, TurnOf, Interrupted;
    if decisions == [] {
      NoneSaved(w.file, env);
    } else {
      var n := |decisions| - 1;
      var rest, d := decisions[..n], decisions[n];
      assert decisions == rest + [d];
      AboutPrefix(decisions, w.Shown(), n);
      CarriedSaves(w, rest, env);
      CarriedKeeps(w, rest, env);
      var i := NextEntry(w, rest, d, env);
      var before := Recorded(Carried(w, rest, env), d, env.OutcomeOf(n).audited);
      InterruptedSaves(before, d, env.OutcomeOf(n), Saved, i);
      SavedOneMore(w.file, decisions, env);
    }
  }

  lemma {:induction false} NoneSaved(file: seq<Entry>, env: Env)
    ensures !SavedAmong(file, [], env)
  {
  }

  lemma {:induction false} SavedOneMore(file: seq<Entry>, decisions: seq<Decision>, env: Env)
    requires decisions != []
    ensures var n := |decisions| - 1;
      SavedAmong(file, decisions, env) <==>
        SavedAmong(file, decisions[..n], env) || SavesState(file, decisions[n], env.OutcomeOf(n))
  {
    hide SavesState;
    var n := |decisions| - 1;
    if SavedAmong(file, decisions[..n], env) {
      var j :| 0 <= j < n && SavesState(file, decisions[..n][j], env.OutcomeOf(j));
      assert SavesState(file, decisions[j], env.OutcomeOf(j));
    }
    if j :| 0 <= j < n && SavesState(file, decisions[j], env.OutcomeOf(j)) {
      assert decisions[..n][j] == decisions[j];
    }
  }

  /** The entry of the next decision, after the ones before it were carried out. */
  lemma {:induction false} NextEntry(w: World, rest: seq<Decision>, d: Decision, env: Env) returns (i: nat)
    requires Targeted(w.file) && OnePerKey(rest + [d]) && About(rest + [d], w.Shown())
    ensures var before := Carried(w, rest, env);
      && Targeted(before.file) && FirstOfKey(before.file, i)
      && d.name == before.file[i].name && d.providerKey == before.file[i].Key() == d.Key()
      && SameEntries(w.file, before.file) && CarriedInto(w.file, before.file, rest, env)
      && TurnOf(rest, d.Key()) == None
      && forall o :: SavesState(before.file, d, o) <==> SavesState(w.file, d, o)
  {
    hide NormalizeKey, View, UniqueAccounts, Targeted, SavesState, CarriedInto, Carried, TurnOf, OnePerKey, ShownAfter;
    assert d in rest + [d] && forall e :: e in rest ==> e in rest + [d];
    NotDecidedBefore(rest, d);
    CarriedWrites(w, rest, env);
    CarriedShows(w, rest, env);
    var before := Carried(w, rest, env);
    TargetedSame(w.file, before.file);
    var a := ShownBefore(w, rest, d, before.Shown());
    i := ShownIsFirst(before.file, before.pending, a);
    forall o
      ensures SavesState(before.file, d, o) <==> SavesState(w.file, d, o)
    {
      SavesSame(w.file, before.file, rest, env, d, o);
    }
  }

  /** The state was saved before the crash of the tick at its `n`-th decision. */
  ghost predicate StateSaved(w: World, env: Env, n: nat, stage: Stage)
    requires n < |TickRound(w, env).decisions|
  {
    var decisions := TickRound(w, env).decisions;
    SavedAmong(w.file, if stage == Audited then decisions[..n] else decisions[..n + 1], env)
  }

  /** What the next runner loads: the round's memory if it was saved, and what was stored before otherwise. */
  ghost function StateAtCrash(w: World, env: Env, n: nat, stage: Stage): Memory
    requires n < |TickRound(w, env).decisions|
  {
    if StateSaved(w, env, n, stage) then TickRound(w, env).mem else w.Stored()
  }

  lemma {:induction false} CrashedState(w: World, env: Env, n: nat, stage: Stage)
    requires env.readOk && Targeted(w.file) && n < |TickRound(w, env).decisions|
    ensures CrashedAt(w, env, n, stage).Stored() == StateAtCrash(w, env, n, stage)
  {
    hide NormalizeKey, View, UniqueAccounts, Advanced, Targeted, About, Carried, SavesState, CarriedInto, SavedAmong,
         Interrupted, Adopted, Unclaimed;
    var decisions := TickRound(w, env).decisions;
    var ready := Ready(w, env);
    var rest, d := decisions[..n], decisions[n];
    assert decisions[..n + 1] == rest + [d] && decisions[..n + 1][..n] == rest;
    AboutPrefix(decisions, ready.Shown(), n + 1);
    AboutPrefix(decisions, ready.Shown(), n);
    CarriedSaves(ready, rest, env);
    CarriedKeeps(ready, rest, env);
    var i := NextEntry(ready, rest, d, env);
    InterruptedSaves(Carried(ready, rest, env), d, env.OutcomeOf(n), stage, i);
    SavedOneMore(w.file, decisions[..n + 1], env);
  }

  lemma {:induction false} AboutPrefix(decisions: seq<Decision>, accounts: seq<Account>, n: nat)
    requires n <= |decisions| && OnePerKey(decisions) && About(decisions, accounts)
    ensures OnePerKey(decisions[..n]) && About(decisions[..n], accounts)
  {
    hide NormalizeKey;
    assert forall d :: d in decisions[..n] ==> d in decisions;
  }

  /** The world that carries a tick's decisions out. */
  lemma {:induction false} Ready(w: World, env: Env) returns (ready: World)
    requires env.readOk && Targeted(w.file)
    ensures ready == Reconciled(w, View(w.file, w.pending), env).(mem := TickRound(w, env).mem)
    ensures ready.file == w.file && ready.pending == w.pending && ready.audit == w.audit && ready.saved == w.saved
    ensures OnePerKey(TickRound(w, env).decisions) && About(TickRound(w, env).decisions, ready.Shown())
  {
    hide NormalizeKey, View, UniqueAccounts, Advanced, Adopted, Unclaimed, Targeted;
    var accounts := View(w.file, w.pending);
    var before := Reconciled(w, accounts, env);
    EnabledFloor(before.mem, TickSamples(env), accounts, env.now, env.options);
    RoundAbout(before.mem, TickSamples(env), accounts, env.now, env.options);
    ready := before.(mem := TickRound(w, env).mem);
  }

  /** A trail that ends with at most 500 decisions, one per account, is read for each of them. */
  lemma {:induction false} TrailEndsWith(audit: seq<Decision>, decisions: seq<Decision>, d: Decision)
    requires OnePerKey(decisions) && d in decisions && |decisions| <= 500
    ensures LastDecision(LastN(audit + decisions, 500), d.Key()) == Some(d)
  {
    hide NormalizeKey;
    var kept := LastN(audit + decisions, 500);
    var head := kept[..|kept| - |decisions|];
    assert kept == head + decisions;
    OnlyOne(decisions, d);
    LastOfConcat(head, decisions, d.Key());
  }

  // --- who is owned after it ----------------------------------------------------------------------------------

  /** What the next runner reads of the trail a crashed tick leaves, ends for this key with a disable. */
  predicate TrailSaysDisabled(w: World, env: Env, n: nat, key: string)
    requires n < |TickRound(w, env).decisions|
  {
    LastIsDisable(LastN(w.audit + TickRound(w, env).decisions[..n + 1], 500), key)
  }

  /**
   An entry that is off after a crash, whether the tick turned it off or found it so, is owned by the first
   reconciliation of the next runner if and only if the state that was saved last owns it (the round's, if a
   decision saved it, or else the one from before) or the trail that is read ends with its disable. Nothing the
   tick turned off, or meant to, is therefore left without an owner: its audit line comes before its write.
   */
  lemma {:induction false} CrashIsRecovered(w: World, env: Env, n: nat, stage: Stage, next: Env, i: nat)
    requires env.readOk && Targeted(w.file) && n < |TickRound(w, env).decisions|
    requires (forall o :: o in env.outcomes ==> o.audited) && next.auditReadable
    requires i < |w.file|
    requires var s := CrashedAt(w, env, n, stage); i < |s.file| && s.file[i].cline && s.file[i].Disabled()
    ensures var s, r := CrashedAt(w, env, n, stage), TickRound(w, env);
      && SameEntries(w.file, s.file)
      && var key, done := w.file[i].Key(), r.decisions[..n + 1];
         var owned := Reconciled(Next(s, Restart), View(s.file, map[]), next).mem.Owns(key);
         && (owned <==> StateAtCrash(w, env, n, stage).Owns(key) || TrailSaysDisabled(w, env, n, key))
         && (n < 500 && !w.file[i].Disabled() ==> owned)
         && (n < 500 && (exists d :: d in done && d.Key() == key && d.action == Disable) ==> owned)
  {
    hide NormalizeKey, View, UniqueAccounts, Advanced, Adopted, Unclaimed, Targeted, Reconciled, Carried,
         Interrupted, LastIsDisable, StateAtCrash, ProviderKey, FirstOfKey;
    var r := TickRound(w, env);
    var ready := Ready(w, env);
    InterruptedAccounts(ready, r.decisions, n, env, stage);
    CrashedState(w, env, n, stage);
    var s, done := CrashedAt(w, env, n, stage), r.decisions[..n + 1];
    var a := Listed(s.file, i);
    ReconcileExactly(Next(s, Restart), next, s.file[i].Key());
    AboutPrefix(r.decisions, ready.Shown(), n + 1);
    forall d | d in done && d.Key() == w.file[i].Key() && d.action == Disable && n < 500
      ensures TrailSaysDisabled(w, env, n, w.file[i].Key())
    {
      TrailEndsWith(w.audit, done, d);
      LastIs(LastN(w.audit + done, 500), d);
    }
  }

  /**
   An interrupted enable: the trail and the saved state have let the account go, and the file has not. Unless an
   operator steps in, the entry stays off for the whole life of the next runner, and it is not owned.
   */
  lemma {:induction false} InterruptedEnableStrands(w: World, env: Env, n: nat, i: nat, later: seq<Env>)
    requires env.readOk && Targeted(w.file) && n < |TickRound(w, env).decisions|
    requires forall o :: o in env.outcomes ==> o.audited
    requires var d := TickRound(w, env).decisions[n];
      && d.action == Enable && FirstOfKey(w.file, i) && w.file[i].Key() == d.Key() && w.file[i].Disabled()
      && SavesState(w.file, d, env.OutcomeOf(n))
    ensures var s := CrashedAt(w, env, n, Saved); var w' := Ticks(Next(s, Restart), later);
      && i < |s.file| && i < |w'.file| && w'.file[i] == s.file[i] == w.file[i]
      && !w'.mem.Owns(w.file[i].Key())
  {
    hide NormalizeKey, View, UniqueAccounts, Advanced, Adopted, Unclaimed, Targeted, Carried, LastIsDisable,
         SavesState, StateSaved, ProviderKey, CarriedInto, Ticks, Stranded, ReadAsDisabled;
    var r, s := TickRound(w, env), CrashedAt(w, env, n, Saved);
    var key := w.file[i].Key();
    CrashedBeforeWrite(w, env, n, i);
    EnableLetsGo(w, env, n);
    SameFirst(w.file, s.file, i);
    TargetedSame(w.file, s.file);
    forall k: nat | FirstReadable(later, k)
      ensures !ReadAsDisabled(s, later[k], key)
    {
      LastLineIsRead(w.audit + r.decisions[..n], r.decisions[n]);
      NotReadAsDisabled(s, later[k], r.decisions[n]);
    }
    RestartStrands(s, later, i);
    StrandedOrUntouched(s, later, i);
  }

  /** At that moment the entry, and its place in the list, are as they were before the tick. */
  lemma {:induction false} CrashedBeforeWrite(w: World, env: Env, n: nat, i: nat)
    requires env.readOk && Targeted(w.file) && n < |TickRound(w, env).decisions|
    requires forall o :: o in env.outcomes ==> o.audited
    requires i < |w.file| && w.file[i].Key() == TickRound(w, env).decisions[n].Key()
    requires SavesState(w.file, TickRound(w, env).decisions[n], env.OutcomeOf(n))
    ensures var s, r := CrashedAt(w, env, n, Saved), TickRound(w, env);
      && SameEntries(w.file, s.file) && s.file[i] == w.file[i] && s.Stored() == r.mem
      && s.audit == w.audit + r.decisions[..n] + [r.decisions[n]]
  {
    hide NormalizeKey, View, UniqueAccounts, Advanced, Adopted, Unclaimed, Targeted, Carried, SavesState,
         ProviderKey, SetEntryDisabled;
    var decisions := TickRound(w, env).decisions;
    var ready := Ready(w, env);
    var rest, d := decisions[..n], decisions[n];
    assert decisions[..n + 1] == rest + [d];
    AboutPrefix(decisions, ready.Shown(), n + 1);
    InterruptedAccounts(ready, decisions, n, env, Saved);
    CrashedState(w, env, n, Saved);
    var j := NextEntry(ready, rest, d, env);
    assert Carried(ready, rest, env).file[i] == Carrying(w.file, i, rest, env);
    assert w.audit + (rest + [d]) == w.audit + rest + [d];
    assert SavedAmong(w.file, decisions[..n + 1], env) by { SavedOneMore(w.file, decisions[..n + 1], env); }
  }

  /** A round does not own what it enables. */
  lemma {:induction false} EnableLetsGo(w: World, env: Env, n: nat)
    requires env.readOk && Targeted(w.file) && n < |TickRound(w, env).decisions|
    requires TickRound(w, env).decisions[n].action == Enable
    ensures !TickRound(w, env).mem.Owns(TickRound(w, env).decisions[n].Key())
  {
    hide NormalizeKey, View, UniqueAccounts, Advanced, Adopted, Unclaimed, Targeted;
    var r := TickRound(w, env);
    var ready := Ready(w, env);
    var accounts := View(w.file, w.pending);
    var m := Reconciled(w, accounts, env).mem;
    RoundOwnership(m, TickSamples(env), accounts, env.now, env.options);
    OnlyOne(r.decisions, r.decisions[n]);
    var key := r.decisions[n].Key();
    assert OwnershipFollows(m.Slot(key), r.mem.Slot(key), LastDecision(r.decisions, key), env.now,
      env.options.Normalized());
  }

  /** The last line of a trail is always among those that are read. */
  lemma {:induction false} LastLineIsRead(audit: seq<Decision>, d: Decision)
    ensures LastDecision(LastN(audit + [d], 500), d.Key()) == Some(d)
  {
    hide NormalizeKey;
    var kept := LastN(audit + [d], 500);
    assert kept[|kept| - 1] == d;
  }

  lemma {:induction false} NotReadAsDisabled(s: World, env: Env, d: Decision)
    requires LastDecision(LastN(s.audit, 500), d.Key()) == Some(d) && d.action != Disable
    ensures !ReadAsDisabled(s, env, d.Key())
  {
  }

  /** A runner that could not read the configuration yet is as it began. */
  lemma {:induction false} StrandedOrUntouched(s: World, later: seq<Env>, i: nat)
    requires i < |s.file| && !s.Stored().Owns(s.file[i].Key())
    requires var w' := Ticks(Next(s, Restart), later);
      w' == Next(s, Restart) || (Stranded(w', i) && w'.file[i] == s.file[i])
    ensures var w' := Ticks(Next(s, Restart), later);
      |w'.file| > i && w'.file[i] == s.file[i] && !w'.mem.Owns(s.file[i].Key())
  {
    hide Ticks;
  }

  lemma {:induction false} LastIs(audit: seq<Decision>, d: Decision)
    requires LastDecision(audit, d.Key()) == Some(d) && d.action == Disable
    ensures LastIsDisable(audit, d.Key())
  {
  }

  /** An entry the guard looks after is in its view. */
  lemma {:induction false} Listed(file: seq<Entry>, i: nat) returns (a: Account)
    requires i < |file| && file[i].cline
    ensures a in View(file, map[]) && a.Key() == file[i].Key() && a.disabled == file[i].Disabled()
  {
    hide ProviderKey, NormalizeKey;
    if i == |file| - 1 {
      a := Account(file[i].name, file[i].Key(), file[i].Disabled());
      ShownKey(file[i], map[]);
    } else {
      a := Listed(file[..|file| - 1], i);
    }
  }
}
