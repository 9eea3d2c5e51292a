/** The pending overlay: what the guard sees after its own writes, whether or not they reached the file. */
module RunnerOverlay {
  import opened Common
  import opened Text
  import opened Guard
  import opened GuardRounds
  import opened Runner
  import opened RunnerOwnership

  /** `i` is the first entry the guard looks after under its key. */
  ghost predicate FirstOfKey(file: seq<Entry>, i: nat) {
    i < |file| && file[i].cline && forall j :: 0 <= j < i ==> !(file[j].cline && file[j].Key() == file[i].Key())
  }

  /** The entry the writer finds for an account (by trimmed name, over the whole list) is the entry the guard reads. */
  ghost predicate Targeted(file: seq<Entry>) {
    forall i: nat :: FirstOfKey(file, i) && Trim(file[i].name) != "" ==> FindEntry(file, Trim(file[i].name)) == Some(i)
  }

  ghost predicate SameEntries(f: seq<Entry>, g: seq<Entry>) {
    |f| == |g| && forall i :: 0 <= i < |f| ==> f[i].name == g[i].name && f[i].cline == g[i].cline
  }

  lemma {:induction false} FindSame(f: seq<Entry>, g: seq<Entry>, name: string)
    requires SameEntries(f, g)
    ensures FindEntry(f, name) == FindEntry(g, name)
  {
    hide Trim;
    if f != [] {
      FindSame(f[..|f| - 1], g[..|g| - 1], name);
    }
  }

  lemma {:induction false} TargetedSame(f: seq<Entry>, g: seq<Entry>)
    requires SameEntries(f, g) && Targeted(f)
    ensures Targeted(g)
  {
    hide Trim, ProviderKey;
    forall i: nat | FirstOfKey(g, i) && Trim(g[i].name) != ""
      ensures FindEntry(g, Trim(g[i].name)) == Some(i)
    {
      assert FirstOfKey(f, i);
      FindSame(f, g, Trim(g[i].name));
    }
  }

  /** The list with the flag of one key set. */
  function Flagged(accounts: seq<Account>, key: string, want: bool): (r: seq<Account>)
    ensures |r| == |accounts|
    ensures forall i :: 0 <= i < |r| ==> r[i] == if accounts[i].Key() == key then accounts[i].(disabled := want) else accounts[i]
  {
    seq(|accounts|, i requires 0 <= i < |accounts| =>
      if accounts[i].Key() == key then accounts[i].(disabled := want) else accounts[i])
  }

  lemma {:induction false} FlaggedKeys(accounts: seq<Account>, key: string, want: bool)
    ensures Keys(Flagged(accounts, key, want)) == Keys(accounts)
  {
    hide NormalizeKey;
    var r := Flagged(accounts, key, want);
    forall k
      ensures k in Keys(r) <==> k in Keys(accounts)
    {
      if k in Keys(accounts) {
        var i :| 0 <= i < |accounts| && accounts[i].Key() == k;
        assert r[i].Key() == k;
      }
      if k in Keys(r) {
        var i :| 0 <= i < |r| && r[i].Key() == k;
        assert accounts[i].Key() == k;
      }
    }
  }

  /** One more entry that the guard does or does not list. */
  lemma {:induction false} ShownGrows(file: seq<Entry>, pending: map<string, bool>)
    requires file != []
    ensures var e := file[|file| - 1];
      var rest := UniqueAccounts(View(file[..|file| - 1], pending));
      UniqueAccounts(View(file, pending)) ==
        if !e.cline || e.Key() in Keys(rest) then rest else rest + [Account(e.name, e.Key(), Overlay(e, pending))]
  {
    hide ProviderKey, NormalizeKey, Overlay;
    var e := file[|file| - 1];
    ProviderKeyNormal(e.name);
    var seen := View(file[..|file| - 1], pending);
    if e.cline {
      assert View(file, pending)[..|seen|] == seen;
    } else {
      assert View(file, pending) == seen;
    }
  }

  /** Whether a key is listed at all does not depend on flags or pending writes. */
  lemma {:induction false} ShownKeys(file: seq<Entry>, pending: map<string, bool>, key: string)
    ensures key in Keys(UniqueAccounts(View(file, pending))) <==> exists i :: 0 <= i < |file| && file[i].cline && file[i].Key() == key
  {
    hide ProviderKey, NormalizeKey, Overlay, View, UniqueAccounts;
    if file == [] {
      EmptyView(pending);
    } else {
      var n := |file| - 1;
      var e, rest := file[n], UniqueAccounts(View(file[..n], pending));
      ShownKeys(file[..n], pending, key);
      ShownGrows(file, pending);
      ProviderKeyNormal(e.name);
      var a := Account(e.name, e.Key(), Overlay(e, pending));
      assert a.Key() == e.Key() by { ShownKey(e, pending); }
      assert Keys(rest + [a]) == Keys(rest) + {e.Key()};
      if i :| 0 <= i < |file| && file[i].cline && file[i].Key() == key {
        assert i < n ==> file[..n][i] == file[i];
      }
      if i :| 0 <= i < n && file[..n][i].cline && file[..n][i].Key() == key {
        assert file[i] == file[..n][i];
      }
    }
  }

  lemma {:induction false} EmptyView(pending: map<string, bool>)
    ensures UniqueAccounts(View([], pending)) == []
  {
  }

  lemma {:induction false} ShownKey(e: Entry, pending: map<string, bool>)
    ensures Account(e.name, e.Key(), Overlay(e, pending)).Key() == e.Key()
  {
    hide ProviderKey, NormalizeKey, Overlay;
    ProviderKeyNormal(e.name);
  }

  /** Two files and overlays that differ for one key only, whose first entry shows `want` in the second. */
  ghost predicate DifferAt(f: seq<Entry>, p: map<string, bool>, g: seq<Entry>, q: map<string, bool>, key: string,
                           want: bool) {
    && SameEntries(f, g)
    && (forall i :: 0 <= i < |f| && f[i].cline && f[i].Key() != key ==> Overlay(g[i], q) == Overlay(f[i], p))
    && (forall i: nat :: FirstOfKey(f, i) && f[i].Key() == key ==> Overlay(g[i], q) == want)
  }

  lemma {:induction false} DifferPrefix(f: seq<Entry>, p: map<string, bool>, g: seq<Entry>, q: map<string, bool>,
                                        key: string, want: bool)
    requires f != [] && DifferAt(f, p, g, q, key, want)
    ensures DifferAt(f[..|f| - 1], p, g[..|g| - 1], q, key, want)
  {
    hide ProviderKey, Overlay;
    var f', g' := f[..|f| - 1], g[..|g| - 1];
    forall i: nat | FirstOfKey(f', i) && f'[i].Key() == key
      ensures Overlay(g'[i], q) == want
    {
      assert FirstOfKey(f, i);
    }
  }

  lemma {:induction false} ShownDiffers(f: seq<Entry>, p: map<string, bool>, g: seq<Entry>, q: map<string, bool>,
                                        key: string, want: bool)
    requires DifferAt(f, p, g, q, key, want)
    ensures UniqueAccounts(View(g, q)) == Flagged(UniqueAccounts(View(f, p)), key, want)
  {
    hide ProviderKey, NormalizeKey, Overlay, View, UniqueAccounts;
    if f == [] {
      EmptyView(p);
      EmptyView(q);
    } else {
      var n := |f| - 1;
      DifferPrefix(f, p, g, q, key, want);
      ShownDiffers(f[..n], p, g[..n], q, key, want);
      ShownGrows(f, p);
      ShownGrows(g, q);
      var us := UniqueAccounts(View(f[..n], p));
      FlaggedKeys(us, key, want);
      ShownKey(f[n], p);
      if f[n].cline && f[n].Key() == key && key !in Keys(us) {
        ShownKeys(f[..n], p, key);
        FirstAtEnd(f, key);
      }
    }
  }

  lemma {:induction false} FirstAtEnd(f: seq<Entry>, key: string)
    requires f != [] && f[|f| - 1].cline && f[|f| - 1].Key() == key
    requires forall i {:trigger f[..|f| - 1][i]} :: 0 <= i < |f| - 1 ==> !(f[..|f| - 1][i].cline && f[..|f| - 1][i].Key() == key)
    ensures FirstOfKey(f, |f| - 1)
  {
    hide ProviderKey;
    forall j | 0 <= j < |f| - 1
      ensures !(f[j].cline && f[j].Key() == key)
    {
      assert f[..|f| - 1][j] == f[j];
    }
  }

  /** Every shown account is the first entry of its key. */
  lemma {:induction false} ShownIsFirst(f: seq<Entry>, p: map<string, bool>, a: Account) returns (i: nat)
    requires a in UniqueAccounts(View(f, p))
    ensures FirstOfKey(f, i) && a == Account(f[i].name, f[i].Key(), Overlay(f[i], p)) && a.Key() == f[i].Key()
  {
    hide ProviderKey, NormalizeKey, Overlay, View, UniqueAccounts;
    i := 0;
    if f == [] {
      EmptyView(p);
    } else {
      var n := |f| - 1;
      ShownGrows(f, p);
      ShownKey(f[n], p);
      if a in UniqueAccounts(View(f[..n], p)) {
        i := ShownIsFirst(f[..n], p, a);
      } else {
        i := n;
        ShownKeys(f[..n], p, f[n].Key());
        FirstAtEnd(f, f[n].Key());
      }
    }
  }

  // --- carrying one decision out --------------------------------------------------------------------

  lemma {:induction false} EditAt(file: seq<Entry>, i: nat, want: bool)
    requires i < |file| && (Trim(file[i].name) != "" ==> FindEntry(file, Trim(file[i].name)) == Some(i))
    ensures match SetEntryDisabled(file, file[i].name, want)
      case Refused => true
      case Unchanged => file[i].Disabled() == want
      case Changed(g) => SameEntries(file, g) && g[i].Disabled() == want && forall j :: 0 <= j < |file| && j != i ==> g[j] == file[j]
  {
    hide Trim;
  }

  /**
   However the reads and writes go, afterwards the guard sees the account the way the decision wants it and
   every other account as before.
   */
  lemma {:induction false} AppliedShows(w: World, d: Decision, o: Outcome, a: Account)
    requires Targeted(w.file) && a in w.Shown()
    requires d.name == a.name && d.providerKey == a.providerKey && (d.action == Disable || d.action == Enable)
    ensures Applied(w, d, o).Shown() == Flagged(w.Shown(), a.Key(), d.action == Disable)
    ensures SameEntries(w.file, Applied(w, d, o).file)
  {
    hide ProviderKey, NormalizeKey, View, UniqueAccounts, EntryDisabled, SetEntryDisabled, Trim, Targeted, Overlay, FindEntry;
    var i := ShownIsFirst(w.file, w.pending, a);
    var want := d.action == Disable;
    assert Trim(w.file[i].name) != "" ==> FindEntry(w.file, Trim(w.file[i].name)) == Some(i) by {
      TargetAt(w.file, i);
    }
    EditAt(w.file, i, want);
    ApplyDiffers(w, d, o, i);
    ShownDiffers(w.file, w.pending, Applied(w, d, o).file, Applied(w, d, o).pending, a.Key(), want);
  }

  lemma {:induction false} TargetAt(file: seq<Entry>, i: nat)
    requires Targeted(file) && FirstOfKey(file, i)
    ensures Trim(file[i].name) != "" ==> FindEntry(file, Trim(file[i].name)) == Some(i)
  {
  }

  /** Either the wanted value stays pending, or the file says it and nothing is pending. */
  lemma {:induction false} AppliedShape(w: World, d: Decision, o: Outcome)
    requires d.action == Disable || d.action == Enable
    ensures var w', want := Applied(w, d, o), d.action == Disable;
      var edit := SetEntryDisabled(w.file, d.name, want);
      && (w'.file == w.file || (edit.Changed? && w'.file == edit.file))
      && (w'.pending == w.pending[d.providerKey := want]
          || (w'.pending == w.pending - {d.providerKey}
              && (edit.Unchanged? || (edit.Changed? && w'.file == edit.file))))
  {
    hide SetEntryDisabled, EntryDisabled;
  }

  lemma {:induction false} ApplyDiffers(w: World, d: Decision, o: Outcome, i: nat)
    requires FirstOfKey(w.file, i) && d.name == w.file[i].name && d.providerKey == w.file[i].Key()
    requires d.action == Disable || d.action == Enable
    requires match SetEntryDisabled(w.file, d.name, d.action == Disable)
      case Refused => true
      case Unchanged => w.file[i].Disabled() == (d.action == Disable)
      case Changed(g) => SameEntries(w.file, g) && g[i].Disabled() == (d.action == Disable)
                         && forall j :: 0 <= j < |w.file| && j != i ==> g[j] == w.file[j]
    ensures DifferAt(w.file, w.pending, Applied(w, d, o).file, Applied(w, d, o).pending, d.providerKey, d.action == Disable)
  {
    hide ProviderKey, Applied, SetEntryDisabled;
    AppliedShape(w, d, o);
    forall j: nat | FirstOfKey(w.file, j) && w.file[j].Key() == d.providerKey
      ensures j == i
    {
    }
  }

  // --- carrying a whole round out ---------------------------------------------------------------------

  /** Every decision of the round is about an account the guard is shown. */
  ghost predicate About(decisions: seq<Decision>, accounts: seq<Account>) {
    forall d :: d in decisions ==> exists a :: a in accounts && d.name == a.name && d.providerKey == a.providerKey
  }

  lemma {:induction false} FlaggedAfter(accounts: seq<Account>, decisions: seq<Decision>, d: Decision)
    requires OnePerKey(decisions + [d])
    ensures AccountsAfter(accounts, decisions + [d]) ==
      if d.action == Disable || d.action == Enable
      then Flagged(AccountsAfter(accounts, decisions), d.Key(), d.action == Disable) else AccountsAfter(accounts, decisions)
  {
    hide NormalizeKey;
    var all := decisions + [d];
    assert all[..|decisions|] == decisions;
    LastDecisionOf(decisions, d.Key());
    forall j | 0 <= j < |decisions|
      ensures decisions[j].Key() != d.Key()
    {
      assert all[j].Key() != all[|decisions|].Key();
    }
    forall i | 0 <= i < |accounts|
      ensures ShownAfter(accounts[i], all) ==
        if accounts[i].Key() == d.Key() && (d.action == Disable || d.action == Enable) then d.action == Disable
        else ShownAfter(accounts[i], decisions)
    {
    }
  }

  /** The account of a decision, as it is shown after other decisions. */
  lemma {:induction false} ShownBefore(w: World, decisions: seq<Decision>, d: Decision,
                                       shown: seq<Account>) returns (a: Account)
    requires shown == AccountsAfter(w.Shown(), decisions)
    requires exists b :: b in w.Shown() && d.name == b.name && d.providerKey == b.providerKey
    ensures a in shown && d.name == a.name && d.providerKey == a.providerKey
  {
    hide NormalizeKey, View, UniqueAccounts, ShownAfter;
    var b :| b in w.Shown() && d.name == b.name && d.providerKey == b.providerKey;
    var i :| 0 <= i < |w.Shown()| && w.Shown()[i] == b;
    a := shown[i];
  }

  lemma {:induction false} CarriedShows(w: World, decisions: seq<Decision>, env: Env)
    requires Targeted(w.file) && OnePerKey(decisions) && About(decisions, w.Shown())
    ensures Carried(w, decisions, env).Shown() == AccountsAfter(w.Shown(), decisions)
    ensures SameEntries(w.file, Carried(w, decisions, env).file)
  {
    hide NormalizeKey, View, UniqueAccounts, Applied, Targeted, ShownAfter;
    if decisions == [] {
      NoneAfter(w.Shown());
    } else {
      var n := |decisions| - 1;
      var rest, d := decisions[..n], decisions[n];
      assert decisions == rest + [d];
      CarriedShows(w, rest, env);
      var before := Recorded(Carried(w, rest, env), d, env.OutcomeOf(n).audited);
      FlaggedAfter(w.Shown(), rest, d);
      var b := ShownBefore(w, rest, d, before.Shown());
      assert b.Key() == d.Key();
      if d.action == Disable || d.action == Enable {
        TargetedSame(w.file, before.file);
        AppliedShows(before, d, env.OutcomeOf(n), b);
      } else {
        AppliedQuiet(before, d, env.OutcomeOf(n));
      }
    }
  }

  lemma {:induction false} NoneAfter(accounts: seq<Account>)
    ensures AccountsAfter(accounts, []) == accounts
  {
  }

  lemma {:induction false} AppliedQuiet(w: World, d: Decision, o: Outcome)
    requires d.action != Disable && d.action != Enable
    ensures Applied(w, d, o) == w
  {
  }

  lemma {:induction false} RoundAbout(m: Memory, samples: seq<Sample>, accounts: seq<Account>, now: Time,
                                      options: Options)
    ensures About(Advanced(m, samples, accounts, now, options).decisions, UniqueAccounts(accounts))
    ensures forall a :: a in UniqueAccounts(accounts) && (m.Owns(a.Key()) ==> a.disabled) ==>
      LastDecision(Advanced(m, samples, accounts, now, options).decisions, a.Key()) == None ||
      LastDecision(Advanced(m, samples, accounts, now, options).decisions, a.Key()).value.action != EnableExternal
  {
    hide NormalizeKey, Settle, Judge, Said;
    var o := options.Normalized();
    var unique := UniqueAccounts(accounts);
    var counted := Counted(m, samples, accounts, o);
    var r := Advanced(m, samples, accounts, now, options);
    UniqueAccountsDistinct(accounts);
    RoundLeavesOthers(counted, unique, EnabledInScope(unique, o), now, o);
    if o.CanJudge() {
      CountingKeepsOwnership(m, samples, Index(unique), Trim(o.baseline));
    }
    forall d | d in r.decisions
      ensures exists a :: a in unique && d.name == a.name && d.providerKey == a.providerKey
    {
      OnlyOne(r.decisions, d);
      var a :| a in unique && a.Key() == d.Key();
      var left := SettledFor(counted, unique, a, EnabledInScope(unique, o), now, o);
      SaidNames(counted.Slot(a.Key()), a, left, now, o);
    }
    forall a | a in unique && (m.Owns(a.Key()) ==> a.disabled)
      ensures LastDecision(r.decisions, a.Key()) == None || LastDecision(r.decisions, a.Key()).value.action != EnableExternal
    {
      var left := SettledFor(counted, unique, a, EnabledInScope(unique, o), now, o);
      SaidNames(counted.Slot(a.Key()), a, left, now, o);
    }
  }

  lemma {:induction false} SaidNames(slot: AccountState, a: Account, left: int, now: Time, o: Options)
    ensures var said := Said(slot, a, Judge(slot, a, left, now, o), now, o);
      said != None ==>
        said.value.name == a.name && said.value.providerKey == a.providerKey &&
        (said.value.action == EnableExternal ==> slot.disabledByGuard && !a.disabled)
  {
    hide NormalizeKey, Trim;
  }

  // --- runs in which only the guard edits the file -------------------------------------------------------

  function Ticks(w: World, envs: seq<Env>): World {
    if envs == [] then w else Ticked(Ticks(w, envs[..|envs| - 1]), envs[|envs| - 1])
  }

  /** Everything the guard owns shows disabled. */
  ghost predicate OwnedShown(w: World) {
    forall a :: a in w.Shown() && w.mem.Owns(a.Key()) ==> a.disabled
  }

  /** For this key, shown disabled is the same as owned. */
  ghost predicate InStep(w: World, key: string) {
    forall a :: a in w.Shown() && a.Key() == key ==> (a.disabled <==> w.mem.Owns(key))
  }

  /** The reconciliation has run, or has nothing to claim. */
  ghost predicate Claimed(w: World) {
    w.adopted || forall key :: LastIsDisable(w.audit, key) ==> w.mem.Owns(key)
  }

  ghost predicate Steady(w: World) {
    Targeted(w.file) && OwnedShown(w) && Claimed(w)
  }

  lemma {:induction false} ReconcileKeepsSlots(w: World, env: Env)
    requires Claimed(w)
    ensures forall key :: Reconciled(w, View(w.file, w.pending), env).mem.Slot(key) == w.mem.Slot(key)
  {
    hide NormalizeKey, LastIsDisable, View;
    if !w.adopted {
      forall key
        ensures LastIsDisable(LastN(w.audit, 500), key) ==> w.mem.Owns(key)
      {
        SuffixClaimsLess(w.audit, 500, key);
      }
      AdoptNothing(w.mem, UniqueAccounts(Unclaimed(View(w.file, w.pending), w.mem)), LastN(w.audit, 500),
                   env.now, env.options.Normalized());
    }
  }

  lemma {:induction false} AuditGrows(start: seq<Decision>, before: seq<Decision>, decisions: seq<Decision>,
                                      audited: bool)
    requires decisions != [] && |before| >= |start| && before[..|start|] == start
    requires forall d :: d in before[|start|..] ==> d in decisions[..|decisions| - 1]
    ensures var after := if audited then before + [decisions[|decisions| - 1]] else before;
      after[..|start|] == start && forall d :: d in after[|start|..] ==> d in decisions
  {
    var last := decisions[|decisions| - 1];
    assert decisions == decisions[..|decisions| - 1] + [last];
    assert (before + [last])[|start|..] == before[|start|..] + [last];
  }

  lemma {:induction false} CarriedKeeps(w: World, decisions: seq<Decision>, env: Env)
    ensures Carried(w, decisions, env).mem == w.mem
    ensures Carried(w, decisions, env).adopted == w.adopted
    ensures |Carried(w, decisions, env).audit| >= |w.audit|
    ensures Carried(w, decisions, env).audit[..|w.audit|] == w.audit
    ensures forall d :: d in Carried(w, decisions, env).audit[|w.audit|..] ==> d in decisions
  {
    hide Applied, LastN;
    if decisions == [] {
      assert w.audit[..|w.audit|] == w.audit;
    } else {
      var n := |decisions| - 1;
      var before := Carried(w, decisions[..n], env);
      CarriedKeeps(w, decisions[..n], env);
      AppliedFrame(Recorded(before, decisions[n], env.OutcomeOf(n).audited), decisions[n], env.OutcomeOf(n));
      AuditGrows(w.audit, before.audit, decisions, env.OutcomeOf(n).audited);
    }
  }

  /** One tick, as the guard sees it: the shown accounts move exactly as the round decides. */
  lemma {:induction false} TickShows(w: World, env: Env)
    requires env.readOk && Targeted(w.file)
    ensures var r, w' := TickRound(w, env), Ticked(w, env);
      && w'.Shown() == AccountsAfter(w.Shown(), r.decisions)
      && SameEntries(w.file, w'.file) && w'.mem == r.mem && w'.adopted
      && |w'.audit| >= |w.audit| && w'.audit[..|w.audit|] == w.audit
      && (forall d :: d in w'.audit[|w.audit|..] ==> d in r.decisions)
  {
    hide NormalizeKey, View, UniqueAccounts, Advanced, Adopted, Unclaimed, Targeted, About, Applied;
    var r := TickRound(w, env);
    var accounts := View(w.file, w.pending);
    var before := Reconciled(w, accounts, env);
    EnabledFloor(before.mem, TickSamples(env), accounts, env.now, env.options);
    RoundAbout(before.mem, TickSamples(env), accounts, env.now, env.options);
    CarriedShows(before.(mem := r.mem), r.decisions, env);
    CarriedKeeps(before.(mem := r.mem), r.decisions, env);
  }

  lemma {:induction false} AfterMember(accounts: seq<Account>, decisions: seq<Decision>,
                                       b: Account) returns (a: Account)
    requires b in AccountsAfter(accounts, decisions)
    ensures a in accounts && b == a.(disabled := ShownAfter(a, decisions)) && b.Key() == a.Key()
  {
    var i :| 0 <= i < |accounts| && AccountsAfter(accounts, decisions)[i] == b;
    a := accounts[i];
  }

  lemma {:induction false} TickSteady(w: World, env: Env)
    requires Steady(w)
    ensures Steady(Ticked(w, env))
    ensures forall key :: InStep(w, key) ==> InStep(Ticked(w, env), key)
    ensures |Ticked(w, env).audit| >= |w.audit| && Ticked(w, env).audit[..|w.audit|] == w.audit
    ensures forall d :: d in Ticked(w, env).audit[|w.audit|..] ==> d.action != EnableExternal
  {
    hide NormalizeKey, View, UniqueAccounts, Advanced, Ticked, Reconciled, Targeted, ShownAfter;
    if !env.readOk {
      UnreadTick(w, env);
    } else {
      var accounts := View(w.file, w.pending);
      var m, r, w' := Reconciled(w, accounts, env).mem, TickRound(w, env), Ticked(w, env);
      TickShows(w, env);
      TargetedSame(w.file, w'.file);
      ReconcileKeepsSlots(w, env);
      RoundAbout(m, TickSamples(env), accounts, env.now, env.options);
      forall b | b in w'.Shown()
        ensures w'.mem.Owns(b.Key()) ==> b.disabled
        ensures InStep(w, b.Key()) ==> (b.disabled <==> w'.mem.Owns(b.Key()))
      {
        var a := AfterMember(w.Shown(), r.decisions, b);
        TickAccount(w, env, a);
      }
      EnabledFloor(m, TickSamples(env), accounts, env.now, env.options);
      forall d | d in w'.audit[|w.audit|..]
        ensures d.action != EnableExternal
      {
        OnlyOne(r.decisions, d);
        var a :| a in w.Shown() && d.name == a.name && d.providerKey == a.providerKey;
        assert a.Key() == d.Key();
        assert m.Slot(a.Key()) == w.mem.Slot(a.Key());
      }
    }
  }

  /** One shown account through one tick. */
  lemma {:induction false} TickAccount(w: World, env: Env, a: Account)
    requires env.readOk && Claimed(w) && a in w.Shown() && (w.mem.Owns(a.Key()) ==> a.disabled)
    ensures var r := TickRound(w, env);
      && (r.mem.Owns(a.Key()) ==> ShownAfter(a, r.decisions))
      && ((a.disabled <==> w.mem.Owns(a.Key())) ==> (ShownAfter(a, r.decisions) <==> r.mem.Owns(a.Key())))
  {
    hide NormalizeKey, View, UniqueAccounts, Advanced, Reconciled;
    var accounts := View(w.file, w.pending);
    var m, r := Reconciled(w, accounts, env).mem, TickRound(w, env);
    ReconcileKeepsSlots(w, env);
    assert m.Slot(a.Key()) == w.mem.Slot(a.Key());
    RoundAbout(m, TickSamples(env), accounts, env.now, env.options);
    RoundOwnership(m, TickSamples(env), accounts, env.now, env.options);
    assert OwnershipFollows(m.Slot(a.Key()), r.mem.Slot(a.Key()), LastDecision(r.decisions, a.Key()), env.now, env.options.Normalized());
  }

  /**
   A failed write is never mistaken for an operator. In one runner's life, with only the guard editing the
   file and every read, save, audit append and write free to fail (leaving the old bytes or the new), no
   `enable_external` is ever recorded, and an account that began in step, that is enabled and not owned,
   shows disabled exactly when the guard owns it.
   */
  lemma {:induction false} NoFalseOperator(w: World, envs: seq<Env>)
    requires Steady(w)
    ensures Steady(Ticks(w, envs))
    ensures forall key :: InStep(w, key) ==> InStep(Ticks(w, envs), key)
    ensures |Ticks(w, envs).audit| >= |w.audit| && Ticks(w, envs).audit[..|w.audit|] == w.audit
    ensures forall d :: d in Ticks(w, envs).audit[|w.audit|..] ==> d.action != EnableExternal
  {
    hide Steady, InStep, Ticked;
    if envs == [] {
      assert w.audit[..|w.audit|] == w.audit;
    } else {
      var before := Ticks(w, envs[..|envs| - 1]);
      NoFalseOperator(w, envs[..|envs| - 1]);
      TickSteady(before, envs[|envs| - 1]);
      var audit := Ticks(w, envs).audit;
      assert audit[..|w.audit|] == audit[..|before.audit|][..|w.audit|];
      assert audit[|w.audit|..] == before.audit[|w.audit|..] + audit[|before.audit|..];
    }
  }

  /** A fresh installation is steady, so the above holds of it; accounts that begin enabled begin in step. */
  lemma {:induction false} StartSteady(file: seq<Entry>)
    requires Targeted(file)
    ensures Steady(Start(file))
    ensures forall key :: (forall a :: a in Start(file).Shown() && a.Key() == key ==> !a.disabled) ==> InStep(Start(file), key)
  {
    hide NormalizeKey, View, UniqueAccounts, Targeted;
  }

  /**
   The enabled floor over a run: with fixed options and no operator edits the guard's view never has fewer
   in-scope accounts enabled than min(initially enabled, minEnabled).
   */
  lemma {:induction false} FloorHoldsForever(w: World, envs: seq<Env>, options: Options)
    requires Targeted(w.file)
    requires forall env :: env in envs ==> env.options == options
    ensures Targeted(Ticks(w, envs).file)
    ensures var o := options.Normalized();
      EnabledInScope(Ticks(w, envs).Shown(), o) >= Min(EnabledInScope(w.Shown(), o), o.minEnabled)
  {
    hide NormalizeKey, View, UniqueAccounts, Advanced, Ticked, Reconciled, Targeted, EnabledInScope;
    if envs != [] {
      var env := envs[|envs| - 1];
      var before := Ticks(w, envs[..|envs| - 1]);
      FloorHoldsForever(w, envs[..|envs| - 1], options);
      if env.readOk {
        var accounts := View(before.file, before.pending);
        TickShows(before, env);
        TargetedSame(before.file, Ticked(before, env).file);
        EnabledFloor(Reconciled(before, accounts, env).mem, TickSamples(env), accounts, env.now, env.options);
      } else {
        UnreadTick(before, env);
      }
    }
  }
}
