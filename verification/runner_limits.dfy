/** Where the runner's guarantees end: which entry a decision really changes, and what a restart forgets. */
module RunnerLimits {
  import opened Common
  import opened Text
  import opened Guard
  import opened GuardRounds
  import opened Runner
  import opened RunnerOwnership
  import opened RunnerOverlay

  // --- the entries the guard may touch ------------------------------------------------------------------

  /** Only `disabled` settings differ, and only those of entries the guard looks after. */
  ghost predicate OnlyFlags(f: seq<Entry>, g: seq<Entry>) {
    |f| == |g| && forall i :: 0 <= i < |f| ==> g[i] == f[i] || (f[i].cline && g[i] == f[i].(setting := g[i].setting))
  }

  lemma {:induction false} AppliedOnlyFlags(w: World, d: Decision, o: Outcome, a: Account)
    requires Targeted(w.file) && a in w.Shown() && d.name == a.name
    ensures OnlyFlags(w.file, Applied(w, d, o).file)
  {
    hide ProviderKey, NormalizeKey, View, UniqueAccounts, EntryDisabled, Trim, Targeted, Overlay, FindEntry;
    var i := ShownIsFirst(w.file, w.pending, a);
    TargetAt(w.file, i);
  }

  lemma {:induction false} CarriedOnlyFlags(w: World, decisions: seq<Decision>, env: Env)
    requires Targeted(w.file) && OnePerKey(decisions) && About(decisions, w.Shown())
    ensures OnlyFlags(w.file, Carried(w, decisions, env).file)
  {
    hide NormalizeKey, View, UniqueAccounts, Applied, Targeted;
    if decisions != [] {
      var n := |decisions| - 1;
      var rest, d := decisions[..n], decisions[n];
      CarriedOnlyFlags(w, rest, env);
      CarriedShows(w, rest, env);
      var before := Recorded(Carried(w, rest, env), d, env.OutcomeOf(n).audited);
      TargetedSame(w.file, before.file);
      var a :| a in w.Shown() && d.name == a.name && d.providerKey == a.providerKey;
      var i :| 0 <= i < |w.Shown()| && w.Shown()[i] == a;
      assert before.Shown()[i].name == a.name;
      AppliedOnlyFlags(before, d, env.OutcomeOf(n), before.Shown()[i]);
    }
  }

  lemma {:induction false} TickOnlyFlags(w: World, env: Env)
    requires Targeted(w.file)
    ensures OnlyFlags(w.file, Ticked(w, env).file) && Targeted(Ticked(w, env).file)
  {
    hide NormalizeKey, View, UniqueAccounts, Advanced, Adopted, Unclaimed, Targeted, About, Applied;
    if env.readOk {
      var accounts := View(w.file, w.pending);
      var before, r := Reconciled(w, accounts, env), TickRound(w, env);
      EnabledFloor(before.mem, TickSamples(env), accounts, env.now, env.options);
      RoundAbout(before.mem, TickSamples(env), accounts, env.now, env.options);
      CarriedOnlyFlags(before.(mem := r.mem), r.decisions, env);
      CarriedShows(before.(mem := r.mem), r.decisions, env);
      TargetedSame(w.file, Ticked(w, env).file);
    }
  }

  /**
   Over any number of ticks, whatever fails, the guard changes nothing but `disabled` settings, and none of an
   entry it does not look after.
   */
  lemma {:induction false} NoForeignEntryTouched(w: World, envs: seq<Env>)
    requires Targeted(w.file)
    ensures OnlyFlags(w.file, Ticks(w, envs).file) && Targeted(Ticks(w, envs).file)
  {
    hide Targeted, Ticked;
    if envs != [] {
      NoForeignEntryTouched(w, envs[..|envs| - 1]);
      TickOnlyFlags(Ticks(w, envs[..|envs| - 1]), envs[|envs| - 1]);
    }
  }

  // --- a decision whose name leads elsewhere ------------------------------------------------------------

  /** What the first entry of that exact name says. */
  function ReadsAs(file: seq<Entry>, name: string): Option<bool> {
    if file == [] then None
    else if file[0].name == name then Some(file[0].Disabled())
    else ReadsAs(file[1..], name)
  }

  lemma {:induction false} ReadsAsIs(file: seq<Entry>, name: string, want: bool)
    ensures EntryDisabled(file, name, want) <==> ReadsAs(file, name) == Some(want)
  {
    if file != [] {
      ReadsAsIs(file[1..], name, want);
      if file[0].name != name {
        if i :| 0 <= i < |file| && file[i].name == name && file[i].Disabled() == want && forall j :: 0 <= j < i ==> file[j].name != name {
          assert file[1..][i - 1] == file[i] && forall j :: 0 <= j < i - 1 ==> file[1..][j].name != name;
        }
        if i :| 0 <= i < |file[1..]| && file[1..][i].name == name && file[1..][i].Disabled() == want
                && forall j :: 0 <= j < i ==> file[1..][j].name != name {
          assert file[i + 1] == file[1..][i] && forall j :: 0 <= j < i + 1 ==> file[j].name != name;
        }
      }
    }
  }

  lemma {:induction false} ReadsAfterEdit(file: seq<Entry>, k: nat, e: Entry, name: string)
    requires k < |file| && e.name == file[k].name && forall j :: 0 <= j < k ==> file[j].name != name
    ensures ReadsAs(file[k := e], name) == if e.name == name then Some(e.Disabled()) else ReadsAs(file, name)
  {
    if k > 0 {
      ReadsAfterEdit(file[1..], k - 1, e, name);
      assert file[k := e][1..] == file[1..][k - 1 := e];
    }
  }

  /** The entry the writer finds for a name: the first whose trimmed name is the trimmed name. */
  function Found(file: seq<Entry>, name: string): Option<nat> {
    if Trim(name) == "" then None else FindEntry(file, Trim(name))
  }

  /** The setting of an entry can be given the wanted value. */
  predicate Writable(e: Entry, want: bool) { e.setting != Present(want) && !(e.setting == Absent && e.flow) }

  lemma {:induction false} FindIsFirst(file: seq<Entry>, name: string)
    ensures var found := FindEntry(file, name);
      && (found != None ==> found.value < |file| && Trim(file[found.value].name) == name)
      && forall j :: 0 <= j < (if found == None then |file| else found.value) ==> Trim(file[j].name) != name
  {
    hide Trim;
    if file != [] {
      FindIsFirst(file[..|file| - 1], name);
      assert forall j :: 0 <= j < |file| - 1 ==> file[..|file| - 1][j] == file[j];
    }
  }

  /**
   The writer's entry for account `i` is another one, and the write goes through: that entry already says what
   is wanted, or it takes the setting and the file then reads back as wanted, under the exact name.
   */
  predicate LeadsAstray(file: seq<Entry>, i: nat, want: bool)
    requires i < |file|
  {
    var found := Found(file, file[i].name);
    && found != None && found.value < |file| && found.value != i
    && (file[found.value].setting == Present(want)
        || (Writable(file[found.value], want)
            && (file[found.value].name == file[i].name || ReadsAs(file, file[i].name) == Some(want))))
  }

  /**
   What a decision does when every call succeeds and the account's own entry still says the opposite. The one
   entry that can change is the one found by trimmed name, and it changes exactly when it is writable. The guard
   is then shown what it decided, if and only if that did not lead astray: otherwise another entry was written,
   nothing is pending, and the next round reads the account as taken back (`TakenBackExactly`).
   */
  lemma {:induction false} DecisionTakesEffect(w: World, d: Decision, i: nat)
    requires FirstOfKey(w.file, i) && d.name == w.file[i].name && d.providerKey == w.file[i].Key()
    requires d.action == Disable || d.action == Enable
    requires w.file[i].Disabled() != (d.action == Disable)
    ensures var w', want, found := Applied(w, d, FINE), d.action == Disable, Found(w.file, d.name);
      && (found == None <==> Trim(d.name) == "") && (found != None ==> found.value <= i)
      && w'.file == (if found != None && Writable(w.file[found.value], want)
                     then w.file[found.value := w.file[found.value].(setting := Present(want))] else w.file)
      && (Overlay(w'.file[i], w'.pending) != want <==> LeadsAstray(w.file, i, want))
      && (LeadsAstray(w.file, i, want) ==> d.providerKey !in w'.pending)
  {
    hide ProviderKey, Trim, FindEntry, EntryDisabled, ReadsAs;
    var want := d.action == Disable;
    FindIsFirst(w.file, Trim(d.name));
    var found := FindEntry(w.file, Trim(d.name));
    if found != None {
      var k := found.value;
      var e := w.file[k].(setting := Present(want));
      assert forall j :: 0 <= j < k ==> w.file[j].name != d.name;
      ReadsAfterEdit(w.file, k, e, d.name);
      ReadsAsIs(w.file[k := e], d.name, want);
    }
  }

  /** The name leads astray only where the writer's entry is not the guard's. */
  lemma {:induction false} TargetedIsNotAstray(file: seq<Entry>, i: nat, want: bool)
    requires Targeted(file) && FirstOfKey(file, i)
    ensures !LeadsAstray(file, i, want)
  {
    hide Trim, FindEntry, ReadsAs;
  }

  /** A list in which another provider's entry carries the account's name. */
  const SAME_NAME := [Entry("Cline1", false, Absent, false), Entry("Cline1", true, Absent, false)]

  /** Disabling the account then disables the other provider and leaves the account on, with nothing pending. */
  lemma {:induction false} ForeignEntryIsDisabled(d: Decision)
    requires d.action == Disable && d.name == "Cline1" && d.providerKey == ProviderKey("Cline1")
    ensures var w' := Applied(Start(SAME_NAME), d, FINE);
      && w'.file == [Entry("Cline1", false, Present(true), false), Entry("Cline1", true, Absent, false)]
      && w'.pending == map[]
  {
    hide ProviderKey;
    TrimFixed("Cline1");
    assert SAME_NAME[..1] == [SAME_NAME[0]];
    assert FindEntry(SAME_NAME[..1], "Cline1") == Some(0);
    assert FindEntry(SAME_NAME, "Cline1") == Some(0);
    var updated := SAME_NAME[0 := Entry("Cline1", false, Present(true), false)];
    assert updated[0].name == "Cline1" && updated[0].Disabled();
    assert EntryDisabled(updated, "Cline1", true);
    assert Start(SAME_NAME).pending - {d.providerKey} == map[];
  }

  // --- what a restart forgets ---------------------------------------------------------------------------

  lemma {:induction false} TakenBackVerdict(slot: AccountState, a: Account, left: int, now: Time, o: Options)
    ensures var said := Said(slot, a, Judge(slot, a, left, now, o), now, o);
      (said != None && said.value.action == EnableExternal) <==> (slot.disabledByGuard && !a.disabled)
  {
    hide NormalizeKey, Trim;
  }

  /** A round reads an account as taken back exactly when the guard owns it and it shows enabled. */
  lemma {:induction false} TakenBackExactly(m: Memory, samples: seq<Sample>, accounts: seq<Account>, a: Account,
                                            now: Time, options: Options)
    requires a in UniqueAccounts(accounts)
    ensures var said := LastDecision(Advanced(m, samples, accounts, now, options).decisions, a.Key());
      (said != None && said.value.action == EnableExternal) <==> (m.Owns(a.Key()) && !a.disabled)
  {
    hide NormalizeKey, Settle, Judge, Said;
    var o := options.Normalized();
    var unique := UniqueAccounts(accounts);
    var counted := Counted(m, samples, accounts, o);
    UniqueAccountsDistinct(accounts);
    if o.CanJudge() {
      CountingKeepsOwnership(m, samples, Index(unique), Trim(o.baseline));
    }
    var left := SettledFor(counted, unique, a, EnabledInScope(unique, o), now, o);
    TakenBackVerdict(counted.Slot(a.Key()), a, left, now, o);
  }

  /** The trail's last word about the key is a disable, as far back as a new runner reads it. */
  predicate ReadAsDisabled(w: World, env: Env, key: string) {
    env.auditReadable && LastIsDisable(LastN(w.audit, 500), key)
  }

  /**
   The pending overlay dies with the runner. The first readable tick of a new one takes a shown account for
   taken back by an operator if and only if its file entry says enabled and the stored state owns it, or the
   trail claims it for a disabled entry that shares its key.
   */
  lemma {:induction false} RestartForgetsPending(w: World, env: Env, a: Account)
    requires env.readOk && a in UniqueAccounts(View(w.file, map[]))
    ensures var said := LastDecision(TickRound(Next(w, Restart), env).decisions, a.Key());
      (said != None && said.value.action == EnableExternal) <==>
        !a.disabled && (w.Stored().Owns(a.Key())
                        || (ReadAsDisabled(w, env, a.Key())
                            && exists b :: b in View(w.file, map[]) && b.Key() == a.Key() && b.disabled))
  {
    hide NormalizeKey, View, UniqueAccounts, Advanced, Adopted, Unclaimed, LastIsDisable;
    var w' := Next(w, Restart);
    var accounts := View(w.file, map[]);
    if env.auditReadable {
      ReconcileExactly(w', env, a.Key());
    }
    TakenBackExactly(Reconciled(w', accounts, env).mem, TickSamples(env), accounts, a, env.now, env.options);
  }
}
