/**
 What the runner really writes: which entry a tick changes and to what, and what the file says where the guard's
 view, which shows pending writes as done, says otherwise.
 */
module RunnerFile {
  import opened Common
  import opened Text
  import opened Guard
  import opened GuardRounds
  import opened Runner
  import opened RunnerOwnership
  import opened RunnerOverlay
  import opened RunnerLimits

  // --- one entry through one decision -------------------------------------------------------------------

  predicate Writes(d: Decision) { d.action == Disable || d.action == Enable }

  /** The edit of a named entry reaches the disk: the file was read, and the bytes written are there. */
  predicate Reaches(name: string, o: Outcome) { o.readOk && Trim(name) != "" && (o.written || o.landed) }

  /** An account's entry once a decision about it was carried out. */
  function EntryAfter(e: Entry, d: Decision, o: Outcome): Entry {
    var want := d.action == Disable;
    if Writes(d) && Reaches(e.name, o) && Writable(e, want) then e.(setting := Present(want)) else e
  }

  /** The edit the runner asks for when the name leads to entry `i`. */
  function EditOf(file: seq<Entry>, i: nat, want: bool): Edit
    requires i < |file|
  {
    if Trim(file[i].name) == "" then Refused
    else if Writable(file[i], want) then Changed(file[i := file[i].(setting := Present(want))])
    else if file[i].setting == Present(want) then Unchanged else Refused
  }

  lemma {:induction false} EditIs(file: seq<Entry>, i: nat, want: bool)
    requires Targeted(file) && FirstOfKey(file, i)
    ensures SetEntryDisabled(file, file[i].name, want) == EditOf(file, i, want)
  {
    hide ProviderKey, Trim, FindEntry, Targeted;
    TargetAt(file, i);
  }

  /** A decision writes the entry of its account and no other, and may leave something pending under its key only. */
  lemma {:induction false} AppliedWrites(w: World, d: Decision, o: Outcome, i: nat)
    requires Targeted(w.file) && FirstOfKey(w.file, i) && d.name == w.file[i].name && d.providerKey == w.file[i].Key()
    ensures Applied(w, d, o).file == w.file[i := EntryAfter(w.file[i], d, o)]
    ensures Applied(w, d, o).pending - {d.providerKey} == w.pending - {d.providerKey}
  {
    hide ProviderKey, Trim, SetEntryDisabled, EntryDisabled, Targeted, EditOf, EntryAfter;
    EditIs(w.file, i, d.action == Disable);
    EditGives(w.file, i, d, o);
  }

  lemma {:induction false} EditGives(file: seq<Entry>, i: nat, d: Decision, o: Outcome)
    requires i < |file|
    ensures var edit, after := EditOf(file, i, d.action == Disable), file[i := EntryAfter(file[i], d, o)];
      && (edit.Changed? && Writes(d) && o.readOk && (o.written || o.landed) ==> edit.file == after)
      && (!edit.Changed? || !Writes(d) || !o.readOk || (!o.written && !o.landed) ==> after == file)
  {
    hide Trim;
  }

  lemma {:induction false} EditKeepsNames(file: seq<Entry>, i: nat, d: Decision, o: Outcome)
    requires i < |file|
    ensures SameEntries(file, file[i := EntryAfter(file[i], d, o)])
  {
    hide Trim;
  }

  // --- one entry through a tick ---------------------------------------------------------------------------

  /** The place of the decision about a key. */
  function TurnOf(decisions: seq<Decision>, key: string): (turn: Option<nat>)
    ensures turn.Some? ==> turn.value < |decisions| && decisions[turn.value].Key() == key
    ensures turn == None ==> forall d :: d in decisions ==> d.Key() != key
  {
    if decisions == [] then None
    else if decisions[|decisions| - 1].Key() == key then Some(|decisions| - 1)
    else TurnOf(decisions[..|decisions| - 1], key)
  }

  lemma {:induction false} LastIsTurn(decisions: seq<Decision>, key: string)
    ensures LastDecision(decisions, key) ==
      if TurnOf(decisions, key) == None then None else Some(decisions[TurnOf(decisions, key).value])
  {
    hide NormalizeKey;
    if decisions != [] {
      LastIsTurn(decisions[..|decisions| - 1], key);
    }
  }

  /** What entry `i` says after a round in which each account is decided about at most once. */
  ghost function Carrying(file: seq<Entry>, i: nat, decisions: seq<Decision>, env: Env): Entry
    requires i < |file|
  {
    var turn := TurnOf(decisions, file[i].Key());
    if !FirstOfKey(file, i) || turn == None then file[i]
    else EntryAfter(file[i], decisions[turn.value], env.OutcomeOf(turn.value))
  }

  ghost predicate CarriedInto(file: seq<Entry>, after: seq<Entry>, decisions: seq<Decision>, env: Env) {
    |after| == |file| && forall i :: 0 <= i < |file| ==> after[i] == Carrying(file, i, decisions, env)
  }

  lemma {:induction false} CarriedWrites(w: World, decisions: seq<Decision>, env: Env)
    requires Targeted(w.file) && OnePerKey(decisions) && About(decisions, w.Shown())
    ensures CarriedInto(w.file, Carried(w, decisions, env).file, decisions, env)
    ensures forall key :: TurnOf(decisions, key) == None ==>
      SamePending(w.pending, Carried(w, decisions, env).pending, key)
  {
    hide NormalizeKey, View, UniqueAccounts, Applied, Targeted, EntryAfter;
    if decisions != [] {
      var n := |decisions| - 1;
      var rest, d := decisions[..n], decisions[n];
      assert decisions == rest + [d] && d in decisions;
      CarriedWrites(w, rest, env);
      CarriedShows(w, rest, env);
      var before := Recorded(Carried(w, rest, env), d, env.OutcomeOf(n).audited);
      TargetedSame(w.file, before.file);
      var a := ShownBefore(w, rest, d, before.Shown());
      var i := ShownIsFirst(before.file, before.pending, a);
      AppliedWrites(before, d, env.OutcomeOf(n), i);
      OneMoreTurn(w.file, before.file, i, rest, d, env);
      forall key | TurnOf(decisions, key) == None
        ensures SamePending(w.pending, Carried(w, decisions, env).pending, key)
      {
        assert TurnOf(rest, key) == None && d.providerKey == d.Key() != key;
        OtherKeysStay(before.pending, Carried(w, decisions, env).pending, d.providerKey, key);
      }
    }
  }

  ghost predicate SamePending(p: map<string, bool>, q: map<string, bool>, key: string) {
    (key in p <==> key in q) && (key in p ==> q[key] == p[key])
  }

  lemma {:induction false} OtherKeysStay(p: map<string, bool>, q: map<string, bool>, mine: string, key: string)
    requires p - {mine} == q - {mine} && key != mine
    ensures SamePending(p, q, key)
  {
    assert key in p <==> key in p - {mine};
    assert key in q <==> key in q - {mine};
  }

  lemma {:induction false} NotDecidedBefore(rest: seq<Decision>, d: Decision)
    requires OnePerKey(rest + [d])
    ensures OnePerKey(rest) && TurnOf(rest, d.Key()) == None
  {
    hide NormalizeKey;
    var all := rest + [d];
    forall k | 0 <= k < |rest|
      ensures rest[k].Key() != d.Key()
    {
      assert all[k].Key() != all[|rest|].Key();
    }
    assert forall k :: 0 <= k < |rest| ==> all[k] == rest[k];
  }

  /** The last decision of a list reaches the one entry it is about. */
  lemma {:induction false} OneMoreTurn(file: seq<Entry>, before: seq<Entry>, i: nat, rest: seq<Decision>, d: Decision,
                                       env: Env)
    requires CarriedInto(file, before, rest, env) && SameEntries(file, before) && OnePerKey(rest + [d])
    requires FirstOfKey(before, i) && d.Key() == before[i].Key()
    ensures CarriedInto(file, before[i := EntryAfter(before[i], d, env.OutcomeOf(|rest|))], rest + [d], env)
  {
    hide ProviderKey, NormalizeKey, EntryAfter;
    var all := rest + [d];
    assert all[..|rest|] == rest;
    NotDecidedBefore(rest, d);
    forall j | 0 <= j < |file|
      ensures before[i := EntryAfter(before[i], d, env.OutcomeOf(|rest|))][j] == Carrying(file, j, all, env)
    {
      assert before[j] == Carrying(file, j, rest, env);
      assert file[j].Key() == before[j].Key();
      SameFirst(file, before, j);
    }
  }

  lemma {:induction false} SameFirst(file: seq<Entry>, g: seq<Entry>, j: nat)
    requires SameEntries(file, g) && j < |file|
    ensures FirstOfKey(file, j) <==> FirstOfKey(g, j)
  {
    hide ProviderKey;
  }

  /**
   What a tick writes, entry by entry: the first entry of a decided key becomes what its decision wants when the
   edit reaches the disk, and everything else, pending writes included, stays as it was.
   */
  lemma {:induction false} TickWrites(w: World, env: Env)
    requires env.readOk && Targeted(w.file)
    ensures CarriedInto(w.file, Ticked(w, env).file, TickRound(w, env).decisions, env)
    ensures forall key :: TurnOf(TickRound(w, env).decisions, key) == None ==>
      SamePending(w.pending, Ticked(w, env).pending, key)
  {
    hide NormalizeKey, View, UniqueAccounts, Advanced, Adopted, Unclaimed, Targeted, About, Applied;
    var r, accounts := TickRound(w, env), View(w.file, w.pending);
    var before := Reconciled(w, accounts, env);
    EnabledFloor(before.mem, TickSamples(env), accounts, env.now, env.options);
    RoundAbout(before.mem, TickSamples(env), accounts, env.now, env.options);
    CarriedWrites(before.(mem := r.mem), r.decisions, env);
  }

  /** No tick decides about the key. */
  ghost predicate Undecided(w: World, envs: seq<Env>, key: string) {
    forall k :: 0 <= k < |envs| && envs[k].readOk ==>
      TurnOf(TickRound(Ticks(w, envs[..k]), envs[k]).decisions, key) == None
  }

  /** A write that is pending is not tried again: the entry and what is pending wait for the next decision. */
  lemma {:induction false} NeverRetried(w: World, envs: seq<Env>, key: string)
    requires Targeted(w.file) && Undecided(w, envs, key)
    ensures SameEntries(w.file, Ticks(w, envs).file) && SamePending(w.pending, Ticks(w, envs).pending, key)
    ensures forall i :: 0 <= i < |w.file| && w.file[i].Key() == key ==> Ticks(w, envs).file[i] == w.file[i]
  {
    hide Targeted, Ticked, TickRound, ProviderKey, TurnOf;
    if envs != [] {
      var n := |envs| - 1;
      var before := Ticks(w, envs[..n]);
      assert forall k :: 0 <= k < n ==> envs[..n][..k] == envs[..k] && envs[..n][k] == envs[k];
      NeverRetried(w, envs[..n], key);
      TargetedSame(w.file, before.file);
      if envs[n].readOk {
        TickShows(before, envs[n]);
        TickWrites(before, envs[n]);
      } else {
        UnreadTick(before, envs[n]);
      }
    }
  }

  // --- enables that are pending ---------------------------------------------------------------------------

  /** The entry says off while the guard's view shows it on. */
  predicate Hangs(e: Entry, pending: map<string, bool>) { e.Key() in pending && !pending[e.Key()] && e.Disabled() }

  ghost predicate NothingHangs(file: seq<Entry>, pending: map<string, bool>) {
    forall i: nat :: FirstOfKey(file, i) ==> !Hangs(file[i], pending)
  }

  /** After an enable the entry hangs exactly when it said off and the edit did not reach the disk. */
  lemma {:induction false} EnableHangsExactly(w: World, d: Decision, o: Outcome, i: nat)
    requires Targeted(w.file) && FirstOfKey(w.file, i) && d.name == w.file[i].name && d.providerKey == w.file[i].Key()
    requires Writes(d)
    ensures Hangs(Applied(w, d, o).file[i], Applied(w, d, o).pending) <==>
      d.action == Enable && w.file[i].Disabled() && !Reaches(d.name, o)
  {
    hide ProviderKey, Trim, SetEntryDisabled, EntryDisabled, Targeted;
    EditIs(w.file, i, d.action == Disable);
  }

  ghost predicate EnablesLand(decisions: seq<Decision>, env: Env) {
    forall j :: 0 <= j < |decisions| && decisions[j].action == Enable ==> Reaches(decisions[j].name, env.OutcomeOf(j))
  }

  lemma {:induction false} CarriedHangs(w: World, decisions: seq<Decision>, env: Env)
    requires Targeted(w.file) && OnePerKey(decisions) && About(decisions, w.Shown())
    requires NothingHangs(w.file, w.pending) && EnablesLand(decisions, env)
    ensures NothingHangs(Carried(w, decisions, env).file, Carried(w, decisions, env).pending)
  {
    hide NormalizeKey, View, UniqueAccounts, Applied, Targeted, EntryAfter, Reaches, ProviderKey;
    if decisions != [] {
      var n := |decisions| - 1;
      var rest, d := decisions[..n], decisions[n];
      assert decisions == rest + [d] && d in decisions;
      CarriedHangs(w, rest, env);
      CarriedShows(w, rest, env);
      var before := Recorded(Carried(w, rest, env), d, env.OutcomeOf(n).audited);
      TargetedSame(w.file, before.file);
      var a := ShownBefore(w, rest, d, before.Shown());
      var i := ShownIsFirst(before.file, before.pending, a);
      OneHangs(before, d, env.OutcomeOf(n), i);
    }
  }

  lemma {:induction false} OneHangs(w: World, d: Decision, o: Outcome, i: nat)
    requires Targeted(w.file) && FirstOfKey(w.file, i) && d.name == w.file[i].name && d.providerKey == w.file[i].Key()
    requires NothingHangs(w.file, w.pending) && (d.action == Enable ==> Reaches(d.name, o))
    ensures NothingHangs(Applied(w, d, o).file, Applied(w, d, o).pending)
  {
    hide ProviderKey, Applied, Targeted, EntryAfter, Reaches;
    AppliedWrites(w, d, o, i);
    var w' := Applied(w, d, o);
    if Writes(d) {
      EnableHangsExactly(w, d, o, i);
    } else {
      AppliedQuiet(w, d, o);
    }
    forall j: nat | FirstOfKey(w'.file, j) && j != i
      ensures !Hangs(w'.file[j], w'.pending)
    {
      EditKeepsNames(w.file, i, d, o);
      SameFirst(w.file, w'.file, j);
      OtherKeysStay(w.pending, w'.pending, d.providerKey, w.file[j].Key());
    }
  }
}
