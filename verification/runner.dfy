/**
 The runner around the guard: each tick reads the accounts (the file overlaid with the writes it still
 waits to read back), reconciles ownership with the audit trail once, advances the guard, and audits and
 carries out every decision. `World` is everything that survives between two ticks.
 */
module Runner {
  import opened Common
  import opened Text
  import opened Guard

  const SAVE_EVERY: int := 15_000_000_000
  const AUDIT_SCAN: nat := 500
  const RECENT: nat := 10

  // --- the configuration file ---------------------------------------------------------------------

  /** An entry's `disabled` key: missing, or present with a value. */
  datatype Setting = Absent | Present(value: bool)

  /** `cline` says the entry is one the guard looks after; `flow` that it is written in flow style. */
  datatype Entry = Entry(name: string, cline: bool, setting: Setting, flow: bool) {
    predicate Disabled() { setting.Present? && setting.value }
    function Key(): string { ProviderKey(name) }
  }

  const PREFIX := "openai-compatible-"
  const BARE := "openai-compatibility"

  function ProviderKey(name: string): string {
    var trimmed := Lower(Trim(name));
    if trimmed == "" then BARE
    else if trimmed == BARE || PREFIX <= trimmed then trimmed
    else PREFIX + trimmed
  }

  function FindEntry(file: seq<Entry>, name: string): Option<nat> {
    if file == [] then None else
      var earlier := FindEntry(file[..|file| - 1], name);
      if earlier != None then earlier
      else if Trim(file[|file| - 1].name) == name then Some(|file| - 1) else None
  }

  datatype Edit = Refused | Unchanged | Changed(file: seq<Entry>)

  function SetEntryDisabled(file: seq<Entry>, name: string, want: bool): Edit {
    var found := FindEntry(file, Trim(name));
    if Trim(name) == "" || found == None || found.value >= |file| then Refused else
      var e := file[found.value];
      if e.setting == Present(want) then Unchanged
      else if e.setting == Absent && e.flow then Refused
      else Changed(file[found.value := e.(setting := Present(want))])
  }

  /** What the file says about the first entry of that exact name. */
  predicate EntryDisabled(file: seq<Entry>, name: string, want: bool) {
    exists i :: 0 <= i < |file| && file[i].name == name && file[i].Disabled() == want
                && forall j :: 0 <= j < i ==> file[j].name != name
  }

  function Overlay(e: Entry, pending: map<string, bool>): bool {
    if e.Key() in pending then pending[e.Key()] else e.Disabled()
  }

  /** The guard's view of the file. */
  function View(file: seq<Entry>, pending: map<string, bool>): seq<Account> {
    if file == [] then [] else
      var e := file[|file| - 1];
      View(file[..|file| - 1], pending) + (if e.cline then [Account(e.name, e.Key(), Overlay(e, pending))] else [])
  }

  // --- the world and its steps ----------------------------------------------------------------------

  /** How the outside answers one decision: the audit append, the reads, the save and the write. */
  datatype Outcome = Outcome(audited: bool, readOk: bool, saved: bool, written: bool, landed: bool, readBack: bool)

  const FINE := Outcome(true, true, true, true, true, true)

  datatype Env = Env(
    now: Time, readOk: bool, auditReadable: bool, samples: seq<Sample>, options: Options,
    outcomes: seq<Outcome>, saveOk: bool)
  {
    function OutcomeOf(i: nat): Outcome { if i < |outcomes| then outcomes[i] else FINE }
  }

  datatype World = World(
    mem: Memory,
    pending: map<string, bool>,
    adopted: bool,
    lastSave: Option<Time>,
    recent: seq<Decision>,
    file: seq<Entry>,
    audit: seq<Decision>,
    saved: Option<Memory>)
  {
    function Shown(): seq<Account> { UniqueAccounts(View(file, pending)) }

    /** What a new runner would load. */
    function Stored(): Memory { if saved == None then EMPTY else saved.value }
  }

  function Unclaimed(accounts: seq<Account>, m: Memory): seq<Account> {
    if accounts == [] then [] else
      var a := accounts[|accounts| - 1];
      Unclaimed(accounts[..|accounts| - 1], m) + (if a.disabled && !m.Owns(a.providerKey) then [a] else [])
  }

  function Reconciled(w: World, accounts: seq<Account>, env: Env): World {
    var unclaimed := Unclaimed(accounts, w.mem);
    if w.adopted then w
    else if unclaimed == [] || !env.auditReadable then w.(adopted := true)
    else w.(adopted := true, mem := Adopted(w.mem, unclaimed, LastN(w.audit, AUDIT_SCAN), env.now, env.options))
  }

  function Recorded(w: World, d: Decision, ok: bool): World {
    w.(audit := if ok then w.audit + [d] else w.audit, recent := LastN(w.recent + [d], RECENT))
  }

  function Failed(w: World, d: Decision, want: bool): World {
    w.(pending := w.pending[d.providerKey := want])
  }

  function Cleared(w: World, d: Decision): World {
    w.(pending := w.pending - {d.providerKey})
  }

  function Applied(w: World, d: Decision, o: Outcome): World {
    if d.action == DisableDry || d.action == EnableExternal then w else
      var want := d.action == Disable;
      if !o.readOk then Failed(w, d, want) else
        match SetEntryDisabled(w.file, d.name, want)
        case Refused => Failed(w, d, want)
        case Unchanged => Cleared(w, d)
        case Changed(updated) =>
          var kept := if o.saved then w.(saved := Some(w.mem)) else w;
          if !o.written then Failed(if o.landed then kept.(file := updated) else kept, d, want)
          else if !o.readBack || !EntryDisabled(updated, d.name, want) then Failed(kept.(file := updated), d, want)
          else Cleared(kept.(file := updated), d)
  }

  /** The world once the first decisions of a tick were audited and carried out. */
  function Carried(w: World, decisions: seq<Decision>, env: Env): World {
    if decisions == [] then w else
      var n := |decisions| - 1;
      Applied(Recorded(Carried(w, decisions[..n], env), decisions[n], env.OutcomeOf(n).audited), decisions[n], env.OutcomeOf(n))
  }

  function MaybeSaved(w: World, env: Env, forced: bool): World {
    if !forced && w.lastSave != None && env.now - w.lastSave.value < SAVE_EVERY then w
    else w.(lastSave := Some(env.now), saved := if env.saveOk then Some(w.mem) else w.saved)
  }

  function TickSamples(env: Env): seq<Sample> { if env.options.enabled then env.samples else [] }

  /** What the guard answers in one tick. */
  function TickRound(w: World, env: Env): Round {
    var accounts := View(w.file, w.pending);
    Advanced(Reconciled(w, accounts, env).mem, TickSamples(env), accounts, env.now, env.options)
  }

  function Ticked(w: World, env: Env): World {
    if !env.readOk then w else
      var r := TickRound(w, env);
      var ready := Reconciled(w, View(w.file, w.pending), env).(mem := r.mem);
      MaybeSaved(Carried(ready, r.decisions, env), env, r.decisions != [])
  }

  /** Ticks of the runner, and what else happens around it. */
  datatype Step = Tick(env: Env) | Operator(file: seq<Entry>) | Restart | LoseState

  function Next(w: World, step: Step): World {
    match step
    case Tick(env) => Ticked(w, env)
    case Operator(file) => w.(file := file)
    case Restart => w.(mem := w.Stored(), pending := map[], adopted := false, lastSave := None, recent := [])
    case LoseState => w.(saved := None)
  }

  function Run(w: World, steps: seq<Step>): World {
    if steps == [] then w else Next(Run(w, steps[..|steps| - 1]), steps[|steps| - 1])
  }

  /** A fresh installation over a configuration file. */
  function Start(file: seq<Entry>): World { World(EMPTY, map[], false, None, [], file, [], None) }

  // --- the objects ----------------------------------------------------------------------------------

  /** The files the runner works on. */
  class Disk {
    var file: seq<Entry>
    var audit: seq<Decision>
    var saved: Option<Memory>

    constructor (file: seq<Entry>)
      ensures this.file == file && audit == [] && saved == None
    {
      this.file, audit, saved := file, [], None;
    }
  }

  method ReadView(file: seq<Entry>, pending: map<string, bool>) returns (accounts: seq<Account>)
    ensures accounts == View(file, pending)
  {
    accounts := [];
    for i := 0 to |file|
      invariant accounts == View(file[..i], pending)
    {
      assert file[..i + 1][..i] == file[..i];
      var e := file[i];
      if !e.cline {
        continue;
      }
      var disabled := e.Disabled();
      if e.Key() in pending {
        disabled := pending[e.Key()];
      }
      accounts := accounts + [Account(e.name, e.Key(), disabled)];
    }
    assert file[..|file|] == file;
  }

  method ReadsBack(file: seq<Entry>, name: string, want: bool) returns (ok: bool)
    ensures ok == EntryDisabled(file, name, want)
  {
    for i := 0 to |file|
      invariant forall j :: 0 <= j < i ==> file[j].name != name
    {
      if file[i].name == name {
        return file[i].Disabled() == want;
      }
    }
    return false;
  }

  class GuardRunner {
    const disk: Disk
    const state: State
    var pending: map<string, bool>
    var adopted: bool
    var lastSave: Option<Time>
    var recent: seq<Decision>

    ghost predicate Valid()
      reads this, state
    {
      state.Valid()
    }

    ghost function Now(): World
      reads this, state, disk
    {
      World(state.Snapshot(), pending, adopted, lastSave, recent, disk.file, disk.audit, disk.saved)
    }

    /** A new runner loads the saved state, or starts from an empty one. */
    constructor (disk: Disk)
      requires disk.saved != None ==> Distinct(disk.saved.value.seen) && |disk.saved.value.seen| <= SEEN_LIMIT
      ensures Valid() && fresh(state) && this.disk == disk
      ensures forall w: World :: w.file == disk.file && w.audit == disk.audit && w.saved == disk.saved ==>
        Now() == Next(w, Restart)
    {
      this.disk := disk;
      if disk.saved == None {
        state := new State();
      } else {
        state := new State.Load(disk.saved.value);
      }
      pending, adopted, lastSave, recent := map[], false, None, [];
    }

    method ReconcileOwnership(accounts: seq<Account>, env: Env)
      requires Valid()
      modifies this`adopted, state
      ensures Valid()
      ensures Now() == Reconciled(old(Now()), accounts, env)
    {
      var done := adopted;
      adopted := true;
      if done {
        return;
      }
      var unclaimed := [];
      for i := 0 to |accounts|
        invariant unclaimed == Unclaimed(accounts[..i], state.Snapshot())
      {
        assert accounts[..i + 1][..i] == accounts[..i];
        if accounts[i].disabled && !state.Slot(accounts[i].providerKey).disabledByGuard {
          unclaimed := unclaimed + [accounts[i]];
        }
      }
      assert accounts[..|accounts|] == accounts;
      if |unclaimed| == 0 || !env.auditReadable {
        return;
      }
      var names := state.AdoptOwnership(unclaimed, LastN(disk.audit, AUDIT_SCAN), env.now, env.options);
    }

    method Record(d: Decision, ok: bool)
      modifies this`recent, disk`audit
      ensures Now() == Recorded(old(Now()), d, ok)
    {
      if ok {
        disk.audit := disk.audit + [d];
      }
      recent := LastN(recent + [d], RECENT);
    }

    method Fail(d: Decision, want: bool)
      modifies this`pending
      ensures Now() == Failed(old(Now()), d, want)
    {
      pending := pending[d.providerKey := want];
    }

    method Apply(d: Decision, o: Outcome)
      requires Valid()
      modifies this`pending, disk`file, disk`saved
      ensures Now() == Applied(old(Now()), d, o)
    {
      if d.action == DisableDry || d.action == EnableExternal {
        return;
      }
      var want := d.action == Disable;
      if !o.readOk {
        Fail(d, want);
        return;
      }
      match SetEntryDisabled(disk.file, d.name, want) {
        case Refused =>
          Fail(d, want);
        case Unchanged =>
          pending := pending - {d.providerKey};
        case Changed(updated) =>
          if o.saved {
            disk.saved := Some(Memory(state.accounts, state.ring));
          }
          if !o.written {
            if o.landed {
              disk.file := updated;
            }
            Fail(d, want);
            return;
          }
          disk.file := updated;
          var verified := ReadsBack(disk.file, d.name, want);
          if !o.readBack || !verified {
            Fail(d, want);
            return;
          }
          pending := pending - {d.providerKey};
      }
    }

    method MaybeSave(env: Env, forced: bool)
      requires Valid()
      modifies this`lastSave, disk`saved
      ensures Now() == MaybeSaved(old(Now()), env, forced)
    {
      if !forced && lastSave != None && env.now - lastSave.value < SAVE_EVERY {
        return;
      }
      lastSave := Some(env.now);
      if env.saveOk {
        disk.saved := Some(Memory(state.accounts, state.ring));
      }
    }

    method TickOnce(env: Env)
      requires Valid()
      modifies this, state, disk
      ensures Valid()
      ensures Now() == Ticked(old(Now()), env)
    {
      hide View, UniqueAccounts, Advanced, Adopted, Unclaimed, SetEntryDisabled;
      if !env.readOk {
        return;
      }
      var accounts := ReadView(disk.file, pending);
      ReconcileOwnership(accounts, env);
      var decisions := state.Advance(TickSamples(env), accounts, env.now, env.options);
      ghost var ready := Now();
      for i := 0 to |decisions|
        invariant Valid()
        invariant Now() == Carried(ready, decisions[..i], env)
      {
        assert decisions[..i + 1][..i] == decisions[..i];
        Record(decisions[i], env.OutcomeOf(i).audited);
        Apply(decisions[i], env.OutcomeOf(i));
      }
      assert decisions[..|decisions|] == decisions;
      MaybeSave(env, |decisions| > 0);
    }
  }
}
