/** What the runner keeps beside its decisions: the recent ones it shows, and how old a saved state can be. */
module RunnerCheckpoints {
  import opened Common
  import opened Guard
  import opened Runner

  // --- the recent decisions --------------------------------------------------------------------------

  lemma {:induction false} AppliedKeepsHistory(w: World, d: Decision, o: Outcome)
    ensures Applied(w, d, o).recent == w.recent && Applied(w, d, o).lastSave == w.lastSave && Applied(w, d, o).mem == w.mem
  {
    hide SetEntryDisabled, EntryDisabled;
  }

  lemma {:induction false} CarriedHistory(w: World, decisions: seq<Decision>, env: Env)
    requires |w.recent| <= 10
    ensures Carried(w, decisions, env).recent == LastN(w.recent + decisions, 10)
    ensures Carried(w, decisions, env).lastSave == w.lastSave && Carried(w, decisions, env).mem == w.mem
  {
    hide Applied;
    if decisions == [] {
      assert w.recent + decisions == w.recent;
    } else {
      var n := |decisions| - 1;
      CarriedHistory(w, decisions[..n], env);
      var before := Carried(w, decisions[..n], env);
      AppliedKeepsHistory(Recorded(before, decisions[n], env.OutcomeOf(n).audited), decisions[n], env.OutcomeOf(n));
      LastNAppend(w.recent + decisions[..n], decisions[n], 10);
      assert w.recent + decisions == (w.recent + decisions[..n]) + [decisions[n]];
    }
  }

  /** Everything one runner has decided in a run; a new runner starts without a past. */
  function History(w: World, steps: seq<Step>): seq<Decision> {
    if steps == [] then w.recent else
      var before, last := steps[..|steps| - 1], steps[|steps| - 1];
      match last
      case Tick(env) => History(w, before) + (if env.readOk then TickRound(Run(w, before), env).decisions else [])
      case Restart => []
      case _ => History(w, before)
  }

  lemma {:induction false} ReconciledKeeps(w: World, accounts: seq<Account>, env: Env)
    ensures Reconciled(w, accounts, env).recent == w.recent && Reconciled(w, accounts, env).lastSave == w.lastSave
    ensures Reconciled(w, accounts, env).saved == w.saved
  {
    hide Adopted, Unclaimed;
  }

  lemma {:induction false} TickHistory(w: World, env: Env)
    requires |w.recent| <= 10 && env.readOk
    ensures Ticked(w, env).recent == LastN(w.recent + TickRound(w, env).decisions, 10)
  {
    hide Carried, Reconciled, TickRound;
    var r := TickRound(w, env);
    var ready := Reconciled(w, View(w.file, w.pending), env).(mem := r.mem);
    ReconciledKeeps(w, View(w.file, w.pending), env);
    CarriedHistory(ready, r.decisions, env);
  }

  lemma {:induction false} LastOfLast<T>(s: seq<T>, t: seq<T>, n: nat)
    ensures LastN(LastN(s, n) + t, n) == LastN(s + t, n)
  {
  }

  /** Whatever happens around it, a runner shows the last ten decisions it made, those it could not audit included. */
  lemma {:induction false} RecentAreTheLast(w: World, steps: seq<Step>)
    requires |w.recent| <= 10
    ensures Run(w, steps).recent == LastN(History(w, steps), 10)
  {
    hide Ticked, TickRound;
    if steps != [] {
      var before, last := steps[..|steps| - 1], steps[|steps| - 1];
      RecentAreTheLast(w, before);
      if last.Tick? {
        if last.env.readOk {
          TickHistory(Run(w, before), last.env);
          LastOfLast(History(w, before), TickRound(Run(w, before), last.env).decisions, 10);
        } else {
          Unread(Run(w, before), last.env);
          assert History(w, before) + [] == History(w, before);
        }
      }
    }
  }

  lemma {:induction false} Unread(w: World, env: Env)
    requires !env.readOk
    ensures Ticked(w, env) == w
  {
  }

  // --- saving ----------------------------------------------------------------------------------------

  /**
   A readable tick saves the memory it ends with when it decided anything, when this runner has not saved yet, or when the
   last save is fifteen seconds old; a save that fails still counts. Any other leaves what is saved alone.
   */
  lemma {:induction false} SavesExactly(w: World, env: Env)
    requires env.readOk
    ensures var after := Ticked(w, env);
      if TickRound(w, env).decisions != [] || w.lastSave == None || w.lastSave.value + 15_000_000_000 <= env.now then
        after.lastSave == Some(env.now) && (env.saveOk ==> after.saved == Some(after.mem))
      else
        after.lastSave == w.lastSave && after.saved == w.saved
    ensures Ticked(w, env).mem == TickRound(w, env).mem
  {
    hide Carried, Reconciled, TickRound;
    var r := TickRound(w, env);
    var ready := Reconciled(w, View(w.file, w.pending), env).(mem := r.mem);
    ReconciledKeeps(w, View(w.file, w.pending), env);
    CarriedKeeps(ready, r.decisions, env);
    if r.decisions == [] {
      NothingCarried(ready, env);
    }
  }

  lemma {:induction false} CarriedKeeps(w: World, decisions: seq<Decision>, env: Env)
    ensures Carried(w, decisions, env).lastSave == w.lastSave && Carried(w, decisions, env).mem == w.mem
  {
    hide Applied;
    if decisions != [] {
      var n := |decisions| - 1;
      CarriedKeeps(w, decisions[..n], env);
      var before := Carried(w, decisions[..n], env);
      AppliedKeepsHistory(Recorded(before, decisions[n], env.OutcomeOf(n).audited), decisions[n], env.OutcomeOf(n));
    }
  }

  lemma {:induction false} NothingCarried(w: World, env: Env)
    ensures Carried(w, [], env) == w
  {
  }

  /** So a new runner saves at its first readable tick, and no save is ever fifteen seconds old after a readable tick. */
  lemma {:induction false} SavedRecently(w: World, env: Env)
    requires env.readOk && (w.lastSave.Some? ==> w.lastSave.value <= env.now)
    ensures Ticked(w, env).lastSave.Some? && 0 <= env.now - Ticked(w, env).lastSave.value < 15_000_000_000
    ensures Ticked(Next(w, Restart), env).lastSave == Some(env.now)
  {
    hide Ticked, TickRound;
    SavesExactly(w, env);
    SavesExactly(Next(w, Restart), env);
  }

  /** A fresh installation is a new runner over a file, with no trail and no saved state. */
  lemma {:induction false} StartIsANewRunner(w: World)
    requires w.audit == [] && w.saved == None
    ensures Start(w.file) == Next(w, Restart)
    ensures !Start(w.file).adopted && Start(w.file).mem == Memory(map[], []) && Start(w.file).pending == map[]
  {
  }
}
