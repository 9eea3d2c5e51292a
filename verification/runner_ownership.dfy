/** Ownership and the audit trail: what every run of the runner keeps about who disabled an account. */
module RunnerOwnership {
  import opened Common
  import opened Text
  import opened Guard
  import opened GuardRounds
  import opened Runner

  // --- provider keys ---------------------------------------------------------------------------

  predicate LowerCase(s: string) { forall i :: 0 <= i < |s| ==> LowerChar(s[i]) == s[i] }

  lemma {:induction false} NormalFixed(s: string)
    requires LowerCase(s) && s != "" && !IsSpace(s[0]) && !IsSpace(s[|s| - 1])
    ensures NormalizeKey(s) == s
  {
    TrimFixed(s);
    LowerFixed(s);
  }

  lemma {:induction false} JoinFixed(p: string, t: string)
    requires LowerCase(p) && p != "" && !IsSpace(p[0])
    requires LowerCase(t) && t != "" && !IsSpace(t[|t| - 1])
    ensures NormalizeKey(p + t) == p + t
  {
    NormalFixed(p + t);
  }

  lemma {:induction false} LiteralsFixed()
    ensures LowerCase(PREFIX) && !IsSpace(PREFIX[0])
    ensures LowerCase(BARE) && !IsSpace(BARE[0]) && !IsSpace(BARE[|BARE| - 1])
  {
  }

  lemma {:induction false} LowerTrimmed(name: string)
    ensures var t := Lower(Trim(name));
      LowerCase(t) && (t == "" || (!IsSpace(t[0]) && !IsSpace(t[|t| - 1])))
  {
  }

  /** A provider key is already normalized, so the runner's raw keys and the guard's keys coincide. */
  lemma {:induction false} ProviderKeyNormal(name: string)
    ensures ProviderKey(name) != "" && NormalizeKey(ProviderKey(name)) == ProviderKey(name)
  {
    hide NormalizeKey, Trim, Lower, LowerCase, IsSpace;
    var t := Lower(Trim(name));
    LowerTrimmed(name);
    LiteralsFixed();
    if t == "" {
      NormalFixed(BARE);
    } else if t == BARE || PREFIX <= t {
      NormalFixed(t);
    } else {
      JoinFixed(PREFIX, t);
    }
  }

  lemma {:induction false} ViewKeys(file: seq<Entry>, pending: map<string, bool>)
    ensures forall a :: a in View(file, pending) ==>
      a.Key() == a.providerKey && a.Key() != "" &&
      exists e :: e in file && e.cline && a == Account(e.name, e.Key(), Overlay(e, pending))
  {
    hide ProviderKey, NormalizeKey;
    if file != [] {
      var rest, e := file[..|file| - 1], file[|file| - 1];
      ViewKeys(rest, pending);
      ProviderKeyNormal(e.name);
      assert file == rest + [e];
      forall a | a in View(file, pending)
        ensures a.Key() == a.providerKey && a.Key() != "" &&
          exists e :: e in file && e.cline && a == Account(e.name, e.Key(), Overlay(e, pending))
      {
        if a in View(rest, pending) {
          var e' :| e' in rest && e'.cline && a == Account(e'.name, e'.Key(), Overlay(e', pending));
          assert e' in file;
        } else {
          assert a == Account(e.name, e.Key(), Overlay(e, pending));
        }
      }
    }
  }

  // --- the audit trail -----------------------------------------------------------------------------

  lemma {:induction false} LastOfConcat(a: seq<Decision>, b: seq<Decision>, key: string)
    ensures LastDecision(a + b, key) == if LastDecision(b, key) != None then LastDecision(b, key) else LastDecision(a, key)
  {
    if b == [] {
      assert a + b == a;
    } else {
      LastOfConcat(a, b[..|b| - 1], key);
      assert (a + b)[..|a + b| - 1] == a + b[..|b| - 1];
    }
  }

  /** Reading only the end of the trail never claims an account the whole trail would not. */
  lemma {:induction false} SuffixClaimsLess(audit: seq<Decision>, n: nat, key: string)
    ensures LastIsDisable(LastN(audit, n), key) ==> LastIsDisable(audit, key)
    ensures |audit| <= n ==> LastN(audit, n) == audit
  {
    var kept := LastN(audit, n);
    var dropped := audit[..|audit| - |kept|];
    assert audit == dropped + kept;
    LastOfConcat(dropped, kept, key);
  }

  // --- what a tick does to the trail and to ownership -------------------------------------------------

  predicate AllGood(env: Env) {
    env.saveOk && forall o :: o in env.outcomes ==> o.audited && o.saved
  }

  lemma {:induction false} AppliedFrame(w: World, d: Decision, o: Outcome)
    ensures Applied(w, d, o).audit == w.audit && Applied(w, d, o).mem == w.mem && Applied(w, d, o).adopted == w.adopted
    ensures Applied(w, d, o).saved == w.saved || Applied(w, d, o).saved == Some(w.mem)
  {
    hide SetEntryDisabled, EntryDisabled;
  }

  /** Carrying decisions out appends them to the trail and leaves the memory alone. */
  lemma {:induction false} CarriedAudits(w: World, decisions: seq<Decision>, env: Env)
    requires forall o :: o in env.outcomes ==> o.audited
    ensures Carried(w, decisions, env).audit == w.audit + decisions
    ensures Carried(w, decisions, env).mem == w.mem
    ensures Carried(w, decisions, env).adopted == w.adopted
    ensures Carried(w, decisions, env).saved == w.saved || Carried(w, decisions, env).saved == Some(w.mem)
  {
    hide Applied;
    if decisions != [] {
      var n := |decisions| - 1;
      CarriedAudits(w, decisions[..n], env);
      AppliedFrame(Recorded(Carried(w, decisions[..n], env), decisions[n], env.OutcomeOf(n).audited), decisions[n], env.OutcomeOf(n));
    }
  }

  /** The state agrees with the trail: exactly the accounts whose last action is a disable are owned. */
  ghost predicate Agrees(m: Memory, audit: seq<Decision>) {
    forall key :: m.Owns(key) <==> LastIsDisable(audit, key)
  }

  /** Weaker: nothing is owned that the trail does not say was disabled. */
  ghost predicate Backed(m: Memory, audit: seq<Decision>) {
    forall key :: m.Owns(key) ==> LastIsDisable(audit, key)
  }

  lemma {:induction false} AdoptedBacked(m: Memory, accounts: seq<Account>, audit: seq<Decision>, part: seq<Decision>,
                                         now: Time, o: Options)
    requires forall key :: LastIsDisable(part, key) ==> LastIsDisable(audit, key)
    ensures forall key :: AdoptAll(m, accounts, part, now, o).Owns(key) ==> m.Owns(key) || LastIsDisable(audit, key)
    ensures forall key :: m.Owns(key) ==> AdoptAll(m, accounts, part, now, o).Owns(key)
  {
    if accounts != [] {
      AdoptedBacked(m, accounts[..|accounts| - 1], audit, part, now, o);
    }
  }

  lemma {:induction false} ReconciledBacked(w: World, accounts: seq<Account>, env: Env)
    requires Backed(w.mem, w.audit)
    ensures Backed(Reconciled(w, accounts, env).mem, w.audit)
    ensures Agrees(w.mem, w.audit) ==> Agrees(Reconciled(w, accounts, env).mem, w.audit)
    ensures Reconciled(w, accounts, env) == w.(adopted := true, mem := Reconciled(w, accounts, env).mem)
  {
    var part := LastN(w.audit, 500);
    forall key
      ensures LastIsDisable(part, key) ==> LastIsDisable(w.audit, key)
    {
      SuffixClaimsLess(w.audit, 500, key);
    }
    AdoptedBacked(w.mem, UniqueAccounts(Unclaimed(accounts, w.mem)), w.audit, part, env.now, env.options.Normalized());
  }

  /** A round moves ownership exactly as its decisions move the trail. */
  lemma {:induction false} RoundFollowsTrail(m: Memory, audit: seq<Decision>, samples: seq<Sample>,
                                             accounts: seq<Account>, now: Time, options: Options)
    ensures var r := Advanced(m, samples, accounts, now, options);
      && (Agrees(m, audit) ==> Agrees(r.mem, audit + r.decisions))
      && (Backed(m, audit) ==> Backed(r.mem, audit + r.decisions))
      && (r.decisions == [] ==> forall key :: r.mem.Owns(key) == m.Owns(key))
  {
    hide Advanced, NormalizeKey;
    var r := Advanced(m, samples, accounts, now, options);
    RoundOwnership(m, samples, accounts, now, options);
    forall key
      ensures r.mem.Owns(key) == if LastDecision(r.decisions, key) == None then m.Owns(key)
                                 else LastDecision(r.decisions, key).value.action == Disable
      ensures LastDecision(audit + r.decisions, key) ==
        if LastDecision(r.decisions, key) != None then LastDecision(r.decisions, key) else LastDecision(audit, key)
    {
      LastOfConcat(audit, r.decisions, key);
      assert OwnershipFollows(m.Slot(key), r.mem.Slot(key), LastDecision(r.decisions, key), now, options.Normalized());
    }
  }

  ghost predicate WorldBacked(w: World) { Backed(w.mem, w.audit) && Backed(w.Stored(), w.audit) }

  ghost predicate WorldAgrees(w: World) { Agrees(w.mem, w.audit) && Agrees(w.Stored(), w.audit) }

  /** What a readable tick leaves behind, in terms of the round it ran. */
  lemma {:induction false} TickShape(w: World, env: Env)
    requires env.readOk && AllGood(env)
    ensures var r := TickRound(w, env);
      && Ticked(w, env).audit == w.audit + r.decisions
      && Ticked(w, env).mem == r.mem
      && (Ticked(w, env).Stored() == r.mem || (r.decisions == [] && Ticked(w, env).saved == w.saved))
  {
    hide Advanced, SetEntryDisabled, EntryDisabled, View, Adopted;
    var r := TickRound(w, env);
    CarriedAudits(Reconciled(w, View(w.file, w.pending), env).(mem := r.mem), r.decisions, env);
    assert r.decisions == [] ==> Carried(Reconciled(w, View(w.file, w.pending), env).(mem := r.mem), r.decisions, env).saved == w.saved;
  }

  lemma {:induction false} TickKeepsBacked(w: World, env: Env)
    requires AllGood(env) && WorldBacked(w)
    ensures WorldBacked(Ticked(w, env))
    ensures WorldAgrees(w) ==> WorldAgrees(Ticked(w, env))
  {
    hide Advanced, View, Ticked, Reconciled;
    if env.readOk {
      var accounts := View(w.file, w.pending);
      var m := Reconciled(w, accounts, env).mem;
      TickShape(w, env);
      ReconciledBacked(w, accounts, env);
      RoundFollowsTrail(m, w.audit, TickSamples(env), accounts, env.now, env.options);
      assert w.audit + [] == w.audit;
    } else {
      UnreadTick(w, env);
    }
  }

  lemma {:induction false} UnreadTick(w: World, env: Env)
    requires !env.readOk
    ensures Ticked(w, env) == w
  {
  }

  /** A run in which every audit append and every save succeeds. */
  predicate Durable(steps: seq<Step>) {
    forall s :: s in steps && s.Tick? ==> AllGood(s.env)
  }

  /**
   Whatever else happens (operator edits, failed configuration writes, restarts, lost state files), the
   guard never owns an account unless the trail's last word about it is a disable.
   */
  lemma {:induction false} OwnershipIsBacked(file: seq<Entry>, steps: seq<Step>)
    requires Durable(steps)
    ensures WorldBacked(Run(Start(file), steps))
  {
    hide Ticked;
    if steps != [] {
      OwnershipIsBacked(file, steps[..|steps| - 1]);
      var w, step := Run(Start(file), steps[..|steps| - 1]), steps[|steps| - 1];
      if step.Tick? {
        TickKeepsBacked(w, step.env);
      }
    }
  }

  /** With no state lost, an account is guard-owned exactly when its last audited action is a disable. */
  lemma {:induction false} OwnershipMatchesAudit(file: seq<Entry>, steps: seq<Step>)
    requires Durable(steps) && LoseState !in steps
    ensures WorldAgrees(Run(Start(file), steps))
  {
    hide Ticked;
    if steps != [] {
      OwnershipMatchesAudit(file, steps[..|steps| - 1]);
      var w, step := Run(Start(file), steps[..|steps| - 1]), steps[|steps| - 1];
      if step.Tick? {
        TickKeepsBacked(w, step.env);
      }
    }
  }

  /** A run in one runner's life in which every audit append succeeds; saves and all else may fail. */
  predicate Audited(steps: seq<Step>) {
    Restart !in steps && forall s :: s in steps && s.Tick? ==> forall o :: o in s.env.outcomes ==> o.audited
  }

  lemma {:induction false} TickKeepsAgreement(w: World, env: Env)
    requires Agrees(w.mem, w.audit) && forall o :: o in env.outcomes ==> o.audited
    ensures Agrees(Ticked(w, env).mem, Ticked(w, env).audit)
  {
    hide Advanced, View, Reconciled, Adopted;
    if env.readOk {
      var accounts := View(w.file, w.pending);
      var before, r := Reconciled(w, accounts, env), TickRound(w, env);
      CarriedAudits(before.(mem := r.mem), r.decisions, env);
      ReconciledBacked(w, accounts, env);
      RoundFollowsTrail(before.mem, w.audit, TickSamples(env), accounts, env.now, env.options);
    }
  }

  /** In one runner's life ownership matches the trail even when saves fail and the state file is lost. */
  lemma {:induction false} LiveOwnershipMatchesAudit(file: seq<Entry>, steps: seq<Step>)
    requires Audited(steps)
    ensures Agrees(Run(Start(file), steps).mem, Run(Start(file), steps).audit)
  {
    hide Ticked;
    if steps != [] {
      var before, step := steps[..|steps| - 1], steps[|steps| - 1];
      assert step in steps && forall s :: s in before ==> s in steps;
      LiveOwnershipMatchesAudit(file, before);
      if step.Tick? {
        TickKeepsAgreement(Run(Start(file), before), step.env);
      }
    }
  }

  // --- recovering from a lost state -----------------------------------------------------------------

  lemma {:induction false} AdoptsExactly(m: Memory, accounts: seq<Account>, audit: seq<Decision>, now: Time, o: Options,
                                         key: string)
    requires DistinctKeys(accounts)
    ensures AdoptAll(m, accounts, audit, now, o).Owns(key) <==>
      m.Owns(key) || (LastIsDisable(audit, key) && exists a :: a in accounts && a.Key() == key && a.disabled)
  {
    hide NormalizeKey, LastIsDisable;
    if accounts != [] {
      var rest, a := accounts[..|accounts| - 1], accounts[|accounts| - 1];
      AdoptsExactly(m, rest, audit, now, o, key);
      assert accounts == rest + [a];
    }
  }

  lemma {:induction false} UnclaimedMembers(accounts: seq<Account>, m: Memory)
    ensures forall a :: a in Unclaimed(accounts, m) <==> a in accounts && a.disabled && !m.Owns(a.providerKey)
  {
    if accounts != [] {
      UnclaimedMembers(accounts[..|accounts| - 1], m);
      assert accounts == accounts[..|accounts| - 1] + [accounts[|accounts| - 1]];
    }
  }

  /** Who is owned after the first reconciliation of a runner. */
  lemma {:induction false} ReconcileExactly(w: World, env: Env, key: string)
    requires !w.adopted && env.auditReadable
    ensures var accounts := View(w.file, w.pending);
      Reconciled(w, accounts, env).mem.Owns(key) <==>
        w.mem.Owns(key) ||
        (LastIsDisable(LastN(w.audit, 500), key) && exists a :: a in accounts && a.Key() == key && a.disabled)
  {
    hide NormalizeKey, LastIsDisable, View;
    var accounts := View(w.file, w.pending);
    var unclaimed := Unclaimed(accounts, w.mem);
    var part := LastN(w.audit, 500);
    ViewKeys(w.file, w.pending);
    UnclaimedMembers(accounts, w.mem);
    UniqueAccountsDistinct(unclaimed);
    var unique := UniqueAccounts(unclaimed);
    AdoptsExactly(w.mem, unique, part, env.now, env.options.Normalized(), key);
    if a :| a in accounts && a.Key() == key && a.disabled {
      if !w.mem.Owns(key) {
        assert a in unclaimed;
        var b :| b in unique && b.Key() == key;
        assert b in unclaimed;
      }
    }
    if b :| b in unique && b.Key() == key && b.disabled {
      assert b in accounts;
    }
  }

  /**
   Recovery: replace the state of any durable, lossless run by a fresh one (the file deleted, the runner
   restarted). The next reconciliation that can read the trail claims exactly the accounts that were owned
   and that the file still shows disabled; a trail longer than the scanned suffix can only claim fewer.
   */
  lemma {:induction false} LostStateIsRecovered(file: seq<Entry>, steps: seq<Step>, env: Env, key: string)
    requires Durable(steps) && LoseState !in steps && env.auditReadable
    ensures var w := Run(Start(file), steps);
      var lost := Run(Start(file), steps + [LoseState, Restart]);
      var accounts := View(w.file, map[]);
      var claimed := Reconciled(lost, accounts, env).mem.Owns(key);
      var expected := w.mem.Owns(key) && exists a :: a in accounts && a.Key() == key && a.disabled;
      && (claimed ==> expected)
      && (|w.audit| <= 500 ==> (claimed <==> expected))
  {
    hide NormalizeKey, LastIsDisable, View, Reconciled, Ticked;
    var w := Run(Start(file), steps);
    assert steps + [LoseState, Restart] == steps + [LoseState] + [Restart];
    var lost := Run(Start(file), steps + [LoseState, Restart]);
    OwnershipMatchesAudit(file, steps);
    ReconcileExactly(lost, env, key);
    SuffixClaimsLess(w.audit, 500, key);
  }

  // --- the longest an account stays off ---------------------------------------------------------------

  /** Every owned account has a retry time, at most `m` minutes after its last audited disable. */
  ghost predicate Scheduled(m: Memory, audit: seq<Decision>, minutes: int) {
    forall key :: m.Owns(key) && LastIsDisable(audit, key) ==>
      m.Slot(key).nextRetryAt.Some? &&
      m.Slot(key).nextRetryAt.value <= LastDecision(audit, key).value.time + minutes * MINUTE
  }

  lemma {:induction false} BackoffBounded(now: Time, n: nat, o: Options, minutes: int)
    requires n >= 1 && o.reenableMinutes != 0 && o.maxDisableMinutes <= minutes
    ensures BackoffNext(now, n, o).Some? && BackoffNext(now, n, o).value <= now + minutes * MINUTE
  {
  }

  lemma {:induction false} RoundSchedules(m: Memory, audit: seq<Decision>, samples: seq<Sample>, accounts: seq<Account>,
                                          now: Time, options: Options, minutes: int)
    requires options.reenableMinutes != 0 && options.Normalized().maxDisableMinutes <= minutes
    requires Agrees(m, audit) && Scheduled(m, audit, minutes)
    ensures var r := Advanced(m, samples, accounts, now, options);
      Scheduled(r.mem, audit + r.decisions, minutes)
  {
    hide Advanced, NormalizeKey, BackoffNext;
    var r := Advanced(m, samples, accounts, now, options);
    var o := options.Normalized();
    RoundOwnership(m, samples, accounts, now, options);
    forall key | r.mem.Owns(key) && LastIsDisable(audit + r.decisions, key)
      ensures r.mem.Slot(key).nextRetryAt.Some? &&
        r.mem.Slot(key).nextRetryAt.value <= LastDecision(audit + r.decisions, key).value.time + minutes * MINUTE
    {
      LastOfConcat(audit, r.decisions, key);
      assert OwnershipFollows(m.Slot(key), r.mem.Slot(key), LastDecision(r.decisions, key), now, o);
      if LastDecision(r.decisions, key) != None {
        BackoffBounded(now, r.mem.Slot(key).disableCount, o, minutes);
      }
    }
  }

  /** A run whose ticks all re-enable on their own, within at most `minutes`. */
  predicate Recovering(steps: seq<Step>, minutes: int) {
    forall s :: s in steps && s.Tick? ==>
      s.env.options.reenableMinutes != 0 && s.env.options.Normalized().maxDisableMinutes <= minutes
  }

  lemma {:induction false} ReconcileNothing(w: World, accounts: seq<Account>, env: Env)
    requires Agrees(w.mem, w.audit)
    ensures forall key :: Reconciled(w, accounts, env).mem.Slot(key) == w.mem.Slot(key)
  {
    hide NormalizeKey, LastIsDisable;
    forall key
      ensures LastIsDisable(LastN(w.audit, 500), key) ==> w.mem.Owns(key)
    {
      SuffixClaimsLess(w.audit, 500, key);
    }
    AdoptNothing(w.mem, UniqueAccounts(Unclaimed(accounts, w.mem)), LastN(w.audit, 500), env.now, env.options.Normalized());
  }

  lemma {:induction false} AdoptNothing(m: Memory, accounts: seq<Account>, audit: seq<Decision>, now: Time, o: Options)
    requires forall key :: LastIsDisable(audit, key) ==> m.Owns(key)
    ensures forall key :: AdoptAll(m, accounts, audit, now, o).Slot(key) == m.Slot(key)
  {
    hide NormalizeKey, LastIsDisable;
    if accounts != [] {
      AdoptNothing(m, accounts[..|accounts| - 1], audit, now, o);
    }
  }

  lemma {:induction false} TickSchedules(w: World, env: Env, minutes: int)
    requires AllGood(env) && WorldAgrees(w)
    requires env.options.reenableMinutes != 0 && env.options.Normalized().maxDisableMinutes <= minutes
    requires Scheduled(w.mem, w.audit, minutes) && Scheduled(w.Stored(), w.audit, minutes)
    ensures Scheduled(Ticked(w, env).mem, Ticked(w, env).audit, minutes)
    ensures Scheduled(Ticked(w, env).Stored(), Ticked(w, env).audit, minutes)
  {
    hide Advanced, View, Ticked, Reconciled, LastIsDisable;
    if env.readOk {
      var accounts := View(w.file, w.pending);
      var m := Reconciled(w, accounts, env).mem;
      TickShape(w, env);
      ReconcileNothing(w, accounts, env);
      assert Agrees(m, w.audit);
      RoundSchedules(m, w.audit, TickSamples(env), accounts, env.now, env.options, minutes);
      assert w.audit + [] == w.audit;
    } else {
      UnreadTick(w, env);
    }
  }

  lemma {:induction false} RunSchedules(file: seq<Entry>, steps: seq<Step>, minutes: int)
    requires Durable(steps) && LoseState !in steps && Recovering(steps, minutes)
    ensures Scheduled(Run(Start(file), steps).mem, Run(Start(file), steps).audit, minutes)
    ensures Scheduled(Run(Start(file), steps).Stored(), Run(Start(file), steps).audit, minutes)
  {
    hide Ticked;
    if steps != [] {
      var rest := steps[..|steps| - 1];
      RunSchedules(file, rest, minutes);
      OwnershipMatchesAudit(file, rest);
      if steps[|steps| - 1].Tick? {
        TickSchedules(Run(Start(file), rest), steps[|steps| - 1].env, minutes);
      }
    }
  }

  /**
   The guard lets no account wait for more than `minutes`: in every durable, lossless run whose ticks re-enable
   on their own, the first readable tick at least that long after the account's last disable that still lists
   it and shows it disabled decides to enable it, whatever that tick's other options are. Whether the file then
   says so is another matter (RunnerFloor.FileTimeIsBounded).
   */
  lemma {:induction false} DisableTimeIsBounded(file: seq<Entry>, steps: seq<Step>, env: Env, minutes: int, a: Account,
                                                disable: Decision)
    requires Durable(steps) && LoseState !in steps && Recovering(steps, minutes)
    requires env.readOk && AllGood(env)
    requires var w := Run(Start(file), steps);
      && a in w.Shown() && a.disabled && w.mem.Owns(a.Key())
      && LastDecision(w.audit, a.Key()) == Some(disable)
      && env.now >= disable.time + minutes * MINUTE
    ensures var w' := Ticked(Run(Start(file), steps), env);
      !w'.mem.Owns(a.Key()) && LastDecision(w'.audit, a.Key()).Some? && LastDecision(w'.audit, a.Key()).value.action == Enable
  {
    hide Ticked, Advanced, View, Reconciled, NormalizeKey;
    var w := Run(Start(file), steps);
    OwnershipMatchesAudit(file, steps);
    RunSchedules(file, steps, minutes);
    TickShape(w, env);
    var accounts := View(w.file, w.pending);
    ReconcileNothing(w, accounts, env);
    var m := Reconciled(w, accounts, env).mem;
    var r := TickRound(w, env);
    assert m.Slot(a.Key()) == w.mem.Slot(a.Key());
    RetryDecides(m, TickSamples(env), accounts, a, env.now, env.options);
    EnabledFloor(m, TickSamples(env), accounts, env.now, env.options);
    var d :| d in r.decisions && d.Key() == a.Key() && d.action == Enable;
    OnlyOne(r.decisions, d);
    LastOfConcat(w.audit, r.decisions, a.Key());
  }
}
