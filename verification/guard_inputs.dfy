/** What the guard makes of its settings and of the samples it is shown. */
module GuardInputs {
  import opened Common
  import opened Text
  import opened TextLaws
  import opened Guard

  /** Configured values stay, missing ones get their documented defaults, and nothing else changes. */
  lemma {:induction false} DefaultsFillIn(options: Options)
    ensures var o := options.Normalized();
      && o.threshold == (if options.threshold >= 1 then options.threshold else 3)
      && o.minEnabled == (if options.minEnabled >= 1 then options.minEnabled else 1)
      && o.reenableMinutes == (if options.reenableMinutes >= 0 then options.reenableMinutes else 5)
      && o.maxDisableMinutes == (if options.maxDisableMinutes >= 1 then options.maxDisableMinutes else 360)
      && o.enabled == options.enabled && o.dryRun == options.dryRun && o.scopeNames == options.scopeNames
      && o.baseline == options.baseline && o.Normalized() == o
  {
  }

  /** The guard judges exactly when it is switched on and the baseline is more than white space. */
  lemma {:induction false} JudgesExactly(o: Options)
    ensures o.CanJudge() <==> o.enabled && !Blank(o.baseline)
  {
    TrimTells(o.baseline);
  }

  /** A scope without any name is every account; otherwise it is the accounts named in it, trimmed and in any case. */
  lemma {:induction false} ScopeExactly(o: Options, name: string)
    ensures o.InScope(name) <==>
      || (forall n :: n in o.scopeNames ==> Lower(Trim(n)) == "")
      || exists n :: n in o.scopeNames && Lower(Trim(n)) == Lower(Trim(name)) != ""
  {
    hide Trim, Lower;
    if exists n :: n in o.scopeNames && NormalizeKey(n) != "" {
      var n :| n in o.scopeNames && NormalizeKey(n) != "";
      assert NormalizeKey(n) in o.Scope();
    }
  }

  /**
   Two samples are the same consumption exactly when they are of one account and carry the same request id, or none and the
   same time.
   */
  lemma {:induction false} TokensTellApart(a: Sample, b: Sample, ka: string, kb: string)
    ensures TokenOf(a, ka) == TokenOf(b, kb) <==>
      && ka == kb && Trim(a.requestID) == Trim(b.requestID)
      && (Trim(a.requestID) == "" ==> a.time == b.time)
  {
  }

  /** A token as it stands in the state file; `stamp` writes a time. */
  function TokenText(t: Token, stamp: Time -> string): string {
    match t
    case ById(key, id) => key + "|" + id
    case ByTime(key, time) => key + "@" + stamp(time)
  }

  /** The text tells tokens apart when neither key holds a separator. */
  lemma {:induction false} TextTellsApart(t: Token, u: Token, stamp: Time -> string)
    requires '|' !in t.key && '@' !in t.key && '|' !in u.key && '@' !in u.key
    requires forall a, b :: stamp(a) == stamp(b) ==> a == b
    ensures TokenText(t, stamp) == TokenText(u, stamp) <==> t == u
  {
    if TokenText(t, stamp) == TokenText(u, stamp) {
      SameKey(t, u, stamp);
      SameKey(u, t, stamp);
      assert TokenText(t, stamp)[|t.key| + 1..] == TokenText(u, stamp)[|u.key| + 1..];
    }
  }

  lemma {:induction false} SameKey(t: Token, u: Token, stamp: Time -> string)
    requires '|' !in u.key && '@' !in u.key && TokenText(t, stamp) == TokenText(u, stamp)
    ensures |u.key| <= |t.key| && t.key[..|u.key|] == u.key
    ensures |u.key| == |t.key| ==> t.ById? == u.ById?
  {
    var a, b := TokenText(t, stamp), TokenText(u, stamp);
    assert a[..|t.key|] == t.key && b[..|u.key|] == u.key;
    assert (a[|t.key|] == '|' || a[|t.key|] == '@') && (b[|u.key|] == '|' || b[|u.key|] == '@');
    assert forall k :: 0 <= k < |u.key| ==> b[k] == u.key[k] && u.key[k] != '|' && u.key[k] != '@';
  }

  /** With a separator in a key it need not: two requests of two accounts are then one token. */
  lemma {:induction false} TextCollides(stamp: Time -> string)
    ensures TokenText(ById("a|b", "c"), stamp) == TokenText(ById("a", "b|c"), stamp)
  {
    assert "a|b" + "|" + "c" == "a" + "|" + "b|c";
  }

  /**
   Which samples count, and what they count as: the account is listed, the channel is more than white space and the token
   was not consumed yet. It is off the baseline when the trimmed channel and the baseline differ in more than case.
   */
  lemma {:induction false} ConsumedExactly(m: Memory, s: Sample, index: map<string, Account>, baseline: string)
    ensures var key := Lower(Trim(s.providerKey));
      var c := ConsumptionOf(m, s, index, baseline);
      && (c.Some? <==> key != "" && key in index && Trim(s.channel) != "" && TokenOf(s, key) !in m.seen)
      && (c.Some? ==> (c.value.key, c.value.token, c.value.name) == (key, TokenOf(s, key), index[key].name))
      && (c.Some? ==> c.value.channel == Trim(s.channel) && c.value.at == s.time)
      && (c.Some? ==> (c.value.off <==> Lower(Trim(s.channel)) != Lower(baseline)))
  {
  }
}
