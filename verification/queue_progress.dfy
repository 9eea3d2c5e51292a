/** When a record is dropped, and that the writer gets through whatever it has begun. */
module QueueProgress {
  import opened Common
  import opened Queue

  // --- dropping --------------------------------------------------------------------------------------

  /** A record observed while the queue has room is counted as queued and on its way; at 4096 it is dropped at once. */
  lemma {:induction false} ObserveExactly(s: State, p: nat, record: int)
    requires p !in s.sending && p !in s.undoing && |s.queue| <= 4096
    ensures Take(s, Observe(p, record)) == Some(
      if |s.queue| < 4096 then s.(events := s.events + 1, queued := s.queued + 1, sending := s.sending[p := record])
      else s.(events := s.events + 1, dropped := s.dropped + 1))
  {
  }

  /** A send goes through exactly when the queue has room, and is refused exactly when it has none. */
  lemma {:induction false} SendOrRefuse(s: State, p: nat)
    requires p in s.sending
    ensures Take(s, Send(p)).Some? <==> |s.queue| < 4096
    ensures Take(s, Refuse(p)).Some? <==> |s.queue| >= 4096
    ensures Take(s, Send(p)).Some? ==>
      var t := Take(s, Send(p)).value;
      t.queue == s.queue + [s.sending[p]] && t.sent == s.sent + [s.sending[p]] && t.sending == s.sending - {p}
  {
  }

  /** The queue had room in every state of the run so far. */
  ghost predicate HadRoom(steps: seq<Step>) {
    && Run(steps).Some? && |Run(steps).value.queue| < 4096
    && (steps != [] ==> HadRoom(steps[..|steps| - 1]))
  }

  /** Nothing was dropped: every event was sent or is being sent. */
  ghost predicate NoneLost(s: State) {
    s.dropped == 0 && s.undoing == map[] && s.events == |s.sent| + |s.sending|
  }

  lemma {:induction false} StepWithRoom(s: State, step: Step)
    requires NoneLost(s) && |s.queue| < 4096 && Take(s, step).Some?
    ensures NoneLost(Take(s, step).value)
  {
    match step
    case Observe(p, record) => MoreOne(s.sending, p, record);
    case Send(p) => LessOne(s.sending, p);
    case _ =>
  }

  /** As long as the queue has room nothing is dropped. */
  lemma {:induction false} NothingDropped(steps: seq<Step>)
    requires HadRoom(steps)
    ensures NoneLost(Run(steps).value)
  {
    hide NoneLost, Take;
    if steps == [] {
      StartLostNone();
    } else {
      NothingDropped(steps[..|steps| - 1]);
      StepWithRoom(Run(steps[..|steps| - 1]).value, steps[|steps| - 1]);
    }
  }

  lemma {:induction false} StartLostNone()
    ensures NoneLost(START)
  {
  }

  // --- the writer ------------------------------------------------------------------------------------

  function From(s: State, steps: seq<Step>): Option<State>
    decreases |steps|
  {
    if steps == [] then Some(s) else
      match Take(s, steps[0])
      case None => None
      case Some(t) => From(t, steps[1..])
  }

  lemma {:induction false} FromSplits(s: State, a: seq<Step>, b: seq<Step>)
    ensures From(s, a + b) == match From(s, a) case None => None case Some(t) => From(t, b)
    decreases |a|
  {
    hide Take;
    if a == [] {
      assert a + b == b;
    } else {
      assert (a + b)[0] == a[0] && (a + b)[1..] == a[1..] + b;
      match Take(s, a[0])
      case None =>
      case Some(t) => FromSplits(t, a[1..], b);
    }
  }

  /** The state with its first queued record given to the store and counted. */
  function Stored(s: State, ok: bool): State
    requires s.queue != []
  {
    s.(queue := s.queue[1..], appends := s.appends + [Entry(s.queue[0], ok)],
       written := s.written + (if ok then 1 else 0), failures := s.failures + (if ok then 0 else 1))
  }

  /** Taking a record, appending it and counting it brings the writer back to what it was doing. */
  lemma {:induction false} OneRecord(s: State, ok: bool)
    requires s.queue != []
    requires s.writer == Idle || s.writer == Draining(Stopping) || exists f :: s.writer == Draining(Flushing(f))
    ensures From(s, [Receive, Append(ok), Count]) == Some(Stored(s, ok))
  {
    var steps := [Receive, Append(ok), Count];
    assert steps[1..] == [Append(ok), Count] && [Append(ok), Count][1..] == [Count] && [Count][1..] == [];
    var t := Take(s, Receive).value;
    var u := Take(t, Append(ok)).value;
    assert Take(u, Count) == Some(Stored(s, ok));
    assert From(u, [Count]) == Some(Stored(s, ok));
    assert From(t, [Append(ok), Count]) == From(u, [Count]);
  }

  function Entries(records: seq<int>, oks: seq<bool>): (r: seq<Entry>)
    requires |oks| == |records|
    ensures |r| == |records| && forall i :: 0 <= i < |r| ==> r[i] == Entry(records[i], oks[i])
  {
    seq(|records|, i requires 0 <= i < |records| => Entry(records[i], oks[i]))
  }

  /** The writer's steps for everything queued; each append goes as `oks` says. */
  function Rounds(oks: seq<bool>): seq<Step> {
    if oks == [] then [] else [Receive, Append(oks[0]), Count] + Rounds(oks[1..])
  }

  /** However the appends go, the writer empties the queue in order, doing what it did. */
  lemma {:induction false} QueueEmpties(s: State, oks: seq<bool>)
    requires |oks| == |s.queue|
    requires s.writer == Idle || s.writer == Draining(Stopping) || exists f :: s.writer == Draining(Flushing(f))
    ensures From(s, Rounds(oks)).Some?
    ensures var t := From(s, Rounds(oks)).value;
      && t == s.(queue := [], appends := s.appends + Entries(s.queue, oks), written := t.written, failures := t.failures)
      && t.written + t.failures == s.written + s.failures + |oks|
    decreases |oks|
  {
    hide Take, From;
    if oks == [] {
      Nowhere(s);
      assert s.appends + Entries(s.queue, oks) == s.appends;
    } else {
      var t := Stored(s, oks[0]);
      OneRecord(s, oks[0]);
      FromSplits(s, [Receive, Append(oks[0]), Count], Rounds(oks[1..]));
      QueueEmpties(t, oks[1..]);
      assert s.appends + Entries(s.queue, oks) == t.appends + Entries(t.queue, oks[1..]);
    }
  }

  lemma {:induction false} Nowhere(s: State)
    ensures From(s, []) == Some(s)
  {
  }

  lemma {:induction false} OneStep(s: State, step: Step)
    ensures From(s, [step]) == Take(s, step)
  {
    hide Take;
    assert [step][1..] == [];
  }

  /** A Flush that was met is acknowledged once the writer got through the queue, and the writer listens again. */
  lemma {:induction false} FlushCompletes(s: State, f: nat, oks: seq<bool>)
    requires s.writer == Draining(Flushing(f)) && |oks| == |s.queue|
    ensures From(s, Rounds(oks) + [Drained]).Some?
    ensures var t := From(s, Rounds(oks) + [Drained]).value;
      t.writer == Idle && f in t.acked && t.queue == [] && t.appends == s.appends + Entries(s.queue, oks)
  {
    hide From, Rounds;
    QueueEmpties(s, oks);
    FromSplits(s, Rounds(oks), [Drained]);
    OneStep(From(s, Rounds(oks)).value, Drained);
  }

  /** A writer that is stopping empties the queue before it goes. */
  lemma {:induction false} StopCompletes(s: State, oks: seq<bool>)
    requires s.writer == Draining(Stopping) && |oks| == |s.queue|
    ensures From(s, Rounds(oks) + [Drained]).Some?
    ensures var t := From(s, Rounds(oks) + [Drained]).value;
      t.writer == Gone && t.acked == s.acked && t.queue == [] && t.appends == s.appends + Entries(s.queue, oks)
  {
    hide From, Rounds;
    QueueEmpties(s, oks);
    FromSplits(s, Rounds(oks), [Drained]);
    OneStep(From(s, Rounds(oks)).value, Drained);
  }

  /** An idle writer meets any Flush that was not met before, notes how much was sent by then, and can be stopped. */
  lemma {:induction false} IdleWriterListens(s: State, f: nat)
    requires s.writer == Idle && f !in s.marks
    ensures Take(s, Meet(f)) == Some(s.(writer := Draining(Flushing(f)), marks := s.marks[f := |s.sent|]))
    ensures Take(s, Stop) == Some(s.(writer := Draining(Stopping)))
  {
  }

  /** A writer that is gone takes nothing any more. */
  lemma {:induction false} GoneIsGone(s: State, ok: bool, f: nat)
    requires s.writer == Gone
    ensures Take(s, Receive) == Take(s, Append(ok)) == Take(s, Count) == Take(s, Meet(f)) == Take(s, Drained) == Take(s, Stop) == None
  {
  }
}
