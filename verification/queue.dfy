/**
 The usage recorder's queue as a protocol: producers that count under a lock and send outside it, one writer,
 and callers of Flush. Every step is one atomic action of one of them, and any enabled step may come next.
 */
module Queue {
  import opened Common

  const QUEUE_CAPACITY := 4096

  /** What the writer returns to once the record in its hands is counted. */
  datatype Mode = Listening | Flushing(flush: nat) | Stopping

  datatype Writer =
    | Idle
    | Holding(record: int, back: Mode)
    | Appended(record: int, ok: bool, back: Mode)
    | Draining(mode: Mode)
    | Gone

  datatype Entry = Entry(record: int, ok: bool)

  /**
   `sending` are the producers between counting their record and sending it, `undoing` those whose send was
   refused. `sent` and `appends` are the histories of the channel and of the store, and `marks` how much had
   been sent when the writer met each Flush.
   */
  datatype State = State(
    queue: seq<int>, sending: map<nat, int>, undoing: map<nat, int>, writer: Writer,
    events: int, queued: int, dropped: int, written: int, failures: int,
    sent: seq<int>, appends: seq<Entry>, marks: map<nat, nat>, acked: set<nat>)

  const START := State([], map[], map[], Idle, 0, 0, 0, 0, 0, [], [], map[], {})

  datatype Step =
    | Observe(producer: nat, record: int)
    | Send(producer: nat)
    | Refuse(producer: nat)
    | Undo(producer: nat)
    | Receive
    | Append(ok: bool)
    | Count
    | Meet(flush: nat)
    | Drained
    | Stop

  /** A step taken in a state, or None when it is not enabled there. */
  function Take(s: State, step: Step): Option<State> {
    match step
    case Observe(p, record) =>
      if p in s.sending || p in s.undoing then None
      else if |s.queue| == QUEUE_CAPACITY then Some(s.(events := s.events + 1, dropped := s.dropped + 1))
      else Some(s.(events := s.events + 1, queued := s.queued + 1, sending := s.sending[p := record]))
    case Send(p) =>
      if p !in s.sending || |s.queue| >= QUEUE_CAPACITY then None
      else Some(s.(queue := s.queue + [s.sending[p]], sent := s.sent + [s.sending[p]], sending := s.sending - {p}))
    case Refuse(p) =>
      if p !in s.sending || |s.queue| < QUEUE_CAPACITY then None
      else Some(s.(undoing := s.undoing[p := s.sending[p]], sending := s.sending - {p}))
    case Undo(p) =>
      if p !in s.undoing then None
      else Some(s.(dropped := s.dropped + 1, queued := s.queued - 1, undoing := s.undoing - {p}))
    case Receive =>
      if s.queue == [] || !(s.writer.Idle? || s.writer.Draining?) then None
      else Some(s.(writer := Holding(s.queue[0], if s.writer.Idle? then Listening else s.writer.mode), queue := s.queue[1..]))
    case Append(ok) =>
      if !s.writer.Holding? then None
      else Some(s.(writer := Appended(s.writer.record, ok, s.writer.back), appends := s.appends + [Entry(s.writer.record, ok)]))
    case Count =>
      if !s.writer.Appended? then None
      else Some(s.(written := s.written + (if s.writer.ok then 1 else 0),
                   failures := s.failures + (if s.writer.ok then 0 else 1),
                   writer := if s.writer.back == Listening then Idle else Draining(s.writer.back)))
    case Meet(f) =>
      if !s.writer.Idle? || f in s.marks then None
      else Some(s.(writer := Draining(Flushing(f)), marks := s.marks[f := |s.sent|]))
    case Drained =>
      if !s.writer.Draining? || s.queue != [] then None
      else if s.writer.mode.Flushing? then Some(s.(writer := Idle, acked := s.acked + {s.writer.mode.flush}))
      else Some(s.(writer := Gone))
    case Stop => if s.writer.Idle? then Some(s.(writer := Draining(Stopping))) else None
  }

  /** A run: steps that were all enabled when they were taken. */
  function Run(steps: seq<Step>): Option<State> {
    if steps == [] then Some(START) else
      match Run(steps[..|steps| - 1])
      case None => None
      case Some(s) => Take(s, steps[|steps| - 1])
  }

  // --- what every reachable state satisfies -------------------------------------------------------------

  function Records(entries: seq<Entry>): (r: seq<int>)
    ensures |r| == |entries| && forall i :: 0 <= i < |r| ==> r[i] == entries[i].record
  {
    seq(|entries|, i requires 0 <= i < |entries| => entries[i].record)
  }

  function Oks(entries: seq<Entry>): nat {
    if entries == [] then 0 else Oks(entries[..|entries| - 1]) + if entries[|entries| - 1].ok then 1 else 0
  }

  lemma {:induction false} OksNext(entries: seq<Entry>, e: Entry)
    ensures Oks(entries + [e]) == Oks(entries) + if e.ok then 1 else 0
  {
    assert (entries + [e])[..|entries|] == entries;
  }

  /** The record in the writer's hands. */
  function InHand(s: State): int { if s.writer.Holding? || s.writer.Appended? then 1 else 0 }

  predicate EveryEventCounted(s: State) { s.events == s.queued + s.dropped }

  predicate QueuedIsAccountedFor(s: State) {
    s.queued == |s.sending| + |s.undoing| + |s.queue| + InHand(s) + s.written + s.failures
  }

  /** The store is given the records in the order they were sent, and none is lost on the way. */
  ghost predicate Fifo(s: State) {
    s.sent == Records(s.appends) + (if s.writer.Holding? then [s.writer.record] else []) + s.queue
  }

  predicate AppendsCounted(s: State) {
    && s.written == Oks(s.appends) - (if s.writer.Appended? && s.writer.ok then 1 else 0)
    && s.written + s.failures == |s.appends| - (if s.writer.Appended? then 1 else 0)
    && (s.writer.Appended? ==> s.appends != [] && s.appends[|s.appends| - 1] == Entry(s.writer.record, s.writer.ok))
  }

  /** The Flush the writer is serving, if any. */
  function Serving(s: State): Option<nat> {
    var mode := match s.writer case Draining(m) => m case Holding(_, m) => m case Appended(_, _, m) => m case _ => Listening;
    match mode case Flushing(f) => Some(f) case _ => None
  }

  /** An acknowledged Flush has everything behind it that had been sent when the writer met it. */
  ghost predicate FlushesHold(s: State) {
    && (forall f :: f in s.marks ==> s.marks[f] <= |s.sent|)
    && (forall f :: f in s.acked ==> f in s.marks && s.marks[f] <= s.written + s.failures)
    && (Serving(s).Some? ==> Serving(s).value in s.marks)
  }

  predicate Bounded(s: State) { |s.queue| <= QUEUE_CAPACITY && s.sending.Keys !! s.undoing.Keys }

  ghost predicate Sound(s: State) {
    EveryEventCounted(s) && QueuedIsAccountedFor(s) && Fifo(s) && AppendsCounted(s) && FlushesHold(s) && Bounded(s)
  }

  lemma {:induction false} LessOne<T>(m: map<nat, T>, p: nat)
    requires p in m
    ensures |m - {p}| == |m| - 1
  {
    assert (m - {p}).Keys == m.Keys - {p};
    assert |(m - {p}).Keys| == |m - {p}| && |m.Keys| == |m|;
  }

  lemma {:induction false} MoreOne<T>(m: map<nat, T>, p: nat, x: T)
    requires p !in m
    ensures |m[p := x]| == |m| + 1
  {
    assert m[p := x].Keys == m.Keys + {p};
    assert |m[p := x].Keys| == |m[p := x]| && |m.Keys| == |m|;
  }

  /** The producers' steps leave the writer and its histories alone; only a send adds to what was sent. */
  lemma {:induction false} ObserveKeeps(s: State, step: Step)
    requires Sound(s) && step.Observe? && Take(s, step).Some?
    ensures Sound(Take(s, step).value)
  {
    hide Oks, Records;
    if |s.queue| < QUEUE_CAPACITY {
      MoreOne(s.sending, step.producer, step.record);
    }
  }

  lemma {:induction false} SendKeeps(s: State, step: Step)
    requires Sound(s) && step.Send? && Take(s, step).Some?
    ensures Sound(Take(s, step).value)
  {
    hide Oks, Records;
    LessOne(s.sending, step.producer);
    var held := if s.writer.Holding? then [s.writer.record] else [];
    assert Records(s.appends) + held + s.queue + [s.sending[step.producer]]
      == Records(s.appends) + held + (s.queue + [s.sending[step.producer]]);
  }

  lemma {:induction false} RefuseKeeps(s: State, step: Step)
    requires Sound(s) && step.Refuse? && Take(s, step).Some?
    ensures Sound(Take(s, step).value)
  {
    hide Oks, Records;
    LessOne(s.sending, step.producer);
    MoreOne(s.undoing, step.producer, s.sending[step.producer]);
  }

  lemma {:induction false} UndoKeeps(s: State, step: Step)
    requires Sound(s) && step.Undo? && Take(s, step).Some?
    ensures Sound(Take(s, step).value)
  {
    hide Oks, Records;
    LessOne(s.undoing, step.producer);
  }

  /** The writer's steps around one record. */
  lemma {:induction false} ReceiveKeeps(s: State, step: Step)
    requires Sound(s) && step.Receive? && Take(s, step).Some?
    ensures Sound(Take(s, step).value)
  {
    hide Oks, Records;
    assert s.queue == [s.queue[0]] + s.queue[1..];
    assert Records(s.appends) + [] + s.queue == Records(s.appends) + [s.queue[0]] + s.queue[1..];
  }

  lemma {:induction false} AppendKeeps(s: State, step: Step)
    requires Sound(s) && step.Append? && Take(s, step).Some?
    ensures Sound(Take(s, step).value)
  {
    hide Oks;
    OksNext(s.appends, Entry(s.writer.record, step.ok));
    assert Records(s.appends + [Entry(s.writer.record, step.ok)]) == Records(s.appends) + [s.writer.record] + [];
  }

  lemma {:induction false} CountKeeps(s: State, step: Step)
    requires Sound(s) && step.Count? && Take(s, step).Some?
    ensures Sound(Take(s, step).value)
  {
    hide Oks, Records;
  }

  /** Meeting a Flush, acknowledging it, and stopping. */
  lemma {:induction false} MeetKeeps(s: State, step: Step)
    requires Sound(s) && step.Meet? && Take(s, step).Some?
    ensures Sound(Take(s, step).value)
  {
    hide Oks, Records;
  }

  lemma {:induction false} DrainedKeeps(s: State, step: Step)
    requires Sound(s) && (step.Drained? || step.Stop?) && Take(s, step).Some?
    ensures Sound(Take(s, step).value)
  {
    hide Oks;
  }

  /** Every interleaving of producers, flushers and the writer. */
  lemma {:induction false} EveryRunSound(steps: seq<Step>)
    requires Run(steps).Some?
    ensures Sound(Run(steps).value)
  {
    hide Sound, Take;
    if steps == [] {
      StartIsSound();
    } else {
      var before, step := steps[..|steps| - 1], steps[|steps| - 1];
      EveryRunSound(before);
      var s := Run(before).value;
      if step.Observe? {
        ObserveKeeps(s, step);
      } else if step.Send? {
        SendKeeps(s, step);
      } else if step.Refuse? {
        RefuseKeeps(s, step);
      } else if step.Undo? {
        UndoKeeps(s, step);
      } else if step.Receive? {
        ReceiveKeeps(s, step);
      } else if step.Append? {
        AppendKeeps(s, step);
      } else if step.Count? {
        CountKeeps(s, step);
      } else if step.Meet? {
        MeetKeeps(s, step);
      } else {
        DrainedKeeps(s, step);
      }
    }
  }

  lemma {:induction false} StartIsSound()
    ensures Sound(START)
  {
  }

  // --- what it means ------------------------------------------------------------------------------------

  /** What was handed to the store is, in order, a beginning of what was sent. */
  lemma {:induction false} AppendsInSendOrder(steps: seq<Step>)
    requires Run(steps).Some?
    ensures Records(Run(steps).value.appends) <= Run(steps).value.sent
  {
    hide Take, Run, EveryEventCounted, QueuedIsAccountedFor, AppendsCounted, FlushesHold, Bounded;
    EveryRunSound(steps);
  }

  /**
   A record sent before the writer met an acknowledged Flush has been given to the store, and was counted as
   written or as a failure.
   */
  lemma {:induction false} AckedFlushCoversWhatWasSent(steps: seq<Step>, f: nat, i: nat)
    requires Run(steps).Some? && f in Run(steps).value.acked
    requires f in Run(steps).value.marks && i < Run(steps).value.marks[f]
    ensures var s := Run(steps).value;
      i < |s.sent| && i < |s.appends| && s.appends[i].record == s.sent[i] && i < s.written + s.failures
  {
    hide Take, Run, EveryEventCounted, QueuedIsAccountedFor, Bounded;
    EveryRunSound(steps);
    AppendsInSendOrder(steps);
    var s := Run(steps).value;
    assert Records(s.appends)[i] == s.sent[i];
  }

  /** Once nothing is on its way, every event was written, failed or was dropped. */
  lemma {:induction false} QuietMeansAccounted(steps: seq<Step>)
    requires Run(steps).Some?
    requires var s := Run(steps).value; s.queue == [] && s.sending == map[] && s.undoing == map[] && InHand(s) == 0
    ensures var s := Run(steps).value;
      s.events == s.written + s.failures + s.dropped && s.written == Oks(s.appends) && s.sent == Records(s.appends)
  {
    hide Take, Run;
    EveryRunSound(steps);
    var s := Run(steps).value;
    assert Records(s.appends) + [] + [] == Records(s.appends);
  }
}
