/**
 What a request log says, read off its lines as a whole, and the proof that the streaming parser computes it.
 */
module LogSpec {
  import opened Common
  import opened Text
  import opened LogParser

  // --- the log as a list of sections --------------------------------------------------------------------

  datatype Part = Part(kind: Kind, body: seq<string>)

  /** The sections of a log, with the lines before the first header as a section of their own. */
  function Parts(lines: seq<string>): (parts: seq<Part>)
    ensures parts != []
  {
    if lines == [] then [Part(Other, [])] else
      var line, before := lines[|lines| - 1], Parts(lines[..|lines| - 1]);
      var open := before[|before| - 1];
      match SectionHeader(line)
      case Header(name) => before + [Part(Classify(name), [])]
      case _ => before[..|before| - 1] + [Part(open.kind, open.body + [line])]
  }

  /** The section a new line falls into. */
  function InForce(lines: seq<string>): Kind { var p := Parts(lines); p[|p| - 1].kind }

  /** What the last line that says something says, among the lines of one kind of section. */
  function LastSaid<T>(lines: seq<string>, kind: Kind, pick: string -> Option<T>): Option<T> {
    if lines == [] then None else
      var line, before := lines[|lines| - 1], lines[..|lines| - 1];
      if SectionHeader(line) == NotHeader && InForce(before) == kind && pick(line).Some? then pick(line)
      else LastSaid(before, kind, pick)
  }

  // --- the frames of one section ------------------------------------------------------------------------

  function FrameCount(body: seq<string>, codec: Codec): nat {
    if body == [] then 0 else
      FrameCount(body[..|body| - 1], codec) + if FrameOf(body[|body| - 1], codec).Some? then 1 else 0
  }

  /** What the last frame that says something says. */
  function LastInFrames<T>(body: seq<string>, codec: Codec, pick: Frame -> Option<T>): Option<T> {
    if body == [] then None else
      var f := FrameOf(body[|body| - 1], codec);
      if f.Some? && pick(f.value).Some? then pick(f.value) else LastInFrames(body[..|body| - 1], codec, pick)
  }

  function PromptIn(f: Frame): Option<int> { if f.usage == None then None else f.usage.value.prompt }

  function CompletionIn(f: Frame): Option<int> { if f.usage == None then None else f.usage.value.completion }

  function RoutingIn(f: Frame): Option<Routing> { FrameRouting(f.choices) }

  function OrElse<T>(o: Option<T>, d: T): T { if o.Some? then o.value else d }

  /** The frame count, the routing block and the counters of a section, each from the last frame naming it. */
  function SectionOf(body: seq<string>, codec: Codec): Section {
    Section(FrameCount(body, codec),
            OrElse(LastInFrames(body, codec, RoutingIn), NO_ROUTING),
            OrElse(LastInFrames(body, codec, PromptIn), 0),
            OrElse(LastInFrames(body, codec, CompletionIn), 0),
            LastInFrames(body, codec, RoutingIn).Some?)
  }

  lemma {:induction false} SectionGrows(body: seq<string>, line: string, codec: Codec)
    ensures SectionOf(body + [line], codec) == FrameRead(SectionOf(body, codec), line, codec)
  {
    assert (body + [line])[..|body|] == body;
  }

  // --- the fact -----------------------------------------------------------------------------------------

  /** The upstream attempts: response and error sections, whatever came of them. */
  function Attempts(parts: seq<Part>): nat {
    if parts == [] then 0 else
      var kind := parts[|parts| - 1].kind;
      Attempts(parts[..|parts| - 1]) + if kind == Response || kind == ErrorResponse then 1 else 0
  }

  predicate AnyError(parts: seq<Part>) { exists i :: 0 <= i < |parts| && parts[i].kind == ErrorResponse }

  /** The last response section with a routing block. */
  function LastAnswer(parts: seq<Part>, codec: Codec): Option<Section> {
    if parts == [] then None else
      var p := parts[|parts| - 1];
      if p.kind == Response && SectionOf(p.body, codec).found then Some(SectionOf(p.body, codec))
      else LastAnswer(parts[..|parts| - 1], codec)
  }

  /** The frame count of the last response section of any kind. */
  function LastFrameCount(parts: seq<Part>, codec: Codec): nat {
    if parts == [] then 0 else
      var p := parts[|parts| - 1];
      if p.kind == Response then FrameCount(p.body, codec) else LastFrameCount(parts[..|parts| - 1], codec)
  }

  function ValueOf(line: string, name: string): Option<string> {
    match KeyValue(line)
    case None => None
    case Some(f) => if EqualFold(f.key, name) then Some(f.value) else None
  }

  function TimeOf(line: string, codec: Codec): Option<int> {
    match ValueOf(line, "Timestamp")
    case None => None
    case Some(v) => codec.time(v)
  }

  function SessionOf(line: string): Option<string> {
    match KeyValue(line)
    case None => None
    case Some(f) => if NormaliseHeader(f.key) == "session_id" then Some(f.value) else None
  }

  function InfoOf(lines: seq<string>, codec: Codec): Info {
    Info(OrElse(LastSaid(lines, RequestInfo, line => ValueOf(line, "URL")), ""),
         OrElse(LastSaid(lines, RequestInfo, line => ValueOf(line, "Method")), ""),
         LastSaid(lines, RequestInfo, line => TimeOf(line, codec)),
         LastSaid(lines, Headers, line => SessionOf(line)))
  }

  function FactOf(lines: seq<string>, codec: Codec): Fact {
    var parts, info := Parts(lines), InfoOf(lines, codec);
    var answer := LastAnswer(parts, codec);
    var said := OrElse(answer, NEW_SECTION);
    Fact(info, SessionUuid(info), said.routing, said.prompt, said.completion,
         if answer.Some? then said.frames else LastFrameCount(parts, codec),
         Attempts(parts), AnyError(parts))
  }

  // --- the machine in terms of the log ------------------------------------------------------------------

  function MachineOf(lines: seq<string>, codec: Codec): (m: Machine)
    ensures Coherent(m)
  {
    var parts := Parts(lines);
    var open, done := parts[|parts| - 1], parts[..|parts| - 1];
    Machine(InfoOf(lines, codec), open.kind,
            if open.kind == Response then Some(SectionOf(open.body, codec)) else None,
            LastAnswer(done, codec), LastFrameCount(done, codec), Attempts(parts), AnyError(parts))
  }

  predicate Panicky(lines: seq<string>) { "=== ===" in lines }

  lemma {:induction false} PartsNext(lines: seq<string>, line: string)
    ensures Parts(lines + [line]) ==
      var before := Parts(lines); var open := before[|before| - 1];
      match SectionHeader(line)
      case Header(name) => before + [Part(Classify(name), [])]
      case _ => before[..|before| - 1] + [Part(open.kind, open.body + [line])]
  {
    assert (lines + [line])[..|lines|] == lines;
  }

  lemma {:induction false} SaidNext<T>(lines: seq<string>, line: string, kind: Kind, pick: string -> Option<T>)
    ensures LastSaid(lines + [line], kind, pick) ==
      if SectionHeader(line) == NotHeader && InForce(lines) == kind && pick(line).Some? then pick(line)
      else LastSaid(lines, kind, pick)
  {
    assert (lines + [line])[..|lines|] == lines;
  }

  lemma {:induction false} InfoNext(lines: seq<string>, line: string, codec: Codec)
    ensures InfoOf(lines + [line], codec) ==
      if SectionHeader(line) != NotHeader then InfoOf(lines, codec)
      else match InForce(lines)
           case RequestInfo => InfoRead(InfoOf(lines, codec), line, codec)
           case Headers => HeaderRead(InfoOf(lines, codec), line)
           case _ => InfoOf(lines, codec)
  {
    hide InForce, LastSaid, SectionHeader, KeyValue, NormaliseHeader;
    SaidNext(lines, line, RequestInfo, line => ValueOf(line, "URL"));
    SaidNext(lines, line, RequestInfo, line => ValueOf(line, "Method"));
    SaidNext(lines, line, RequestInfo, line => TimeOf(line, codec));
    SaidNext(lines, line, Headers, line => SessionOf(line));
  }

  /** One more line does to the machine what it does to the log. */
  lemma {:induction false} MachineNext(lines: seq<string>, line: string, codec: Codec)
    requires SectionHeader(line) != Panics
    ensures Step(MachineOf(lines, codec), line, codec) == Some(MachineOf(lines + [line], codec))
  {
    hide Parts, InfoOf, SectionHeader, InfoRead, HeaderRead, FrameRead, SectionOf, Classify;
    PartsNext(lines, line);
    InfoNext(lines, line, codec);
    var before := Parts(lines);
    var open, done := before[|before| - 1], before[..|before| - 1];
    if SectionHeader(line).Header? {
      NewPart(before, Part(Classify(SectionHeader(line).name), []), codec);
      NewSection(codec);
    } else {
      SectionGrows(open.body, line, codec);
      LongerPart(before, Part(open.kind, open.body + [line]));
    }
  }

  lemma {:induction false} NewSection(codec: Codec)
    ensures SectionOf([], codec) == NEW_SECTION
  {
  }

  lemma {:induction false} NewPart(before: seq<Part>, p: Part, codec: Codec)
    requires before != []
    ensures (before + [p])[..|before|] == before && (before + [p])[|before|] == p
    ensures Attempts(before + [p]) == Attempts(before) + if p.kind == Response || p.kind == ErrorResponse then 1 else 0
    ensures AnyError(before + [p]) <==> AnyError(before) || p.kind == ErrorResponse
    ensures LastAnswer(before, codec) == var o := before[|before| - 1];
      if o.kind == Response && SectionOf(o.body, codec).found then Some(SectionOf(o.body, codec))
      else LastAnswer(before[..|before| - 1], codec)
    ensures LastFrameCount(before, codec) == var o := before[|before| - 1];
      if o.kind == Response then SectionOf(o.body, codec).frames else LastFrameCount(before[..|before| - 1], codec)
  {
    hide LastInFrames, FrameCount;
  }

  lemma {:induction false} LongerPart(before: seq<Part>, p: Part)
    requires before != [] && p.kind == before[|before| - 1].kind
    ensures var after := before[..|before| - 1] + [p];
      after[..|before| - 1] == before[..|before| - 1] && after[|before| - 1] == p
      && Attempts(after) == Attempts(before) && (AnyError(after) <==> AnyError(before))
  {
    var done, o := before[..|before| - 1], before[|before| - 1];
    assert before == done + [o];
    assert (done + [p])[..|done|] == done;
  }

  lemma {:induction false} RunSplit(m: Machine, a: seq<string>, b: seq<string>, codec: Codec)
    requires Coherent(m)
    ensures Run(m, a + b, codec) ==
      match Run(m, a, codec) case None => None case Some(n) => Run(n, b, codec)
    decreases |a|
  {
    hide Step;
    if a == [] {
      assert a + b == b;
    } else {
      assert (a + b)[0] == a[0] && (a + b)[1..] == a[1..] + b;
      match Step(m, a[0], codec)
      case None =>
      case Some(next) => RunSplit(next, a[1..], b, codec);
    }
  }

  lemma {:induction false} RunOne(m: Machine, line: string, codec: Codec)
    requires Coherent(m)
    ensures Run(m, [line], codec) == Step(m, line, codec)
  {
    hide Step;
    assert [line][1..] == [];
  }

  /** After any lines the machine holds exactly what they say; it panics exactly on the one bad line. */
  lemma {:induction false} RunIsMachineOf(lines: seq<string>, codec: Codec)
    ensures Run(IDLE, lines, codec) == if Panicky(lines) then None else Some(MachineOf(lines, codec))
  {
    hide Step, MachineOf, Run;
    if lines == [] {
      NothingRead(codec);
    } else {
      var before, line := lines[..|lines| - 1], lines[|lines| - 1];
      assert lines == before + [line];
      RunIsMachineOf(before, codec);
      RunSplit(IDLE, before, [line], codec);
      OneLinePanics(line);
      if !Panicky(before) {
        RunOne(MachineOf(before, codec), line, codec);
        if line == "=== ===" {
          PanicStops(MachineOf(before, codec), line, codec);
        } else {
          MachineNext(before, line, codec);
        }
      }
    }
  }

  lemma {:induction false} PanicStops(m: Machine, line: string, codec: Codec)
    requires Coherent(m) && SectionHeader(line) == Panics
    ensures Step(m, line, codec) == None
  {
  }

  lemma {:induction false} NothingRead(codec: Codec)
    ensures MachineOf([], codec) == IDLE && Run(IDLE, [], codec) == Some(IDLE)
  {
    var parts := Parts([]);
    assert parts == [Part(Other, [])] && parts[..0] == [];
    assert InfoOf([], codec) == IDLE.info;
    assert Attempts(parts) == 0 && !AnyError(parts);
  }

  lemma {:induction false} FinishIsFact(lines: seq<string>, codec: Codec)
    ensures Finish(MachineOf(lines, codec)) == FactOf(lines, codec)
  {
    hide InfoOf, SectionOf, Attempts, AnyError, Parts, SessionUuid;
    var parts := Parts(lines);
    NewPart(parts, Part(Other, []), codec);
  }

  /** The streaming parser's fact is the declared one. */
  lemma {:induction false} ParserIsSpec(lines: seq<string>, codec: Codec)
    ensures Run(IDLE, lines, codec).Some? <==> !Panicky(lines)
    ensures !Panicky(lines) ==> Finish(Run(IDLE, lines, codec).value) == FactOf(lines, codec)
  {
    hide Run, FactOf, MachineOf, Finish;
    RunIsMachineOf(lines, codec);
    FinishIsFact(lines, codec);
  }

  // --- what the fact does not depend on -----------------------------------------------------------------

  predicate Unread(kind: Kind) { kind == Other || kind == ErrorResponse }

  /** The section in force is the machine's. */
  lemma {:induction false} UnreadKeeps(m: Machine, line: string, codec: Codec)
    requires Coherent(m) && Unread(m.kind) && SectionHeader(line) == NotHeader
    ensures Step(m, line, codec) == Some(m)
  {
  }

  /** A line that is not a header, outside the three sections that are read, can be any other such line. */
  lemma {:induction false} UnreadLinesDoNotMatter(lines: seq<string>, i: nat, other: string, codec: Codec)
    requires i < |lines| && Unread(InForce(lines[..i]))
    requires SectionHeader(lines[i]) == NotHeader && SectionHeader(other) == NotHeader
    ensures Run(IDLE, lines[i := other], codec) == Run(IDLE, lines, codec)
    ensures Run(IDLE, lines[..i] + lines[i + 1..], codec) == Run(IDLE, lines, codec)
  {
    hide Run, Step, SectionHeader, Panicky;
    var a, c := lines[..i], lines[i + 1..];
    assert lines == a + ([lines[i]] + c) && lines[i := other] == a + ([other] + c);
    RunSplit(IDLE, a, [lines[i]] + c, codec);
    RunSplit(IDLE, a, [other] + c, codec);
    RunSplit(IDLE, a, c, codec);
    RunIsMachineOf(a, codec);
    if !Panicky(a) {
      var m := MachineOf(a, codec);
      UnreadThen(m, lines[i], c, codec);
      UnreadThen(m, other, c, codec);
    }
  }

  lemma {:induction false} UnreadThen(m: Machine, line: string, c: seq<string>, codec: Codec)
    requires Coherent(m) && Unread(m.kind) && SectionHeader(line) == NotHeader
    ensures Run(m, [line] + c, codec) == Run(m, c, codec)
  {
    hide Run, Step, SectionHeader;
    RunSplit(m, [line], c, codec);
    RunOne(m, line, codec);
    UnreadKeeps(m, line, codec);
  }
}
