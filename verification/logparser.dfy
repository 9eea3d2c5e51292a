/** The section state machine of the request-log parser, and the object whose methods run it. */
module LogParser {
  import opened Common
  import opened Text

  // --- what a line is -----------------------------------------------------------------------------------

  datatype Kind = Other | RequestInfo | Headers | Response | ErrorResponse

  /** A line that both opens and closes a section name on the same space cannot be sliced: the reader panics. */
  datatype Header = NotHeader | Header(name: string) | Panics

  predicate HasPrefix(s: string, p: string) { |p| <= |s| && s[..|p|] == p }

  predicate HasSuffix(s: string, p: string) { |p| <= |s| && s[|s| - |p|..] == p }

  function SectionHeader(line: string): Header {
    if !HasPrefix(line, "=== ") || !HasSuffix(line, " ===") then NotHeader
    else if |line| < 8 then Panics
    else if Trim(line[4..|line| - 4]) == "" then NotHeader
    else Header(Trim(line[4..|line| - 4]))
  }

  /** There is exactly one line the parser panics on. */
  lemma {:induction false} OneLinePanics(line: string)
    ensures SectionHeader(line) == Panics <==> line == "=== ==="
  {
    var only := "=== ===";
    assert only[..4] == "=== " && only[3..] == " ===";
    if SectionHeader(line) == Panics {
      assert line[..4] == "=== " && line[|line| - 4..] == " ===";
      assert line[3] == line[..4][3] == ' ';
      assert forall i :: |line| - 4 <= i < |line| ==> line[i] == line[|line| - 4..][i - |line| + 4] == " ==="[i - |line| + 4];
      assert line == line[..4] + line[4..];
    }
  }

  function Classify(name: string): Kind {
    if name == "REQUEST INFO" then RequestInfo
    else if name == "HEADERS" then Headers
    else if name == "API ERROR RESPONSE" then ErrorResponse
    else if HasPrefix(name, "API RESPONSE ") then Response
    else Other
  }

  function IndexOf(s: string, c: char): (i: nat)
    ensures i <= |s| && (i < |s| ==> s[i] == c)
    ensures forall k :: 0 <= k < i ==> s[k] != c
  {
    if s == "" || s[0] == c then 0 else 1 + IndexOf(s[1..], c)
  }

  datatype Field = Field(key: string, value: string)

  function KeyValue(line: string): Option<Field> {
    var i := IndexOf(line, ':');
    if i == 0 || i == |line| || Trim(line[..i]) == "" then None else Some(Field(Trim(line[..i]), Trim(line[i + 1..])))
  }

  function Underscored(s: string): (r: string)
    ensures |r| == |s|
  {
    seq(|s|, i requires 0 <= i < |s| => if s[i] == '-' then '_' else s[i])
  }

  function NormaliseHeader(key: string): string { Underscored(Lower(Trim(key))) }

  function DataPayload(line: string): Option<string> {
    if !HasPrefix(line, "data:") || Trim(line[5..]) == "" then None else Some(Trim(line[5..]))
  }

  // --- frames -------------------------------------------------------------------------------------------

  datatype Routing = Routing(finalProvider: string, resolvedProvider: string, canonicalSlug: string,
                             originalModelID: string, pinnedProvider: string, affinityOutcome: string,
                             modelAttempts: int, totalAttempts: int, fallbacks: seq<string>, cost: real)

  /** A routing block that names a channel at all. */
  predicate NamesChannel(r: Routing) {
    r.finalProvider != "" || r.resolvedProvider != "" || r.canonicalSlug != "" || r.originalModelID != "" || r.pinnedProvider != ""
  }

  const NO_ROUTING := Routing("", "", "", "", "", "", 0, 0, [], 0.0)

  datatype Usage = Usage(prompt: Option<int>, completion: Option<int>)

  datatype Choice = Choice(delta: Option<Routing>, message: Option<Routing>)

  datatype Frame = Frame(usage: Option<Usage>, choices: seq<Choice>)

  /** The JSON decoder of a frame and the parser of a timestamp. */
  datatype Codec = Codec(frame: string -> Option<Frame>, time: string -> Option<int>)

  function FrameOf(line: string, codec: Codec): Option<Frame> {
    match DataPayload(line)
    case None => None
    case Some(payload) => codec.frame(payload)
  }

  function ChoiceRouting(c: Choice): Option<Routing> { if c.delta.Some? then c.delta else c.message }

  /** The routing block of the last choice that carries one. */
  function FrameRouting(choices: seq<Choice>): Option<Routing> {
    if choices == [] then None else
      var last := ChoiceRouting(choices[|choices| - 1]);
      if last.Some? then last else FrameRouting(choices[..|choices| - 1])
  }

  // --- the machine --------------------------------------------------------------------------------------

  datatype Section = Section(frames: nat, routing: Routing, prompt: int, completion: int, found: bool)

  const NEW_SECTION := Section(0, NO_ROUTING, 0, 0, false)

  datatype Info = Info(path: string, verb: string, time: Option<int>, session: Option<string>)

  datatype Machine = Machine(info: Info, kind: Kind, response: Option<Section>, best: Option<Section>,
                             lastFrames: nat, attempts: nat, hadError: bool)

  const IDLE := Machine(Info("", "", None, None), Other, None, None, 0, 0, false)

  function Closed(m: Machine): Machine {
    if m.response == None then m else
      m.(lastFrames := m.response.value.frames, response := None,
         best := if m.response.value.found then m.response else m.best)
  }

  function Opened(m: Machine, kind: Kind): Machine {
    match kind
    case Response => Closed(m).(kind := kind, response := Some(NEW_SECTION), attempts := m.attempts + 1)
    case ErrorResponse => Closed(m).(kind := kind, attempts := m.attempts + 1, hadError := true)
    case _ => Closed(m).(kind := kind)
  }

  function InfoRead(info: Info, line: string, codec: Codec): Info {
    match KeyValue(line)
    case None => info
    case Some(f) =>
      if EqualFold(f.key, "URL") then info.(path := f.value)
      else if EqualFold(f.key, "Method") then info.(verb := f.value)
      else if EqualFold(f.key, "Timestamp") && codec.time(f.value).Some? then info.(time := codec.time(f.value))
      else info
  }

  function HeaderRead(info: Info, line: string): Info {
    match KeyValue(line)
    case None => info
    case Some(f) => if NormaliseHeader(f.key) == "session_id" then info.(session := Some(f.value)) else info
  }

  function FrameRead(s: Section, line: string, codec: Codec): Section {
    match FrameOf(line, codec)
    case None => s
    case Some(f) =>
      var routing := FrameRouting(f.choices);
      Section(s.frames + 1,
              if routing.Some? then routing.value else s.routing,
              if f.usage.Some? && f.usage.value.prompt.Some? then f.usage.value.prompt.value else s.prompt,
              if f.usage.Some? && f.usage.value.completion.Some? then f.usage.value.completion.value else s.completion,
              s.found || routing.Some?)
  }

  predicate Coherent(m: Machine) { m.kind == Response <==> m.response.Some? }

  /** One line; None is the panic. */
  function Step(m: Machine, line: string, codec: Codec): (r: Option<Machine>)
    requires Coherent(m)
    ensures r.Some? ==> Coherent(r.value)
  {
    match SectionHeader(line)
    case Panics => None
    case Header(name) => Some(Opened(m, Classify(name)))
    case NotHeader => Some(
      match m.kind
      case RequestInfo => m.(info := InfoRead(m.info, line, codec))
      case Headers => m.(info := HeaderRead(m.info, line))
      case Response => m.(response := Some(FrameRead(m.response.value, line, codec)))
      case _ => m)
  }

  /** Several lines, in order. */
  function Run(m: Machine, lines: seq<string>, codec: Codec): (r: Option<Machine>)
    requires Coherent(m)
    ensures r.Some? ==> Coherent(r.value)
    decreases |lines|
  {
    if lines == [] then Some(m) else
      match Step(m, lines[0], codec)
      case None => None
      case Some(next) => Run(next, lines[1..], codec)
  }

  datatype Fact = Fact(info: Info, uuid: string, routing: Routing, prompt: int, completion: int,
                       frames: nat, attempts: nat, hadError: bool)

  function TrimPrefix(s: string, p: string): string { if HasPrefix(s, p) then s[|p|..] else s }

  function SessionUuid(info: Info): string {
    if info.session == None then "" else TrimPrefix(info.session.value, "session-")
  }

  function Finish(m: Machine): Fact {
    var c := Closed(m);
    var answer := if c.best.Some? then c.best.value else NEW_SECTION;
    Fact(c.info, SessionUuid(c.info), answer.routing, answer.prompt, answer.completion,
         if c.best.Some? then answer.frames else c.lastFrames, c.attempts, c.hadError)
  }

  // --- the object ---------------------------------------------------------------------------------------

  class Parser {
    var info: Info
    var kind: Kind
    var response: Option<Section>
    var best: Option<Section>
    var lastFrames: nat
    var attempts: nat
    var hadError: bool

    ghost function View(): Machine
      reads this
    {
      Machine(info, kind, response, best, lastFrames, attempts, hadError)
    }

    /** There is a response to write to exactly in a response section. */
    ghost predicate Valid()
      reads this
    {
      Coherent(View())
    }

    constructor ()
      ensures Valid() && View() == IDLE
    {
      info, kind, response, best := Info("", "", None, None), Other, None, None;
      lastFrames, attempts, hadError := 0, 0, false;
    }

    method CloseResponse()
      modifies this
      ensures View() == Closed(old(View()))
    {
      if response == None {
        return;
      }
      lastFrames := response.value.frames;
      if response.value.found {
        best := response;
      }
      response := None;
    }

    method Open(next: Kind)
      requires Valid()
      modifies this
      ensures Valid() && View() == Opened(old(View()), next)
    {
      match next {
        case Response =>
          CloseResponse();
          response := Some(NEW_SECTION);
          attempts := attempts + 1;
        case ErrorResponse =>
          CloseResponse();
          attempts := attempts + 1;
          hadError := true;
        case _ =>
          CloseResponse();
      }
      kind := next;
    }

    method FrameLine(line: string, codec: Codec)
      requires response.Some?
      modifies this`response
      ensures response == Some(FrameRead(old(response.value), line, codec))
    {
      var frame := FrameOf(line, codec);
      if frame == None {
        return;
      }
      var f, s := frame.value, response.value;
      s := s.(frames := s.frames + 1);
      if f.usage.Some? {
        if f.usage.value.prompt.Some? {
          s := s.(prompt := f.usage.value.prompt.value);
        }
        if f.usage.value.completion.Some? {
          s := s.(completion := f.usage.value.completion.value);
        }
      }
      ghost var start := s;
      for i := 0 to |f.choices|
        invariant s == match FrameRouting(f.choices[..i])
                       case None => start
                       case Some(routing) => start.(routing := routing, found := true)
      {
        assert f.choices[..i + 1][..i] == f.choices[..i];
        var metadata := f.choices[i].delta;
        if metadata == None {
          metadata := f.choices[i].message;
        }
        if metadata == None {
          continue;
        }
        s := s.(routing := metadata.value, found := true);
      }
      assert f.choices[..|f.choices|] == f.choices;
      response := Some(s);
    }

    /** One complete line; `alive` is false when the parser panicked on it. */
    method Line(line: string, codec: Codec) returns (alive: bool)
      requires Valid()
      modifies this
      ensures Valid() && alive == Step(old(View()), line, codec).Some?
      ensures alive ==> Step(old(View()), line, codec) == Some(View())
    {
      match SectionHeader(line) {
        case Panics =>
          return false;
        case Header(name) =>
          Open(Classify(name));
        case NotHeader =>
          match kind {
            case RequestInfo => info := InfoRead(info, line, codec);
            case Headers => info := HeaderRead(info, line);
            case Response => FrameLine(line, codec);
            case _ =>
          }
      }
      return true;
    }

    method FinishFact() returns (fact: Fact)
      modifies this
      ensures View() == Closed(old(View())) && fact == Finish(old(View()))
    {
      CloseResponse();
      fact := Fact(info, SessionUuid(info), NO_ROUTING, 0, 0, lastFrames, attempts, hadError);
      if best.Some? {
        var b := best.value;
        fact := fact.(routing := b.routing, prompt := b.prompt, completion := b.completion, frames := b.frames);
      }
    }
  }
}
