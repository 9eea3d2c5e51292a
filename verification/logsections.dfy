/** What each section of a request log adds to the fact, section by section, from the header lines as they are written. */
module LogSections {
  import opened Common
  import opened Text
  import opened TextLaws
  import opened LogParser
  import opened LogSpec

  // --- header lines ----------------------------------------------------------------------------------

  /** A header line is three equal signs, a space, the name with white space around it, a space and three equal signs. */
  lemma {:induction false} HeaderLine(a: string, name: string, b: string)
    requires Blank(a) && Solid(name) && Blank(b)
    ensures SectionHeader("=== " + a + name + b + " ===") == Header(name)
  {
    hide Trim;
    var line := "=== " + a + name + b + " ===";
    assert line[..4] == "=== " && line[|line| - 4..] == " ===" && line[4..|line| - 4] == a + name + b;
    TrimOf(a, name, b);
  }

  lemma {:induction false} HeaderSplit(line: string)
    requires SectionHeader(line).Header?
    ensures line == "=== " + line[4..|line| - 4] + " ===" && Solid(SectionHeader(line).name)
  {
    hide Trim;
    assert line == line[..4] + line[4..|line| - 4] + line[|line| - 4..];
  }

  /** No other line is one. */
  lemma {:induction false} OnlyHeaderLines(line: string, name: string) returns (a: string, b: string)
    requires SectionHeader(line) == Header(name)
    ensures Blank(a) && Solid(name) && Blank(b) && line == "=== " + a + name + b + " ==="
  {
    hide Trim, HasPrefix, HasSuffix;
    a, b := TrimParts(line[4..|line| - 4]);
    HeaderSplit(line);
    assert "=== " + (a + name + b) + " ===" == "=== " + a + name + b + " ===";
  }

  /** No line of the body is a header line, nor the one line the parser panics on. */
  ghost predicate NoHeaders(body: seq<string>) { forall i :: 0 <= i < |body| ==> SectionHeader(body[i]) == NotHeader }

  // --- one more section ------------------------------------------------------------------------------

  function Log(lines: seq<string>, header: string, body: seq<string>): seq<string> { lines + [header] + body }

  lemma {:induction false} LogNext(lines: seq<string>, header: string, body: seq<string>)
    requires body != []
    ensures Log(lines, header, body) == Log(lines, header, body[..|body| - 1]) + [body[|body| - 1]]
  {
  }

  lemma {:induction false} PartAdded(lines: seq<string>, header: string, name: string, body: seq<string>)
    requires SectionHeader(header) == Header(name) && NoHeaders(body)
    ensures Parts(Log(lines, header, body)) == Parts(lines) + [Part(Classify(name), body)]
  {
    hide Parts, Classify, SectionHeader;
    if body == [] {
      assert Log(lines, header, body) == lines + [header];
      PartsNext(lines, header);
    } else {
      var n := |body| - 1;
      PartAdded(lines, header, name, body[..n]);
      LogNext(lines, header, body);
      PartsNext(Log(lines, header, body[..n]), body[n]);
      assert body == body[..n] + [body[n]];
    }
  }

  /** What the last line that says something says. */
  function LastPick<T>(body: seq<string>, pick: string -> Option<T>): Option<T> {
    if body == [] then None
    else if pick(body[|body| - 1]).Some? then pick(body[|body| - 1])
    else LastPick(body[..|body| - 1], pick)
  }

  lemma {:induction false} LastPickExactly<T>(body: seq<string>, pick: string -> Option<T>, v: T)
    ensures LastPick(body, pick) == Some(v) <==>
      exists i :: 0 <= i < |body| && pick(body[i]) == Some(v) && forall k :: i < k < |body| ==> pick(body[k]) == None
  {
    if body != [] {
      var n := |body| - 1;
      LastPickExactly(body[..n], pick, v);
      assert forall i :: 0 <= i < n ==> body[..n][i] == body[i];
      if i :| 0 <= i < n && pick(body[i]) == Some(v) && forall k :: i < k < |body| ==> pick(body[k]) == None {
        assert pick(body[..n][i]) == Some(v) && forall k :: i < k < n ==> pick(body[..n][k]) == None;
      }
    }
  }

  lemma {:induction false} SaidAdded<T>(lines: seq<string>, header: string, name: string, body: seq<string>, kind: Kind,
                                        pick: string -> Option<T>)
    requires SectionHeader(header) == Header(name) && NoHeaders(body)
    ensures LastSaid(Log(lines, header, body), kind, pick) ==
      if Classify(name) == kind && LastPick(body, pick).Some? then LastPick(body, pick) else LastSaid(lines, kind, pick)
  {
    hide Parts, Classify, SectionHeader, LastSaid;
    if body == [] {
      assert Log(lines, header, body) == lines + [header];
      SaidNext(lines, header, kind, pick);
    } else {
      var n := |body| - 1;
      SaidAdded(lines, header, name, body[..n], kind, pick);
      LogNext(lines, header, body);
      PartAdded(lines, header, name, body[..n]);
      SaidNext(Log(lines, header, body[..n]), body[n], kind, pick);
    }
  }

  /** The parts of the fact that are not read off the lines of `REQUEST INFO` and `HEADERS`. */
  ghost predicate SameAnswer(f: Fact, g: Fact) {
    f.routing == g.routing && f.prompt == g.prompt && f.completion == g.completion && f.frames == g.frames
  }

  lemma {:induction false} AnswerAdded(lines: seq<string>, header: string, name: string, body: seq<string>, codec: Codec)
    requires SectionHeader(header) == Header(name) && NoHeaders(body)
    ensures var f, g := FactOf(Log(lines, header, body), codec), FactOf(lines, codec);
      && f.attempts == g.attempts + (if Classify(name) == Response || Classify(name) == ErrorResponse then 1 else 0)
      && f.hadError == (g.hadError || Classify(name) == ErrorResponse)
      && (Classify(name) != Response ==> SameAnswer(f, g))
      && (Classify(name) == Response ==>
            var s := SectionOf(body, codec);
            if s.found then
              f.routing == s.routing && f.prompt == s.prompt && f.completion == s.completion && f.frames == s.frames
            else
              f.routing == g.routing && f.prompt == g.prompt && f.completion == g.completion
              && f.frames == if LastAnswer(Parts(lines), codec).Some? then g.frames else FrameCount(body, codec))
  {
    hide Parts, Classify, SectionHeader, InfoOf, SessionUuid, LastInFrames, FrameCount, Attempts, AnyError;
    PartAdded(lines, header, name, body);
    var before, p := Parts(lines), Part(Classify(name), body);
    NewPart(before, p, codec);
    assert (before + [p])[..|before|] == before;
  }

  lemma {:induction false} SameInfo(lines: seq<string>, header: string, name: string, body: seq<string>, codec: Codec)
    requires SectionHeader(header) == Header(name) && NoHeaders(body)
    requires Classify(name) != RequestInfo && Classify(name) != Headers
    ensures InfoOf(Log(lines, header, body), codec) == InfoOf(lines, codec)
  {
    hide Parts, Classify, SectionHeader, LastSaid, LastPick, ValueOf, TimeOf, SessionOf;
    SaidAdded(lines, header, name, body, RequestInfo, line => ValueOf(line, "URL"));
    SaidAdded(lines, header, name, body, RequestInfo, line => ValueOf(line, "Method"));
    SaidAdded(lines, header, name, body, RequestInfo, line => TimeOf(line, codec));
    SaidAdded(lines, header, name, body, Headers, line => SessionOf(line));
  }

  // --- an upstream answer ----------------------------------------------------------------------------

  lemma {:induction false} ResponseHeader(n: string)
    requires n != "" && !IsSpace(n[|n| - 1])
    ensures SectionHeader("=== API RESPONSE " + n + " ===") == Header("API RESPONSE " + n)
    ensures Classify("API RESPONSE " + n) == Response
  {
    hide SectionHeader;
    var name := "API RESPONSE " + n;
    assert name[0] == 'A' && name[|name| - 1] == n[|n| - 1] && name[..13] == "API RESPONSE ";
    assert name != "REQUEST INFO" && name != "HEADERS" && name != "API ERROR RESPONSE" by {
      assert "REQUEST INFO"[0] == 'R' && "HEADERS"[0] == 'H' && "API ERROR RESPONSE"[4] == 'E' && name[4] == 'R';
    }
    HeaderLine("", name, "");
    assert "=== " + "" + name + "" + " ===" == "=== API RESPONSE " + n + " ===";
  }

  /** A frame of the body, as the decoder reads its line. */
  ghost predicate FrameAt(body: seq<string>, i: int, codec: Codec, f: Frame) {
    0 <= i < |body| && FrameOf(body[i], codec) == Some(f)
  }

  lemma {:induction false} FramesCounted(body: seq<string>, codec: Codec, frames: set<int>)
    requires forall i :: i in frames <==> 0 <= i < |body| && FrameOf(body[i], codec).Some?
    ensures FrameCount(body, codec) == |frames|
  {
    hide FrameOf;
    if body == [] {
      assert forall i :: i !in frames;
      assert frames == {};
    } else {
      var n := |body| - 1;
      FramesCounted(body[..n], codec, frames - {n});
      assert n in frames ==> frames == frames - {n} + {n};
      assert n !in frames ==> frames == frames - {n};
    }
  }

  /** What the last frame that says something says. */
  lemma {:induction false} LastFrameExactly<T>(body: seq<string>, codec: Codec, pick: Frame -> Option<T>, v: T)
    ensures LastInFrames(body, codec, pick) == Some(v) <==>
      exists i, f :: FrameAt(body, i, codec, f) && pick(f) == Some(v)
        && forall k, g :: i < k && FrameAt(body, k, codec, g) ==> pick(g) == None
  {
    hide FrameOf;
    if body != [] {
      var n := |body| - 1;
      LastFrameExactly(body[..n], codec, pick, v);
      assert forall k, g :: FrameAt(body[..n], k, codec, g) <==> k < n && FrameAt(body, k, codec, g);
      assert forall g :: FrameAt(body, n, codec, g) <==> FrameOf(body[n], codec) == Some(g);
    }
  }

  /** The line is `data:` and a payload, with white space around the payload. */
  ghost predicate IsData(line: string, payload: string) {
    Solid(payload) && exists a, b :: Blank(a) && Blank(b) && line == "data:" + a + payload + b
  }

  lemma {:induction false} PayloadIsData(line: string)
    ensures DataPayload(line).Some? ==> IsData(line, DataPayload(line).value)
  {
    hide Trim;
    if DataPayload(line).Some? {
      var a, b := TrimParts(line[5..]);
      assert line == line[..5] + line[5..];
      assert "data:" + (a + Trim(line[5..]) + b) == "data:" + a + Trim(line[5..]) + b;
    }
  }

  lemma {:induction false} DataIsPayload(line: string, payload: string)
    requires IsData(line, payload)
    ensures DataPayload(line) == Some(payload)
  {
    hide Trim;
    var a, b :| Blank(a) && Blank(b) && line == "data:" + a + payload + b;
    TrimOf(a, payload, b);
    assert line[..5] == "data:" && line[5..] == a + payload + b;
  }

  /** A frame is what the decoder makes of the payload of such a line. */
  lemma {:induction false} FrameLine(line: string, codec: Codec, f: Frame)
    ensures FrameOf(line, codec) == Some(f) <==> exists payload :: IsData(line, payload) && codec.frame(payload) == Some(f)
  {
    hide DataPayload, IsData;
    PayloadIsData(line);
    if payload :| IsData(line, payload) && codec.frame(payload) == Some(f) {
      DataIsPayload(line, payload);
    }
  }

  /** The routing block a frame carries: that of its last choice with one, the delta's before the message's. */
  ghost predicate Carries(f: Frame, r: Routing) { GivenAt(f.choices, r) }

  ghost predicate GivenAt(choices: seq<Choice>, r: Routing) {
    exists i :: 0 <= i < |choices|
      && (choices[i].delta == Some(r) || (choices[i].delta == None && choices[i].message == Some(r)))
      && forall k :: i < k < |choices| ==> choices[k].delta == None && choices[k].message == None
  }

  lemma {:induction false} GivenIs(choices: seq<Choice>, r: Routing)
    ensures GivenAt(choices, r) <==> FrameRouting(choices) == Some(r)
  {
    if choices != [] {
      var n := |choices| - 1;
      assert choices == choices[..n] + [choices[n]];
      GivenIs(choices[..n], r);
    }
  }

  lemma {:induction false} CarriesIs(f: Frame)
    ensures forall r :: Carries(f, r) <==> FrameRouting(f.choices) == Some(r)
  {
    hide FrameRouting, GivenAt;
    forall r
      ensures Carries(f, r) <==> FrameRouting(f.choices) == Some(r)
    {
      GivenIs(f.choices, r);
    }
  }

  /**
   `=== API RESPONSE n ===` is one attempt more, no error, and leaves what the request said alone. A routing block in one
   of its frames, with none in a later one, gives the fact its channel; the counters are then those of this section,
   each from the last frame that names it, and the frame count is the number of its lines that are frames.
   */
  lemma {:induction false} AnswerSection(lines: seq<string>, n: string, body: seq<string>, codec: Codec, i: nat, f: Frame,
                                         r: Routing)
    requires n != "" && !IsSpace(n[|n| - 1]) && NoHeaders(body)
    requires FrameAt(body, i, codec, f) && Carries(f, r)
    requires forall k, g, s :: i < k && FrameAt(body, k, codec, g) ==> !Carries(g, s)
    ensures var fact, before := FactOf(lines + ["=== API RESPONSE " + n + " ==="] + body, codec), FactOf(lines, codec);
      && fact.attempts == before.attempts + 1 && fact.hadError == before.hadError
      && fact.info == before.info && fact.uuid == before.uuid
      && fact.routing == r
      && fact.frames == |set k | 0 <= k < |body| && FrameOf(body[k], codec).Some?|
      && fact.prompt == OrElse(LastInFrames(body, codec, PromptIn), 0)
      && fact.completion == OrElse(LastInFrames(body, codec, CompletionIn), 0)
  {
    hide Parts, Classify, SectionHeader, InfoOf, SessionUuid, LastInFrames, FrameCount, Attempts, AnyError, FrameRouting,
      Carries, FrameAt, LastAnswer, LastFrameCount, PromptIn, CompletionIn;
    var header := "=== API RESPONSE " + n + " ===";
    ResponseHeader(n);
    AnswerAdded(lines, header, "API RESPONSE " + n, body, codec);
    SameInfo(lines, header, "API RESPONSE " + n, body, codec);
    FramesCounted(body, codec, set k | 0 <= k < |body| && FrameOf(body[k], codec).Some?);
    CarriesIs(f);
    forall k, g | i < k && FrameAt(body, k, codec, g)
      ensures RoutingIn(g) == None
    {
      CarriesIs(g);
      assert forall s :: !Carries(g, s);
    }
    LastFrameExactly(body, codec, RoutingIn, r);
  }

  /** Without a routing block it is still an attempt, and the answer found before stays. */
  lemma {:induction false} ChannellessSection(lines: seq<string>, n: string, body: seq<string>, codec: Codec)
    requires n != "" && !IsSpace(n[|n| - 1]) && NoHeaders(body)
    requires forall k, g, s :: FrameAt(body, k, codec, g) ==> !Carries(g, s)
    ensures var fact, before := FactOf(lines + ["=== API RESPONSE " + n + " ==="] + body, codec), FactOf(lines, codec);
      && fact.attempts == before.attempts + 1 && fact.hadError == before.hadError
      && fact.info == before.info && fact.uuid == before.uuid
      && fact.routing == before.routing && fact.prompt == before.prompt && fact.completion == before.completion
      && fact.frames == if LastAnswer(Parts(lines), codec).Some? then before.frames
                        else |set k | 0 <= k < |body| && FrameOf(body[k], codec).Some?|
  {
    hide Parts, Classify, SectionHeader, InfoOf, SessionUuid, LastInFrames, FrameCount, Attempts, AnyError, FrameRouting,
      Carries, FrameAt, LastAnswer, LastFrameCount;
    var header := "=== API RESPONSE " + n + " ===";
    ResponseHeader(n);
    AnswerAdded(lines, header, "API RESPONSE " + n, body, codec);
    SameInfo(lines, header, "API RESPONSE " + n, body, codec);
    FramesCounted(body, codec, set k | 0 <= k < |body| && FrameOf(body[k], codec).Some?);
    if LastInFrames(body, codec, RoutingIn).Some? {
      var r := LastInFrames(body, codec, RoutingIn).value;
      LastFrameExactly(body, codec, RoutingIn, r);
      var i, f :| FrameAt(body, i, codec, f) && RoutingIn(f) == Some(r);
      CarriesIs(f);
      assert false;
    }
  }

  /** A log without any section gives the empty fact: no channel, no counters, no frames, no attempts. */
  lemma {:induction false} NoSections(body: seq<string>, codec: Codec)
    requires NoHeaders(body)
    ensures FactOf(body, codec)
      == Fact(Info("", "", None, None), "", Routing("", "", "", "", "", "", 0, 0, [], 0.0), 0, 0, 0, 0, false)
  {
    hide SectionHeader;
    if body == [] {
      NothingRead(codec);
      FinishIsFact([], codec);
    } else {
      var n := |body| - 1;
      NoSections(body[..n], codec);
      assert body == body[..n] + [body[n]];
      StillNothing(body[..n], body[n], codec);
    }
  }

  lemma {:induction false} StillNothing(body: seq<string>, line: string, codec: Codec)
    requires NoHeaders(body) && SectionHeader(line) == NotHeader
    ensures FactOf(body + [line], codec) == FactOf(body, codec)
  {
    hide SectionHeader, Parts, SessionUuid, LastAnswer, LastFrameCount, InfoRead, HeaderRead;
    OnePart(body);
    OnePart(body + [line]);
    InfoNext(body, line, codec);
    NoAnswer(Part(Other, body), codec);
    NoAnswer(Part(Other, body + [line]), codec);
  }

  lemma {:induction false} OnePart(body: seq<string>)
    requires NoHeaders(body)
    ensures Parts(body) == [Part(Other, body)]
  {
    hide SectionHeader;
    if body != [] {
      OnePart(body[..|body| - 1]);
      assert body == body[..|body| - 1] + [body[|body| - 1]];
    }
  }

  lemma {:induction false} NoAnswer(p: Part, codec: Codec)
    requires p.kind == Other
    ensures LastAnswer([p], codec) == None && LastFrameCount([p], codec) == 0 && Attempts([p]) == 0 && !AnyError([p])
  {
  }

  // --- sections whose lines are not read -------------------------------------------------------------

  lemma {:induction false} LiteralHeader(name: string)
    requires Solid(name)
    ensures SectionHeader("=== " + name + " ===") == Header(name)
  {
    hide SectionHeader;
    HeaderLine("", name, "");
    assert "=== " + "" + name + "" + " ===" == "=== " + name + " ===";
  }

  lemma {:induction false} ErrorHeader()
    ensures SectionHeader("=== API ERROR RESPONSE ===") == Header("API ERROR RESPONSE")
    ensures Classify("API ERROR RESPONSE") == ErrorResponse
  {
    hide SectionHeader;
    assert "=== " + "API ERROR RESPONSE" + " ===" == "=== API ERROR RESPONSE ===";
    LiteralHeader("API ERROR RESPONSE");
  }

  /** `=== API ERROR RESPONSE ===` is one attempt more and an error; nothing is read off its lines. */
  lemma {:induction false} ErrorSection(lines: seq<string>, body: seq<string>, codec: Codec)
    requires NoHeaders(body)
    ensures var before := FactOf(lines, codec);
      FactOf(lines + ["=== API ERROR RESPONSE ==="] + body, codec)
      == before.(attempts := before.attempts + 1, hadError := true)
  {
    hide Parts, SectionHeader, InfoOf, SessionUuid, Attempts, AnyError, LastAnswer, LastFrameCount, SectionOf, NoHeaders;
    var header, name := "=== API ERROR RESPONSE ===", "API ERROR RESPONSE";
    ErrorHeader();
    AnswerAdded(lines, header, name, body, codec);
    SameInfo(lines, header, name, body, codec);
  }

  /** Any other section leaves the fact as it was. */
  lemma {:induction false} OtherSection(lines: seq<string>, name: string, body: seq<string>, codec: Codec)
    requires Solid(name) && NoHeaders(body)
    requires name != "REQUEST INFO" && name != "HEADERS" && name != "API ERROR RESPONSE"
    requires |name| < 13 || name[..13] != "API RESPONSE "
    ensures FactOf(lines + ["=== " + name + " ==="] + body, codec) == FactOf(lines, codec)
  {
    hide Parts, SectionHeader, InfoOf, SessionUuid, Attempts, AnyError, LastAnswer, LastFrameCount, SectionOf;
    var header := "=== " + name + " ===";
    LiteralHeader(name);
    AnswerAdded(lines, header, name, body, codec);
    SameInfo(lines, header, name, body, codec);
  }

  /** Among them what the client sent and got, and a response header without a number ... */
  lemma {:induction false} UnreadSections(lines: seq<string>, body: seq<string>, codec: Codec)
    requires NoHeaders(body)
    ensures FactOf(lines + ["=== REQUEST BODY ==="] + body, codec) == FactOf(lines, codec)
    ensures FactOf(lines + ["=== RESPONSE ==="] + body, codec) == FactOf(lines, codec)
    ensures FactOf(lines + ["=== API RESPONSE ==="] + body, codec) == FactOf(lines, codec)
  {
    hide FactOf, SectionHeader, NoHeaders;
    assert "=== " + "REQUEST BODY" + " ===" == "=== REQUEST BODY ===";
    OtherSection(lines, "REQUEST BODY", body, codec);
    assert "=== " + "RESPONSE" + " ===" == "=== RESPONSE ===";
    OtherSection(lines, "RESPONSE", body, codec);
    assert "=== " + "API RESPONSE" + " ===" == "=== API RESPONSE ===";
    OtherSection(lines, "API RESPONSE", body, codec);
  }

  /** ... and what was sent upstream. */
  lemma {:induction false} RequestSection(lines: seq<string>, n: string, body: seq<string>, codec: Codec)
    requires n != "" && !IsSpace(n[|n| - 1]) && NoHeaders(body)
    ensures FactOf(lines + ["=== API REQUEST " + n + " ==="] + body, codec) == FactOf(lines, codec)
  {
    hide FactOf, SectionHeader, NoHeaders;
    var name := "API REQUEST " + n;
    RequestName(n);
    assert "=== " + name + " ===" == "=== API REQUEST " + n + " ===";
    OtherSection(lines, name, body, codec);
  }

  lemma {:induction false} RequestName(n: string)
    requires n != "" && !IsSpace(n[|n| - 1])
    ensures var name := "API REQUEST " + n;
      && Solid(name) && name != "REQUEST INFO" && name != "HEADERS" && name != "API ERROR RESPONSE"
      && (|name| < 13 || name[..13] != "API RESPONSE ")
  {
    var name := "API REQUEST " + n;
    assert name[0] == 'A' && name[6] == 'Q' && name[|name| - 1] == n[|n| - 1];
    assert "REQUEST INFO"[0] == 'R' && "HEADERS"[0] == 'H' && "API ERROR RESPONSE"[6] == 'R';
    assert |name| >= 13 ==> name[..13][6] == 'Q' && "API RESPONSE "[6] == 'S';
  }

  // --- sections that are read line by line -----------------------------------------------------------

  /** The line is a name, a colon and a value; the name is what stands before the first colon. */
  ghost predicate IsField(line: string, name: string, value: string) {
    exists i :: 0 <= i < |line| && line[i] == ':' && ':' !in line[..i]
      && Trim(line[..i]) == name != "" && Trim(line[i + 1..]) == value
  }

  lemma {:induction false} FieldIs(line: string)
    ensures forall name, value :: IsField(line, name, value) <==> KeyValue(line) == Some(Field(name, value))
  {
    hide Trim;
    var at := IndexOf(line, ':');
    assert ':' !in line[..at];
    forall i | 0 <= i < |line| && line[i] == ':' && ':' !in line[..i]
      ensures i == at
    {
      assert forall k :: 0 <= k < i ==> line[k] in line[..i];
    }
    assert Trim("") == "" by {
      TrimFixed("");
    }
    assert at == 0 ==> line[..at] == "";
  }

  /** A name is compared without its case. */
  lemma {:induction false} ValueExactly(line: string, name: string, v: string)
    ensures ValueOf(line, name) == Some(v) <==> exists k :: IsField(line, k, v) && Lower(k) == Lower(name)
  {
    hide KeyValue;
    FieldIs(line);
  }

  /** The session header is spelled in any case, with a dash or an underscore. */
  lemma {:induction false} SessionExactly(line: string, v: string)
    ensures SessionOf(line) == Some(v) <==> exists k :: IsField(line, k, v) && IsSessionName(k)
  {
    hide KeyValue, Trim, Lower;
    FieldIs(line);
    if KeyValue(line).Some? {
      FieldNameIsTrimmed(line);
      SessionName(KeyValue(line).value.key);
    }
  }

  lemma {:induction false} FieldNameIsTrimmed(line: string)
    requires KeyValue(line).Some?
    ensures Trim(KeyValue(line).value.key) == KeyValue(line).value.key
  {
    TrimFixed(KeyValue(line).value.key);
  }

  ghost predicate IsSessionName(k: string) {
    && |k| == 10
    && (k[0] == 's' || k[0] == 'S') && (k[1] == 'e' || k[1] == 'E') && (k[2] == 's' || k[2] == 'S')
    && (k[3] == 's' || k[3] == 'S') && (k[4] == 'i' || k[4] == 'I') && (k[5] == 'o' || k[5] == 'O')
    && (k[6] == 'n' || k[6] == 'N') && (k[7] == '_' || k[7] == '-')
    && (k[8] == 'i' || k[8] == 'I') && (k[9] == 'd' || k[9] == 'D')
  }

  lemma {:induction false} SessionName(k: string)
    requires Trim(k) == k
    ensures NormaliseHeader(k) == "session_id" <==> IsSessionName(k)
  {
    hide Trim, IsSpace;
    var n := NormaliseHeader(k);
    assert |n| == |k| && forall i :: 0 <= i < |k| ==> n[i] == Folded(k[i]);
    assert "session_id" == ['s', 'e', 's', 's', 'i', 'o', 'n', '_', 'i', 'd'];
    if |k| == 10 {
      assert n == [n[0], n[1], n[2], n[3], n[4], n[5], n[6], n[7], n[8], n[9]];
    }
  }

  function Folded(c: char): char { if LowerChar(c) == '-' then '_' else LowerChar(c) }

  lemma {:induction false} InfoHeader()
    ensures SectionHeader("=== REQUEST INFO ===") == Header("REQUEST INFO")
    ensures Classify("REQUEST INFO") == RequestInfo
  {
    hide SectionHeader;
    assert "=== " + "REQUEST INFO" + " ===" == "=== REQUEST INFO ===";
    LiteralHeader("REQUEST INFO");
  }

  /**
   `=== REQUEST INFO ===` gives the path, the method and the time, each from the last of its lines that says it, and keeps
   what none of them says. Nothing else changes.
   */
  lemma {:induction false} InfoSection(lines: seq<string>, body: seq<string>, codec: Codec)
    requires NoHeaders(body)
    ensures var before := FactOf(lines, codec);
      var url := LastPick(body, line => ValueOf(line, "URL"));
      var verb := LastPick(body, line => ValueOf(line, "Method"));
      var time := LastPick(body, line => TimeOf(line, codec));
      FactOf(lines + ["=== REQUEST INFO ==="] + body, codec) == before.(info := before.info.(
        path := if url.Some? then url.value else before.info.path,
        verb := if verb.Some? then verb.value else before.info.verb,
        time := if time.Some? then time else before.info.time))
  {
    hide Parts, SectionHeader, Attempts, AnyError, LastAnswer, LastFrameCount, SectionOf, LastSaid,
      ValueOf, TimeOf, SessionOf, LastPick, TrimPrefix;
    var header, name := "=== REQUEST INFO ===", "REQUEST INFO";
    InfoHeader();
    AnswerAdded(lines, header, name, body, codec);
    SaidAdded(lines, header, name, body, RequestInfo, line => ValueOf(line, "URL"));
    SaidAdded(lines, header, name, body, RequestInfo, line => ValueOf(line, "Method"));
    SaidAdded(lines, header, name, body, RequestInfo, line => TimeOf(line, codec));
    SaidAdded(lines, header, name, body, Headers, line => SessionOf(line));
  }

  /** `=== HEADERS ===` gives the session and the id in it, from the last of its lines that is the session header. */
  lemma {:induction false} HeadersSection(lines: seq<string>, body: seq<string>, codec: Codec)
    requires NoHeaders(body)
    ensures var fact, before := FactOf(lines + ["=== HEADERS ==="] + body, codec), FactOf(lines, codec);
      var session := LastPick(body, line => SessionOf(line));
      && fact == before.(info := before.info.(session := fact.info.session), uuid := fact.uuid)
      && (session.Some? ==> fact.info.session == session)
      && (session.Some? ==>
            fact.uuid == if |session.value| >= 8 && session.value[..8] == "session-" then session.value[8..]
                         else session.value)
      && (session == None ==> fact.info.session == before.info.session && fact.uuid == before.uuid)
  {
    hide Parts, SectionHeader, Attempts, AnyError, LastAnswer, LastFrameCount, SectionOf, LastSaid,
      ValueOf, TimeOf, SessionOf, LastPick;
    var header, name := "=== HEADERS ===", "HEADERS";
    assert "=== " + name + " ===" == header;
    LiteralHeader(name);
    assert Classify(name) == Headers;
    AnswerAdded(lines, header, name, body, codec);
    SaidAdded(lines, header, name, body, RequestInfo, line => ValueOf(line, "URL"));
    SaidAdded(lines, header, name, body, RequestInfo, line => ValueOf(line, "Method"));
    SaidAdded(lines, header, name, body, RequestInfo, line => TimeOf(line, codec));
    SaidAdded(lines, header, name, body, Headers, line => SessionOf(line));
  }
}
