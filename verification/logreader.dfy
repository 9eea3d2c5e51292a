/** Parsing a whole request log: the line reader feeding the section machine. */
module LogReader {
  import opened Common
  import opened ByteText
  import opened LineReading
  import opened LogParser
  import opened LogSpec

  /** The streaming buffer, and so the longest line that is ever looked at. */
  const READ_BUFFER: nat := 0x100000

  function AsText(b: Bytes): (s: string)
    ensures |s| == |b|
  {
    seq(|b|, i requires 0 <= i < |b| => b[i] as int as char)
  }

  function TrimEnd(s: string): (r: string)
    ensures r <= s
    ensures r != "" ==> r[|r| - 1] != '\r' && r[|r| - 1] != '\n'
  {
    if s != "" && (s[|s| - 1] == '\r' || s[|s| - 1] == '\n') then TrimEnd(s[..|s| - 1]) else s
  }

  predicate IsRead(line: Bytes) { line != [] && Fits(line, READ_BUFFER) }

  /** The lines the parser is shown: those that fit the buffer, without their line ends. */
  function Shown(lines: seq<Bytes>): seq<string> {
    if lines == [] then [] else (if IsRead(lines[0]) then [TrimEnd(AsText(lines[0]))] else []) + Shown(lines[1..])
  }

  /** `failed` tells a read error from the end of the file; Fault is the panic. */
  datatype Outcome = Fault | Parsed(fact: Fact, failed: bool)

  function Outcomes(m: Option<Machine>, failed: bool): Outcome {
    if m == None then Fault else Parsed(Finish(m.value), failed)
  }

  /** The input ends, or a read fails (`broken`), after `source`. */
  method ParseLog(source: Bytes, broken: bool, codec: Codec) returns (r: Outcome)
    ensures r == Outcomes(Run(IDLE, Shown(Lines(source)), codec), broken)
  {
    hide Run, Lines, NextRead, LineLength, Shown, IsRead, Finish, Step, AsText, TrimEnd;
    var parser := new Parser();
    var reader := new LineReader(source, READ_BUFFER);
    while true
      invariant parser.Valid() && reader.size == READ_BUFFER
      invariant Run(IDLE, Shown(Lines(source)), codec) == Run(parser.View(), Shown(Lines(reader.rest)), codec)
      decreases |reader.rest|
    {
      ghost var before, start := reader.rest, parser.View();
      var line, truncated, signal := reader.Next();
      Turn(before, start, line, truncated, signal, reader.rest, codec);
      if !truncated && |line| > 0 {
        var alive := parser.Line(TrimEnd(AsText(line)), codec);
        if !alive {
          return Fault;
        }
      }
      if signal != Fine {
        var fact := parser.FinishFact();
        return Parsed(fact, broken);
      }
    }
  }

  /** One turn of the loop, in terms of what is left to show. */
  lemma {:induction false} Turn(before: Bytes, m: Machine, line: Bytes, truncated: bool, signal: Signal, rest: Bytes,
                                codec: Codec)
    requires Coherent(m)
    requires NextRead(before, READ_BUFFER) == if truncated then Overlong(signal, rest) else Whole(line, signal, rest)
    ensures signal == Fine ==> |rest| < |before|
    ensures !truncated && line != [] ==>
      var s := Step(m, TrimEnd(AsText(line)), codec);
      Run(m, Shown(Lines(before)), codec) == if s == None then None else Ahead(s.value, signal, rest, codec)
    ensures truncated || line == [] ==> Run(m, Shown(Lines(before)), codec) == Ahead(m, signal, rest, codec)
  {
    hide Run, Lines, Step, AsText, TrimEnd;
    FirstLine(before);
    var lines, first := Lines(before), before[..LineLength(before)];
    assert Shown(lines) == (if IsRead(first) then [TrimEnd(AsText(first))] else []) + Shown(lines[1..]);
    var after := Shown(lines[1..]);
    assert Shown([]) == [];
    RunNone(m, codec);
    if IsRead(first) {
      var text := TrimEnd(AsText(first));
      RunSplit(m, [text], after, codec);
      RunOne(m, text, codec);
      var s := Step(m, text, codec);
      if s.Some? {
        RunNone(s.value, codec);
      }
    } else {
      assert [] + after == after;
    }
  }

  lemma {:induction false} RunNone(m: Machine, codec: Codec)
    requires Coherent(m)
    ensures Run(m, [], codec) == Some(m)
  {
  }

  function Ahead(m: Machine, signal: Signal, rest: Bytes, codec: Codec): Option<Machine>
    requires Coherent(m)
  {
    if signal == Fine then Run(m, Shown(Lines(rest)), codec) else Some(m)
  }

  // --- what the parse says about the file ---------------------------------------------------------------

  lemma {:induction false} ShownPlus(a: seq<Bytes>, b: seq<Bytes>)
    ensures Shown(a + b) == Shown(a) + Shown(b)
  {
    hide IsRead;
    if a == [] {
      assert a + b == b;
    } else {
      assert (a + b)[1..] == a[1..] + b;
      ShownPlus(a[1..], b);
    }
  }

  /** A file parses unless some line of it is the bad one; then the fact is the one its lines declare. */
  lemma {:induction false} ParseIsSpec(source: Bytes, broken: bool, codec: Codec)
    ensures var lines := Shown(Lines(source));
      Outcomes(Run(IDLE, lines, codec), broken) == if Panicky(lines) then Fault else Parsed(FactOf(lines, codec), broken)
  {
    hide Run, Lines, Shown, Finish, FactOf;
    ParserIsSpec(Shown(Lines(source)), codec);
  }

  /** Taking out a line that does not fit the buffer leaves everything the parser is shown as it was. */
  lemma {:induction false} OverlongLinesDoNotMatter(source: Bytes, i: nat)
    requires i < |Lines(source)| && !IsRead(Lines(source)[i])
    ensures Shown(Lines(Joined(Lines(source)[..i] + Lines(source)[i + 1..]))) == Shown(Lines(source))
  {
    hide Lines, IsLine, Joined, Shown;
    var lines := Lines(source);
    LinesAreLines(source);
    var after := if i == |lines| - 1 then [[]] else lines[i + 1..];
    var less := lines[..i] + after;
    assert forall k :: 0 <= k < |less| - 1 ==> less[k] == if k < i then lines[k] else lines[k + 1];
    LinesOfJoined(less);
    assert lines == lines[..i] + ([lines[i]] + lines[i + 1..]);
    ShownPlus(lines[..i], [lines[i]] + lines[i + 1..]);
    ShownPlus(lines[..i], after);
    ShownPlus([lines[i]], lines[i + 1..]);
    ShownNone(lines[i]);
    if i == |lines| - 1 {
      EmptyLast(lines[..i]);
      ShownNone([]);
      assert lines[i + 1..] == [];
    }
  }

  lemma {:induction false} ShownNone(line: Bytes)
    requires !IsRead(line)
    ensures Shown([line]) == [] && Shown([]) == []
  {
    assert [line][1..] == [];
  }

  /** A text that ends with a line feed has an empty last line. */
  lemma {:induction false} EmptyLast(lines: seq<Bytes>)
    ensures Joined(lines + [[]]) == Joined(lines + [])
  {
    JoinedPlus(lines, [[]]);
    assert Joined([[]]) == [] + Joined([]) == [];
    assert lines + [] == lines;
  }
}
