/** The one-scalar writer of the account list: replace a token, or insert one line, and touch nothing else. */
module ScalarEdit {
  import opened Common
  import opened ByteText

  predicate IsDelimiter(b: byte) { IsFlowSpace(b) || b == COMMA || b == RBRACE || b == RBRACKET || b == HASH }

  /** A token the writer puts in: it is not quoted and holds no byte that ends a plain scalar. */
  predicate PlainLiteral(a: Bytes) {
    && a != [] && a[0] < 0x80 && a[0] != DQUOTE && a[0] != SQUOTE
    && forall i :: 0 <= i < |a| ==> !IsDelimiter(a[i])
  }

  /** The first delimiter at or after `index`, or the end. */
  function PlainStop(s: Bytes, index: nat): (end: nat)
    requires index <= |s|
    ensures index <= end <= |s|
    ensures forall i :: index <= i < end ==> !IsDelimiter(s[i])
    ensures end < |s| ==> IsDelimiter(s[end])
    decreases |s| - index
  {
    if index == |s| || IsDelimiter(s[index]) then index else PlainStop(s, index + 1)
  }

  /** Just past the quote that closes a scalar, read from `index` inside it, or the end. */
  function QuotedStop(s: Bytes, index: nat, quote: byte): (end: nat)
    ensures end <= |s|
    ensures index <= |s| ==> index <= end
    decreases |s| - index
  {
    if index >= |s| then |s|
    else if s[index] == quote then
      if quote == SQUOTE && index + 1 < |s| && s[index + 1] == SQUOTE then QuotedStop(s, index + 2, quote) else index + 1
    else if quote == DQUOTE && s[index] == BACKSLASH then QuotedStop(s, index + 2, quote)
    else QuotedStop(s, index + 1, quote)
  }

  function TokenStop(line: Bytes, start: nat): (end: nat)
    requires start <= |line|
    ensures start <= end <= |line|
  {
    if start == |line| then start
    else if line[start] == DQUOTE || line[start] == SQUOTE then QuotedStop(line, start + 1, line[start])
    else PlainStop(line, start)
  }

  method TokenEnd(line: Bytes, start: nat) returns (end: nat)
    requires start <= |line|
    ensures end == TokenStop(line, start)
  {
    if start >= |line| {
      return |line|;
    }
    if line[start] == DQUOTE || line[start] == SQUOTE {
      var quote := line[start];
      var index := start + 1;
      while index < |line|
        invariant index >= start + 1 && QuotedStop(line, start + 1, quote) == QuotedStop(line, index, quote)
        decreases |line| - index
      {
        if line[index] == quote {
          if quote == SQUOTE && index + 1 < |line| && line[index + 1] == SQUOTE {
            index := index + 2;
            continue;
          }
          return index + 1;
        }
        if quote == DQUOTE && line[index] == BACKSLASH {
          index := index + 2;
          continue;
        }
        index := index + 1;
      }
      return |line|;
    }
    var index := start;
    while index < |line|
      invariant start <= index <= |line| && PlainStop(line, start) == PlainStop(line, index)
    {
      if IsDelimiter(line[index]) {
        return index;
      }
      index := index + 1;
    }
    return |line|;
  }

  // --- replacing a token --------------------------------------------------------------------------------

  /** Where the token at a position starts and ends in the whole text. */
  function TokenStart(raw: Bytes, line: int, column: int): nat
    requires OffsetAt(raw, line, column).Some?
  {
    OffsetAt(raw, line, column).value
  }

  function TokenLimit(raw: Bytes, line: int, column: int): nat
    requires OffsetAt(raw, line, column).Some?
  {
    var l := Lines(raw)[line - 1];
    |Joined(Lines(raw)[..line - 1])| + TokenStop(l, ColumnAt(l, column).value)
  }

  /** The text with the bytes of one token exchanged. */
  function Replaced(raw: Bytes, line: int, column: int, literal: Bytes): Option<Bytes> {
    if OffsetAt(raw, line, column) == None then None else
      TokenInside(raw, line, column);
      Some(raw[..TokenStart(raw, line, column)] + literal + raw[TokenLimit(raw, line, column)..])
  }

  lemma {:induction false} TokenInside(raw: Bytes, line: int, column: int)
    requires OffsetAt(raw, line, column).Some?
    ensures TokenStart(raw, line, column) <= TokenLimit(raw, line, column) <= |raw|
  {
    SplitAtLine(raw, line - 1);
  }

  method ReplaceScalar(raw: Bytes, line: int, column: int, literal: Bytes) returns (out: Option<Bytes>)
    ensures out == Replaced(raw, line, column, literal)
  {
    if line <= 0 || column <= 0 {
      return None;
    }
    var lines := Lines(raw);
    if line > |lines| {
      return None;
    }
    var l := lines[line - 1];
    var start := ColumnOffset(l, column);
    if start == None {
      return None;
    }
    var end := TokenEnd(l, start.value);
    var updated := l[..start.value] + literal + l[end..];
    JoinedUpdate(raw, line - 1, start.value, end, literal);
    return Some(Joined(lines[line - 1 := updated]));
  }

  /** One line of a text exchanged for another. */
  lemma {:induction false} JoinedWith(lines: seq<Bytes>, i: nat, line: Bytes)
    requires i < |lines|
    ensures Joined(lines[i := line]) == Joined(lines[..i]) + line + Joined(lines[i + 1..])
  {
    var updated := lines[i := line];
    assert updated == lines[..i] + [line] + lines[i + 1..];
    JoinedNext(lines[..i], line);
    JoinedPlus(lines[..i] + [line], lines[i + 1..]);
  }

  lemma {:induction false} JoinedUpdate(raw: Bytes, i: nat, s: nat, e: nat, literal: Bytes)
    requires i < |Lines(raw)| && s <= e <= |Lines(raw)[i]|
    ensures |Joined(Lines(raw)[..i])| + e <= |raw|
    ensures var l := Lines(raw)[i]; var b := |Joined(Lines(raw)[..i])|;
      Joined(Lines(raw)[i := l[..s] + literal + l[e..]]) == raw[..b + s] + literal + raw[b + e..]
  {
    hide Lines, Joined;
    var lines := Lines(raw);
    var l, before, after := lines[i], Joined(lines[..i]), Joined(lines[i + 1..]);
    SplitAtLine(raw, i);
    JoinedWith(lines, i, l[..s] + literal + l[e..]);
    assert before + (l[..s] + literal + l[e..]) + after == (before + l[..s]) + literal + (l[e..] + after);
  }

  /** The position lies on its line, at or before the line feed, as a parsed node's does. */
  predicate OnLine(raw: Bytes, line: int, column: int) {
    OffsetAt(raw, line, column).Some? && NEWLINE !in Lines(raw)[line - 1][..ColumnAt(Lines(raw)[line - 1], column).value]
  }

  /** A text that agrees with another up to a place on line `i` has the same lines before it. */
  lemma {:induction false} KeepsLine(raw: Bytes, other: Bytes, i: nat, k: nat)
    requires i < |Lines(raw)|
    requires |Joined(Lines(raw)[..i])| <= k <= |raw| && k <= |other| && raw[..k] == other[..k]
    requires NEWLINE !in raw[|Joined(Lines(raw)[..i])|..k]
    ensures i < |Lines(other)|
    ensures Lines(other)[..i] == Lines(raw)[..i]
    ensures |Lines(other)[i]| >= k - |Joined(Lines(raw)[..i])|
    decreases i
  {
    if i == 0 {
      assert Joined(Lines(raw)[..0]) == [];
      assert forall j :: 0 <= j < k ==> other[j] == raw[0..k][j];
      FirstLine(other, k);
    } else {
      var n := LineLength(raw);
      var b := |Joined(Lines(raw)[..i])|;
      FirstLineOff(raw, i);
      SameFirstLine(raw, other, k);
      RestAgrees(raw, other, n, b, k);
      KeepsLine(raw[n..], other[n..], i - 1, k - n);
      FirstLineOff(other, i);
    }
  }

  lemma {:induction false} FirstLine(s: Bytes, k: nat)
    requires k <= |s| && forall j :: 0 <= j < k ==> s[j] != NEWLINE
    ensures |Lines(s)[0]| >= k
  {
  }

  lemma {:induction false} RestAgrees(raw: Bytes, other: Bytes, n: nat, b: nat, k: nat)
    requires n <= b <= k <= |raw| && k <= |other| && raw[..k] == other[..k]
    ensures raw[n..][..k - n] == other[n..][..k - n]
    ensures raw[n..][b - n..k - n] == raw[b..k]
  {
    assert raw[n..][..k - n] == raw[..k][n..];
    assert other[n..][..k - n] == other[..k][n..];
  }

  lemma {:induction false} FirstLineOff(raw: Bytes, i: nat)
    requires 0 < i && LineLength(raw) > 0 && raw[LineLength(raw) - 1] == NEWLINE
    requires i - 1 < |Lines(raw[LineLength(raw)..])|
    ensures i < |Lines(raw)|
    ensures Lines(raw)[i] == Lines(raw[LineLength(raw)..])[i - 1]
    ensures Lines(raw)[..i] == [raw[..LineLength(raw)]] + Lines(raw[LineLength(raw)..])[..i - 1]
    ensures |Joined(Lines(raw)[..i])| == LineLength(raw) + |Joined(Lines(raw[LineLength(raw)..])[..i - 1])|
  {
    var rest := Lines(raw[LineLength(raw)..]);
    assert Lines(raw) == [raw[..LineLength(raw)]] + rest;
    assert Lines(raw)[..i] == [raw[..LineLength(raw)]] + rest[..i - 1];
    assert Lines(raw)[..i][1..] == rest[..i - 1];
  }

  lemma {:induction false} SameFirstLine(raw: Bytes, other: Bytes, k: nat)
    requires k <= |raw| && k <= |other| && raw[..k] == other[..k]
    requires 0 < LineLength(raw) <= k && raw[LineLength(raw) - 1] == NEWLINE
    ensures LineLength(other) == LineLength(raw) && other[..LineLength(raw)] == raw[..LineLength(raw)]
  {
    assert forall j :: 0 <= j < k ==> other[j] == raw[..k][j] == raw[j];
  }

  /** Where line `i` lies in the text. Only the last one may lack a line feed. */
  lemma {:induction false} LineAt(raw: Bytes, i: nat)
    requires i < |Lines(raw)|
    ensures |Joined(Lines(raw)[..i])| + |Lines(raw)[i]| <= |raw|
    ensures raw[|Joined(Lines(raw)[..i])|..|Joined(Lines(raw)[..i])| + |Lines(raw)[i]|] == Lines(raw)[i]
    ensures if i < |Lines(raw)| - 1 then IsLine(Lines(raw)[i]) else |Joined(Lines(raw)[..i])| + |Lines(raw)[i]| == |raw|
  {
    hide Lines, IsLine;
    SplitAtLine(raw, i);
    LinesAreLines(raw);
    var lines := Lines(raw);
    assert i == |lines| - 1 ==> lines[i + 1..] == [];
  }

  lemma {:induction false} LineFeedLast(line: Bytes, s: nat)
    requires IsLine(line) && s <= |line| && NEWLINE !in line[..s]
    ensures s < |line| && IsDelimiter(line[|line| - 1])
  {
    assert NEWLINE in line by {
      assert line[|line| - 1] == NEWLINE;
    }
    assert line[..|line|] == line;
  }

  lemma {:induction false} PlainToken(l: Bytes, s: nat)
    requires s <= |l| && (s < |l| ==> l[s] != DQUOTE && l[s] != SQUOTE)
    ensures TokenStop(l, s) == PlainStop(l, s)
  {
  }

  lemma {:induction false} SamePrefix(raw: Bytes, out: Bytes, l: Bytes, m: Bytes, b: nat, s: nat)
    requires b + |l| <= |raw| && raw[b..b + |l|] == l && b + |m| <= |out| && out[b..b + |m|] == m
    requires s <= |l| && s <= |m| && out[..b + s] == raw[..b + s]
    ensures m[..s] == l[..s] && (s < |m| ==> m[s] == out[b + s])
    ensures raw[b..b + s] == l[..s]
  {
    assert m[..s] == out[..b + s][b..] && l[..s] == raw[..b + s][b..];
  }

  /** A plain token of a line stops where it would stop in the whole text: the end of its line is a delimiter. */
  lemma {:induction false} PlainStopInText(raw: Bytes, i: nat, s: nat)
    requires i < |Lines(raw)| && s <= |Lines(raw)[i]| && NEWLINE !in Lines(raw)[i][..s]
    ensures |Joined(Lines(raw)[..i])| + |Lines(raw)[i]| <= |raw|
    ensures PlainStop(raw, |Joined(Lines(raw)[..i])| + s) == |Joined(Lines(raw)[..i])| + PlainStop(Lines(raw)[i], s)
    ensures s < |Lines(raw)[i]| ==> raw[|Joined(Lines(raw)[..i])| + s] == Lines(raw)[i][s]
  {
    hide Lines, Joined, IsLine, PlainStop, IsDelimiter;
    var l, b := Lines(raw)[i], |Joined(Lines(raw)[..i])|;
    LineAt(raw, i);
    SamePrefix(raw, raw, l, l, b, s);
    if i < |Lines(raw)| - 1 {
      LineFeedLast(l, s);
    }
  }

  /** An unquoted token runs to the first delimiter of the whole text. */
  lemma {:induction false} PlainLimit(raw: Bytes, line: int, column: int)
    requires OnLine(raw, line, column)
    requires var s := TokenStart(raw, line, column); s <= |raw| && (s < |raw| ==> raw[s] != DQUOTE && raw[s] != SQUOTE)
    ensures TokenLimit(raw, line, column) == PlainStop(raw, TokenStart(raw, line, column))
  {
    hide Lines, Joined, ColumnAt, PlainStop, TokenStop;
    var l := Lines(raw)[line - 1];
    var s := ColumnAt(l, column).value;
    PlainStopInText(raw, line - 1, s);
    PlainToken(l, s);
  }

  /** The position still means the same place after a plain literal was written there. */
  lemma {:induction false} SamePlace(raw: Bytes, line: int, column: int, a: Bytes)
    requires OnLine(raw, line, column) && PlainLiteral(a)
    ensures Replaced(raw, line, column, a).Some?
    ensures OnLine(Replaced(raw, line, column, a).value, line, column)
    ensures TokenStart(Replaced(raw, line, column, a).value, line, column) == TokenStart(raw, line, column)
  {
    hide Lines, Joined, IsLine, ColumnAt, TokenStop;
    var out, i := Replaced(raw, line, column, a).value, line - 1;
    var l, b := Lines(raw)[i], |Joined(Lines(raw)[..i])|;
    var s := ColumnAt(l, column).value;
    TokenInside(raw, line, column);
    LineAt(raw, i);
    assert out[..b + s] == raw[..b + s] && out[b + s] == a[0];
    SamePrefix(raw, raw, l, l, b, s);
    KeepsLine(raw, out, i, b + s);
    LineAt(out, i);
    var m := Lines(out)[i];
    SamePrefix(raw, out, l, m, b, s);
    ColumnPrefix(l, m, s, column);
  }

  /**
   The last writer wins exactly when the byte after the original token ends a plain scalar. After a quoted
   token it may not, and the second write then takes in what followed the quote.
   */
  lemma {:induction false} LastWriterWins(raw: Bytes, line: int, column: int, a: Bytes, b: Bytes)
    requires OnLine(raw, line, column) && PlainLiteral(a) && PlainLiteral(b)
    ensures TokenLimit(raw, line, column) <= |raw|
    ensures var once := Replaced(raw, line, column, a).value; var limit := TokenLimit(raw, line, column);
      (Replaced(once, line, column, b) == Replaced(raw, line, column, b)) <==> (limit == |raw| || IsDelimiter(raw[limit]))
  {
    hide Lines, Joined, OffsetAt, TokenLimit, PlainStop, IsDelimiter;
    TokenInside(raw, line, column);
    var once := Replaced(raw, line, column, a).value;
    var start, limit := TokenStart(raw, line, column), TokenLimit(raw, line, column);
    SamePlace(raw, line, column, a);
    assert once[start] == a[0];
    PlainLimit(once, line, column);
    var d := PlainStop(raw[limit..], 0);
    TokenInside(once, line, column);
    assert once[start + |a| + d..] == raw[limit + d..];
    assert once[..start] == raw[..start];
    var twice := raw[..start] + b + raw[limit + d..];
    assert Replaced(once, line, column, b) == Some(twice);
    assert |Replaced(raw, line, column, b).value| - |twice| == d;
  }

  /** An unquoted token is always followed by a delimiter or the end. */
  lemma {:induction false} PlainTokenIsBounded(raw: Bytes, line: int, column: int)
    requires OnLine(raw, line, column) && TokenStart(raw, line, column) < |raw|
    requires raw[TokenStart(raw, line, column)] != DQUOTE && raw[TokenStart(raw, line, column)] != SQUOTE
    ensures var limit := TokenLimit(raw, line, column); limit == |raw| || (limit < |raw| && IsDelimiter(raw[limit]))
  {
    PlainLimit(raw, line, column);
  }

  /** Flipping a plain token and flipping it back restores the file byte for byte. */
  lemma {:induction false} FlipTwiceRestores(raw: Bytes, line: int, column: int, now: Bytes, a: Bytes)
    requires OnLine(raw, line, column) && PlainLiteral(now) && PlainLiteral(a)
    requires TokenStart(raw, line, column) <= TokenLimit(raw, line, column) <= |raw|
    requires raw[TokenStart(raw, line, column)..TokenLimit(raw, line, column)] == now
    ensures Replaced(Replaced(raw, line, column, a).value, line, column, now) == Some(raw)
  {
    hide Lines, Joined, OffsetAt, TokenLimit, PlainStop, IsDelimiter, OnLine;
    assert OffsetAt(raw, line, column).Some? by {
      HasPlace(raw, line, column);
    }
    var start, limit := TokenStart(raw, line, column), TokenLimit(raw, line, column);
    assert raw[start] == raw[start..limit][0];
    PlainTokenIsBounded(raw, line, column);
    LastWriterWins(raw, line, column, a, now);
    assert raw == raw[..start] + raw[start..limit] + raw[limit..];
  }

  lemma {:induction false} HasPlace(raw: Bytes, line: int, column: int)
    requires OnLine(raw, line, column)
    ensures OffsetAt(raw, line, column).Some?
  {
  }

  // --- inserting a line ---------------------------------------------------------------------------------

  /**
   A node of the parsed document, with the position it starts at. `end` is the last line of its text, which the
   parser does not report and the code does not know.
   */
  datatype Yaml = Yaml(line: int, column: int, children: seq<Yaml>, end: int)

  function GreatestLine(node: Yaml): int
    decreases node, 1, 0
  {
    GreatestAmong(node, |node.children|)
  }

  function GreatestAmong(node: Yaml, n: nat): int
    requires n <= |node.children|
    decreases node, 0, n
  {
    if n == 0 then node.line else Max(GreatestAmong(node, n - 1), GreatestLine(node.children[n - 1]))
  }

  method MaxLine(node: Yaml) returns (greatest: int)
    ensures greatest == GreatestLine(node)
    decreases node
  {
    greatest := node.line;
    for index := 0 to |node.children|
      invariant greatest == GreatestAmong(node, index)
    {
      var childLine := MaxLine(node.children[index]);
      if childLine > greatest {
        greatest := childLine;
      }
    }
  }

  predicate InTree(x: Yaml, node: Yaml)
    decreases node
  {
    x == node || exists i :: 0 <= i < |node.children| && InTree(x, node.children[i])
  }

  lemma {:induction false} AmongGrows(node: Yaml, i: nat, n: nat)
    requires i < n <= |node.children|
    ensures GreatestLine(node.children[i]) <= GreatestAmong(node, n)
    ensures node.line <= GreatestAmong(node, n)
    decreases n
  {
    if i < n - 1 {
      AmongGrows(node, i, n - 1);
    } else if n > 1 {
      AmongGrows(node, 0, n - 1);
    }
  }

  /** No descendant of a node starts below its greatest line. */
  lemma {:induction false} NothingBelow(x: Yaml, node: Yaml)
    requires InTree(x, node)
    ensures x.line <= GreatestLine(node)
    decreases node
  {
    if x != node {
      var i :| 0 <= i < |node.children| && InTree(x, node.children[i]);
      NothingBelow(x, node.children[i]);
      AmongGrows(node, i, |node.children|);
    } else if node.children != [] {
      AmongGrows(node, 0, |node.children|);
    }
  }

  lemma {:induction false} GreatestIsTaken(node: Yaml, n: nat)
    requires n <= |node.children|
    ensures exists x :: InTree(x, node) && x.line == GreatestAmong(node, n)
    decreases node, n
  {
    if n == 0 {
      assert InTree(node, node);
    } else {
      GreatestIsTaken(node, n - 1);
      GreatestIsTaken(node.children[n - 1], |node.children[n - 1].children|);
      var y :| InTree(y, node.children[n - 1]) && y.line == GreatestLine(node.children[n - 1]);
      assert InTree(y, node);
    }
  }

  function Spaces(n: int): Bytes { if n <= 0 then [] else Spaces(n - 1) + [SPACE] }

  function KeyLine(column: int, key: Bytes, literal: Bytes): Bytes {
    Spaces(column - 1) + key + [COLON, SPACE] + literal + [NEWLINE]
  }

  /** The key's line after the last line of the mapping, which gets a line feed first when it lacks one. */
  function KeyInserted(raw: Bytes, mapping: Yaml, key: Bytes, literal: Bytes): Option<Bytes> {
    var last := GreatestLine(mapping);
    if |mapping.children| < 2 || mapping.children[0].line <= 0 || last <= 0 || last > |Lines(raw)| then None else
      Some(Joined(Lines(raw)[..last]) + Feed(Lines(raw)[last - 1])
        + KeyLine(mapping.children[0].column, key, literal) + Joined(Lines(raw)[last..]))
  }

  method InsertMappingKey(raw: Bytes, mapping: Yaml, key: Bytes, literal: Bytes) returns (r: Option<Bytes>)
    ensures r == KeyInserted(raw, mapping, key, literal)
  {
    if |mapping.children| < 2 || mapping.children[0].line <= 0 {
      return None;
    }
    var last := MaxLine(mapping);
    if last <= 0 {
      return None;
    }
    var lines := Lines(raw);
    if last > |lines| {
      return None;
    }
    var inserted := [];
    var index := 1;
    while index < mapping.children[0].column
      invariant index >= 1 && inserted == Spaces(index - 1) && (index <= mapping.children[0].column || index == 1)
    {
      inserted := inserted + [SPACE];
      index := index + 1;
    }
    inserted := inserted + key + [COLON, SPACE] + literal + [NEWLINE];
    assert inserted == KeyLine(mapping.children[0].column, key, literal);
    var out := WithLineAfter(lines, last, inserted);
    return Some(out);
  }

  function Feed(line: Bytes): Bytes { if EndsLine(line) then [] else [NEWLINE] }

  /** The first `i` lines written out, with the new line after the first `last`. */
  function Written(lines: seq<Bytes>, last: nat, added: Bytes, i: nat): Bytes
    requires 0 < last <= |lines| && i <= |lines|
  {
    if i < last then Joined(lines[..i]) else Joined(lines[..last]) + Feed(lines[last - 1]) + added + Joined(lines[last..i])
  }

  method WithLineAfter(lines: seq<Bytes>, last: nat, added: Bytes) returns (out: Bytes)
    requires 0 < last <= |lines|
    ensures out == Joined(lines[..last]) + Feed(lines[last - 1]) + added + Joined(lines[last..])
  {
    hide Joined, Written;
    out := [];
    WrittenNone(lines, last, added);
    for i := 0 to |lines|
      invariant out == Written(lines, last, added, i)
    {
      WrittenNext(lines, last, added, i);
      out := out + lines[i];
      if i == last - 1 {
        if lines[i] == [] || lines[i][|lines[i]| - 1] != NEWLINE {
          out := out + [NEWLINE];
        }
        out := out + added;
      }
    }
    WrittenAll(lines, last, added);
  }

  lemma {:induction false} WrittenNone(lines: seq<Bytes>, last: nat, added: Bytes)
    requires 0 < last <= |lines|
    ensures Written(lines, last, added, 0) == []
  {
  }

  lemma {:induction false} WrittenAll(lines: seq<Bytes>, last: nat, added: Bytes)
    requires 0 < last <= |lines|
    ensures Written(lines, last, added, |lines|) == Joined(lines[..last]) + Feed(lines[last - 1]) + added + Joined(lines[last..])
  {
    assert lines[last..|lines|] == lines[last..];
  }

  lemma {:induction false} WrittenNext(lines: seq<Bytes>, last: nat, added: Bytes, i: nat)
    requires 0 < last <= |lines| && i < |lines|
    ensures Written(lines, last, added, i + 1)
      == Written(lines, last, added, i) + lines[i] + (if i == last - 1 then Feed(lines[i]) + added else [])
  {
    hide Joined, Feed;
    if i < last {
      FirstLines(lines, i);
      if i == last - 1 {
        NoLinesBetween(lines, last);
      }
    } else {
      assert lines[last..i + 1] == lines[last..i] + [lines[i]];
      JoinedNext(lines[last..i], lines[i]);
      assert Joined(lines[..last]) + Feed(lines[last - 1]) + added + (Joined(lines[last..i]) + lines[i])
        == (Joined(lines[..last]) + Feed(lines[last - 1]) + added + Joined(lines[last..i])) + lines[i];
    }
  }

  lemma {:induction false} FirstLines(lines: seq<Bytes>, i: nat)
    requires i < |lines|
    ensures Joined(lines[..i + 1]) == Joined(lines[..i]) + lines[i]
  {
    assert lines[..i + 1] == lines[..i] + [lines[i]];
    JoinedNext(lines[..i], lines[i]);
  }

  lemma {:induction false} NoLinesBetween(lines: seq<Bytes>, last: nat)
    requires last <= |lines|
    ensures Joined(lines[last..last]) == []
  {
  }

  lemma {:induction false} JoinedNext(lines: seq<Bytes>, line: Bytes)
    ensures Joined(lines + [line]) == Joined(lines) + line
  {
    JoinedPlus(lines, [line]);
    assert Joined([line]) == line + Joined([]);
  }

  /** The text gained a line after its first `last` ones, or its missing final line feed and the line. */
  predicate GainedLine(raw: Bytes, last: nat, added: Bytes, out: Bytes)
    requires 0 < last <= |Lines(raw)|
  {
    var lines := Lines(raw);
    if EndsLine(lines[last - 1]) then
      Lines(out) == lines[..last] + [added] + lines[last..] && raw == Joined(lines[..last] + lines[last..])
    else
      last == |lines| && out == raw + [NEWLINE] + added
  }

  /**
   Taking the new line out again gives the input: the lines of the result are those of the input with one
   more after the mapping's last, or the input gains its missing final line feed and the new line.
   */
  lemma {:induction false} InsertedLineOnly(raw: Bytes, mapping: Yaml, key: Bytes, literal: Bytes)
    requires KeyInserted(raw, mapping, key, literal).Some?
    requires NEWLINE !in key && NEWLINE !in literal
    ensures GainedLine(raw, GreatestLine(mapping), KeyLine(mapping.children[0].column, key, literal),
                       KeyInserted(raw, mapping, key, literal).value)
  {
    var lines, last := Lines(raw), GreatestLine(mapping);
    var added := KeyLine(mapping.children[0].column, key, literal);
    hide Lines, Joined, KeyLine, GreatestLine, EndsLine, Feed, IsLine;
    KeyLineIsLine(mapping.children[0].column, key, literal);
    LineInserted(raw, last, added);
  }

  lemma {:induction false} LineInserted(raw: Bytes, last: nat, added: Bytes)
    requires 0 < last <= |Lines(raw)| && IsLine(added)
    ensures GainedLine(raw, last, added,
                       Joined(Lines(raw)[..last]) + Feed(Lines(raw)[last - 1]) + added + Joined(Lines(raw)[last..]))
  {
    hide Lines, Joined, IsLine, EndsLine, Feed;
    if EndsLine(Lines(raw)[last - 1]) {
      OneMoreLine(raw, last, added);
      JoinedLines(raw);
      assert Lines(raw) == Lines(raw)[..last] + Lines(raw)[last..];
    } else {
      AfterTheEnd(raw, last, added);
    }
  }

  lemma {:induction false} AfterTheEnd(raw: Bytes, last: nat, added: Bytes)
    requires 0 < last <= |Lines(raw)| && !EndsLine(Lines(raw)[last - 1])
    ensures last == |Lines(raw)|
    ensures Joined(Lines(raw)[..last]) + Feed(Lines(raw)[last - 1]) + added + Joined(Lines(raw)[last..]) == raw + [NEWLINE] + added
  {
    hide Lines, Joined, IsLine;
    LinesAreLines(raw);
    JoinedLines(raw);
    ShortLineIsLast(Lines(raw), last);
    NoLinesBetween(Lines(raw), last);
    assert Lines(raw)[last..last] == Lines(raw)[last..];
    assert raw + [NEWLINE] + added + [] == raw + [NEWLINE] + added;
  }

  lemma {:induction false} OneMoreLine(raw: Bytes, last: nat, added: Bytes)
    requires 0 < last <= |Lines(raw)| && EndsLine(Lines(raw)[last - 1]) && IsLine(added)
    ensures var lines := Lines(raw);
      Lines(Joined(lines[..last]) + Feed(lines[last - 1]) + added + Joined(lines[last..])) == lines[..last] + [added] + lines[last..]
  {
    hide Lines, Joined, IsLine;
    var lines := Lines(raw);
    JoinedNext(lines[..last], added);
    JoinedPlus(lines[..last] + [added], lines[last..]);
    StillLines(raw, last, added);
    LinesOfJoined(lines[..last] + [added] + lines[last..]);
    assert Joined(lines[..last]) + [] + added == Joined(lines[..last]) + added;
  }

  lemma {:induction false} ShortLineIsLast(lines: seq<Bytes>, last: nat)
    requires AreLines(lines) && 0 < last <= |lines| && !EndsLine(lines[last - 1])
    ensures last == |lines| && lines[..last] == lines && lines[last..] == []
  {
    assert last < |lines| ==> IsLine(lines[last - 1]);
  }

  lemma {:induction false} StillLines(raw: Bytes, last: nat, added: Bytes)
    requires 0 < last <= |Lines(raw)| && EndsLine(Lines(raw)[last - 1]) && IsLine(added)
    ensures AreLines(Lines(raw)[..last] + [added] + Lines(raw)[last..])
  {
    hide Lines, IsLine;
    var lines := Lines(raw);
    LinesAreLines(raw);
    assert last < |lines| by {
      assert NEWLINE in lines[last - 1];
    }
    var changed := lines[..last] + [added] + lines[last..];
    forall i | 0 <= i < |changed| - 1
      ensures IsLine(changed[i])
    {
      assert changed[i] == if i < last then lines[i] else if i == last then added else lines[i - 1];
    }
    assert changed[|changed| - 1] == lines[|lines| - 1];
  }

  lemma {:induction false} SpacesOnly(n: int)
    ensures NEWLINE !in Spaces(n)
  {
    if n > 0 {
      SpacesOnly(n - 1);
    }
  }

  lemma {:induction false} KeyLineIsLine(column: int, key: Bytes, literal: Bytes)
    requires NEWLINE !in key && NEWLINE !in literal
    ensures IsLine(KeyLine(column, key, literal))
  {
    SpacesOnly(column - 1);
    var body := Spaces(column - 1) + key + [COLON, SPACE] + literal;
    assert NEWLINE !in body;
    assert KeyLine(column, key, literal)[..|body|] == body;
    assert forall k :: 0 <= k < |body| ==> KeyLine(column, key, literal)[k] == body[k] && body[k] in body;
  }
}
