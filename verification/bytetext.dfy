/** Texts as bytes: their lines, and the positions a YAML parser reports in them. */
module ByteText {
  import opened Common

  newtype byte = b: int | 0 <= b < 256

  type Bytes = seq<byte>

  const TAB: byte := 9
  const NEWLINE: byte := 10
  const RETURN: byte := 13
  const SPACE: byte := 32
  const DQUOTE: byte := 34
  const HASH: byte := 35
  const SQUOTE: byte := 39
  const COMMA: byte := 44
  const COLON: byte := 58
  const LBRACKET: byte := 91
  const BACKSLASH: byte := 92
  const RBRACKET: byte := 93
  const LBRACE: byte := 123
  const RBRACE: byte := 125

  predicate IsFlowSpace(b: byte) { b == SPACE || b == TAB || b == RETURN || b == NEWLINE }

  /** White space of one byte, as trimming takes it. */
  predicate IsSpaceByte(b: byte) { TAB <= b <= RETURN || b == SPACE }

  predicate AllSpace(s: Bytes) { forall i :: 0 <= i < |s| ==> IsFlowSpace(s[i]) }

  function TrimBytes(s: Bytes): Bytes {
    if s != [] && IsSpaceByte(s[0]) then TrimBytes(s[1..])
    else if s != [] && IsSpaceByte(s[|s| - 1]) then TrimBytes(s[..|s| - 1])
    else s
  }

  predicate EndsLine(line: Bytes) { line != [] && line[|line| - 1] == NEWLINE }

  // --- lines --------------------------------------------------------------------------------------------

  function LineLength(raw: Bytes): (n: nat)
    ensures n <= |raw|
    ensures raw != [] ==> n > 0
    ensures forall i :: 0 <= i < n - 1 ==> raw[i] != NEWLINE
    ensures n < |raw| ==> n > 0 && raw[n - 1] == NEWLINE
  {
    if raw == [] then 0 else if raw[0] == NEWLINE then 1 else 1 + LineLength(raw[1..])
  }

  /** The lines of a text, each with its line feed; the last one has none and may be empty. */
  function Lines(raw: Bytes): (lines: seq<Bytes>)
    ensures lines != []
    decreases |raw|
  {
    var n := LineLength(raw);
    if n > 0 && raw[n - 1] == NEWLINE then [raw[..n]] + Lines(raw[n..]) else [raw]
  }

  function Joined(lines: seq<Bytes>): Bytes {
    if lines == [] then [] else lines[0] + Joined(lines[1..])
  }

  /** The first line of a text and the lines behind it. */
  lemma {:induction false} FirstLine(raw: Bytes)
    ensures Lines(raw)[0] == raw[..LineLength(raw)]
    ensures Lines(raw)[1..] == if EndsLine(Lines(raw)[0]) then Lines(raw[LineLength(raw)..]) else []
  {
  }

  lemma {:induction false} JoinedLines(raw: Bytes)
    ensures Joined(Lines(raw)) == raw
    decreases |raw|
  {
    hide Lines, LineLength;
    FirstLine(raw);
    var n := LineLength(raw);
    if EndsLine(Lines(raw)[0]) {
      JoinedLines(raw[n..]);
    }
    assert raw == raw[..n] + raw[n..];
  }

  lemma {:induction false} JoinedPlus(a: seq<Bytes>, b: seq<Bytes>)
    ensures Joined(a + b) == Joined(a) + Joined(b)
  {
    if a == [] {
      assert a + b == b;
    } else {
      JoinedPlus(a[1..], b);
      assert (a + b)[1..] == a[1..] + b;
      assert Joined(a + b) == a[0] + Joined(a[1..] + b);
    }
  }

  /** A text split around one of its lines. */
  lemma {:induction false} SplitAtLine(raw: Bytes, i: nat)
    requires i < |Lines(raw)|
    ensures raw == Joined(Lines(raw)[..i]) + Lines(raw)[i] + Joined(Lines(raw)[i + 1..])
  {
    var lines := Lines(raw);
    JoinedLines(raw);
    assert lines == lines[..i] + ([lines[i]] + lines[i + 1..]);
    JoinedPlus(lines[..i], [lines[i]] + lines[i + 1..]);
    assert ([lines[i]] + lines[i + 1..])[1..] == lines[i + 1..];
  }

  /** A sequence that could be the lines of a text. */
  predicate AreLines(lines: seq<Bytes>) {
    && lines != []
    && (forall i :: 0 <= i < |lines| - 1 ==> IsLine(lines[i]))
    && NEWLINE !in lines[|lines| - 1]
  }

  predicate IsLine(line: Bytes) {
    && EndsLine(line)
    && forall k :: 0 <= k < |line| - 1 ==> line[k] != NEWLINE
  }

  lemma {:induction false} LinesAreLines(raw: Bytes)
    ensures AreLines(Lines(raw))
    decreases |raw|
  {
    var n := LineLength(raw);
    if n > 0 && raw[n - 1] == NEWLINE {
      LinesAreLines(raw[n..]);
      assert IsLine(raw[..n]);
    }
  }

  /** Splitting is the inverse of joining. */
  lemma {:induction false} LinesOfJoined(lines: seq<Bytes>)
    requires AreLines(lines)
    ensures Lines(Joined(lines)) == lines
    decreases |lines|
  {
    var raw, first := Joined(lines), lines[0];
    var n := LineLength(raw);
    if |lines| == 1 {
      assert Joined(lines[1..]) == [];
      assert raw == first;
    } else {
      assert IsLine(first);
      assert raw[|first| - 1] == NEWLINE;
      assert forall i :: 0 <= i < |first| - 1 ==> raw[i] == first[i];
      assert n == |first|;
      assert raw[n..] == Joined(lines[1..]) && raw[..n] == first;
      LinesOfJoined(lines[1..]);
    }
  }

  // --- positions ----------------------------------------------------------------------------------------

  predicate Continues(b: byte, low: byte, high: byte) { low <= b <= high }

  /** The length of the UTF-8 character at the start of `s`; an ill-formed one counts as one byte. */
  function RuneSize(s: Bytes): (n: nat)
    ensures n <= |s| && (s != [] ==> n > 0)
  {
    if s == [] then 0
    else if 0xC2 <= s[0] <= 0xDF && |s| > 1 && Continues(s[1], 0x80, 0xBF) then 2
    else if 0xE0 <= s[0] <= 0xEF && |s| > 2
      && Continues(s[1], if s[0] == 0xE0 then 0xA0 else 0x80, if s[0] == 0xED then 0x9F else 0xBF)
      && Continues(s[2], 0x80, 0xBF) then 3
    else if 0xF0 <= s[0] <= 0xF4 && |s| > 3
      && Continues(s[1], if s[0] == 0xF0 then 0x90 else 0x80, if s[0] == 0xF4 then 0x8F else 0xBF)
      && Continues(s[2], 0x80, 0xBF) && Continues(s[3], 0x80, 0xBF) then 4
    else 1
  }

  /** The byte offset of the `column`-th character, counted from 1. */
  function ColumnAt(line: Bytes, column: int): (offset: Option<nat>)
    ensures offset.Some? ==> offset.value <= |line|
  {
    if column <= 1 then Some(0) else
      match ColumnAt(line, column - 1)
      case None => None
      case Some(offset) => if offset >= |line| then None else Some(offset + RuneSize(line[offset..]))
  }

  method ColumnOffset(line: Bytes, column: int) returns (offset: Option<nat>)
    ensures offset == ColumnAt(line, column)
  {
    var at := 0;
    var index := 1;
    while index < column
      invariant index >= 1 && at <= |line| && (index <= column || index == 1)
      invariant ColumnAt(line, index) == Some(at)
    {
      if at >= |line| {
        NoColumnAfter(line, index + 1, column);
        return None;
      }
      at := at + RuneSize(line[at..]);
      index := index + 1;
    }
    return Some(at);
  }

  lemma {:induction false} NoColumnAfter(line: Bytes, index: int, column: int)
    requires 1 < index <= column && ColumnAt(line, index) == None
    ensures ColumnAt(line, column) == None
    decreases column
  {
    if index < column {
      NoColumnAfter(line, index, column - 1);
    }
  }

  /** The offset of a 1-based line and column, or None when the file has no such place. */
  function OffsetAt(raw: Bytes, line: int, column: int): (offset: Option<nat>) {
    if line <= 0 || column <= 0 || line > |Lines(raw)| then None else
      match ColumnAt(Lines(raw)[line - 1], column)
      case None => None
      case Some(inside) => Some(|Joined(Lines(raw)[..line - 1])| + inside)
  }

  method OffsetOf(raw: Bytes, line: int, column: int) returns (offset: Option<nat>)
    ensures offset == OffsetAt(raw, line, column)
  {
    if line <= 0 || column <= 0 {
      return None;
    }
    var lines := Lines(raw);
    if line > |lines| {
      return None;
    }
    var start := 0;
    for index := 0 to line - 1
      invariant start == |Joined(lines[..index])|
    {
      JoinedPlus(lines[..index], [lines[index]]);
      assert lines[..index + 1] == lines[..index] + [lines[index]];
      assert Joined([lines[index]]) == lines[index] + Joined([]);
      start := start + |lines[index]|;
    }
    var inside := ColumnOffset(lines[line - 1], column);
    if inside == None {
      return None;
    }
    return Some(start + inside.value);
  }

  /** A character that ends at or before `k` does not depend on what follows, as long as an ASCII byte does. */
  lemma {:induction false} RuneSizePrefix(a: Bytes, b: Bytes, k: nat)
    requires 0 < k <= |a| && k <= |b| && a[..k] == b[..k]
    requires RuneSize(a) <= k
    requires k < |b| ==> b[k] < 0x80
    ensures RuneSize(b) == RuneSize(a)
  {
    assert forall i :: 0 <= i < k ==> a[i] == a[..k][i] == b[i];
  }

  /** A column at or before `k` keeps its offset when the bytes from `k` on are replaced by ASCII. */
  lemma {:induction false} ColumnPrefix(a: Bytes, b: Bytes, k: nat, column: int)
    requires k <= |a| && k <= |b| && a[..k] == b[..k]
    requires k < |b| ==> b[k] < 0x80
    requires ColumnAt(a, column).Some? && ColumnAt(a, column).value <= k
    ensures ColumnAt(b, column) == ColumnAt(a, column)
  {
    if column > 1 {
      var o := ColumnAt(a, column - 1).value;
      ColumnPrefix(a, b, k, column - 1);
      assert a[o..][..k - o] == a[..k][o..] == b[o..][..k - o];
      RuneSizePrefix(a[o..], b[o..], k - o);
    }
  }
}
