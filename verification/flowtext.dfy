/**
 The byte-level edits of a flow mapping in the host's YAML file: the brace matcher, the inserter and the
 loop that adds the missing default keys. The file is a sequence of bytes and is never re-marshalled.
 */
module FlowText {
  import opened Common
  import opened ByteText
  import opened ScalarEdit

  /** The index of the quote that closes a scalar, read from `index` inside it; the last byte if none does. */
  function QuoteEnd(raw: Bytes, index: nat, quote: byte): (end: int)
    ensures end < |raw| || raw == []
    ensures index < |raw| ==> index <= end
    decreases |raw| - index
  {
    if index >= |raw| then |raw| - 1
    else if quote == DQUOTE && raw[index] == BACKSLASH then QuoteEnd(raw, index + 2, quote)
    else if raw[index] == quote then
      if quote == SQUOTE && index + 1 < |raw| && raw[index + 1] == SQUOTE then QuoteEnd(raw, index + 2, quote) else index
    else QuoteEnd(raw, index + 1, quote)
  }

  /** The index of the brace that closes the mapping being scanned, or -1. */
  function FlowEnd(raw: Bytes, index: nat, depth: int): (end: int)
    ensures -1 <= end < |raw| || end == -1
    ensures end >= 0 ==> index <= end && raw[end] == RBRACE
    decreases |raw| - index
  {
    if index >= |raw| then -1
    else if raw[index] == DQUOTE || raw[index] == SQUOTE then
      FlowEnd(raw, Max(QuoteEnd(raw, index + 1, raw[index]), index) + 1, depth)
    else if raw[index] == LBRACE || raw[index] == LBRACKET then FlowEnd(raw, index + 1, depth + 1)
    else if raw[index] == RBRACE then (if depth - 1 <= 0 then index else FlowEnd(raw, index + 1, depth - 1))
    else if raw[index] == RBRACKET then FlowEnd(raw, index + 1, depth - 1)
    else FlowEnd(raw, index + 1, depth)
  }

  function SkipSpace(raw: Bytes, from: nat, limit: nat): (i: nat)
    requires from <= limit <= |raw|
    ensures from <= i <= limit
    ensures forall j :: from <= j < i ==> IsFlowSpace(raw[j])
    ensures i < limit ==> !IsFlowSpace(raw[i])
    decreases limit - from
  {
    if from < limit && IsFlowSpace(raw[from]) then SkipSpace(raw, from + 1, limit) else from
  }

  /** The last byte in (start, last] that is not white space, or `start`. */
  function LastSolid(raw: Bytes, start: nat, last: nat): (i: nat)
    requires start <= last < |raw|
    ensures start <= i <= last
    ensures forall j :: i < j <= last ==> IsFlowSpace(raw[j])
    ensures i > start ==> !IsFlowSpace(raw[i])
  {
    if last > start && IsFlowSpace(raw[last]) then LastSolid(raw, start, last - 1) else last
  }

  function EscapeKey(key: Bytes): Bytes {
    if key == [] then [] else
      (if key[0] == DQUOTE || key[0] == BACKSLASH then [BACKSLASH, key[0]] else [key[0]]) + EscapeKey(key[1..])
  }

  function EntryText(key: Bytes, literal: Bytes): Bytes {
    [DQUOTE] + EscapeKey(key) + [DQUOTE, COLON, SPACE] + literal
  }

  /** Nothing in an empty mapping, otherwise what the last byte before the closing brace asks for. */
  function Separator(raw: Bytes, start: nat, end: nat): Bytes
    requires start < end < |raw|
  {
    if SkipSpace(raw, start + 1, end) >= end then []
    else if raw[LastSolid(raw, start, end - 1)] == COMMA then [SPACE]
    else [COMMA, SPACE]
  }

  /** `"key": literal` right before the closing brace, with a comma when the mapping needs one. */
  function Inserted(raw: Bytes, start: nat, key: Bytes, literal: Bytes): Option<Bytes> {
    if start >= |raw| || raw[start] != LBRACE || FlowEnd(raw, start, 0) <= start then None else
      var end: nat := FlowEnd(raw, start, 0);
      Some(raw[..end] + Separator(raw, start, end) + EntryText(key, literal) + raw[end..])
  }

  // --- the loops ----------------------------------------------------------------------------------------

  method SkipQuotedScalar(raw: Bytes, start: nat) returns (end: int)
    requires start < |raw|
    ensures end == QuoteEnd(raw, start + 1, raw[start])
  {
    var quote := raw[start];
    var index := start + 1;
    while index < |raw|
      invariant QuoteEnd(raw, start + 1, quote) == QuoteEnd(raw, index, quote)
      decreases |raw| - index
    {
      if quote == DQUOTE && raw[index] == BACKSLASH {
        index := index + 2;
        continue;
      }
      if raw[index] == quote {
        if quote == SQUOTE && index + 1 < |raw| && raw[index + 1] == SQUOTE {
          index := index + 2;
          continue;
        }
        return index;
      }
      index := index + 1;
    }
    return |raw| - 1;
  }

  method FlowMappingEnd(raw: Bytes, start: nat) returns (end: int)
    ensures end == FlowEnd(raw, start, 0)
  {
    var depth := 0;
    var index: int := start;
    while index < |raw|
      invariant index >= start && FlowEnd(raw, start, 0) == FlowEnd(raw, index, depth)
      decreases |raw| - index
    {
      var b := raw[index];
      if b == DQUOTE || b == SQUOTE {
        var close := SkipQuotedScalar(raw, index);
        index := Max(close, index);
      } else if b == LBRACE || b == LBRACKET {
        depth := depth + 1;
      } else if b == RBRACE {
        depth := depth - 1;
        if depth <= 0 {
          return index;
        }
      } else if b == RBRACKET {
        depth := depth - 1;
      }
      index := index + 1;
    }
    return -1;
  }

  method InsertFlowMappingKey(raw: Bytes, line: int, column: int, key: Bytes,
                              literal: Bytes) returns (out: Option<Bytes>)
    ensures out == InsertedInto(raw, FlowNode(line, column, {}), key, literal)
  {
    var position := OffsetOf(raw, line, column);
    if position == None {
      return None;
    }
    var start := position.value;
    if start >= |raw| || raw[start] != LBRACE {
      return None;
    }
    var end := FlowMappingEnd(raw, start);
    if end <= start {
      return None;
    }
    var separator := SeparatorFor(raw, start, end);
    out := Some(raw[..end] + (separator + EntryText(key, literal)) + raw[end..]);
    assert out.value == raw[..end] + separator + EntryText(key, literal) + raw[end..];
  }

  method SeparatorFor(raw: Bytes, start: nat, end: nat) returns (separator: Bytes)
    requires start < end < |raw|
    ensures separator == Separator(raw, start, end)
  {
    var first := start + 1;
    while first < end && IsFlowSpace(raw[first])
      invariant start + 1 <= first <= end && SkipSpace(raw, start + 1, end) == SkipSpace(raw, first, end)
    {
      first := first + 1;
    }
    if first >= end {
      return [];
    }
    var last := end - 1;
    while last > start && IsFlowSpace(raw[last])
      invariant start <= last < end && LastSolid(raw, start, end - 1) == LastSolid(raw, start, last)
    {
      last := last - 1;
    }
    return if raw[last] == COMMA then [SPACE] else [COMMA, SPACE];
  }

  // --- adding the defaults -------------------------------------------------------------------------------

  /**
   What the YAML parser reports about the plugin's block: its keys, and either where its opening brace is or,
   for a block of `key: value` lines, its nodes.
   */
  datatype Node =
    | FlowNode(line: int, column: int, keys: set<Bytes>)
    | BlockNode(tree: Yaml, keys: set<Bytes>)

  function InsertedInto(raw: Bytes, node: Node, key: Bytes, literal: Bytes): Option<Bytes> {
    match node
    case BlockNode(tree, _) => KeyInserted(raw, tree, key, literal)
    case FlowNode(line, column, _) =>
      match OffsetAt(raw, line, column)
      case None => None
      case Some(start) => Inserted(raw, start, key, literal)
  }

  datatype Default = Default(key: Bytes, literal: Bytes) {
    function Name(): Bytes { TrimBytes(key) }
    predicate Skipped() { TrimBytes(key) == [] || TrimBytes(literal) == [] }
  }

  datatype Filled = Refused | Filled(text: Bytes, changed: bool)

  /** The text after the first defaults, re-parsed before each of them. */
  function FillTo(raw: Bytes, parse: Bytes -> Option<Node>, defaults: seq<Default>): Filled {
    if defaults == [] then (if parse(raw) == None then Refused else Filled(raw, false)) else
      var d := defaults[|defaults| - 1];
      match FillTo(raw, parse, defaults[..|defaults| - 1])
      case Refused => Refused
      case Filled(text, changed) =>
        if d.Skipped() then Filled(text, changed) else
          match parse(text)
          case None => Refused
          case Some(node) =>
            if d.Name() in node.keys then Filled(text, changed) else
              match InsertedInto(text, node, d.Name(), d.literal)
              case None => Refused
              case Some(next) => Filled(next, true)
  }

  /** Both shapes of a block take a key, each in its own way. */
  method InsertInto(raw: Bytes, node: Node, key: Bytes, literal: Bytes) returns (out: Option<Bytes>)
    ensures out == InsertedInto(raw, node, key, literal)
  {
    match node {
      case BlockNode(tree, _) => out := InsertMappingKey(raw, tree, key, literal);
      case FlowNode(line, column, _) => out := InsertFlowMappingKey(raw, line, column, key, literal);
    }
  }

  /** All or nothing: a refusal leaves the original bytes to the caller. */
  method PluginConfigDefaults(raw: Bytes, parse: Bytes -> Option<Node>, defaults: seq<Default>) returns (r: Filled)
    ensures r == if defaults == [] then Refused else FillTo(raw, parse, defaults)
  {
    hide InsertedInto, TrimBytes;
    if |defaults| == 0 || parse(raw) == None {
      FirstParse(raw, parse, defaults);
      return Refused;
    }
    var out, changed := raw, false;
    for i := 0 to |defaults|
      invariant FillTo(raw, parse, defaults[..i]) == Filled(out, changed)
    {
      var d := defaults[i];
      assert defaults[..i + 1][..i] == defaults[..i];
      if d.Skipped() {
        continue;
      }
      var current := parse(out);
      if current == None {
        RefusedStays(raw, parse, defaults, i + 1);
        return Refused;
      }
      if d.Name() in current.value.keys {
        continue;
      }
      var updated := InsertInto(out, current.value, d.Name(), d.literal);
      if updated == None {
        RefusedStays(raw, parse, defaults, i + 1);
        return Refused;
      }
      out, changed := updated.value, true;
    }
    assert defaults[..|defaults|] == defaults;
    return Filled(out, changed);
  }

  lemma {:induction false} RefusedStays(raw: Bytes, parse: Bytes -> Option<Node>, defaults: seq<Default>, n: nat)
    requires n <= |defaults| && FillTo(raw, parse, defaults[..n]) == Refused
    ensures FillTo(raw, parse, defaults) == Refused
    decreases |defaults|
  {
    if n < |defaults| {
      assert defaults[..|defaults| - 1][..n] == defaults[..n];
      RefusedStays(raw, parse, defaults[..|defaults| - 1], n);
    } else {
      assert defaults[..n] == defaults;
    }
  }

  lemma {:induction false} FirstParse(raw: Bytes, parse: Bytes -> Option<Node>, defaults: seq<Default>)
    ensures parse(raw) == None ==> FillTo(raw, parse, defaults) == Refused
  {
    if parse(raw) == None {
      assert defaults[..0] == [];
      RefusedStays(raw, parse, defaults, 0);
    }
  }
}
