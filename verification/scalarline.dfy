/** The line that is inserted into a block mapping, byte by byte, and where its key begins. */
module ScalarLine {
  import opened Common
  import opened ByteText
  import opened ScalarEdit

  /** `column - 1` spaces, the key, a colon and a space, the literal and a line feed, and nothing else. */
  ghost predicate IsKeyLine(line: Bytes, column: int, key: Bytes, literal: Bytes) {
    var pad := if column > 1 then column - 1 else 0;
    var colon := pad + |key|;
    && |line| == colon + 2 + |literal| + 1
    && (forall k :: 0 <= k < pad ==> line[k] == 32)
    && (forall k :: 0 <= k < |key| ==> line[pad + k] == key[k])
    && line[colon] == 58 && line[colon + 1] == 32
    && (forall k :: 0 <= k < |literal| ==> line[colon + 2 + k] == literal[k])
    && line[|line| - 1] == 10
  }

  lemma {:induction false} SpacesAre(n: int)
    ensures |Spaces(n)| == (if n > 0 then n else 0) && forall k :: 0 <= k < n ==> Spaces(n)[k] == 32
  {
    if n > 0 {
      SpacesAre(n - 1);
    }
  }

  lemma {:induction false} KeyLineIs(column: int, key: Bytes, literal: Bytes)
    ensures IsKeyLine(KeyLine(column, key, literal), column, key, literal)
  {
    hide Spaces;
    SpacesAre(column - 1);
  }

  /** On a line that starts with spaces every column up to the first other byte is that many bytes in. */
  lemma {:induction false} ColumnAfterSpaces(line: Bytes, column: int)
    requires 1 <= column <= |line| + 1 && forall k :: 0 <= k < column - 1 ==> line[k] == 32
    ensures ColumnAt(line, column) == Some(column - 1)
  {
    if column > 1 {
      ColumnAfterSpaces(line, column - 1);
    }
  }

  /** The inserted line is the one behind the mapping's last line. */
  lemma {:induction false} TheLineBehind(raw: Bytes, mapping: Yaml, key: Bytes, literal: Bytes)
    requires KeyInserted(raw, mapping, key, literal).Some?
    requires NEWLINE !in key && NEWLINE !in literal
    ensures var lines := Lines(KeyInserted(raw, mapping, key, literal).value);
      && 0 < GreatestLine(mapping) < |lines| && lines[..GreatestLine(mapping) - 1] == Lines(raw)[..GreatestLine(mapping) - 1]
      && lines[GreatestLine(mapping)] == KeyLine(mapping.children[0].column, key, literal)
  {
    hide Joined, KeyLine, GreatestLine, IsLine, Lines, KeyInserted;
    InsertedExactly(raw, mapping, key, literal);
    var last := GreatestLine(mapping);
    var added := KeyLine(mapping.children[0].column, key, literal);
    InsertedLineOnly(raw, mapping, key, literal);
    KeyLineIsLine(mapping.children[0].column, key, literal);
    LinesAreLines(raw);
    if !EndsLine(Lines(raw)[last - 1]) {
      LinesAtTheEnd(raw, added);
    }
  }

  /** The line is inserted exactly when the mapping has a key and a value, and stands on lines of the text. */
  lemma {:induction false} InsertedExactly(raw: Bytes, mapping: Yaml, key: Bytes, literal: Bytes)
    ensures KeyInserted(raw, mapping, key, literal).Some? <==>
      && |mapping.children| >= 2 && mapping.children[0].line >= 1
      && 1 <= GreatestLine(mapping) <= |Lines(raw)|
  {
    hide Lines, GreatestLine;
  }

  lemma {:induction false} LinesAtTheEnd(raw: Bytes, added: Bytes)
    requires !EndsLine(Lines(raw)[|Lines(raw)| - 1]) && IsLine(added)
    ensures var n := |Lines(raw)| - 1;
      Lines(raw + [NEWLINE] + added) == Lines(raw)[..n] + [Lines(raw)[n] + [NEWLINE], added, []]
  {
    hide Lines, Joined;
    var n := |Lines(raw)| - 1;
    var lines := Lines(raw)[..n] + [Lines(raw)[n] + [NEWLINE], added, []];
    LinesAreLines(raw);
    JoinedLines(raw);
    assert Lines(raw) == Lines(raw)[..n] + [Lines(raw)[n]];
    JoinedNext(Lines(raw)[..n], Lines(raw)[n]);
    JoinedPlus(Lines(raw)[..n], [Lines(raw)[n] + [NEWLINE], added, []]);
    JoinedThree(Lines(raw)[n] + [NEWLINE], added);
    assert raw + [NEWLINE] + added == Joined(Lines(raw)[..n]) + (Lines(raw)[n] + [NEWLINE] + added);
    LinesOfJoined(lines);
  }

  lemma {:induction false} JoinedThree(a: Bytes, b: Bytes)
    ensures Joined([a, b, []]) == a + b
  {
    assert [a, b, []][1..] == [b, []] && [b, []][1..] == [[]];
    var last: seq<Bytes> := [[]];
    assert last[1..] == [] && Joined(last) == [] + Joined([]);
    assert Joined([b, []]) == b + Joined([[]]);
  }

  /** On such a line the column of its indentation is where the key begins. */
  lemma {:induction false} KeyStandsThere(out: Bytes, last: nat, column: int, key: Bytes, literal: Bytes)
    requires last < |Lines(out)| && column >= 1 && IsKeyLine(Lines(out)[last], column, key, literal)
    ensures var at := |Joined(Lines(out)[..last])| + (column - 1);
      && OffsetAt(out, last + 1, column) == Some(at)
      && at + |key| <= |out| && out[at..at + |key|] == key
  {
    hide Joined, Lines;
    var line := Lines(out)[last];
    ColumnAfterSpaces(line, column);
    SplitAtLine(out, last);
    assert line[column - 1..column - 1 + |key|] == key;
  }

  /**
   The line after the mapping's last one is the key's line, as far in as the mapping's first key: that column of it is
   where the key begins. The lines before the mapping's last one are untouched.
   */
  lemma {:induction false} InsertedUnderTheFirstKey(raw: Bytes, mapping: Yaml, key: Bytes, literal: Bytes)
    requires KeyInserted(raw, mapping, key, literal).Some?
    requires NEWLINE !in key && NEWLINE !in literal
    ensures var out, last := KeyInserted(raw, mapping, key, literal).value, GreatestLine(mapping);
      var column := mapping.children[0].column;
      && 0 < last < |Lines(out)| && Lines(out)[..last - 1] == Lines(raw)[..last - 1]
      && IsKeyLine(Lines(out)[last], column, key, literal)
      && (column >= 1 ==>
            var at := |Joined(Lines(out)[..last])| + (column - 1);
            && OffsetAt(out, last + 1, column) == Some(at)
            && at + |key| <= |out| && out[at..at + |key|] == key)
  {
    hide Joined, KeyLine, Lines, GreatestLine, KeyInserted, OffsetAt, IsKeyLine;
    var out, last := KeyInserted(raw, mapping, key, literal).value, GreatestLine(mapping);
    InsertedExactly(raw, mapping, key, literal);
    var column := mapping.children[0].column;
    TheLineBehind(raw, mapping, key, literal);
    KeyLineIs(column, key, literal);
    if column >= 1 {
      KeyStandsThere(out, last, column, key, literal);
    }
  }
}
