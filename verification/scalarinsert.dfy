/**
 Where the line inserted into a block mapping lands. The code takes the greatest line on which a node starts for the
 last line of the mapping; a value that runs on over further lines is cut.
 */
module ScalarInsert {
  import opened ByteText
  import opened ScalarEdit

  /** The node's text is whole lines of the file. */
  predicate OnLines(x: Yaml, raw: Bytes) { 1 <= x.line <= x.end <= |Lines(raw)| }

  /**
   A node of the mapping keeps its text in one piece, with the new line somewhere behind it, if and only if it ends
   on a line on which some node of the mapping starts, or before; any other node gets the new line between its lines.
   */
  lemma {:induction false} InsertedInsideExactly(raw: Bytes, mapping: Yaml, key: Bytes, literal: Bytes, x: Yaml)
    requires KeyInserted(raw, mapping, key, literal).Some? && NEWLINE !in key && NEWLINE !in literal
    requires InTree(x, mapping) && OnLines(x, raw)
    ensures var out, last := KeyInserted(raw, mapping, key, literal).value, GreatestLine(mapping);
      var lines, added := Lines(raw), KeyLine(mapping.children[0].column, key, literal);
      if x.end <= last then
        out == Joined(lines[..x.end]) + (Joined(lines[x.end..last]) + Feed(lines[last - 1])) + added + Joined(lines[last..])
      else
        x.line <= last < x.end && Lines(out) == lines[..last] + [added] + lines[last..]
  {
    hide Lines, Joined, KeyLine, GreatestLine, EndsLine, Feed, IsLine, InTree;
    var lines, last := Lines(raw), GreatestLine(mapping);
    var out, added := KeyInserted(raw, mapping, key, literal).value, KeyLine(mapping.children[0].column, key, literal);
    NothingBelow(x, mapping);
    if x.end <= last {
      assert lines[..last] == lines[..x.end] + lines[x.end..last];
      JoinedPlus(lines[..x.end], lines[x.end..last]);
      var between, before := Joined(lines[x.end..last]), Joined(lines[..x.end]);
      assert before + between + Feed(lines[last - 1]) == before + (between + Feed(lines[last - 1]));
    } else {
      InsertedLineOnly(raw, mapping, key, literal);
      LineInside(raw, last);
    }
  }

  /** Only the last line of a text may lack a line feed. */
  lemma {:induction false} LineInside(raw: Bytes, last: nat)
    requires 0 < last < |Lines(raw)|
    ensures EndsLine(Lines(raw)[last - 1])
  {
    LinesAreLines(raw);
  }

  // --- a value that runs on -------------------------------------------------------------------------------

  /** `m: |` and, on the next line, two spaces and `t`; the mapping, its key and its value. */
  const RUNS_ON: seq<Bytes> := [[109, COLON, SPACE, 124, NEWLINE], [SPACE, SPACE, 116, NEWLINE], []]
  const BLOCK := Yaml(1, 1, [Yaml(1, 1, [], 1), Yaml(1, 4, [], 2)], 2)

  /** The new key `k: v` lands between the two lines, where it ends the block scalar before its text. */
  lemma {:induction false} BlockScalarIsCut()
    ensures var raw := Joined(RUNS_ON); var r := KeyInserted(raw, BLOCK, [107], [118]);
      && InTree(BLOCK.children[1], BLOCK) && OnLines(BLOCK.children[1], raw)
      && r.Some? && Lines(r.value) == [RUNS_ON[0], [107, COLON, SPACE, 118, NEWLINE], RUNS_ON[1], RUNS_ON[2]]
  {
    hide Lines, Joined;
    var raw := Joined(RUNS_ON);
    LinesOfJoined(RUNS_ON);
    assert GreatestLine(BLOCK.children[0]) == 1 && GreatestLine(BLOCK.children[1]) == 1;
    assert GreatestAmong(BLOCK, 1) == 1;
    assert GreatestLine(BLOCK) == 1;
    assert Spaces(0) == [];
    assert KeyLine(1, [107], [118]) == [107, COLON, SPACE, 118, NEWLINE];
    InsertedInsideExactly(raw, BLOCK, [107], [118], BLOCK.children[1]);
  }
}
