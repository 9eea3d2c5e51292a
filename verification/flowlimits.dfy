/** Mappings outside the trees: plain scalars that leave a quote open, and comments. Exactly when their brace is found. */
module FlowLimits {
  import opened Common
  import opened ByteText
  import opened FlowText
  import opened FlowModes
  import opened FlowAst

  // --- quotes in plain scalars --------------------------------------------------------------------------

  predicate IsPlain(v: Flow) { v.Plain? && NoBrackets(v.text) }

  /** Plain scalars only, with quotes wherever they like and no nested collection. */
  predicate AllPlain(cells: Cells) {
    cells.More? ==>
      && AllSpace(cells.cell.lead) && AllSpace(cells.cell.trail) && IsPlain(cells.cell.value)
      && (cells.cell.key.Key? ==> IsPlain(cells.cell.key.name) && AllSpace(cells.cell.key.gap) && AllSpace(cells.cell.key.space))
      && AllPlain(cells.rest)
  }

  lemma {:induction false} PlainCellHasNoBrackets(cells: Cells)
    requires AllPlain(cells) && cells.More?
    ensures NoBrackets(PrintCell(cells.cell))
  {
    var cell := cells.cell;
    var k := PrintKey(cell.key);
    assert NoBrackets(k) by {
      if cell.key.Key? {
        assert Print(cell.key.name) == cell.key.name.text;
        assert k == cell.key.name.text + (cell.key.gap + [COLON] + cell.key.space);
      }
    }
    assert PrintCell(cell) == cell.lead + (k + (cell.value.text + cell.trail));
  }

  lemma {:induction false} PlainCellsHaveNoBrackets(cells: Cells)
    requires AllPlain(cells)
    ensures NoBrackets(PrintCells(cells))
  {
    hide PrintCell;
    if cells.More? {
      PlainCellHasNoBrackets(cells);
      PlainCellsHaveNoBrackets(cells.rest);
    }
  }

  /**
   For a mapping of plain scalars the brace found is the printer's last byte if and only if the quotes in them,
   read one after another through the whole mapping, are all closed before it.
   */
  lemma {:induction false} PlainQuotesExactly(prefix: Bytes, m: Flow, suffix: Bytes)
    requires m.Collection? && m.curly && AllPlain(m.cells) && AllSpace(m.pad)
    ensures FlowEnd(prefix + Print(m) + suffix, |prefix|, 0) == |prefix| + |Print(m)| - 1 <==> QuotesClose(Inner(m))
  {
    hide FlowEnd, Scanned, ModeAfter, PrintCells, AllPlain;
    PlainCellsHaveNoBrackets(m.cells);
    assert NoBrackets(Inner(m));
    ScannedNoBrackets(Inner(m), Outside, 1);
    BraceFoundExactly(prefix, Inner(m), suffix);
    assert Print(m) == Braced(Inner(m));
  }

  lemma {:induction false} ModePlus(a: Bytes, b: Bytes, mode: Mode)
    ensures ModeAfter(a + b, mode) == ModeAfter(b, ModeAfter(a, mode))
    decreases |a|
  {
    if a == [] {
      assert a + b == b;
    } else {
      assert (a + b)[0] == a[0] && (a + b)[1..] == a[1..] + b;
      ModePlus(a[1..], b, Turn(mode, a[0]));
    }
  }

  /** `{key: text}` */
  function OneEntry(key: Bytes, text: Bytes): Flow {
    Collection(true, More(Cell([], Key(Plain(key), [], [SPACE]), Plain(text), []), Empty), false, [])
  }

  /** With one scalar that holds quotes, exactly its own quotes must close. */
  lemma {:induction false} OnePlainQuotedExactly(prefix: Bytes, key: Bytes, text: Bytes, suffix: Bytes)
    requires Quiet(key) && NoBrackets(text)
    ensures var m := OneEntry(key, text);
      FlowEnd(prefix + Print(m) + suffix, |prefix|, 0) == |prefix| + |Print(m)| - 1 <==> QuotesClose(text)
  {
    hide FlowEnd, ModeAfter;
    var m := OneEntry(key, text);
    var head := key + [COLON, SPACE];
    PlainQuotesExactly(prefix, m, suffix);
    var cell := m.cells.cell;
    assert PrintKey(cell.key) == key + ([] + [COLON] + [SPACE]) == head;
    assert PrintCell(cell) == [] + (head + (text + [])) == head + text;
    assert Inner(m) == PrintCell(cell) + [] + [] == head + text;
    assert Quiet(head) && NoBrackets(head);
    QuietPasses(head, Outside, 1);
    ScannedNoBrackets(head, Outside, 1);
    ModePlus(head, text, Outside);
  }

  /** `it's` leaves its quote open, `it's that's` does not. */
  lemma {:induction false} ApostropheHidesTheBrace()
    ensures !QuotesClose([105, 116, SQUOTE, 115])
    ensures QuotesClose([105, 116, SQUOTE, 115, SPACE, 116, SQUOTE, 115])
  {
    var s: Bytes := [105, 116, SQUOTE, 115];
    var t: Bytes := [SPACE, 116, SQUOTE, 115];
    assert s[1..] == [116, SQUOTE, 115] && s[2..] == [SQUOTE, 115] && s[3..] == [115] && s[4..] == [];
    assert s[1..][1..] == s[2..] && s[2..][1..] == s[3..] && s[3..][1..] == s[4..];
    assert ModeAfter(s[3..], InSingle) == InSingle;
    assert ModeAfter(s[2..], Outside) == InSingle;
    assert ModeAfter(s, Outside) == InSingle;
    assert t[1..][1..] == t[2..] && t[2..][1..] == t[3..] && t[3..][1..] == [];
    assert ModeAfter(t[3..], AfterSingle) == Outside;
    assert ModeAfter(t[2..], InSingle) == Outside;
    assert ModeAfter(t, InSingle) == Outside;
    ModePlus(s, t, Outside);
    assert s + t == [105, 116, SQUOTE, 115, SPACE, 116, SQUOTE, 115];
  }

  // --- comments -----------------------------------------------------------------------------------------

  /**
   With a comment before the closing brace the brace found is the mapping's own if and only if no brace in the
   comment brings the depth to nothing and the comment leaves no bracket open. (A comment with quotes falls under
   FlowModes.BraceFoundExactly.)
   */
  lemma {:induction false} CommentExactly(prefix: Bytes, m: Flow, comment: Bytes, suffix: Bytes)
    requires IsMapping(m) && NoQuotes(comment)
    ensures var inside, depth := Inner(m) + comment, BracketDepth(comment, 1);
      FlowEnd(prefix + Braced(inside) + suffix, |prefix|, 0) == |prefix| + 1 + |inside| <==> depth != None && depth.value <= 1
  {
    hide FlowEnd, Scanned, Inner, WellFormed, BracketDepth, NoQuotes;
    InsidePasses(m, 1);
    ScannedPlus(Inner(m), comment, Outside, 1);
    ScannedNoQuotes(comment, Scanned(Inner(m), Outside, 1).mode, 1);
    BraceFoundExactly(prefix, Inner(m) + comment, suffix);
  }

  /** ` # }` and a line feed: the comment's brace is taken for the mapping's. */
  lemma {:induction false} BraceInCommentEndsEarly()
    ensures BracketDepth([SPACE, HASH, SPACE, RBRACE, NEWLINE], 1) == None && NoQuotes([SPACE, HASH, SPACE, RBRACE, NEWLINE])
  {
    var c: Bytes := [SPACE, HASH, SPACE, RBRACE, NEWLINE];
    assert c[1..][1..] == c[2..] && c[2..][1..] == c[3..];
    assert BracketDepth(c[3..], 1) == None;
    assert BracketDepth(c[2..], 1) == None;
  }
}
