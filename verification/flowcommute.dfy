/** The byte insertion commutes with appending an entry to the tree, once and for a whole list of defaults. */
module FlowCommutes {
  import opened Common
  import opened ByteText
  import opened FlowText
  import opened FlowAst

  // --- appending to the tree ----------------------------------------------------------------------------

  /** A key quoted the way the writer quotes it. */
  function KeyUnits(key: Bytes): (units: seq<Unit>)
    ensures |units| == |key|
    ensures forall i :: 0 <= i < |units| ==> WellFormedUnit(units[i])
  {
    seq(|key|, i requires 0 <= i < |key| =>
      if key[i] == DQUOTE || key[i] == BACKSLASH then Escaped(key[i]) else Bare(key[i]))
  }

  function NewCell(lead: Bytes, key: Bytes, value: Flow): Cell {
    Cell(lead, Key(Double(KeyUnits(key)), [], [SPACE]), value, [])
  }

  function Append(cells: Cells, cell: Cell): (r: Cells)
    ensures r.More?
  {
    match cells
    case Empty => More(cell, Empty)
    case More(c, rest) => More(c, Append(rest, cell))
  }

  /** The mapping with one more entry at its end. Its white space before the brace stays before the new key. */
  function Appended(m: Flow, key: Bytes, value: Flow): Flow
    requires m.Collection?
  {
    var lead := if m.cells == Empty then m.pad else if m.trailing then m.pad + [SPACE] else [SPACE];
    Collection(m.curly, Append(m.cells, NewCell(lead, key, value)), false, [])
  }

  /** The entries of a collection without the white space around them. */
  function Entries(cells: Cells): seq<(Option<Flow>, Flow)> {
    match cells
    case Empty => []
    case More(cell, rest) =>
      [(match cell.key case NoKey => None case Key(name, _, _) => Some(name), cell.value)] + Entries(rest)
  }

  lemma {:induction false} EntriesAppend(cells: Cells, cell: Cell)
    requires cell.key.Key?
    ensures Entries(Append(cells, cell)) == Entries(cells) + [(Some(cell.key.name), cell.value)]
  {
    if cells.More? {
      EntriesAppend(cells.rest, cell);
    }
  }

  /** Appending adds exactly one entry, after the ones that are there. */
  lemma {:induction false} AppendedEntries(m: Flow, key: Bytes, value: Flow)
    requires m.Collection?
    ensures Entries(Appended(m, key, value).cells) == Entries(m.cells) + [(Some(Double(KeyUnits(key))), value)]
  {
    var lead := if m.cells == Empty then m.pad else if m.trailing then m.pad + [SPACE] else [SPACE];
    EntriesAppend(m.cells, NewCell(lead, key, value));
  }

  lemma {:induction false} WellFormedAppend(cells: Cells, cell: Cell)
    requires WellFormedCells(cells) && WellFormedCell(cell)
    ensures WellFormedCells(Append(cells, cell))
  {
    if cells.More? {
      WellFormedAppend(cells.rest, cell);
    }
  }

  lemma {:induction false} AppendedIsMapping(m: Flow, key: Bytes, value: Flow)
    requires IsMapping(m) && WellFormed(value)
    ensures IsMapping(Appended(m, key, value))
  {
    var lead := if m.cells == Empty then m.pad else if m.trailing then m.pad + [SPACE] else [SPACE];
    WellFormedAppend(m.cells, NewCell(lead, key, value));
  }

  // --- what appending prints ----------------------------------------------------------------------------

  lemma {:induction false} PrintKeyUnits(key: Bytes)
    ensures PrintUnits(KeyUnits(key)) == EscapeKey(key)
  {
    if key != [] {
      PrintKeyUnits(key[1..]);
      assert KeyUnits(key)[1..] == KeyUnits(key[1..]);
    }
  }

  lemma {:induction false} PrintAppend(cells: Cells, cell: Cell)
    ensures PrintCells(Append(cells, cell))
      == PrintCells(cells) + (if cells == Empty then [] else [COMMA]) + PrintCell(cell)
  {
    hide PrintCell;
    if cells.More? {
      PrintAppend(cells.rest, cell);
    }
  }

  lemma {:induction false} PrintNewCell(lead: Bytes, key: Bytes, value: Flow)
    ensures PrintCell(NewCell(lead, key, value)) == lead + EntryText(key, Print(value))
  {
    PrintKeyUnits(key);
    assert PrintKey(Key(Double(KeyUnits(key)), [], [SPACE])) == [DQUOTE] + EscapeKey(key) + [DQUOTE, COLON, SPACE];
    assert EntryText(key, Print(value)) == [DQUOTE] + EscapeKey(key) + [DQUOTE, COLON, SPACE] + Print(value);
  }

  function NeededSeparator(m: Flow): Bytes
    requires m.Collection?
  {
    if m.cells == Empty then [] else if m.trailing then [SPACE] else [COMMA, SPACE]
  }

  lemma {:induction false} PrintAppended(m: Flow, key: Bytes, value: Flow)
    requires IsMapping(m)
    ensures Inner(Appended(m, key, value)) == Inner(m) + NeededSeparator(m) + EntryText(key, Print(value))
  {
    hide PrintCell, PrintCells, EntryText, Print, Append, WellFormedCells;
    var lead := if m.cells == Empty then m.pad else if m.trailing then m.pad + [SPACE] else [SPACE];
    var entry, cells := EntryText(key, Print(value)), PrintCells(m.cells);
    PrintNewCell(lead, key, value);
    PrintAppend(m.cells, NewCell(lead, key, value));
    Glue(cells, m.pad, entry);
    if m.cells == Empty {
      NothingPrinted();
    }
  }

  lemma {:induction false} Glue(cells: Bytes, pad: Bytes, entry: Bytes)
    ensures cells + [] + (pad + entry) == cells + [] + pad + [] + entry
    ensures cells + [COMMA] + (pad + [SPACE] + entry) == cells + [COMMA] + pad + [SPACE] + entry
    ensures cells + [COMMA] + ([SPACE] + entry) == cells + [] + [] + [COMMA, SPACE] + entry
    ensures forall s: Bytes :: s + [] + [] == s
  {
  }

  lemma {:induction false} NothingPrinted()
    ensures PrintCells(Empty) == []
  {
  }

  // --- the last byte that is not white space ------------------------------------------------------------

  function LastSolidByte(s: Bytes): (b: Option<byte>)
    ensures b == None ==> AllSpace(s)
    ensures b.Some? ==> !AllSpace(s) && b.value in s && !IsFlowSpace(b.value)
  {
    if s == [] then None
    else if IsFlowSpace(s[|s| - 1]) then
      assert forall i :: 0 <= i < |s| - 1 ==> s[i] == s[..|s| - 1][i];
      assert forall i :: 0 <= i < |s| - 1 ==> s[..|s| - 1][i] == s[i];
      LastSolidByte(s[..|s| - 1])
    else Some(s[|s| - 1])
  }

  lemma {:induction false} LastSolidOfBoth(a: Bytes, b: Bytes)
    ensures LastSolidByte(a + b) == if LastSolidByte(b) == None then LastSolidByte(a) else LastSolidByte(b)
    decreases |b|
  {
    if b == [] {
      assert a + b == a;
    } else {
      assert (a + b)[|a + b| - 1] == b[|b| - 1];
      if IsFlowSpace(b[|b| - 1]) {
        assert (a + b)[..|a + b| - 1] == a + b[..|b| - 1];
        LastSolidOfBoth(a, b[..|b| - 1]);
      }
    }
  }

  predicate EndsWithoutComma(s: Bytes) {
    LastSolidByte(s).Some? && LastSolidByte(s).value != COMMA
  }

  lemma {:induction false} ValueEnds(v: Flow)
    requires WellFormed(v) && v != Plain([])
    ensures EndsWithoutComma(Print(v))
  {
    hide Inner, PrintUnits, Doubled, WellFormedCells;
    var t := Print(v);
    assert t != [];
    assert !IsFlowSpace(t[|t| - 1]) && t[|t| - 1] != COMMA;
  }

  lemma {:induction false} CellEnds(cell: Cell)
    requires WellFormedCell(cell)
    ensures EndsWithoutComma(PrintCell(cell))
  {
    hide Print, WellFormed, WellFormedKey;
    var k, v := PrintKey(cell.key), Print(cell.value);
    LastSolidOfBoth(cell.lead, k + (v + cell.trail));
    LastSolidOfBoth(k, v + cell.trail);
    LastSolidOfBoth(v, cell.trail);
    if cell.value != Plain([]) {
      ValueEnds(cell.value);
    } else {
      EmptyPrintsNothing();
      KeyEnds(cell.key);
    }
  }

  lemma {:induction false} EmptyPrintsNothing()
    ensures Print(Plain([])) == [] && LastSolidByte([]) == None
  {
  }

  lemma {:induction false} KeyEnds(key: Key)
    requires key.Key? && WellFormedKey(key)
    ensures EndsWithoutComma(PrintKey(key))
  {
    hide Print, WellFormed;
    var name := Print(key.name);
    LastSolidOfBoth(name, key.gap + [COLON] + key.space);
    LastSolidOfBoth(key.gap + [COLON], key.space);
    assert LastSolidByte(key.gap + [COLON]) == Some(COLON);
  }

  lemma {:induction false} CellsEnd(cells: Cells)
    requires WellFormedCells(cells) && cells.More?
    ensures EndsWithoutComma(PrintCells(cells))
  {
    hide PrintCell, WellFormedCell;
    if cells.rest == Empty {
      CellEnds(cells.cell);
    } else {
      CellsEnd(cells.rest);
      var here, after := PrintCell(cells.cell), PrintCells(cells.rest);
      LastSolidOfBoth(here, [COMMA] + after);
      LastSolidOfBoth([COMMA], after);
    }
  }

  /** Empty, trailing comma or not: the bytes before the closing brace tell which. */
  lemma {:induction false} InsideTells(m: Flow)
    requires IsMapping(m)
    ensures AllSpace(Inner(m)) <==> m.cells == Empty
    ensures m.cells.More? ==> LastSolidByte(Inner(m)).Some? && (LastSolidByte(Inner(m)).value == COMMA <==> m.trailing)
  {
    hide PrintCells, WellFormedCells;
    var cells := PrintCells(m.cells);
    if m.cells == Empty {
      NothingPrinted();
      assert Inner(m) == m.pad;
    } else {
      CellsEnd(m.cells);
      LastSolidOfBoth(cells + Comma(m.trailing), m.pad);
      LastSolidOfBoth(cells, Comma(m.trailing));
      assert m.trailing ==> LastSolidByte([COMMA]) == Some(COMMA);
    }
  }

  lemma {:induction false} LastSolidIs(raw: Bytes, start: nat, last: nat)
    requires start <= last < |raw| && LastSolidByte(raw[start + 1..last + 1]).Some?
    ensures raw[LastSolid(raw, start, last)] == LastSolidByte(raw[start + 1..last + 1]).value
    decreases last
  {
    var s := raw[start + 1..last + 1];
    assert s[|s| - 1] == raw[last];
    if IsFlowSpace(raw[last]) {
      assert s[..|s| - 1] == raw[start + 1..last];
      LastSolidIs(raw, start, last - 1);
    }
  }

  /** The separator read off the bytes is the one the tree needs. */
  lemma {:induction false} SeparatorIsNeeded(raw: Bytes, start: nat, m: Flow)
    requires IsMapping(m) && At(raw, start + 1, Inner(m)) && start + 1 + |Inner(m)| < |raw|
    ensures Separator(raw, start, start + 1 + |Inner(m)|) == NeededSeparator(m)
  {
    hide Inner, WellFormed, SkipSpace, LastSolid, LastSolidByte;
    var end := start + 1 + |Inner(m)|;
    var first := SkipSpace(raw, start + 1, end);
    InsideTells(m);
    assert first < end ==> Inner(m)[first - start - 1] == raw[first];
    assert first >= end ==> forall j :: 0 <= j < |Inner(m)| ==> Inner(m)[j] == raw[start + 1 + j];
    if first < end {
      LastSolidIs(raw, start, end - 1);
    }
  }

  // --- one insertion ------------------------------------------------------------------------------------

  function Text(prefix: Bytes, m: Flow, suffix: Bytes): Bytes { prefix + Print(m) + suffix }

  /** The text edit commutes with the tree edit. */
  lemma {:induction false} InsertCommutes(prefix: Bytes, m: Flow, suffix: Bytes, key: Bytes, value: Flow)
    requires IsMapping(m)
    ensures Inserted(Text(prefix, m, suffix), |prefix|, key, Print(value)) == Some(Text(prefix, Appended(m, key, value), suffix))
  {
    hide Print, Inner, WellFormed, At, EntryText, Separator, NeededSeparator, FlowEnd;
    var raw := Text(prefix, m, suffix);
    var end := |prefix| + 1 + |Inner(m)|;
    BraceFound(prefix, m, suffix);
    PrintedParts(prefix, m, suffix);
    SeparatorIsNeeded(raw, |prefix|, m);
    PrintAppended(m, key, value);
    PrintsBetween(Appended(m, key, value));
    Regroup(prefix, Inner(m), NeededSeparator(m), EntryText(key, Print(value)), suffix);
  }

  lemma {:induction false} Regroup(prefix: Bytes, inside: Bytes, separator: Bytes, entry: Bytes, suffix: Bytes)
    ensures (prefix + [LBRACE] + inside) + separator + entry + ([RBRACE] + suffix)
      == prefix + ([LBRACE] + ((inside + separator + entry) + [RBRACE])) + suffix
  {
  }

  lemma {:induction false} PrintsBetween(m: Flow)
    requires m.Collection? && m.curly
    ensures Print(m) == [LBRACE] + (Inner(m) + [RBRACE]) && |Print(m)| == |Inner(m)| + 2
  {
    hide Inner;
  }

  lemma {:induction false} PrintedParts(prefix: Bytes, m: Flow, suffix: Bytes)
    requires m.Collection? && m.curly
    ensures var raw := Text(prefix, m, suffix); var end := |prefix| + 1 + |Inner(m)|;
      && end < |raw| && raw[|prefix|] == LBRACE && At(raw, |prefix| + 1, Inner(m)) && |Print(m)| == |Inner(m)| + 2
      && raw[..end] == prefix + [LBRACE] + Inner(m) && raw[end..] == [RBRACE] + suffix
  {
    hide Print, Inner;
    PrintsBetween(m);
  }

  // --- a list of defaults -------------------------------------------------------------------------------

  /** A default whose literal is a printed value. */
  datatype Wanted = Wanted(key: Bytes, value: Flow) {
    function AsDefault(): Default { Default(key, Print(value)) }
  }

  function AsDefaults(ws: seq<Wanted>): (ds: seq<Default>)
    ensures |ds| == |ws| && forall i :: 0 <= i < |ws| ==> ds[i] == ws[i].AsDefault()
  {
    seq(|ws|, i requires 0 <= i < |ws| => ws[i].AsDefault())
  }

  /** The names of a mapping's keys, each key read by the YAML parser. */
  function Names(cells: Cells, read: Flow -> Bytes): set<Bytes> {
    match cells
    case Empty => {}
    case More(cell, rest) => (match cell.key case NoKey => {} case Key(name, _, _) => {read(name)}) + Names(rest, read)
  }

  lemma {:induction false} NamesAppend(cells: Cells, cell: Cell, read: Flow -> Bytes)
    requires cell.key.Key?
    ensures Names(Append(cells, cell), read) == Names(cells, read) + {read(cell.key.name)}
  {
    if cells.More? {
      NamesAppend(cells.rest, cell, read);
    }
  }

  /** The parser reads a key the writer quoted as the bytes that were quoted. */
  ghost predicate ReadsQuoted(read: Flow -> Bytes) {
    forall key :: read(Double(KeyUnits(key))) == key
  }

  predicate IsMissing(w: Wanted, m: Flow, read: Flow -> Bytes)
    requires m.Collection?
  {
    !w.AsDefault().Skipped() && w.AsDefault().Name() !in Names(m.cells, read)
  }

  /** The mapping with the missing defaults appended in order. */
  function Completed(m: Flow, ws: seq<Wanted>, read: Flow -> Bytes): (r: Flow)
    requires m.Collection?
    ensures r.Collection?
  {
    if ws == [] then m else
      var w := ws[|ws| - 1];
      var before := Completed(m, ws[..|ws| - 1], read);
      if IsMissing(w, before, read) then Appended(before, w.AsDefault().Name(), w.value) else before
  }

  lemma {:induction false} CompletedIsMapping(m: Flow, ws: seq<Wanted>, read: Flow -> Bytes)
    requires IsMapping(m) && forall i :: 0 <= i < |ws| ==> WellFormed(ws[i].value)
    ensures IsMapping(Completed(m, ws, read))
  {
    hide WellFormed;
    if ws != [] {
      CompletedIsMapping(m, ws[..|ws| - 1], read);
      var before := Completed(m, ws[..|ws| - 1], read);
      AppendedIsMapping(before, ws[|ws| - 1].AsDefault().Name(), ws[|ws| - 1].value);
    }
  }

  lemma {:induction false} AppendedNames(m: Flow, key: Bytes, value: Flow, read: Flow -> Bytes)
    requires m.Collection? && ReadsQuoted(read)
    ensures Names(Appended(m, key, value).cells, read) == Names(m.cells, read) + {key}
  {
    var lead := if m.cells == Empty then m.pad else if m.trailing then m.pad + [SPACE] else [SPACE];
    NamesAppend(m.cells, NewCell(lead, key, value), read);
  }

  /** Every default is there in the end, nothing that was there moved, and only missing defaults were added. */
  lemma {:induction false} CompletedKeeps(m: Flow, ws: seq<Wanted>, read: Flow -> Bytes)
    requires m.Collection? && ReadsQuoted(read)
    ensures Entries(m.cells) <= Entries(Completed(m, ws, read).cells)
    ensures Names(m.cells, read) <= Names(Completed(m, ws, read).cells, read)
    ensures forall i :: 0 <= i < |ws| ==> !IsMissing(ws[i], Completed(m, ws, read), read)
    ensures Completed(m, ws, read) == m || exists i :: 0 <= i < |ws| && IsMissing(ws[i], m, read)
  {
    hide Entries, Names, Appended, ReadsQuoted;
    if ws != [] {
      var n := |ws| - 1;
      var before := Completed(m, ws[..n], read);
      CompletedKeeps(m, ws[..n], read);
      AppendedEntries(before, ws[n].AsDefault().Name(), ws[n].value);
      AppendedNames(before, ws[n].AsDefault().Name(), ws[n].value, read);
      assert forall i :: 0 <= i < n ==> ws[..n][i] == ws[i];
      assert before != m ==> exists i :: 0 <= i < n && IsMissing(ws[..n][i], m, read) && IsMissing(ws[i], m, read);
    }
  }

  /** Filling a complete mapping changes nothing. */
  lemma {:induction false} CompletedTwice(m: Flow, ws: seq<Wanted>, read: Flow -> Bytes)
    requires m.Collection? && forall i :: 0 <= i < |ws| ==> !IsMissing(ws[i], m, read)
    ensures Completed(m, ws, read) == m
  {
    hide IsMissing;
    if ws != [] {
      CompletedTwice(m, ws[..|ws| - 1], read);
    }
  }

  /** The parser finds the mapping where it stands and reads its keys. */
  ghost predicate Finds(parse: Bytes -> Option<Node>, prefix: Bytes, m: Flow, suffix: Bytes, read: Flow -> Bytes)
    requires m.Collection?
  {
    match parse(Text(prefix, m, suffix))
    case Some(FlowNode(line, column, keys)) =>
      keys == Names(m.cells, read) && OffsetAt(Text(prefix, m, suffix), line, column) == Some(|prefix|)
    case _ => false
  }

  /**
   The whole loop, for every nested flow mapping and every list of defaults: as long as the parser is right
   about each text it is shown, the result is the text with the missing entries appended to the tree in order.
   */
  lemma {:induction false} FillCommutes(prefix: Bytes, m: Flow, suffix: Bytes, ws: seq<Wanted>,
                                        parse: Bytes -> Option<Node>, read: Flow -> Bytes)
    requires IsMapping(m) && forall i :: 0 <= i < |ws| ==> WellFormed(ws[i].value)
    requires forall n :: 0 <= n <= |ws| ==> Finds(parse, prefix, Completed(m, ws[..n], read), suffix, read)
    ensures FillTo(Text(prefix, m, suffix), parse, AsDefaults(ws))
      == Filled(Text(prefix, Completed(m, ws, read), suffix), Completed(m, ws, read) != m)
    decreases |ws|
  {
    hide WellFormed, Text, Names, Inserted, OffsetAt, Print;
    if ws == [] {
      assert ws[..0] == [];
    } else {
      var n := |ws| - 1;
      assert ws[..n][..n] == ws[..n];
      forall k | 0 <= k <= n
        ensures Finds(parse, prefix, Completed(m, ws[..n][..k], read), suffix, read)
      {
        assert ws[..n][..k] == ws[..k];
      }
      FillCommutes(prefix, m, suffix, ws[..n], parse, read);
      assert AsDefaults(ws)[..n] == AsDefaults(ws[..n]);
      var before := Completed(m, ws[..n], read);
      CompletedIsMapping(m, ws[..n], read);
      InsertCommutes(prefix, before, suffix, ws[n].AsDefault().Name(), ws[n].value);
      GrowsOnly(m, ws[..n], read);
      LongerIsNot(m, before, ws[n].AsDefault().Name(), ws[n].value);
    }
  }

  function Size(cells: Cells): nat { if cells == Empty then 0 else 1 + Size(cells.rest) }

  lemma {:induction false} SizeAppend(cells: Cells, cell: Cell)
    ensures Size(Append(cells, cell)) == Size(cells) + 1
  {
    if cells.More? {
      SizeAppend(cells.rest, cell);
    }
  }

  lemma {:induction false} GrowsOnly(m: Flow, ws: seq<Wanted>, read: Flow -> Bytes)
    requires m.Collection?
    ensures Size(Completed(m, ws, read).cells) >= Size(m.cells)
  {
    hide IsMissing;
    if ws != [] {
      GrowsOnly(m, ws[..|ws| - 1], read);
      var before := Completed(m, ws[..|ws| - 1], read);
      var lead := if before.cells == Empty then before.pad else if before.trailing then before.pad + [SPACE] else [SPACE];
      SizeAppend(before.cells, NewCell(lead, ws[|ws| - 1].AsDefault().Name(), ws[|ws| - 1].value));
    }
  }

  lemma {:induction false} LongerIsNot(m: Flow, before: Flow, key: Bytes, value: Flow)
    requires m.Collection? && before.Collection? && Size(before.cells) >= Size(m.cells)
    ensures Appended(before, key, value) != m
  {
    var lead := if before.cells == Empty then before.pad else if before.trailing then before.pad + [SPACE] else [SPACE];
    SizeAppend(before.cells, NewCell(lead, key, value));
  }

  /** Running the fill on its own result leaves the file alone. */
  lemma {:induction false} FillIsIdempotent(prefix: Bytes, m: Flow, suffix: Bytes, ws: seq<Wanted>,
                                            parse: Bytes -> Option<Node>, read: Flow -> Bytes)
    requires IsMapping(m) && ReadsQuoted(read) && forall i :: 0 <= i < |ws| ==> WellFormed(ws[i].value)
    requires Finds(parse, prefix, Completed(m, ws, read), suffix, read)
    ensures FillTo(Text(prefix, Completed(m, ws, read), suffix), parse, AsDefaults(ws))
      == Filled(Text(prefix, Completed(m, ws, read), suffix), false)
  {
    hide WellFormed, Text, IsMissing, Finds, FillTo, ReadsQuoted;
    var done := Completed(m, ws, read);
    CompletedKeeps(m, ws, read);
    CompletedIsMapping(m, ws, read);
    forall n | 0 <= n <= |ws|
      ensures Completed(done, ws[..n], read) == done
    {
      CompletedTwice(done, ws[..n], read);
    }
    assert ws[..|ws|] == ws;
    FillCommutes(prefix, done, suffix, ws, parse, read);
  }
}
