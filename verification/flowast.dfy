/**
 Flow values as trees and how they print, after sections 7.3.1 (double-quoted scalars), 7.3.2 (single-quoted
 scalars) and 7.4 (flow collections) of YAML 1.2.2, and the proof that the byte scanner of FlowText stops at
 the printer's own last byte.
 */
module FlowAst {
  import opened ByteText
  import opened FlowText
  import opened FlowModes

  /** One unit of a double-quoted scalar: a byte as it stands, or a byte after a backslash. */
  datatype Unit = Bare(b: byte) | Escaped(b: byte)

  datatype Flow =
    | Plain(text: Bytes)
    | Double(units: seq<Unit>)
    | Single(text: Bytes)
    | Collection(curly: bool, cells: Cells, trailing: bool, pad: Bytes)

  /** An element of a collection with the white space around it; the cells of one collection as a list. */
  datatype Cell = Cell(lead: Bytes, key: Key, value: Flow, trail: Bytes)

  datatype Key = NoKey | Key(name: Flow, gap: Bytes, space: Bytes)

  datatype Cells = Empty | More(cell: Cell, rest: Cells)

  // --- printing -----------------------------------------------------------------------------------------

  function PrintUnits(units: seq<Unit>): Bytes {
    if units == [] then [] else
      (match units[0] case Bare(b) => [b] case Escaped(b) => [BACKSLASH, b]) + PrintUnits(units[1..])
  }

  /** The text of a single-quoted scalar: each quote in it is written twice. */
  function Doubled(text: Bytes): Bytes {
    if text == [] then [] else (if text[0] == SQUOTE then [SQUOTE, SQUOTE] else [text[0]]) + Doubled(text[1..])
  }

  function Print(v: Flow): Bytes {
    match v
    case Plain(text) => text
    case Double(units) => [DQUOTE] + (PrintUnits(units) + [DQUOTE])
    case Single(text) => [SQUOTE] + (Doubled(text) + [SQUOTE])
    case Collection(curly, cells, trailing, pad) => [Opening(curly)] + (Inner(v) + [Closing(curly)])
  }

  /** What stands between the brackets. */
  function Inner(v: Flow): Bytes
    requires v.Collection?
    decreases v, 0
  {
    PrintCells(v.cells) + Comma(v.trailing) + v.pad
  }

  function Opening(curly: bool): byte { if curly then LBRACE else LBRACKET }

  function Closing(curly: bool): byte { if curly then RBRACE else RBRACKET }

  function Comma(present: bool): Bytes { if present then [COMMA] else [] }

  function PrintKey(key: Key): Bytes {
    match key
    case NoKey => []
    case Key(name, gap, space) => Print(name) + (gap + [COLON] + space)
  }

  function PrintCell(cell: Cell): Bytes {
    cell.lead + (PrintKey(cell.key) + (Print(cell.value) + cell.trail))
  }

  function PrintCells(cells: Cells): Bytes {
    match cells
    case Empty => []
    case More(cell, rest) => if rest == Empty then PrintCell(cell) else PrintCell(cell) + ([COMMA] + PrintCells(rest))
  }

  // --- well-formed values -------------------------------------------------------------------------------

  predicate SolidEnds(s: Bytes) {
    s != [] ==> !IsFlowSpace(s[0]) && !IsFlowSpace(s[|s| - 1])
  }

  predicate WellFormedUnit(u: Unit) { u.Bare? ==> u.b != DQUOTE && u.b != BACKSLASH }

  /**
   The values the theorems range over: plain scalars hold no bracket or comma, close each quote they open and do
   not start or end with white space; an element without a key is not empty; white space is white space. There
   are no comments.
   */
  predicate WellFormed(v: Flow) {
    match v
    case Plain(text) => NoBrackets(text) && QuotesClose(text) && COMMA !in text && SolidEnds(text)
    case Double(units) => forall i :: 0 <= i < |units| ==> WellFormedUnit(units[i])
    case Single(_) => true
    case Collection(_, cells, trailing, pad) =>
      && WellFormedCells(cells) && AllSpace(pad)
      && (if cells == Empty then !trailing else trailing || pad == [])
  }

  predicate WellFormedKey(key: Key) {
    key.Key? ==> WellFormed(key.name) && AllSpace(key.gap) && AllSpace(key.space)
  }

  predicate WellFormedCell(cell: Cell) {
    && AllSpace(cell.lead) && AllSpace(cell.trail) && WellFormedKey(cell.key) && WellFormed(cell.value)
    && (cell.key.NoKey? ==> cell.value != Plain([]))
  }

  predicate WellFormedCells(cells: Cells) {
    cells.More? ==> WellFormedCell(cells.cell) && WellFormedCells(cells.rest)
  }

  predicate IsMapping(v: Flow) { v.Collection? && v.curly && WellFormed(v) }

  // --- where a text stands ------------------------------------------------------------------------------

  predicate At(raw: Bytes, i: nat, t: Bytes) { i + |t| <= |raw| && raw[i..i + |t|] == t }

  lemma {:induction false} AtSplit(raw: Bytes, i: nat, a: Bytes, b: Bytes)
    ensures At(raw, i, a + b) <==> At(raw, i, a) && At(raw, i + |a|, b)
  {
    if At(raw, i, a + b) {
      assert raw[i..i + |a|] == raw[i..i + |a + b|][..|a|];
      assert raw[i + |a|..i + |a| + |b|] == raw[i..i + |a + b|][|a|..];
    }
    if At(raw, i, a) && At(raw, i + |a|, b) {
      assert raw[i..i + |a + b|] == raw[i..i + |a|] + raw[i + |a|..i + |a| + |b|];
    }
  }

  lemma {:induction false} AtByte(raw: Bytes, i: nat, b: byte)
    ensures At(raw, i, [b]) <==> i < |raw| && raw[i] == b
  {
    assert i < |raw| ==> raw[i..i + 1] == [raw[i]];
  }

  /** What follows is not a quote that would join a single-quoted scalar. */
  predicate Apart(raw: Bytes, i: nat) { i < |raw| ==> raw[i] != SQUOTE }

  // --- where a quoted scalar ends -----------------------------------------------------------------------

  lemma {:induction false} DoubleEnds(raw: Bytes, i: nat, units: seq<Unit>)
    requires At(raw, i, PrintUnits(units) + [DQUOTE]) && forall k :: 0 <= k < |units| ==> WellFormedUnit(units[k])
    ensures QuoteEnd(raw, i, DQUOTE) == i + |PrintUnits(units)|
    decreases |units|
  {
    if units == [] {
      AtByte(raw, i, DQUOTE);
      assert PrintUnits(units) + [DQUOTE] == [DQUOTE];
    } else {
      var head := match units[0] case Bare(b) => [b] case Escaped(b) => [BACKSLASH, b];
      assert PrintUnits(units) + [DQUOTE] == head + (PrintUnits(units[1..]) + [DQUOTE]);
      AtSplit(raw, i, head, PrintUnits(units[1..]) + [DQUOTE]);
      assert raw[i] == raw[i..i + |head|][0] == head[0];
      DoubleEnds(raw, i + |head|, units[1..]);
    }
  }

  lemma {:induction false} SingleEnds(raw: Bytes, i: nat, text: Bytes)
    requires At(raw, i, Doubled(text) + [SQUOTE]) && Apart(raw, i + |Doubled(text)| + 1)
    ensures QuoteEnd(raw, i, SQUOTE) == i + |Doubled(text)|
    decreases |text|
  {
    if text == [] {
      AtByte(raw, i, SQUOTE);
      assert Doubled(text) + [SQUOTE] == [SQUOTE];
    } else {
      var head := if text[0] == SQUOTE then [SQUOTE, SQUOTE] else [text[0]];
      assert Doubled(text) + [SQUOTE] == head + (Doubled(text[1..]) + [SQUOTE]);
      AtSplit(raw, i, head, Doubled(text[1..]) + [SQUOTE]);
      assert raw[i] == raw[i..i + |head|][0] == head[0];
      assert |head| == 2 ==> raw[i + 1] == raw[i..i + |head|][1];
      SingleEnds(raw, i + |head|, text[1..]);
    }
  }

  // --- the scanner comes out of a printed value where it went in ----------------------------------------

  /** Text that leaves the depth alone and ends outside every quote. */
  predicate Passes(s: Bytes, mode: Mode, depth: int) {
    var r := Scanned(s, mode, depth);
    r.Passed? && Out(r.mode) && r.depth == depth
  }

  /** Text without quotes and brackets; behind any of it no single-quoted scalar can be continued. */
  predicate Quiet(s: Bytes) { NoQuotes(s) && NoBrackets(s) }

  lemma {:induction false} QuietPasses(s: Bytes, mode: Mode, depth: int)
    requires Quiet(s) && Out(mode)
    ensures Scanned(s, mode, depth) == Passed(if s == [] then mode else Outside, depth)
  {
    if s != [] {
      assert s[0] in s && forall b :: b in s[1..] ==> b in s;
      QuietPasses(s[1..], Outside, depth);
    }
  }

  lemma {:induction false} SpaceIsQuiet(s: Bytes)
    requires AllSpace(s)
    ensures Quiet(s)
  {
  }

  lemma {:induction false} UnitsPass(units: seq<Unit>, depth: int)
    requires forall i :: 0 <= i < |units| ==> WellFormedUnit(units[i])
    ensures Scanned(PrintUnits(units), InDouble, depth) == Passed(InDouble, depth)
  {
    if units != [] {
      var head := match units[0] case Bare(b) => [b] case Escaped(b) => [BACKSLASH, b];
      ScannedPlus(head, PrintUnits(units[1..]), InDouble, depth);
      assert |head| == 2 ==> head[1..] == [head[1]] && head[1..][1..] == [];
      assert |head| == 1 ==> head[1..] == [];
      UnitsPass(units[1..], depth);
    }
  }

  lemma {:induction false} DoubledPasses(text: Bytes, depth: int)
    ensures Scanned(Doubled(text), InSingle, depth) == Passed(InSingle, depth)
  {
    if text != [] {
      var head := if text[0] == SQUOTE then [SQUOTE, SQUOTE] else [text[0]];
      ScannedPlus(head, Doubled(text[1..]), InSingle, depth);
      assert |head| == 2 ==> head[1..] == [head[1]] && head[1..][1..] == [];
      assert |head| == 1 ==> head[1..] == [];
      DoubledPasses(text[1..], depth);
    }
  }

  lemma {:induction false} OneByte(b: byte, mode: Mode, depth: int)
    ensures Scanned([b], mode, depth) ==
      if Closes(mode, b, depth) then Stopped else Passed(Turn(mode, b), Deeper(mode, b, depth))
  {
    assert [b][1..] == [];
  }

  /** A quoted scalar, its body passed inside the quotes. */
  lemma {:induction false} QuotedPasses(body: Bytes, quote: byte, depth: int)
    requires (quote == DQUOTE && Scanned(body, InDouble, depth) == Passed(InDouble, depth))
      || (quote == SQUOTE && Scanned(body, InSingle, depth) == Passed(InSingle, depth))
    ensures Passes([quote] + (body + [quote]), Outside, depth)
  {
    hide Scanned;
    ScannedPlus([quote], body + [quote], Outside, depth);
    ScannedPlus(body, [quote], Inside(quote), depth);
    OneByte(quote, Outside, depth);
    OneByte(quote, Inside(quote), depth);
  }

  /** A printed value inside some bracket leaves the scanner behind it at the same depth. */
  lemma {:induction false} ValuePasses(v: Flow, d: int)
    requires WellFormed(v) && d >= 1
    ensures Passes(Print(v), Outside, d)
    decreases v, 1
  {
    hide Scanned, PrintCells, Passes;
    match v
    case Plain(text) => PlainPasses(text, d);
    case Double(units) =>
      UnitsPass(units, d);
      QuotedPasses(PrintUnits(units), DQUOTE, d);
    case Single(text) =>
      DoubledPasses(text, d);
      QuotedPasses(Doubled(text), SQUOTE, d);
    case Collection(curly, _, _, _) =>
      InsidePasses(v, d + 1);
      BracketedPasses(Inner(v), curly, d);
  }

  lemma {:induction false} PlainPasses(text: Bytes, d: int)
    requires NoBrackets(text) && QuotesClose(text)
    ensures Passes(text, Outside, d)
  {
    ScannedNoBrackets(text, Outside, d);
  }

  lemma {:induction false} BracketedPasses(inner: Bytes, curly: bool, d: int)
    requires d >= 1 && Passes(inner, Outside, d + 1)
    ensures Passes([Opening(curly)] + (inner + [Closing(curly)]), Outside, d)
  {
    hide Scanned;
    ScannedPlus([Opening(curly)], inner + [Closing(curly)], Outside, d);
    ScannedPlus(inner, [Closing(curly)], Outside, d + 1);
    OneByte(Opening(curly), Outside, d);
    OneByte(Closing(curly), Scanned(inner, Outside, d + 1).mode, d + 1);
  }

  /** The contents of a collection. */
  lemma {:induction false} InsidePasses(v: Flow, d: int)
    requires v.Collection? && WellFormed(v) && d >= 1
    ensures Passes(Inner(v), Outside, d)
    decreases v, 0
  {
    hide Scanned, PrintCells, WellFormedCells;
    var tail := Comma(v.trailing) + v.pad;
    SpaceIsQuiet(v.pad);
    assert PrintCells(v.cells) + Comma(v.trailing) + v.pad == PrintCells(v.cells) + tail;
    CellsPass(v.cells, d);
    ThenQuiet(PrintCells(v.cells), tail, d);
  }

  /** Quiet text behind text that passes; after a byte of it nothing is pending. */
  lemma {:induction false} ThenQuiet(s: Bytes, quiet: Bytes, d: int)
    requires Passes(s, Outside, d) && Quiet(quiet)
    ensures Passes(s + quiet, Outside, d)
    ensures quiet != [] ==> Scanned(s + quiet, Outside, d) == Passed(Outside, d)
  {
    hide Scanned;
    ScannedPlus(s, quiet, Outside, d);
    QuietPasses(quiet, Scanned(s, Outside, d).mode, d);
  }

  /** Text that passes behind text with nothing pending. */
  lemma {:induction false} ThenPasses(s: Bytes, t: Bytes, d: int)
    requires Scanned(s, Outside, d) == Passed(Outside, d) && Passes(t, Outside, d)
    ensures Passes(s + t, Outside, d)
  {
    ScannedPlus(s, t, Outside, d);
  }

  lemma {:induction false} CellsPass(cells: Cells, d: int)
    requires WellFormedCells(cells) && d >= 1
    ensures Passes(PrintCells(cells), Outside, d)
    decreases cells, 1
  {
    hide Scanned, PrintCell, WellFormedCell, Passes;
    match cells
    case Empty => NothingPasses(d);
    case More(cell, rest) =>
      CellPasses(cell, d);
      if rest != Empty {
        CellsPass(rest, d);
        ThenQuiet(PrintCell(cell), [COMMA], d);
        ThenPasses(PrintCell(cell) + [COMMA], PrintCells(rest), d);
        assert PrintCell(cell) + [COMMA] + PrintCells(rest) == PrintCell(cell) + ([COMMA] + PrintCells(rest));
      }
  }

  lemma {:induction false} NothingPasses(d: int)
    ensures Passes([], Outside, d)
  {
  }

  lemma {:induction false} CellPasses(cell: Cell, d: int)
    requires WellFormedCell(cell) && d >= 1
    ensures Passes(PrintCell(cell), Outside, d)
    decreases cell, 1
  {
    hide Scanned, Print, PrintKey, WellFormed, WellFormedKey, AllSpace, Passes, Quiet;
    SpaceIsQuiet(cell.lead);
    SpaceIsQuiet(cell.trail);
    QuietPasses(cell.lead, Outside, d);
    KeyPasses(cell.key, d);
    ValuePasses(cell.value, d);
    ScannedPlus(cell.lead, PrintKey(cell.key), Outside, d);
    ThenPasses(cell.lead + PrintKey(cell.key), Print(cell.value), d);
    ThenQuiet(cell.lead + PrintKey(cell.key) + Print(cell.value), cell.trail, d);
    assert PrintCell(cell) == cell.lead + PrintKey(cell.key) + Print(cell.value) + cell.trail;
  }

  /** A key with its colon: nothing is pending behind it. */
  lemma {:induction false} KeyPasses(key: Key, d: int)
    requires WellFormedKey(key) && d >= 1
    ensures Scanned(PrintKey(key), Outside, d) == Passed(Outside, d)
    decreases key, 1
  {
    hide Scanned, Print, WellFormed, AllSpace, Passes;
    match key
    case NoKey => QuietPasses([], Outside, d);
    case Key(name, gap, space) =>
      SpaceIsQuiet(gap);
      SpaceIsQuiet(space);
      ValuePasses(name, d);
      ThenQuiet(Print(name), gap + [COLON] + space, d);
  }

  /** The scanner finds the printer's own last byte, whatever stands before and after the mapping. */
  lemma {:induction false} BraceFound(prefix: Bytes, m: Flow, suffix: Bytes)
    requires IsMapping(m)
    ensures FlowEnd(prefix + Print(m) + suffix, |prefix|, 0) == |prefix| + |Print(m)| - 1
  {
    hide Scanned, Inner, FlowEnd, WellFormed;
    InsidePasses(m, 1);
    BraceFoundExactly(prefix, Inner(m), suffix);
    assert Print(m) == Braced(Inner(m));
  }
}
