/**
 The brace matcher one byte at a time: a mode that says whether the scan is inside a quoted scalar, and a depth.
 The loop of FlowText that jumps over quoted scalars is proved equal to it, and so the brace it finds is the
 mapping's own under an exact condition on the bytes between the two braces, whatever they are.
 */
module FlowModes {
  import opened Common
  import opened ByteText
  import opened FlowText

  /** `AfterSingle` is just behind a quote that closes a single-quoted scalar unless another quote follows. */
  datatype Mode = Outside | InDouble | AfterBackslash | InSingle | AfterSingle

  predicate Out(mode: Mode) { mode == Outside || mode == AfterSingle }

  function Turn(mode: Mode, b: byte): Mode {
    match mode
    case InDouble => if b == BACKSLASH then AfterBackslash else if b == DQUOTE then Outside else InDouble
    case AfterBackslash => InDouble
    case InSingle => if b == SQUOTE then AfterSingle else InSingle
    case _ => if b == SQUOTE then InSingle else if b == DQUOTE then InDouble else Outside
  }

  function Deeper(mode: Mode, b: byte, depth: int): int {
    if !Out(mode) then depth
    else if b == LBRACE || b == LBRACKET then depth + 1
    else if b == RBRACE || b == RBRACKET then depth - 1
    else depth
  }

  /** The byte closes the mapping that is being scanned. */
  predicate Closes(mode: Mode, b: byte, depth: int) { Out(mode) && b == RBRACE && depth - 1 <= 0 }

  /** What scanning a piece of text comes to: a brace in it closes the mapping, or it is passed. */
  datatype Scan = Stopped | Passed(mode: Mode, depth: int)

  function Scanned(s: Bytes, mode: Mode, depth: int): Scan {
    if s == [] then Passed(mode, depth)
    else if Closes(mode, s[0], depth) then Stopped
    else Scanned(s[1..], Turn(mode, s[0]), Deeper(mode, s[0], depth))
  }

  function Find(raw: Bytes, index: nat, mode: Mode, depth: int): int
    decreases |raw| - index
  {
    if index >= |raw| then -1
    else if Closes(mode, raw[index], depth) then index
    else Find(raw, index + 1, Turn(mode, raw[index]), Deeper(mode, raw[index], depth))
  }

  // --- the jumping scanner is the plain one --------------------------------------------------------------

  lemma {:induction false} AfterSingleIsOutside(raw: Bytes, index: nat, depth: int)
    requires index < |raw| ==> raw[index] != SQUOTE
    ensures Find(raw, index, AfterSingle, depth) == Find(raw, index, Outside, depth)
  {
  }

  function Inside(quote: byte): Mode { if quote == DQUOTE then InDouble else InSingle }

  /** Jumping over a quoted scalar is reading through it. */
  lemma {:induction false} ThroughQuote(raw: Bytes, index: nat, quote: byte, depth: int)
    requires index > 0 && (quote == DQUOTE || quote == SQUOTE)
    ensures Find(raw, index, Inside(quote), depth) == FlowEnd(raw, Max(QuoteEnd(raw, index, quote), index - 1) + 1, depth)
    decreases |raw| - index, 0
  {
    if index < |raw| {
      if quote == DQUOTE && raw[index] == BACKSLASH {
        if index + 1 < |raw| {
          ThroughQuote(raw, index + 2, quote, depth);
        }
      } else if raw[index] == quote {
        if quote == SQUOTE && index + 1 < |raw| && raw[index + 1] == SQUOTE {
          ThroughQuote(raw, index + 2, quote, depth);
        } else {
          if quote == SQUOTE {
            AfterSingleIsOutside(raw, index + 1, depth);
          }
          ScannerIsPlain(raw, index + 1, depth);
        }
      } else {
        ThroughQuote(raw, index + 1, quote, depth);
      }
    }
  }

  /** The scanner of the source finds what the byte-by-byte one finds. */
  lemma {:induction false} ScannerIsPlain(raw: Bytes, index: nat, depth: int)
    ensures FlowEnd(raw, index, depth) == Find(raw, index, Outside, depth)
    decreases |raw| - index, 1
  {
    if index < |raw| {
      if raw[index] == DQUOTE || raw[index] == SQUOTE {
        ThroughQuote(raw, index + 1, raw[index], depth);
      } else if !Closes(Outside, raw[index], depth) {
        ScannerIsPlain(raw, index + 1, Deeper(Outside, raw[index], depth));
      }
    }
  }

  // --- pieces of text -----------------------------------------------------------------------------------

  lemma {:induction false} ScannedPlus(a: Bytes, b: Bytes, mode: Mode, depth: int)
    ensures Scanned(a + b, mode, depth) == var s := Scanned(a, mode, depth);
      if s.Stopped? then Stopped else Scanned(b, s.mode, s.depth)
    decreases |a|
  {
    if a == [] {
      assert a + b == b;
    } else {
      assert (a + b)[0] == a[0] && (a + b)[1..] == a[1..] + b;
      if !Closes(mode, a[0], depth) {
        ScannedPlus(a[1..], b, Turn(mode, a[0]), Deeper(mode, a[0], depth));
      }
    }
  }

  /** Scanning a piece where it stands. */
  lemma {:induction false} FindOver(raw: Bytes, index: nat, limit: nat, mode: Mode, depth: int)
    requires index <= limit <= |raw|
    ensures var s := Scanned(raw[index..limit], mode, depth); var found := Find(raw, index, mode, depth);
      if s.Stopped? then index <= found < limit else found == Find(raw, limit, s.mode, s.depth)
    decreases limit - index
  {
    if index < limit {
      assert raw[index..limit][0] == raw[index] && raw[index..limit][1..] == raw[index + 1..limit];
      if !Closes(mode, raw[index], depth) {
        FindOver(raw, index + 1, limit, Turn(mode, raw[index]), Deeper(mode, raw[index], depth));
      }
    }
  }

  lemma {:induction false} FindsAhead(raw: Bytes, index: nat, mode: Mode, depth: int)
    ensures Find(raw, index, mode, depth) == -1 || Find(raw, index, mode, depth) >= index
    decreases |raw| - index
  {
    if index < |raw| && !Closes(mode, raw[index], depth) {
      FindsAhead(raw, index + 1, Turn(mode, raw[index]), Deeper(mode, raw[index], depth));
    }
  }

  /** No brace between the two closes the mapping, and behind them no quote is open and no bracket but the first. */
  predicate ComesOut(inside: Bytes) {
    var s := Scanned(inside, Outside, 1);
    s.Passed? && Out(s.mode) && s.depth <= 1
  }

  function Braced(inside: Bytes): Bytes { [LBRACE] + (inside + [RBRACE]) }

  /** Exactly when the brace found is the mapping's own, for any bytes between the braces and around them. */
  lemma {:induction false} BraceFoundExactly(prefix: Bytes, inside: Bytes, suffix: Bytes)
    ensures FlowEnd(prefix + Braced(inside) + suffix, |prefix|, 0) == |prefix| + 1 + |inside| <==> ComesOut(inside)
  {
    hide FlowEnd, Scanned, Find;
    var raw := prefix + Braced(inside) + suffix;
    var start, end := |prefix| + 1, |prefix| + 1 + |inside|;
    assert raw[start..end] == inside && raw[|prefix|] == LBRACE && raw[end] == RBRACE;
    ScannerIsPlain(raw, |prefix|, 0);
    FindNext(raw, |prefix|, Outside, 0);
    FindOver(raw, start, end, Outside, 1);
    var s := Scanned(inside, Outside, 1);
    if s.Passed? {
      FindNext(raw, end, s.mode, s.depth);
      FindsAhead(raw, end + 1, Turn(s.mode, RBRACE), Deeper(s.mode, RBRACE, s.depth));
    }
  }

  lemma {:induction false} FindNext(raw: Bytes, index: nat, mode: Mode, depth: int)
    requires index < |raw|
    ensures Find(raw, index, mode, depth) ==
      if Closes(mode, raw[index], depth) then index
      else Find(raw, index + 1, Turn(mode, raw[index]), Deeper(mode, raw[index], depth))
  {
  }

  // --- text without brackets, and text without quotes ---------------------------------------------------

  predicate IsBracket(b: byte) { b == LBRACE || b == RBRACE || b == LBRACKET || b == RBRACKET }

  predicate NoBrackets(s: Bytes) { forall i :: 0 <= i < |s| ==> !IsBracket(s[i]) }

  predicate NoQuotes(s: Bytes) { DQUOTE !in s && SQUOTE !in s }

  function ModeAfter(s: Bytes, mode: Mode): Mode {
    if s == [] then mode else ModeAfter(s[1..], Turn(mode, s[0]))
  }

  /** Every quote the text opens it closes. */
  predicate QuotesClose(s: Bytes) { Out(ModeAfter(s, Outside)) }

  lemma {:induction false} ScannedNoBrackets(s: Bytes, mode: Mode, depth: int)
    requires NoBrackets(s)
    ensures Scanned(s, mode, depth) == Passed(ModeAfter(s, mode), depth)
  {
    if s != [] {
      ScannedNoBrackets(s[1..], Turn(mode, s[0]), depth);
    }
  }

  /** The depth behind a text without quotes, or None when a brace in it closes the mapping. */
  function BracketDepth(s: Bytes, depth: int): Option<int> {
    if s == [] then Some(depth)
    else if s[0] == RBRACE && depth <= 1 then None
    else BracketDepth(s[1..], Deeper(Outside, s[0], depth))
  }

  lemma {:induction false} ScannedNoQuotes(s: Bytes, mode: Mode, depth: int)
    requires NoQuotes(s) && Out(mode)
    ensures Scanned(s, mode, depth) == match BracketDepth(s, depth)
      case None => Stopped
      case Some(d) => Passed(if s == [] then mode else Outside, d)
  {
    if s != [] {
      assert s[0] in s && forall b :: b in s[1..] ==> b in s;
      if !Closes(mode, s[0], depth) {
        ScannedNoQuotes(s[1..], Outside, Deeper(Outside, s[0], depth));
      }
    }
  }
}
