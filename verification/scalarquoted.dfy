/** Quoted tokens of the scalar replacer, tied to the printer of flow values. */
module ScalarQuoted {
  import opened Common
  import opened ByteText
  import opened FlowText
  import opened FlowAst
  import opened ScalarEdit

  /** The two scanners of the package agree on where a quoted scalar ends. */
  lemma {:induction false} StopIsBehindTheQuote(s: Bytes, index: nat, quote: byte)
    ensures QuotedStop(s, index, quote) == QuoteEnd(s, index, quote) + 1
    decreases |s| - index
  {
    if index < |s| {
      if quote == DQUOTE && s[index] == BACKSLASH {
        StopIsBehindTheQuote(s, index + 2, quote);
      } else if s[index] == quote {
        if quote == SQUOTE && index + 1 < |s| && s[index + 1] == SQUOTE {
          StopIsBehindTheQuote(s, index + 2, quote);
        }
      } else {
        StopIsBehindTheQuote(s, index + 1, quote);
      }
    }
  }

  predicate IsQuoted(v: Flow) { (v.Double? || v.Single?) && WellFormed(v) }

  /** A quoted token of a line ends where the printer ended it. */
  lemma {:induction false} QuotedTokenStop(line: Bytes, start: nat, v: Flow)
    requires IsQuoted(v) && At(line, start, Print(v)) && (v.Single? ==> Apart(line, start + |Print(v)|))
    ensures TokenStop(line, start) == start + |Print(v)|
  {
    hide QuotedStop, QuoteEnd, PlainStop;
    match v
    case Double(units) =>
      AtSplit(line, start, [DQUOTE], PrintUnits(units) + [DQUOTE]);
      AtByte(line, start, DQUOTE);
      DoubleEnds(line, start + 1, units);
      StopIsBehindTheQuote(line, start + 1, DQUOTE);
    case Single(text) =>
      AtSplit(line, start, [SQUOTE], Doubled(text) + [SQUOTE]);
      AtByte(line, start, SQUOTE);
      SingleEnds(line, start + 1, text);
      StopIsBehindTheQuote(line, start + 1, SQUOTE);
  }

  /** A token stands whole on its line exactly when it has no line feed in it. */
  lemma {:induction false} TokenOnLine(raw: Bytes, i: nat, s: nat, t: Bytes)
    requires i < |Lines(raw)| && s <= |Lines(raw)[i]| && NEWLINE !in Lines(raw)[i][..s]
    requires At(raw, |Joined(Lines(raw)[..i])| + s, t) && t != [] && t[|t| - 1] != NEWLINE
    ensures NEWLINE in t ==> |Lines(raw)[i]| < s + |t|
    ensures NEWLINE !in t ==> At(Lines(raw)[i], s, t)
    ensures var l, e := Lines(raw)[i], |Joined(Lines(raw)[..i])| + s + |t|;
      NEWLINE !in t && s + |t| < |l| ==> e < |raw| && l[s + |t|] == raw[e]
  {
    hide Lines, Joined;
    var l, b := Lines(raw)[i], |Joined(Lines(raw)[..i])|;
    LineAt(raw, i);
    SamePrefix(raw, raw, l, l, b, s);
    assert forall k :: 0 <= k < |l| ==> l[k] == raw[b..b + |l|][k] == raw[b + k];
    assert forall k :: 0 <= k < |t| ==> t[k] == raw[b + s..b + s + |t|][k] == raw[b + s + k];
    if NEWLINE in t {
      var p :| 0 <= p < |t| && t[p] == NEWLINE;
      assert s + p < |l| ==> l[s + p] == NEWLINE && !(i < |Lines(raw)| - 1 && s + p < |l| - 1);
      LastLineHasNone(raw, i);
    } else {
      forall k | s <= k < |l| && k < s + |t|
        ensures l[k] != NEWLINE
      {
        assert l[k] == t[k - s] && t[k - s] in t;
      }
      if i < |Lines(raw)| - 1 {
        LineFeedLast(l, s);
      }
      assert s + |t| <= |l|;
      assert l[s..s + |t|] == t;
    }
  }

  lemma {:induction false} LastLineHasNone(raw: Bytes, i: nat)
    requires i < |Lines(raw)|
    ensures i == |Lines(raw)| - 1 ==> NEWLINE !in Lines(raw)[i]
  {
    LinesAreLines(raw);
  }

  /** The token found for a quoted scalar is all of it, or ends inside it when it goes on on another line. */
  lemma {:induction false} QuotedTokenLimit(prefix: Bytes, v: Flow, suffix: Bytes, line: int, column: int)
    requires IsQuoted(v) && (v.Single? && suffix != [] ==> suffix[0] != SQUOTE)
    requires var raw := prefix + Print(v) + suffix; OnLine(raw, line, column) && TokenStart(raw, line, column) == |prefix|
    ensures var limit, end := TokenLimit(prefix + Print(v) + suffix, line, column), |prefix| + |Print(v)|;
      if NEWLINE in Print(v) then limit < end else limit == end
  {
    hide Lines, Joined, ColumnAt, Print, TokenStop, WellFormed;
    var raw, t := prefix + Print(v) + suffix, Print(v);
    var l := Lines(raw)[line - 1];
    var s := ColumnAt(l, column).value;
    assert raw[|prefix|..|prefix| + |t|] == t;
    EndsInQuote(v);
    TokenOnLine(raw, line - 1, s, t);
    if NEWLINE !in t {
      QuotedTokenStop(l, s, v);
    }
  }

  /**
   Replacing a quoted token exchanges exactly what the printer printed, if and only if no line feed is inside
   the quotes: the token is looked for on its first line only.
   */
  lemma {:induction false} QuotedTokenReplaced(prefix: Bytes, v: Flow, suffix: Bytes, line: int, column: int,
                                               literal: Bytes)
    requires IsQuoted(v) && (v.Single? && suffix != [] ==> suffix[0] != SQUOTE)
    requires var raw := prefix + Print(v) + suffix; OnLine(raw, line, column) && TokenStart(raw, line, column) == |prefix|
    ensures Replaced(prefix + Print(v) + suffix, line, column, literal) == Some(prefix + literal + suffix) <==> NEWLINE !in Print(v)
  {
    hide Lines, Joined, OffsetAt, TokenLimit, Print, WellFormed;
    var raw := prefix + Print(v) + suffix;
    TokenInside(raw, line, column);
    QuotedTokenLimit(prefix, v, suffix, line, column);
    var limit := TokenLimit(raw, line, column);
    assert raw[..|prefix|] == prefix;
    if NEWLINE !in Print(v) {
      assert raw[limit..] == suffix;
    } else {
      assert |Replaced(raw, line, column, literal).value| == |prefix| + |literal| + (|raw| - limit);
    }
  }

  lemma {:induction false} EndsInQuote(v: Flow)
    requires IsQuoted(v)
    ensures Print(v) != [] && Print(v)[|Print(v)| - 1] != NEWLINE
  {
    hide PrintUnits, Doubled;
  }

  // --- two texts ----------------------------------------------------------------------------------------

  lemma {:induction false} AtTheStart(raw: Bytes)
    ensures OnLine(raw, 1, 1) && TokenStart(raw, 1, 1) == 0
  {
    hide Lines;
    assert Lines(raw)[..0] == [] && Lines(raw)[0][..0] == [];
  }

  const QUOTED_A := Double([Bare(97)])

  /** In `"a"b` the second of two writes to the quoted scalar takes the `b` with it. */
  lemma {:induction false} SecondWriteTakesMore()
    ensures var raw := Print(QUOTED_A) + [98]; var once := Replaced(raw, 1, 1, [99]).value;
      Replaced(once, 1, 1, [100]) != Replaced(raw, 1, 1, [100])
  {
    hide Lines, Joined, ColumnAt, TokenStop, Replaced, OnLine, TokenStart;
    var raw := Print(QUOTED_A) + [98];
    assert Print(QUOTED_A) == [DQUOTE, 97, DQUOTE];
    AtTheStart(raw);
    assert [] + Print(QUOTED_A) + [98] == raw;
    QuotedTokenLimit([], QUOTED_A, [98], 1, 1);
    LastWriterWins(raw, 1, 1, [99], [100]);
  }

  /** A quoted scalar of nothing but a line feed is not replaced as a whole. */
  lemma {:induction false} TwoLinesAreCut(suffix: Bytes)
    requires suffix != [] ==> suffix[0] != SQUOTE
    ensures Replaced(Print(Single([NEWLINE])) + suffix, 1, 1, [99]) != Some([99] + suffix)
  {
    hide Lines, Joined, ColumnAt, TokenStop, Replaced, OnLine, TokenStart;
    var v := Single([NEWLINE]);
    assert Print(v)[1] == NEWLINE by { assert Doubled([NEWLINE])[0] == NEWLINE; }
    AtTheStart(Print(v) + suffix);
    assert [] + Print(v) + suffix == Print(v) + suffix && [] + [99] + suffix == [99] + suffix;
    QuotedTokenReplaced([], v, suffix, 1, 1, [99]);
  }
}
