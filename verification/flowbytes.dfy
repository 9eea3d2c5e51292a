/** The flow mapping by the numbers of its bytes: what the brace matcher passes and what is put before the brace. */
module FlowBytes {
  import opened Common
  import opened ByteText
  import opened ScalarEdit
  import opened FlowText

  /** No bracket, brace, comma or quote. */
  ghost predicate IsPlain(s: Bytes) { forall b :: b in s ==> b !in {34, 39, 91, 93, 123, 125} }

  ghost predicate IsBlank(s: Bytes) { forall b :: b in s ==> b in {9, 10, 13, 32} }

  /** The bytes of a text from `i` on. */
  ghost predicate Stands(raw: Bytes, i: nat, s: Bytes) { i + |s| <= |raw| && raw[i..i + |s|] == s }

  lemma {:induction false} PlainIsPassed(raw: Bytes, i: nat, s: Bytes, depth: int)
    requires Stands(raw, i, s) && IsPlain(s)
    ensures FlowEnd(raw, i, depth) == FlowEnd(raw, i + |s|, depth)
    decreases |s|
  {
    if s != [] {
      assert raw[i] == raw[i..i + |s|][0] == s[0] && s[0] in s;
      assert raw[i + 1..i + |s|] == raw[i..i + |s|][1..];
      assert forall b :: b in s[1..] ==> b in s;
      PlainIsPassed(raw, i + 1, s[1..], depth);
    }
  }

  /** Brackets and braces count, and the brace that closes the outermost ends it. */
  lemma {:induction false} BracketsCount(raw: Bytes, i: nat, depth: int)
    requires i < |raw|
    ensures raw[i] in {91, 123} ==> FlowEnd(raw, i, depth) == FlowEnd(raw, i + 1, depth + 1)
    ensures raw[i] == 93 ==> FlowEnd(raw, i, depth) == FlowEnd(raw, i + 1, depth - 1)
    ensures raw[i] == 125 && depth > 1 ==> FlowEnd(raw, i, depth) == FlowEnd(raw, i + 1, depth - 1)
    ensures raw[i] == 125 && depth <= 1 ==> FlowEnd(raw, i, depth) == i
  {
  }

  lemma {:induction false} QuoteRuns(raw: Bytes, i: nat, s: Bytes, quote: byte)
    requires quote in {34, 39} && Stands(raw, i, s) && i + |s| < |raw| && raw[i + |s|] == quote
    requires quote !in s && (quote == 34 ==> 92 !in s)
    requires quote == 39 && i + |s| + 1 < |raw| ==> raw[i + |s| + 1] != 39
    ensures QuoteEnd(raw, i, quote) == i + |s|
    decreases |s|
  {
    if s != [] {
      assert raw[i] == raw[i..i + |s|][0] == s[0] && s[0] in s;
      assert raw[i + 1..i + |s|] == raw[i..i + |s|][1..];
      QuoteRuns(raw, i + 1, s[1..], quote);
    }
  }

  /** A quoted scalar is passed as a whole, whatever brackets and braces it holds. */
  lemma {:induction false} QuotedIsPassed(raw: Bytes, i: nat, s: Bytes, quote: byte, depth: int)
    requires quote in {34, 39} && quote !in s && (quote == 34 ==> 92 !in s)
    requires Stands(raw, i, [quote] + s + [quote])
    requires quote == 39 && i + |s| + 2 < |raw| ==> raw[i + |s| + 2] != 39
    ensures FlowEnd(raw, i, depth) == FlowEnd(raw, i + |s| + 2, depth)
  {
    hide QuoteEnd;
    QuotedInside(raw, i, s, quote);
    QuoteRuns(raw, i + 1, s, quote);
  }

  lemma {:induction false} QuotedInside(raw: Bytes, i: nat, s: Bytes, quote: byte)
    requires Stands(raw, i, [quote] + s + [quote])
    ensures raw[i] == quote && raw[i + |s| + 1] == quote && Stands(raw, i + 1, s)
  {
    var t := [quote] + s + [quote];
    assert forall k :: 0 <= k < |t| ==> raw[i + k] == raw[i..i + |t|][k] == t[k];
    assert forall k :: 0 <= k < |s| ==> raw[i + 1 + k] == t[k + 1] == s[k];
  }

  /** In a double-quoted scalar a backslash takes the next byte with it; in a single-quoted one a quote written twice stays. */
  lemma {:induction false} QuoteEscapes(raw: Bytes, i: nat)
    requires i + 1 < |raw|
    ensures raw[i] == 92 ==> QuoteEnd(raw, i, 34) == QuoteEnd(raw, i + 2, 34)
    ensures raw[i] == 39 && raw[i + 1] == 39 ==> QuoteEnd(raw, i, 39) == QuoteEnd(raw, i + 2, 39)
  {
  }

  /** What stands before the new entry: nothing, a space, or a comma and a space. */
  lemma {:induction false} SeparatorIs(raw: Bytes, start: nat, body: Bytes, pad: Bytes)
    requires Stands(raw, start + 1, body + pad) && start + 1 + |body + pad| < |raw| && IsBlank(pad)
    requires body != [] ==> body[|body| - 1] !in {9, 10, 13, 32}
    ensures Separator(raw, start, start + 1 + |body + pad|)
      == if body == [] then [] else if body[|body| - 1] == 44 then [32] else [44, 32]
  {
    var s := body + pad;
    var end := start + 1 + |s|;
    assert forall k :: 0 <= k < |s| ==> raw[start + 1 + k] == raw[start + 1..start + 1 + |s|][k] == s[k];
    assert forall k :: |body| <= k < |s| ==> s[k] in pad;
    var first := SkipSpace(raw, start + 1, end);
    assert forall k :: start + 1 <= k < end ==> raw[k] == s[k - start - 1];
    if body != [] {
      var at := start + |body|;
      assert raw[at] == body[|body| - 1];
      assert first <= at;
      var last := LastSolid(raw, start, end - 1);
      assert last == at;
    }
  }

  /** A mapping of plain bytes: the entry goes right before the closing brace, behind what keeps it apart. */
  lemma {:induction false} PlainMappingGains(prefix: Bytes, body: Bytes, pad: Bytes, suffix: Bytes, key: Bytes,
                                             literal: Bytes)
    requires IsPlain(body) && IsBlank(pad)
    requires body != [] ==> body[|body| - 1] !in {9, 10, 13, 32}
    ensures var between := if body == [] then [] else if body[|body| - 1] == 44 then [32] else [44, 32];
      Inserted(prefix + [123] + (body + pad) + [125] + suffix, |prefix|, key, literal)
      == Some(prefix + [123] + (body + pad) + between + EntryText(key, literal) + ([125] + suffix))
  {
    hide EntryText, Separator, FlowEnd, IsPlain, IsBlank, Stands;
    var s := body + pad;
    var raw := prefix + [123] + s + [125] + suffix;
    LaidOut(prefix, s, suffix);
    BracketsCount(raw, |prefix|, 0);
    BothPlain(body, pad);
    PlainIsPassed(raw, |prefix| + 1, s, 1);
    BracketsCount(raw, |prefix| + 1 + |s|, 1);
    SeparatorIs(raw, |prefix|, body, pad);
  }

  lemma {:induction false} LaidOut(prefix: Bytes, s: Bytes, suffix: Bytes)
    ensures var raw, end := prefix + [123] + s + [125] + suffix, |prefix| + 1 + |s|;
      && end < |raw| && raw[|prefix|] == 123 && raw[end] == 125 && Stands(raw, |prefix| + 1, s)
      && raw[..end] == prefix + [123] + s && raw[end..] == [125] + suffix
  {
  }

  lemma {:induction false} BothPlain(body: Bytes, pad: Bytes)
    requires IsPlain(body) && IsBlank(pad)
    ensures IsPlain(body + pad)
  {
  }

  // --- plain scalars -----------------------------------------------------------------------------------

  /** The bytes that end an unquoted scalar: white space, a comma, a closing bracket or brace, and the start of a comment. */
  lemma {:induction false} DelimiterExactly(b: byte)
    ensures IsDelimiter(b) <==> b in {9, 10, 13, 32, 35, 44, 93, 125}
    ensures IsSpaceByte(b) <==> b in {9, 10, 11, 12, 13, 32}
  {
  }
}
