/** Characters in bytes, after section 3 of RFC 3629, and the places a line and a column mean. */
module ByteLaws {
  import opened Common
  import opened ByteText

  // --- characters ----------------------------------------------------------------------------------

  predicate IsScalar(c: int) { 0 <= c < 0xD800 || 0xE000 <= c < 0x11_0000 }

  /** The bytes of one character. */
  function Encoded(c: int): (s: Bytes)
    requires IsScalar(c)
    ensures 1 <= |s| <= 4
  {
    if c < 0x80 then [c as byte]
    else if c < 0x800 then [(0xC0 + c / 64) as byte, (0x80 + c % 64) as byte]
    else if c < 0x1_0000 then [(0xE0 + c / 4096) as byte, (0x80 + c / 64 % 64) as byte, (0x80 + c % 64) as byte]
    else [(0xF0 + c / 262144) as byte, (0x80 + c / 4096 % 64) as byte, (0x80 + c / 64 % 64) as byte,
          (0x80 + c % 64) as byte]
  }

  /** The character at the start of a text is taken whole, whatever follows it. */
  lemma {:induction false} SizeOfCharacter(c: int, rest: Bytes)
    requires IsScalar(c)
    ensures RuneSize(Encoded(c) + rest) == |Encoded(c)|
  {
    var s := Encoded(c) + rest;
    assert forall i :: 0 <= i < |Encoded(c)| ==> s[i] == Encoded(c)[i];
  }

  /** Two bytes as one character, and three, and four. */
  lemma {:induction false} TwoBytes(a: int, b: int)
    requires 0xC2 <= a <= 0xDF && 0x80 <= b <= 0xBF
    ensures var c := (a - 0xC0) * 64 + (b - 0x80); IsScalar(c) && Encoded(c) == [a as byte, b as byte]
  {
  }

  lemma {:induction false} ThreeBytes(a: int, b: int, d: int)
    requires 0xE0 <= a <= 0xEF && 0x80 <= b <= 0xBF && 0x80 <= d <= 0xBF
    requires (a == 0xE0 ==> b >= 0xA0) && (a == 0xED ==> b <= 0x9F)
    ensures var c := (a - 0xE0) * 4096 + (b - 0x80) * 64 + (d - 0x80);
      IsScalar(c) && Encoded(c) == [a as byte, b as byte, d as byte]
  {
    var c := (a - 0xE0) * 4096 + (b - 0x80) * 64 + (d - 0x80);
    assert c / 64 == (a - 0xE0) * 64 + (b - 0x80);
    assert c / 4096 == a - 0xE0;
  }

  lemma {:induction false} FourBytes(a: int, b: int, d: int, e: int)
    requires 0xF0 <= a <= 0xF4 && 0x80 <= b <= 0xBF && 0x80 <= d <= 0xBF && 0x80 <= e <= 0xBF
    requires (a == 0xF0 ==> b >= 0x90) && (a == 0xF4 ==> b <= 0x8F)
    ensures var c := (a - 0xF0) * 262144 + (b - 0x80) * 4096 + (d - 0x80) * 64 + (e - 0x80);
      IsScalar(c) && Encoded(c) == [a as byte, b as byte, d as byte, e as byte]
  {
    var c := (a - 0xF0) * 262144 + (b - 0x80) * 4096 + (d - 0x80) * 64 + (e - 0x80);
    assert c / 64 == (a - 0xF0) * 4096 + (b - 0x80) * 64 + (d - 0x80);
    assert c / 4096 == (a - 0xF0) * 64 + (b - 0x80);
    assert c / 262144 == a - 0xF0;
  }

  /** More than one byte is taken only when they are one character; otherwise a byte is a character of its own. */
  lemma {:induction false} OnlyCharacters(s: Bytes)
    requires RuneSize(s) > 1
    ensures exists c :: IsScalar(c) && |Encoded(c)| == RuneSize(s) && s[..RuneSize(s)] == Encoded(c)
  {
    var n := RuneSize(s);
    if n == 2 {
      TwoBytes(s[0] as int, s[1] as int);
      assert s[..2] == [s[0], s[1]];
    } else if n == 3 {
      ThreeBytes(s[0] as int, s[1] as int, s[2] as int);
      assert s[..3] == [s[0], s[1], s[2]];
    } else {
      FourBytes(s[0] as int, s[1] as int, s[2] as int, s[3] as int);
      assert s[..4] == [s[0], s[1], s[2], s[3]];
    }
  }

  /** A text of characters, one after the other. */
  function Spelled(cs: seq<int>): Bytes
    requires forall i :: 0 <= i < |cs| ==> IsScalar(cs[i])
  {
    if cs == [] then [] else Encoded(cs[0]) + Spelled(cs[1..])
  }

  /** In a line of characters a column is a character: the one behind `n` of them begins where they end. */
  lemma {:induction false} ColumnIsCharacter(cs: seq<int>, rest: Bytes, n: nat)
    requires (forall i :: 0 <= i < |cs| ==> IsScalar(cs[i])) && n <= |cs|
    ensures ColumnAt(Spelled(cs) + rest, n + 1) == Some(|Spelled(cs[..n])|)
    decreases n
  {
    hide RuneSize, Encoded, Spelled;
    if n > 0 {
      ColumnIsCharacter(cs, rest, n - 1);
      var before, c := cs[..n - 1], cs[n - 1];
      SpelledSplits(cs, n - 1);
      SpelledFirst(cs[n - 1..]);
      assert cs[n - 1..][1..] == cs[n..];
      assert (Spelled(cs) + rest)[|Spelled(before)|..] == Encoded(c) + (Spelled(cs[n..]) + rest);
      SizeOfCharacter(c, Spelled(cs[n..]) + rest);
      SpelledNext(before, c);
      assert cs[..n] == before + [c];
    } else {
      assert cs[..0] == [];
      SpelledNothing();
    }
  }

  lemma {:induction false} SpelledFirst(cs: seq<int>)
    requires cs != [] && forall i :: 0 <= i < |cs| ==> IsScalar(cs[i])
    ensures Spelled(cs) == Encoded(cs[0]) + Spelled(cs[1..])
  {
  }

  lemma {:induction false} SpelledNothing()
    ensures Spelled([]) == []
  {
  }

  lemma {:induction false} SpelledSplits(cs: seq<int>, n: nat)
    requires (forall i :: 0 <= i < |cs| ==> IsScalar(cs[i])) && n <= |cs|
    ensures Spelled(cs) == Spelled(cs[..n]) + Spelled(cs[n..])
  {
    hide Encoded;
    if n == 0 {
      assert cs[..0] == [] && cs[0..] == cs;
    } else {
      SpelledSplits(cs[1..], n - 1);
      assert cs[1..][..n - 1] == cs[..n][1..] && cs[1..][n - 1..] == cs[n..];
    }
  }

  lemma {:induction false} SpelledNext(cs: seq<int>, c: int)
    requires IsScalar(c) && forall i :: 0 <= i < |cs| ==> IsScalar(cs[i])
    ensures |Spelled(cs + [c])| == |Spelled(cs)| + |Encoded(c)|
  {
    hide Encoded;
    SpelledSplits(cs + [c], |cs|);
    assert (cs + [c])[..|cs|] == cs && (cs + [c])[|cs|..] == [c] && [c][1..] == [];
  }

  // --- places --------------------------------------------------------------------------------------

  /** A place needs a line of the text and a column, both counted from 1, that the line reaches. */
  lemma {:induction false} PlaceExactly(raw: Bytes, line: int, column: int)
    ensures OffsetAt(raw, line, column).Some? <==>
      1 <= line <= |Lines(raw)| && 1 <= column && ColumnAt(Lines(raw)[line - 1], column).Some?
    ensures OffsetAt(raw, line, column).Some? ==>
      |Joined(Lines(raw)[..line - 1])| <= OffsetAt(raw, line, column).value <= |Joined(Lines(raw)[..line])|
  {
    if OffsetAt(raw, line, column).Some? {
      assert Lines(raw)[..line] == Lines(raw)[..line - 1] + [Lines(raw)[line - 1]];
      JoinedPlus(Lines(raw)[..line - 1], [Lines(raw)[line - 1]]);
      assert Joined([Lines(raw)[line - 1]]) == Lines(raw)[line - 1] + Joined([]);
    }
  }
}
