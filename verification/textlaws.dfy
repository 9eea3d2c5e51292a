/** What trimming and comparing without case mean, character by character. */
module TextLaws {
  import opened Text

  // --- trimming ------------------------------------------------------------------------------------

  /** The white space of one byte: tab, line feed, vertical tab, form feed, carriage return and space. */
  lemma {:induction false} SpaceExactly(c: char)
    ensures IsSpace(c) <==> 9 <= c as int <= 13 || c as int == 32
  {
    assert '\t' as int == 9 && '\n' as int == 10 && '\r' as int == 13 && ' ' as int == 32;
  }

  ghost predicate Blank(s: string) { forall i :: 0 <= i < |s| ==> IsSpace(s[i]) }

  /** It starts and ends with something other than white space. */
  ghost predicate Solid(s: string) { s != "" && !IsSpace(s[0]) && !IsSpace(s[|s| - 1]) }

  /** White space around a solid text is what trimming takes off ... */
  lemma {:induction false} TrimOf(a: string, s: string, b: string)
    requires Blank(a) && Solid(s) && Blank(b)
    ensures Trim(a + s + b) == s
    decreases |a| + |b|
  {
    if a != "" {
      assert (a + s + b)[1..] == a[1..] + s + b;
      TrimOf(a[1..], s, b);
    } else {
      assert a + s + b == s + b && IsSpace((s + b)[0]) == IsSpace(s[0]);
      if b == "" {
        assert s + b == s;
      } else {
        assert (s + b)[..|s + b| - 1] == s + b[..|b| - 1] && (s + b)[|s + b| - 1] == b[|b| - 1];
        assert "" + s + b[..|b| - 1] == s + b[..|b| - 1];
        TrimOf("", s, b[..|b| - 1]);
      }
    }
  }

  lemma {:induction false} LeftPart(s: string) returns (a: string)
    ensures Blank(a) && s == a + TrimLeft(s)
  {
    if s != "" && IsSpace(s[0]) {
      a := LeftPart(s[1..]);
      a := [s[0]] + a;
    } else {
      a := "";
    }
  }

  lemma {:induction false} RightPart(s: string) returns (b: string)
    ensures Blank(b) && s == TrimRight(s) + b
  {
    if s != "" && IsSpace(s[|s| - 1]) {
      b := RightPart(s[..|s| - 1]);
      b := b + [s[|s| - 1]];
    } else {
      b := "";
    }
  }

  /** ... and it takes nothing else. */
  lemma {:induction false} TrimParts(s: string) returns (a: string, b: string)
    ensures Blank(a) && Blank(b) && s == a + Trim(s) + b
  {
    a := LeftPart(s);
    b := RightPart(TrimLeft(s));
  }

  /** Nothing is left exactly of a text of white space. */
  lemma {:induction false} TrimTells(s: string)
    ensures Trim(s) != "" <==> !Blank(s)
    decreases |s|
  {
    if s == "" {
    } else if IsSpace(s[0]) {
      TrimTells(s[1..]);
      assert Trim(s) == Trim(s[1..]) && forall i :: 0 < i < |s| ==> s[1..][i - 1] == s[i];
    } else {
      assert TrimLeft(s) == s;
      RightKeepsFirst(s);
    }
  }

  lemma {:induction false} RightKeepsFirst(s: string)
    requires s != "" && !IsSpace(s[0])
    ensures TrimRight(s) != "" && TrimRight(s)[0] == s[0]
  {
    if IsSpace(s[|s| - 1]) {
      RightKeepsFirst(s[..|s| - 1]);
    }
  }

  // --- case ----------------------------------------------------------------------------------------

  /** The same letter in either case, or the same character. */
  ghost predicate SameLetter(a: char, b: char) {
    || a == b
    || ('A' <= a <= 'Z' && b as int == a as int + 32)
    || ('A' <= b <= 'Z' && a as int == b as int + 32)
  }

  /** Two texts are equal without case when they are letter by letter. */
  lemma {:induction false} FoldExactly(a: string, b: string)
    ensures EqualFold(a, b) <==> |a| == |b| && forall i :: 0 <= i < |a| ==> SameLetter(a[i], b[i])
  {
    if |a| == |b| && forall i :: 0 <= i < |a| ==> SameLetter(a[i], b[i]) {
      assert Lower(a) == Lower(b);
    }
    if Lower(a) == Lower(b) {
      assert forall i :: 0 <= i < |a| ==> Lower(a)[i] == Lower(b)[i];
    }
  }
}
