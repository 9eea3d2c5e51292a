/** Which defaults the fill adds, told from the bytes of their keys and literals. */
module FlowDefaults {
  import opened Common
  import opened ByteText
  import opened ScalarEdit
  import opened ScalarLine
  import opened FlowText
  import opened FlowAst
  import opened FlowCommutes

  // --- white space around a text -------------------------------------------------------------------

  /** Some byte is neither a space nor one of the control bytes 9 to 13. */
  ghost predicate HasSolid(s: Bytes) { exists i :: 0 <= i < |s| && !(9 <= s[i] <= 13 || s[i] == 32) }

  /** The slice starts and ends with a byte that is not white space, and around it is nothing else. */
  ghost predicate IsCore(s: Bytes, i: int, j: int) {
    && 0 <= i < j <= |s|
    && !(9 <= s[i] <= 13 || s[i] == 32) && !(9 <= s[j - 1] <= 13 || s[j - 1] == 32)
    && forall k :: 0 <= k < i || j <= k < |s| ==> 9 <= s[k] <= 13 || s[k] == 32
  }

  /** Trimming leaves the core ... */
  lemma {:induction false} TrimLeavesTheCore(s: Bytes, i: int, j: int)
    requires IsCore(s, i, j)
    ensures TrimBytes(s) == s[i..j]
    decreases |s|
  {
    if IsSpaceByte(s[0]) {
      TrimLeavesTheCore(s[1..], i - 1, j - 1);
    } else if IsSpaceByte(s[|s| - 1]) {
      TrimLeavesTheCore(s[..|s| - 1], i, j);
    }
  }

  /** ... which there is exactly when some byte is not white space, and otherwise nothing. */
  lemma {:induction false} TrimTells(s: Bytes)
    ensures HasSolid(s) <==> TrimBytes(s) != []
    decreases |s|
  {
    if s == [] {
    } else if IsSpaceByte(s[0]) {
      TrimTells(s[1..]);
      assert forall i :: 0 < i < |s| ==> s[1..][i - 1] == s[i];
    } else if IsSpaceByte(s[|s| - 1]) {
      TrimTells(s[..|s| - 1]);
      assert forall i :: 0 <= i < |s| - 1 ==> s[..|s| - 1][i] == s[i];
    }
  }

  lemma {:induction false} CoreOf(s: Bytes) returns (i: int, j: int)
    requires HasSolid(s)
    ensures IsCore(s, i, j)
    decreases |s|
  {
    if IsSpaceByte(s[0]) {
      assert forall k :: 0 < k < |s| ==> s[1..][k - 1] == s[k];
      i, j := CoreOf(s[1..]);
      i, j := i + 1, j + 1;
    } else if IsSpaceByte(s[|s| - 1]) {
      assert forall k :: 0 <= k < |s| - 1 ==> s[..|s| - 1][k] == s[k];
      i, j := CoreOf(s[..|s| - 1]);
    } else {
      i, j := 0, |s|;
    }
  }

  // --- the entry as it is written ------------------------------------------------------------------

  /** A byte of a key as it stands between double quotes. */
  function EscapedByte(b: byte): Bytes { if b == 34 || b == 92 then [92, b] else [b] }

  lemma {:induction false} EscapedFirst(key: Bytes)
    requires key != []
    ensures EscapeKey(key) == EscapedByte(key[0]) + EscapeKey(key[1..])
  {
  }

  lemma {:induction false} EscapedParts(a: Bytes, b: Bytes)
    ensures EscapeKey(a + b) == EscapeKey(a) + EscapeKey(b)
  {
    hide EscapeKey, EscapedByte;
    if a == [] {
      assert a + b == b;
      NothingEscaped();
    } else {
      EscapedParts(a[1..], b);
      EscapedFirst(a);
      EscapedFirst(a + b);
      assert (a + b)[1..] == a[1..] + b;
    }
  }

  lemma {:induction false} NothingEscaped()
    ensures EscapeKey([]) == []
  {
  }

  /**
   A double quote, the key, a double quote, a colon, a space and the literal; in the key each double quote and each
   backslash has a backslash before it, and the other bytes stand as they are.
   */
  lemma {:induction false} EntryIsWritten(before: Bytes, b: byte, after: Bytes, literal: Bytes)
    ensures EntryText(before + [b] + after, literal)
      == [34] + (EscapeKey(before) + (if b == 34 || b == 92 then [92, b] else [b]) + EscapeKey(after)) + [34, 58, 32] + literal
  {
    hide EscapeKey;
    EscapedParts(before + [b], after);
    EscapedParts(before, [b]);
    EscapedFirst([b]);
    NothingEscaped();
    assert [b][1..] == [];
  }

  // --- one default ---------------------------------------------------------------------------------

  /**
   A default with a byte that is not white space both in its key and in its literal: it is left out when the stripped
   key is in the block, and otherwise the entry of the stripped key and the literal as given is inserted.
   */
  lemma {:induction false} SolidDefaultIsInserted(raw: Bytes, parse: Bytes -> Option<Node>, defaults: seq<Default>,
                                                  key: Bytes, literal: Bytes, i: int, j: int, text: Bytes,
                                                  changed: bool, node: Node)
    requires IsCore(key, i, j) && HasSolid(literal)
    requires FillTo(raw, parse, defaults) == Filled(text, changed) && parse(text) == Some(node)
    ensures FillTo(raw, parse, defaults + [Default(key, literal)]) ==
      if key[i..j] in node.keys then Filled(text, changed)
      else match InsertedInto(text, node, key[i..j], literal)
           case None => Refused
           case Some(next) => Filled(next, true)
  {
    hide InsertedInto, TrimBytes;
    TrimLeavesTheCore(key, i, j);
    TrimTells(literal);
    assert (defaults + [Default(key, literal)])[..|defaults|] == defaults;
  }

  /** In a block of `key: value` lines that is a line of its own, as far in as the block's first key. */
  lemma {:induction false} SolidDefaultIsALine(raw: Bytes, parse: Bytes -> Option<Node>, defaults: seq<Default>,
                                               key: Bytes, literal: Bytes, i: int, j: int, text: Bytes, changed: bool,
                                               tree: Yaml, keys: set<Bytes>)
    requires IsCore(key, i, j) && HasSolid(literal) && key[i..j] !in keys && 10 !in key && 10 !in literal
    requires FillTo(raw, parse, defaults) == Filled(text, changed) && parse(text) == Some(BlockNode(tree, keys))
    requires |tree.children| >= 2 && tree.children[0].line >= 1 && 1 <= GreatestLine(tree) <= |Lines(text)|
    ensures match FillTo(raw, parse, defaults + [Default(key, literal)])
            case Refused => false
            case Filled(out, changed') =>
              && changed' && GreatestLine(tree) < |Lines(out)|
              && IsKeyLine(Lines(out)[GreatestLine(tree)], tree.children[0].column, key[i..j], literal)
  {
    hide KeyInserted, FillTo, Lines, GreatestLine, IsKeyLine, HasSolid;
    SolidDefaultIsInserted(raw, parse, defaults, key, literal, i, j, text, changed, BlockNode(tree, keys));
    var out := KeyInserted(text, tree, key[i..j], literal);
    assert out.Some? by {
      InsertedExactly(text, tree, key[i..j], literal);
    }
    assert forall b :: b in key[i..j] ==> b in key;
    InsertedUnderTheFirstKey(text, tree, key[i..j], literal);
  }

  /** A default with nothing but white space in its key or its literal makes no difference, whatever the text is. */
  lemma {:induction false} BlankDefaultIsNothing(raw: Bytes, parse: Bytes -> Option<Node>, before: seq<Default>,
                                                 d: Default, after: seq<Default>)
    requires !HasSolid(d.key) || !HasSolid(d.literal)
    ensures FillTo(raw, parse, before + [d] + after) == FillTo(raw, parse, before + after)
    decreases |after|
  {
    hide InsertedInto, TrimBytes;
    TrimTells(d.key);
    TrimTells(d.literal);
    if after == [] {
      assert before + [d] + after == before + [d] && before + after == before;
      assert (before + [d])[..|before|] == before;
      BlankLast(raw, parse, before, d);
    } else {
      var n := |after| - 1;
      BlankDefaultIsNothing(raw, parse, before, d, after[..n]);
      assert (before + [d] + after)[..|before| + 1 + n] == before + [d] + after[..n];
      assert (before + after)[..|before| + n] == before + after[..n];
    }
  }

  lemma {:induction false} BlankLast(raw: Bytes, parse: Bytes -> Option<Node>, before: seq<Default>, d: Default)
    requires d.Skipped()
    ensures FillTo(raw, parse, before + [d]) == FillTo(raw, parse, before)
  {
    hide InsertedInto, TrimBytes;
    assert (before + [d])[..|before|] == before;
  }

  // --- a list of defaults on a flow mapping --------------------------------------------------------

  /**
   Every default with a byte that is not white space both in its key and in its literal is there in the end: its key,
   stripped, is among the names.
   */
  lemma {:induction false} SolidDefaultIsThere(m: Flow, ws: seq<Wanted>, read: Flow -> Bytes, n: nat, i: int, j: int)
    requires m.Collection? && ReadsQuoted(read) && n < |ws|
    requires IsCore(ws[n].key, i, j) && HasSolid(Print(ws[n].value))
    ensures ws[n].key[i..j] in Names(Completed(m, ws, read).cells, read)
  {
    hide TrimBytes, Completed, Names, Print;
    CompletedKeeps(m, ws, read);
    TrimLeavesTheCore(ws[n].key, i, j);
    TrimTells(Print(ws[n].value));
    assert !IsMissing(ws[n], Completed(m, ws, read), read);
  }

  /** Taking out a default that has only white space in its key or its literal leaves the mapping the same. */
  lemma {:induction false} BlankDefaultAddsNothing(m: Flow, ws: seq<Wanted>, read: Flow -> Bytes, n: nat)
    requires m.Collection? && n < |ws|
    requires !HasSolid(ws[n].key) || !HasSolid(Print(ws[n].value))
    ensures Completed(m, ws, read) == Completed(m, ws[..n] + ws[n + 1..], read)
    decreases |ws|
  {
    hide TrimBytes, Names, Print, Appended;
    TrimTells(ws[n].key);
    TrimTells(Print(ws[n].value));
    var less := ws[..n] + ws[n + 1..];
    if n == |ws| - 1 {
      assert less == ws[..n];
    } else {
      BlankDefaultAddsNothing(m, ws[..|ws| - 1], read, n);
      assert ws[..|ws| - 1][..n] + ws[..|ws| - 1][n + 1..] == less[..|less| - 1];
    }
  }

  /**
   The first default of a name that the mapping does not have brings its own value in, under the stripped key in double
   quotes.
   */
  lemma {:induction false} FirstOfItsNameIsAdded(m: Flow, ws: seq<Wanted>, read: Flow -> Bytes, n: nat, i: int, j: int)
    requires m.Collection? && ReadsQuoted(read) && n < |ws|
    requires IsCore(ws[n].key, i, j) && HasSolid(Print(ws[n].value))
    requires ws[n].key[i..j] !in Names(m.cells, read)
    requires forall k, a, b :: 0 <= k < n && IsCore(ws[k].key, a, b) && HasSolid(Print(ws[k].value)) ==>
      ws[k].key[a..b] != ws[n].key[i..j]
    ensures (Some(Double(KeyUnits(ws[n].key[i..j]))), ws[n].value) in Entries(Completed(m, ws, read).cells)
    decreases |ws|
  {
    hide TrimBytes, Names, Print, Entries, Appended, ReadsQuoted, HasSolid;
    var last := |ws| - 1;
    var before := Completed(m, ws[..last], read);
    AppendedEntries(before, ws[last].AsDefault().Name(), ws[last].value);
    if n < last {
      FirstOfItsNameIsAdded(m, ws[..last], read, n, i, j);
    } else {
      TrimLeavesTheCore(ws[n].key, i, j);
      TrimTells(Print(ws[n].value));
      NotYetThere(m, ws[..last], read, TrimBytes(ws[n].key));
    }
  }

  /** A name no default has is there in the end only if it was there before. */
  lemma {:induction false} NotYetThere(m: Flow, ws: seq<Wanted>, read: Flow -> Bytes, name: Bytes)
    requires m.Collection? && ReadsQuoted(read) && name !in Names(m.cells, read)
    requires forall k, a, b :: 0 <= k < |ws| && IsCore(ws[k].key, a, b) && HasSolid(Print(ws[k].value)) ==>
      ws[k].key[a..b] != name
    ensures name !in Names(Completed(m, ws, read).cells, read)
  {
    hide TrimBytes, Names, Print, Appended, ReadsQuoted, HasSolid;
    if ws != [] {
      var last := |ws| - 1;
      var before := Completed(m, ws[..last], read);
      NotYetThere(m, ws[..last], read, name);
      TrimTells(ws[last].key);
      TrimTells(Print(ws[last].value));
      if HasSolid(ws[last].key) {
        var a, b := CoreOf(ws[last].key);
        TrimLeavesTheCore(ws[last].key, a, b);
      }
      AppendedNames(before, ws[last].AsDefault().Name(), ws[last].value, read);
    }
  }
}
