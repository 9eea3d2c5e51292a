/** Reading a request log one line at a time through a buffer of fixed size. */
module LineReading {
  import opened ByteText

  datatype Signal = Fine | BufferFull | Ended

  /** A line the buffer holds: with its line feed it may fill the buffer, without one it may not. */
  predicate Fits(line: Bytes, size: nat) { if EndsLine(line) then |line| <= size else |line| < size }

  /** What the first unread line gives: its bytes if it fits, whether the input ended with it, and what is left. */
  datatype Read = Whole(line: Bytes, signal: Signal, rest: Bytes) | Overlong(signal: Signal, rest: Bytes)

  function NextRead(rest: Bytes, size: nat): Read {
    var first := rest[..LineLength(rest)];
    var signal, after := if EndsLine(first) then Fine else Ended, rest[LineLength(rest)..];
    if Fits(first, size) then Whole(first, signal, after) else Overlong(signal, after)
  }

  class LineReader {
    var rest: Bytes
    const size: nat

    constructor (source: Bytes, size: nat)
      requires size > 0
      ensures rest == source && this.size == size
    {
      this.rest, this.size := source, size;
    }

    /** The buffered reader's contract: up to the line feed, or a full buffer, or what is left. */
    method ReadSlice() returns (chunk: Bytes, signal: Signal)
      requires size > 0
      modifies this`rest
      ensures old(rest) == chunk + rest && |chunk| <= size
      ensures signal == Fine ==> EndsLine(chunk) && NEWLINE !in chunk[..|chunk| - 1]
      ensures signal != Fine ==> NEWLINE !in chunk
      ensures signal == BufferFull <==> |chunk| == size && signal != Fine
      ensures signal == Ended ==> rest == []
    {
      var i := 0;
      while i < |rest| && i < size && rest[i] != NEWLINE
        invariant i <= |rest| && i <= size && NEWLINE !in rest[..i]
      {
        i := i + 1;
      }
      if i == size {
        chunk, signal := rest[..i], BufferFull;
      } else if i == |rest| {
        chunk, signal := rest[..i], Ended;
      } else {
        chunk, signal, i := rest[..i + 1], Fine, i + 1;
        assert chunk[..|chunk| - 1] == rest[..i - 1];
      }
      rest := rest[i..];
    }

    /**
     The next line, or the news that it does not fit; the reader is behind it in either case. What is returned as a
     truncated line means nothing: it stood in the buffer the rest of the line was drained through.
     */
    method Next() returns (line: Bytes, truncated: bool, signal: Signal)
      requires size > 0
      modifies this`rest
      ensures NextRead(old(rest), size) == if truncated then Overlong(signal, rest) else Whole(line, signal, rest)
    {
      ghost var all := rest;
      line, signal := ReadSlice();
      Sliced(all, line, rest, signal, size);
      if signal != BufferFull {
        return line, false, signal;
      }
      while true
        invariant size > 0 && all == all[..|all| - |rest|] + rest && |rest| <= |all| - size
        invariant NEWLINE !in all[..|all| - |rest|]
        decreases |rest|
      {
        ghost var before := rest;
        var dropped;
        dropped, signal := ReadSlice();
        Dropped(all, before, dropped, rest, signal, size);
        if signal != BufferFull {
          return line, true, signal;
        }
      }
    }
  }

  /** A chunk without a line feed that fills the buffer starts a longer line; any other chunk is the line. */
  lemma {:induction false} Sliced(all: Bytes, chunk: Bytes, rest: Bytes, signal: Signal, size: nat)
    requires all == chunk + rest && |chunk| <= size
    requires signal == Fine ==> EndsLine(chunk) && NEWLINE !in chunk[..|chunk| - 1]
    requires signal != Fine ==> NEWLINE !in chunk
    requires signal == BufferFull <==> |chunk| == size && signal != Fine
    requires signal == Ended ==> rest == []
    ensures signal != BufferFull ==> NextRead(all, size) == Whole(chunk, signal, rest)
    ensures signal == BufferFull ==> all == all[..|all| - |rest|] + rest && NEWLINE !in all[..|all| - |rest|]
  {
    assert forall i :: 0 <= i < |chunk| ==> all[i] == chunk[i];
    assert signal == Fine ==> forall i :: 0 <= i < |chunk| - 1 ==> chunk[i] == chunk[..|chunk| - 1][i];
    if signal == Fine {
      assert LineLength(all) == |chunk|;
    } else {
    }
    assert all[..|chunk|] == chunk && all[|chunk|..] == rest;
  }

  lemma {:induction false} Dropped(all: Bytes, before: Bytes, chunk: Bytes, rest: Bytes, signal: Signal, size: nat)
    requires 0 < size && |before| <= |all| - size && all == all[..|all| - |before|] + before && NEWLINE !in all[..|all| - |before|]
    requires before == chunk + rest && |chunk| <= size
    requires signal == Fine ==> EndsLine(chunk) && NEWLINE !in chunk[..|chunk| - 1]
    requires signal != Fine ==> NEWLINE !in chunk
    requires signal == BufferFull <==> |chunk| == size && signal != Fine
    requires signal == Ended ==> rest == []
    ensures signal != BufferFull ==> NextRead(all, size) == Overlong(signal, rest)
    ensures signal == BufferFull ==> all == all[..|all| - |rest|] + rest && NEWLINE !in all[..|all| - |rest|]
  {
    hide LineLength;
    var n := |all| - |before|;
    assert all[n..] == before && |all| == n + |chunk| + |rest|;
    if signal == BufferFull {
      assert all[..n + |chunk|] == all[..n] + chunk && all[n + |chunk|..] == rest;
    } else {
      assert all[n + |chunk|..] == rest;
      assert EndsLine(all[..n + |chunk|]) <==> signal == Fine by {
        assert all[..n + |chunk|] == all[..n] + chunk;
      }
    }
  }

}
