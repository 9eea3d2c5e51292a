/** The record store's cleaning: the retention window first, then the size cap, oldest file first. */
module Store {

  /** A record file, and whether removing it for its age or for the cap would fail. */
  datatype StoredFile = StoredFile(path: string, date: int, size: nat, agedStuck: bool, capStuck: bool)

  function TotalSize(files: seq<StoredFile>): nat {
    if files == [] then 0 else files[0].size + TotalSize(files[1..])
  }

  predicate StaysIn(f: StoredFile, cutoff: int) { f.date >= cutoff || f.agedStuck }

  /** What retention leaves: the files that are young enough, and those that could not be removed. */
  function Retained(files: seq<StoredFile>, cutoff: int): seq<StoredFile> {
    if files == [] then [] else
      Retained(files[..|files| - 1], cutoff) + if StaysIn(files[|files| - 1], cutoff) then [files[|files| - 1]] else []
  }

  /** What the cap leaves of files, oldest first, that take `total` bytes together with the ones before them. */
  function Trimmed(files: seq<StoredFile>, total: int, limit: int): seq<StoredFile> {
    if files == [] || total <= limit then files
    else if files[0].capStuck then [files[0]] + Trimmed(files[1..], total, limit)
    else Trimmed(files[1..], total - files[0].size, limit)
  }

  method Clean(files: seq<StoredFile>, cutoff: int, limit: int) returns (kept: seq<StoredFile>, total: int)
    ensures kept == Trimmed(Retained(files, cutoff), TotalSize(Retained(files, cutoff)), limit)
    ensures total == TotalSize(kept)
  {
    kept := [];
    for i := 0 to |files|
      invariant kept == Retained(files[..i], cutoff)
    {
      assert files[..i + 1][..i] == files[..i];
      if files[i].date < cutoff && !files[i].agedStuck {
        continue;
      }
      kept := kept + [files[i]];
    }
    assert files[..|files|] == files;
    ghost var before := kept;
    total := SizeOf(kept);
    ghost var start := total;
    var index := 0;
    assert kept[0..] == kept;
    while index < |kept| && total > limit
      invariant index <= |kept| && total == TotalSize(kept)
      invariant Trimmed(before, start, limit) == kept[..index] + Trimmed(kept[index..], total, limit)
      decreases |kept| - index
    {
      Around(kept, index, total, limit);
      if kept[index].capStuck {
        index := index + 1;
        continue;
      }
      total := total - kept[index].size;
      kept := kept[..index] + kept[index + 1..];
    }
    assert kept == kept[..index] + kept[index..];
  }

  /** One turn of the loop: the file at `index` is stepped over, or taken out. */
  lemma {:induction false} Around(kept: seq<StoredFile>, index: nat, total: int, limit: int)
    requires index < |kept| && total > limit
    ensures kept[index].capStuck ==>
      kept[..index] + Trimmed(kept[index..], total, limit) == kept[..index + 1] + Trimmed(kept[index + 1..], total, limit)
    ensures !kept[index].capStuck ==>
      Trimmed(kept[index..], total, limit) == Trimmed(kept[index + 1..], total - kept[index].size, limit)
    ensures TotalSize(kept[..index] + kept[index + 1..]) == TotalSize(kept) - kept[index].size
    ensures (kept[..index] + kept[index + 1..])[..index] == kept[..index]
      && (kept[..index] + kept[index + 1..])[index..] == kept[index + 1..]
  {
    assert kept[index..][1..] == kept[index + 1..];
    assert kept == kept[..index] + kept[index..];
    SizePlus(kept[..index], kept[index..]);
    SizePlus(kept[..index], kept[index + 1..]);
  }

  method SizeOf(files: seq<StoredFile>) returns (total: nat)
    ensures total == TotalSize(files)
  {
    total := 0;
    for i := 0 to |files|
      invariant total == TotalSize(files[..i])
    {
      assert files[..i + 1] == files[..i] + [files[i]];
      SizePlus(files[..i], [files[i]]);
      assert TotalSize([files[i]]) == files[i].size + TotalSize([files[i]][1..]);
      total := total + files[i].size;
    }
    assert files[..|files|] == files;
  }

  lemma {:induction false} SizePlus(a: seq<StoredFile>, b: seq<StoredFile>)
    ensures TotalSize(a + b) == TotalSize(a) + TotalSize(b)
  {
    if a == [] {
      assert a + b == b;
    } else {
      assert (a + b)[1..] == a[1..] + b;
      SizePlus(a[1..], b);
    }
  }

  // --- what cleaning leaves -----------------------------------------------------------------------------

  /** Retention removes exactly the files before the cutoff that can be removed. */
  lemma {:induction false} RetentionIsExact(files: seq<StoredFile>, cutoff: int, f: StoredFile)
    ensures f in Retained(files, cutoff) <==> f in files && (f.date >= cutoff || f.agedStuck)
  {
    if files != [] {
      assert files == files[..|files| - 1] + [files[|files| - 1]];
      RetentionIsExact(files[..|files| - 1], cutoff, f);
    }
  }

  /** The files before `cut` that could not be removed. */
  function Stuck(files: seq<StoredFile>): seq<StoredFile> {
    if files == [] then [] else (if files[0].capStuck then [files[0]] else []) + Stuck(files[1..])
  }

  function Removable(files: seq<StoredFile>): nat {
    if files == [] then 0 else (if files[0].capStuck then 0 else files[0].size) + Removable(files[1..])
  }

  /** The shortest beginning of the list whose removable files bring the total down to the limit, or all of it. */
  ghost predicate IsCut(files: seq<StoredFile>, total: int, limit: int, cut: nat) {
    && cut <= |files|
    && (cut < |files| ==> total - Removable(files[..cut]) <= limit)
    && forall k :: 0 <= k < cut ==> total - Removable(files[..k]) > limit
  }

  /** Stepping over or removing the first file moves the cut of the others by one. */
  lemma {:induction false} CutMoves(files: seq<StoredFile>, total: int, limit: int, rest: nat)
    requires files != [] && total > limit
    requires IsCut(files[1..], total - Removable(files[..1]), limit, rest)
    ensures IsCut(files, total, limit, rest + 1)
  {
    forall k: nat | 0 < k <= |files|
      ensures Removable(files[..k]) == Removable(files[..1]) + Removable(files[1..][..k - 1])
    {
      assert files[..k][1..] == files[1..][..k - 1] && files[..1][1..] == [];
    }
    forall k | 0 <= k < rest + 1
      ensures total - Removable(files[..k]) > limit
    {
      if k == 0 {
        assert files[..0] == [];
      } else {
        assert total - Removable(files[..1]) - Removable(files[1..][..k - 1]) > limit;
      }
    }
  }

  /**
   The cap removes what it can from the front of the list and no more than it has to: everything from the cut
   on stays, before it only what could not be removed, and every earlier cut would still be over the limit.
   */
  lemma {:induction false} CapRemovesTheOldest(files: seq<StoredFile>, total: int, limit: int) returns (cut: nat)
    ensures IsCut(files, total, limit, cut)
    ensures Trimmed(files, total, limit) == Stuck(files[..cut]) + files[cut..]
  {
    hide Removable, IsCut, Stuck, Trimmed;
    if files == [] || total <= limit {
      cut := 0;
      EmptyCut(files, total, limit);
    } else {
      var left := total - Removable(files[..1]);
      var rest := CapRemovesTheOldest(files[1..], left, limit);
      cut := rest + 1;
      CutMoves(files, total, limit, rest);
      FirstFile(files, total, limit, rest);
      Regroup(Stuck(files[..1]), Stuck(files[1..][..rest]), files[cut..]);
    }
  }

  /** The first file, on either side. */
  lemma {:induction false} FirstFile(files: seq<StoredFile>, total: int, limit: int, rest: nat)
    requires rest < |files| && total > limit
    ensures Trimmed(files, total, limit) == Stuck(files[..1]) + Trimmed(files[1..], total - Removable(files[..1]), limit)
    ensures Stuck(files[..rest + 1]) == Stuck(files[..1]) + Stuck(files[1..][..rest])
    ensures files[rest + 1..] == files[1..][rest..]
  {
    assert files[..1][1..] == [] && files[..rest + 1][1..] == files[1..][..rest];
    assert Stuck(files[..1]) == if files[0].capStuck then [files[0]] else [];
    assert Removable(files[..1]) == if files[0].capStuck then 0 else files[0].size;
  }

  lemma {:induction false} Regroup<T>(a: seq<T>, b: seq<T>, c: seq<T>)
    ensures a + (b + c) == a + b + c
  {
  }

  lemma {:induction false} EmptyCut(files: seq<StoredFile>, total: int, limit: int)
    requires files == [] || total <= limit
    ensures IsCut(files, total, limit, 0) && Trimmed(files, total, limit) == Stuck(files[..0]) + files[0..]
  {
    assert files[..0] == [];
  }

  /** The listing the cleaning works on is sorted by the date in the file names. */
  ghost predicate ByAge(files: seq<StoredFile>) { forall i, j :: 0 <= i < j < |files| ==> files[i].date <= files[j].date }

  /** Retention keeps the order of the listing. */
  lemma {:induction false} RetainedByAge(files: seq<StoredFile>, cutoff: int)
    requires ByAge(files)
    ensures ByAge(Retained(files, cutoff))
  {
    if files != [] {
      var n := |files| - 1;
      RetainedByAge(files[..n], cutoff);
      forall f | f in Retained(files[..n], cutoff)
        ensures f.date <= files[n].date
      {
        RetentionIsExact(files[..n], cutoff, f);
      }
    }
  }

  /** Of the files of a listing that could be removed, the cap removes none that is younger than one it keeps. */
  lemma {:induction false} YoungerStays(files: seq<StoredFile>, cutoff: int, limit: int) returns (cut: nat)
    requires ByAge(files)
    ensures var r := Retained(files, cutoff);
      && IsCut(r, TotalSize(r), limit, cut)
      && Trimmed(r, TotalSize(r), limit) == Stuck(r[..cut]) + r[cut..]
      && forall f, g :: f in r[..cut] && g in r[cut..] ==> f.date <= g.date
  {
    var r := Retained(files, cutoff);
    RetainedByAge(files, cutoff);
    cut := CapRemovesTheOldest(r, TotalSize(r), limit);
  }

  /** Over the limit at the end means nothing is left that could be removed. */
  lemma {:induction false} OverTheCapIsStuck(files: seq<StoredFile>, limit: int)
    ensures TotalSize(Trimmed(files, TotalSize(files), limit)) > limit ==>
      forall f :: f in Trimmed(files, TotalSize(files), limit) ==> f.capStuck
  {
    TrimmedSize(files, TotalSize(files), limit);
  }

  lemma {:induction false} TrimmedSize(files: seq<StoredFile>, total: int, limit: int)
    ensures var t := Trimmed(files, total, limit);
      total - TotalSize(files) + TotalSize(t) > limit ==> forall f :: f in t ==> f.capStuck
  {
    if files != [] && total > limit {
      if files[0].capStuck {
        TrimmedSize(files[1..], total, limit);
        assert Trimmed(files, total, limit)[1..] == Trimmed(files[1..], total, limit);
      } else {
        TrimmedSize(files[1..], total - files[0].size, limit);
      }
    }
  }
}
