/** Export: collecting the files to transfer and packing them, in order, into archives no larger than a split size. */
module ExportPacking {

  /** A file to export: provider, path under it, and the size and hash the store recorded. */
  datatype FileEntry = FileEntry(provider: string, relPath: string, size: nat, sha256: string)

  /** One archive: its number and the files packed into it, in order. */
  datatype Archive = Archive(number: nat, files: seq<FileEntry>)

  function Total(files: seq<FileEntry>): nat {
    if files == [] then 0 else Total(files[..|files| - 1]) + files[|files| - 1].size
  }

  function Concat(archives: seq<Archive>): seq<FileEntry> {
    if archives == [] then [] else Concat(archives[..|archives| - 1]) + archives[|archives| - 1].files
  }

  // ---------------------------------------------------------------- what a packing is

  /** The archive holds at most splitSize bytes, or it is empty files followed by one file that alone exceeds it. */
  ghost predicate FitsOrOversize(files: seq<FileEntry>, splitSize: nat) {
    || Total(files) <= splitSize
    || (files != [] && files[|files| - 1].size > splitSize && Total(files[..|files| - 1]) == 0)
  }

  ghost predicate Sound(a: Archive, number: nat, splitSize: nat) {
    a.number == number && a.files != [] && FitsOrOversize(a.files, splitSize)
  }

  /** The next archive was started because its first file did not fit in this one any more. */
  ghost predicate Rolled(a: Archive, next: Archive, splitSize: nat) {
    next.files != [] && Total(a.files) > 0 && Total(a.files) + next.files[0].size > splitSize
  }

  /** A next-fit packing: numbered from one, nothing lost or moved, every archive non-empty and within its bound. */
  ghost predicate IsPacking(files: seq<FileEntry>, splitSize: nat, archives: seq<Archive>) {
    && Concat(archives) == files
    && (forall k | 0 <= k < |archives| :: Sound(archives[k], k + 1, splitSize))
    && (forall k | 0 < k < |archives| :: Rolled(archives[k - 1], archives[k], splitSize))
  }

  lemma {:induction false} TotalPush(files: seq<FileEntry>, f: FileEntry)
    ensures Total(files + [f]) == Total(files) + f.size
  {
    assert (files + [f])[..|files|] == files;
  }

  lemma {:induction false} TotalHead(files: seq<FileEntry>)
    requires files != []
    ensures Total(files) >= files[0].size
  {
    if |files| > 1 {
      TotalHead(files[..|files| - 1]);
    }
  }

  lemma {:induction false} TotalConcat(a: seq<FileEntry>, b: seq<FileEntry>)
    ensures Total(a + b) == Total(a) + Total(b)
  {
    if b == [] {
      assert a + b == a;
    } else {
      assert (a + b)[..|a + b| - 1] == a + b[..|b| - 1];
      TotalConcat(a, b[..|b| - 1]);
    }
  }

  lemma {:induction false} ConcatPush(archives: seq<Archive>, a: Archive)
    ensures Concat(archives + [a]) == Concat(archives) + a.files
  {
    assert (archives + [a])[..|archives|] == archives;
  }

  lemma NewArchiveSound(f: FileEntry, number: nat, splitSize: nat)
    ensures Sound(Archive(number, [f]), number, splitSize)
  {
    TotalPush([], f);
    assert [f][..0] == [];
  }

  lemma FirstFile(f: FileEntry, splitSize: nat)
    ensures IsPacking([f], splitSize, [Archive(1, [f])])
  {
    ConcatPush([], Archive(1, [f]));
    assert [] + [Archive(1, [f])] == [Archive(1, [f])];
    NewArchiveSound(f, 1, splitSize);
    hide Sound, Rolled;
  }

  lemma GrownSound(last: Archive, number: nat, splitSize: nat, f: FileEntry)
    requires Sound(last, number, splitSize)
    requires Total(last.files) == 0 || Total(last.files) + f.size <= splitSize
    ensures Sound(last.(files := last.files + [f]), number, splitSize)
  {
    TotalPush(last.files, f);
    assert (last.files + [f])[..|last.files|] == last.files;
  }

  /** Adding a file to the last archive, when it still fits or the archive holds no bytes yet. */
  lemma GrowLast(files: seq<FileEntry>, splitSize: nat, init: seq<Archive>, last: Archive, f: FileEntry)
    requires IsPacking(files, splitSize, init + [last])
    requires Total(last.files) == 0 || Total(last.files) + f.size <= splitSize
    ensures IsPacking(files + [f], splitSize, init + [last.(files := last.files + [f])])
  {
    var n := |init|;
    var before, grown := init + [last], last.(files := last.files + [f]);
    var after := init + [grown];
    ConcatPush(init, last);
    ConcatPush(init, grown);
    assert Concat(init) + last.files + [f] == Concat(init) + (last.files + [f]);
    assert before[n] == last;
    GrownSound(last, n + 1, splitSize, f);
    if n > 0 {
      assert Rolled(before[n - 1], before[n], splitSize);
      GrownRolled(before[n - 1], last, splitSize, f);
    }
    hide Total, Concat, Sound, Rolled;
    forall k | 0 <= k < |after| ensures Sound(after[k], k + 1, splitSize) {
      assert Sound(before[k], k + 1, splitSize);
    }
    forall k | 0 < k < |after| ensures Rolled(after[k - 1], after[k], splitSize) {
      assert Rolled(before[k - 1], before[k], splitSize);
    }
  }

  lemma GrownRolled(a: Archive, last: Archive, splitSize: nat, f: FileEntry)
    requires Rolled(a, last, splitSize)
    ensures Rolled(a, last.(files := last.files + [f]), splitSize)
  {
    hide Total;
  }

  /** Starting a new archive for a file the last one has no room for. */
  lemma RollOver(files: seq<FileEntry>, splitSize: nat, archives: seq<Archive>, f: FileEntry)
    requires IsPacking(files, splitSize, archives) && archives != []
    requires Total(archives[|archives| - 1].files) > 0
    requires Total(archives[|archives| - 1].files) + f.size > splitSize
    ensures IsPacking(files + [f], splitSize, archives + [Archive(|archives| + 1, [f])])
  {
    var next := Archive(|archives| + 1, [f]);
    ConcatPush(archives, next);
    NewArchiveSound(f, next.number, splitSize);
    hide Total, Concat, Sound;
    assert Rolled(archives[|archives| - 1], next, splitSize);
    hide Rolled;
  }

  // ---------------------------------------------------------------- the split loop

  /** Closed archives and the open one, which has the next number, pack the files added so far. */
  ghost predicate OpenPacking(added: seq<FileEntry>, splitSize: nat, archives: seq<Archive>, current: seq<FileEntry>) {
    if added == [] then archives == [] && current == []
    else IsPacking(added, splitSize, archives + [Archive(|archives| + 1, current)])
  }

  lemma {:induction false} AddToOpen(added: seq<FileEntry>, splitSize: nat, archives: seq<Archive>,
                                     current: seq<FileEntry>, f: FileEntry)
    requires OpenPacking(added, splitSize, archives, current)
    ensures if Total(current) > 0 && Total(current) + f.size > splitSize
            then OpenPacking(added + [f], splitSize, archives + [Archive(|archives| + 1, current)], [f])
            else OpenPacking(added + [f], splitSize, archives, current + [f])
  {
    assert Total([]) == 0 && [] + [f] == [f];
    hide IsPacking, Total;
    if added == [] {
      FirstFile(f, splitSize);
      assert [] + [Archive(1, [f])] == [Archive(1, [f])];
    } else if Total(current) > 0 && Total(current) + f.size > splitSize {
      RollOver(added, splitSize, archives + [Archive(|archives| + 1, current)], f);
    } else {
      GrowLast(added, splitSize, archives, Archive(|archives| + 1, current), f);
    }
  }

  lemma TotalNone()
    ensures Total([]) == 0
  {}

  /** The archives under construction, shared by the closures openArchive and closeArchive. */
  class Splitter {
    const splitSize: nat
    var archiveNum: nat
    var currentSize: nat
    var currentFiles: seq<FileEntry>
    var archives: seq<Archive>

    constructor (splitSize: nat)
      ensures this.splitSize == splitSize && Valid([])
    {
      this.splitSize := splitSize;
      archiveNum, currentSize, currentFiles, archives := 1, 0, [], [];
    }

    /** The archives closed so far and the open one together pack the files added so far. */
    ghost predicate Valid(added: seq<FileEntry>)
      reads this
    {
      && archiveNum == |archives| + 1
      && currentSize == Total(currentFiles)
      && OpenPacking(added, splitSize, archives, currentFiles)
    }

    method CloseArchive()
      modifies `archives, `archiveNum
      ensures archives == old(archives) + [Archive(old(archiveNum), currentFiles)]
      ensures archiveNum == old(archiveNum) + 1
    {
      archives := archives + [Archive(archiveNum, currentFiles)];
      archiveNum := archiveNum + 1;
    }

    method OpenArchive()
      modifies `currentFiles, `currentSize
      ensures currentFiles == [] && currentSize == 0
    {
      currentFiles, currentSize := [], 0;
    }

    /** One turn of the split loop: roll to a new archive when the file would exceed the split size, then add it. */
    method Add(f: FileEntry, ghost added: seq<FileEntry>)
      requires Valid(added)
      modifies this
      ensures Valid(added + [f])
    {
      hide OpenPacking, Total;
      AddToOpen(added, splitSize, archives, currentFiles, f);
      TotalNone();
      assert [] + [f] == [f];
      if currentSize > 0 && currentSize + f.size > splitSize {
        CloseArchive();
        OpenArchive();
      }
      TotalPush(currentFiles, f);
      currentFiles := currentFiles + [f];
      currentSize := currentSize + f.size;
    }

    /** The whole split of a non-empty list of files. */
    method Split(files: seq<FileEntry>)
      requires Valid([]) && files != []
      modifies this
      ensures IsPacking(files, splitSize, archives)
    {
      hide IsPacking;
      for i := 0 to |files|
        invariant Valid(files[..i])
      {
        assert files[..i + 1] == files[..i] + [files[i]];
        Add(files[i], files[..i]);
      }
      assert files[..|files|] == files;
      CloseArchive();
    }
  }

  // ---------------------------------------------------------------- how many archives that makes

  lemma AdjacentExceed(files: seq<FileEntry>, splitSize: nat, archives: seq<Archive>, k: nat)
    requires IsPacking(files, splitSize, archives) && 0 < k < |archives|
    ensures Total(archives[k - 1].files) + Total(archives[k].files) > splitSize
    ensures Total(archives[k - 1].files) > 0
  {
    assert Rolled(archives[k - 1], archives[k], splitSize);
    TotalHead(archives[k].files);
  }

  /** The files of the first k archives: pairs of neighbours outweigh the split size. */
  lemma {:induction false} PairsExceed(files: seq<FileEntry>, splitSize: nat, archives: seq<Archive>, k: nat)
    requires IsPacking(files, splitSize, archives) && 2 * k <= |archives|
    ensures Total(Concat(archives[..2 * k])) >= k * (splitSize + 1)
  {
    hide Total, Concat, IsPacking;
    if k > 0 {
      PairsExceed(files, splitSize, archives, k - 1);
      AdjacentExceed(files, splitSize, archives, 2 * k - 1);
      ConcatTake(archives, 2 * k - 2);
      ConcatTake(archives, 2 * k - 1);
      assert (k - 1) * (splitSize + 1) + (splitSize + 1) == k * (splitSize + 1);
    }
  }

  lemma ConcatTake(archives: seq<Archive>, k: nat)
    requires k < |archives|
    ensures Total(Concat(archives[..k + 1])) == Total(Concat(archives[..k])) + Total(archives[k].files)
  {
    assert archives[..k + 1] == archives[..k] + [archives[k]];
    ConcatPush(archives[..k], archives[k]);
    TotalConcat(Concat(archives[..k]), archives[k].files);
  }

  lemma {:induction false} ConcatMonotone(archives: seq<Archive>, k: nat, n: nat)
    requires k <= n <= |archives|
    ensures Total(Concat(archives[..k])) <= Total(Concat(archives[..n]))
  {
    hide *;
    if k < n {
      ConcatMonotone(archives, k, n - 1);
      ConcatTake(archives, n - 1);
    }
  }

  function CeilDiv(a: nat, b: nat): nat
    requires b > 0
  {
    (a + b - 1) / b
  }

  lemma CeilDivBound(a: nat, b: nat, m: nat)
    requires b > 0 && a > m * b
    ensures CeilDiv(a, b) >= m + 1
  {
    assert a + b - 1 >= (m + 1) * b;
    DivAtLeast(a + b - 1, b, m + 1);
  }

  lemma DivAtLeast(a: nat, b: nat, m: nat)
    requires b > 0 && a >= m * b
    ensures a / b >= m
  {
    var q, r := a / b, a % b;
    assert a == q * b + r;
    if q < m {
      assert (q + 1) * b <= m * b by { MulMonotone(q + 1, m, b); }
    }
  }

  lemma MulMonotone(x: nat, y: nat, b: nat)
    requires x <= y
    ensures x * b <= y * b
  {}

  /** Export never needs twice as many archives as the bytes alone would: k <= 2 * ceil(total / splitSize) - 1. */
  lemma {:induction false} NextFitBound(files: seq<FileEntry>, splitSize: nat, archives: seq<Archive>)
    requires splitSize > 0 && IsPacking(files, splitSize, archives) && Total(files) > 0
    ensures |archives| <= 2 * CeilDiv(Total(files), splitSize) - 1
  {
    var m := |archives| / 2;
    PairsExceed(files, splitSize, archives, m);
    ConcatMonotone(archives, 2 * m, |archives|);
    assert archives[..|archives|] == archives;
    var total := Total(files);
    if |archives| % 2 == 0 {
      MoreThanMultiple(total, splitSize, m);
    } else if m > 0 {
      ConcatTake(archives, 2 * m);
      MoreThanMultiple(total, splitSize, m);
    } else {
      CeilDivBound(total, splitSize, 0);
    }
  }

  lemma MoreThanMultiple(total: nat, splitSize: nat, m: nat)
    requires splitSize > 0 && total > 0 && total >= m * (splitSize + 1)
    ensures CeilDiv(total, splitSize) >= m + 1
  {
    assert m * (splitSize + 1) == m * splitSize + m;
    CeilDivBound(total, splitSize, m);
  }

  // ---------------------------------------------------------------- against any other way to pack

  /** The bytes an assignment of files to bins puts in bin b. */
  function Load(files: seq<FileEntry>, bin: seq<nat>, b: nat): nat
    requires |bin| == |files|
  {
    if files == [] then 0
    else
      var n := |files| - 1;
      Load(files[..n], bin[..n], b) + if bin[n] == b then files[n].size else 0
  }

  function Loads(files: seq<FileEntry>, bin: seq<nat>, m: nat): nat
    requires |bin| == |files|
  {
    if m == 0 then 0 else Loads(files, bin, m - 1) + Load(files, bin, m - 1)
  }

  lemma {:induction false} LoadsPush(files: seq<FileEntry>, bin: seq<nat>, m: nat)
    requires |bin| == |files| > 0
    ensures var n := |files| - 1;
            Loads(files, bin, m) == Loads(files[..n], bin[..n], m) + if bin[n] < m then files[n].size else 0
  {
    if m > 0 {
      LoadsPush(files, bin, m - 1);
    }
  }

  lemma {:induction false} LoadsAreTotal(files: seq<FileEntry>, bin: seq<nat>, m: nat)
    requires |bin| == |files| && forall k | 0 <= k < |bin| :: bin[k] < m
    ensures Loads(files, bin, m) == Total(files)
  {
    if files == [] {
      NoLoads(bin, m);
    } else {
      var n := |files| - 1;
      LoadsPush(files, bin, m);
      LoadsAreTotal(files[..n], bin[..n], m);
    }
  }

  lemma {:induction false} NoLoads(bin: seq<nat>, m: nat)
    requires |bin| == 0
    ensures Loads([], bin, m) == 0
  {
    if m > 0 {
      NoLoads(bin, m - 1);
    }
  }

  lemma {:induction false} LoadsBound(files: seq<FileEntry>, bin: seq<nat>, m: nat, splitSize: nat)
    requires |bin| == |files| && forall b | 0 <= b < m :: Load(files, bin, b) <= splitSize
    ensures Loads(files, bin, m) <= m * splitSize
  {
    if m > 0 {
      LoadsBound(files, bin, m - 1, splitSize);
      assert (m - 1) * splitSize + splitSize == m * splitSize;
    }
  }

  /**
   * However the files are distributed over m archives of at most splitSize bytes, in whatever order, Export uses
   * fewer than twice as many.
   */
  lemma {:induction false} TwiceOptimal(files: seq<FileEntry>, splitSize: nat, archives: seq<Archive>, bin: seq<nat>,
                                        m: nat)
    requires splitSize > 0 && IsPacking(files, splitSize, archives) && Total(files) > 0
    requires |bin| == |files| && forall k | 0 <= k < |bin| :: bin[k] < m
    requires forall b | 0 <= b < m :: Load(files, bin, b) <= splitSize
    ensures |archives| <= 2 * m - 1
  {
    NextFitBound(files, splitSize, archives);
    LoadsAreTotal(files, bin, m);
    LoadsBound(files, bin, m, splitSize);
    CeilDivAtMost(Total(files), splitSize, m);
  }

  lemma CeilDivAtMost(a: nat, b: nat, m: nat)
    requires b > 0 && a <= m * b
    ensures CeilDiv(a, b) <= m
  {
    var x := a + b - 1;
    var q, r := x / b, x % b;
    assert x == q * b + r;
    assert (m + 1) * b == m * b + b;
    if q > m {
      MulMonotone(m + 1, q, b);
    }
  }

  /** Files of no recorded size all go into one archive. */
  lemma {:induction false} EmptyFilesOneArchive(files: seq<FileEntry>, splitSize: nat, archives: seq<Archive>)
    requires IsPacking(files, splitSize, archives) && files != [] && Total(files) == 0
    ensures |archives| == 1
  {
    if |archives| > 1 {
      assert archives[..|archives|] == archives;
      ConcatTake(archives, 0);
      ConcatMonotone(archives, 1, |archives|);
      AdjacentExceed(files, splitSize, archives, 1);
    }
  }
}
