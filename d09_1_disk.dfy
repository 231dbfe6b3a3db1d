/** Day 9, part 1 (09-1/main.go): a disk map of digits is expanded into
    blocks (file ids and free space), the file blocks are moved one by one
    from the end into the leftmost free blocks, and a checksum is taken.
    A failed digit conversion (log.Fatal) and an index out of range are the
    Fault result. */
module DiskMap {

  datatype Result<T> = Ok(value: T) | Fault

  /** The id of a free block. */
  const FreeSpace: int := -1

  // ---------------------------------------------------------------------
  // Expansion

  predicate IsDigit(c: char)
  {
    '0' <= c <= '9'
  }

  /** strconv.Atoi on each rune: all must be decimal digits. */
  function DigitsOf(input: string): (r: Result<seq<nat>>)
    ensures r.Ok? <==> forall i :: 0 <= i < |input| ==> IsDigit(input[i])
    ensures r.Ok? ==> |r.value| == |input|
    ensures r.Ok? ==> forall i :: 0 <= i < |input| ==> r.value[i] == (input[i] - '0') as nat
  {
    if input == [] then Ok([])
    else
      var n := |input| - 1;
      match DigitsOf(input[..n])
      case Fault => Fault
      case Ok(ds) => if IsDigit(input[n]) then Ok(ds + [(input[n] - '0') as nat]) else Fault
  }

  /** What the digit at position p stands for: file p / 2 at even
      positions, free space at odd ones. */
  function KindAt(p: nat): int
  {
    if p % 2 == 0 then p / 2 else FreeSpace
  }

  function Repeat(x: int, n: nat): (r: seq<int>)
    ensures |r| == n && forall i :: 0 <= i < n ==> r[i] == x
  {
    if n == 0 then [] else Repeat(x, n - 1) + [x]
  }

  /** The blocks described by a list of digits. */
  function Expand(ds: seq<nat>): seq<int>
  {
    if ds == [] then [] else Expand(ds[..|ds| - 1]) + Repeat(KindAt(|ds| - 1), ds[|ds| - 1])
  }

  function Sum(ds: seq<nat>): nat
  {
    if ds == [] then 0 else Sum(ds[..|ds| - 1]) + ds[|ds| - 1]
  }

  /** The sum of the digits at odd positions: the free blocks. */
  function SumOdd(ds: seq<nat>): nat
  {
    if ds == [] then 0
    else SumOdd(ds[..|ds| - 1]) + (if (|ds| - 1) % 2 == 1 then ds[|ds| - 1] else 0)
  }

  /** Reads the disk map, appending each digit's blocks. */
  method ExpandDisk(input: string) returns (r: Result<seq<int>>)
    ensures DigitsOf(input).Fault? ==> r == Fault
    ensures DigitsOf(input).Ok? ==> r == Ok(Expand(DigitsOf(input).value))
  {
    var fs: seq<int> := [];
    var nextFileID := 0;
    var isFileNext := true;
    ghost var ds: seq<nat> := [];
    for p := 0 to |input|
      invariant |ds| == p && DigitsOf(input[..p]) == Ok(ds) && fs == Expand(ds)
      invariant isFileNext == (p % 2 == 0) && nextFileID == (p + 1) / 2
    {
      var d := input[p];
      if !IsDigit(d) {
        return Fault;
      }
      var numBlocks: nat := (d - '0') as nat;
      ghost var before := fs;
      var kind := if isFileNext then nextFileID else FreeSpace;
      Parity(p);
      for i := 0 to numBlocks
        invariant fs == before + Repeat(kind, i)
      {
        fs := fs + [kind];
      }
      DigitStep(input, p, ds);
      ExpandStep(ds, numBlocks);
      ds := ds + [numBlocks];
      if isFileNext {
        nextFileID := nextFileID + 1;
      }
      isFileNext := !isFileNext;
    }
    assert input[..|input|] == input;
    r := Ok(fs);
  }

  lemma DigitStep(input: string, p: nat, ds: seq<nat>)
    requires p < |input| && DigitsOf(input[..p]) == Ok(ds)
    ensures DigitsOf(input[..p + 1]) == if IsDigit(input[p]) then Ok(ds + [(input[p] - '0') as nat]) else Fault
  {
    assert input[..p + 1][..p] == input[..p];
  }

  lemma ExpandStep(ds: seq<nat>, n: nat)
    ensures Expand(ds + [n]) == Expand(ds) + Repeat(KindAt(|ds|), n)
  {
    assert (ds + [n])[..|ds|] == ds;
  }

  lemma Parity(p: nat)
    ensures ((p + 1) % 2 == 0) == (p % 2 != 0)
    ensures (p + 2) / 2 == (p + 1) / 2 + (if p % 2 == 0 then 1 else 0)
    ensures KindAt(p) == if p % 2 == 0 then (p + 1) / 2 else FreeSpace
  {
  }

  /** The disk holds as many blocks as the digits add up to. */
  lemma {:induction false} ExpandLength(ds: seq<nat>)
    ensures |Expand(ds)| == Sum(ds)
  {
    if ds != [] {
      ExpandLength(ds[..|ds| - 1]);
    }
  }

  /** File k has exactly as many blocks as the digit at position 2k says. */
  lemma {:induction false} ExpandFileCount(ds: seq<nat>, k: nat)
    ensures multiset(Expand(ds))[k] == if 2 * k < |ds| then ds[2 * k] else 0
  {
    if ds != [] {
      var n := |ds| - 1;
      ExpandFileCount(ds[..n], k);
      RepeatCount(KindAt(n), ds[n], k);
      assert multiset(Expand(ds)) == multiset(Expand(ds[..n])) + multiset(Repeat(KindAt(n), ds[n]));
      assert KindAt(n) == k <==> n == 2 * k;
      if 2 * k < n {
        assert ds[..n][2 * k] == ds[2 * k];
      }
    }
  }

  /** The free blocks are the digits at odd positions added up. */
  lemma {:induction false} ExpandFreeCount(ds: seq<nat>)
    ensures multiset(Expand(ds))[FreeSpace] == SumOdd(ds)
  {
    if ds != [] {
      var n := |ds| - 1;
      ExpandFreeCount(ds[..n]);
      RepeatCount(KindAt(n), ds[n], FreeSpace);
      assert multiset(Expand(ds)) == multiset(Expand(ds[..n])) + multiset(Repeat(KindAt(n), ds[n]));
    }
  }

  lemma {:induction false} RepeatCount(x: int, n: nat, y: int)
    ensures multiset(Repeat(x, n))[y] == if x == y then n else 0
  {
    if n > 0 {
      RepeatCount(x, n - 1, y);
      assert multiset(Repeat(x, n)) == multiset(Repeat(x, n - 1)) + multiset{x};
    }
  }

  // ---------------------------------------------------------------------
  // Compaction

  predicate HasFree(s: seq<int>)
  {
    exists i :: 0 <= i < |s| && s[i] == FreeSpace
  }

  predicate HasFile(s: seq<int>)
  {
    exists i :: 0 <= i < |s| && s[i] != FreeSpace
  }

  /** No file block comes after a free block. */
  predicate Compacted(s: seq<int>)
  {
    forall i, j :: 0 <= i < j < |s| && s[i] == FreeSpace ==> s[j] == FreeSpace
  }

  /** i is where the front scan from front stops: past file blocks only,
      on a free block unless it ran off the end. */
  predicate FreeScan(s: seq<int>, front: int, i: int)
  {
    0 <= front <= i <= |s|
    && (forall j :: front <= j < i ==> s[j] != FreeSpace)
    && (i < |s| ==> s[i] == FreeSpace)
  }

  /** i is where the back scan from back stops: past free blocks only, on
      a file block unless it ran off the start. */
  predicate FileScan(s: seq<int>, back: int, i: int)
  {
    -1 <= i <= back < |s|
    && (forall j :: i < j <= back ==> s[j] == FreeSpace)
    && (i >= 0 ==> s[i] != FreeSpace)
  }

  /** The front scan: from front on, the first free block, or the disk's
      length when there is none. */
  method ScanFree(fs: array<int>, front: nat) returns (i: nat)
    requires front <= fs.Length
    ensures FreeScan(fs[..], front, i)
  {
    i := front;
    while i < fs.Length && fs[i] != FreeSpace
      invariant front <= i <= fs.Length
      invariant forall j :: front <= j < i ==> fs[j] != FreeSpace
    {
      i := i + 1;
    }
  }

  /** The back scan: from back down, the last file block, or -1 when
      there is none. */
  method ScanFile(fs: array<int>, back: int) returns (i: int)
    requires -1 <= back < fs.Length
    ensures FileScan(fs[..], back, i)
  {
    i := back;
    while i >= 0 && fs[i] == FreeSpace
      invariant -1 <= i <= back
      invariant forall j :: i < j <= back ==> fs[j] == FreeSpace
    {
      i := i - 1;
    }
  }

  /** What the compaction keeps between rounds: the blocks are those of
      s0 rearranged; everything before front is a file block, everything
      after back is free; until the first swap nothing has moved, and
      after it the pointers sit just past a moved pair. */
  ghost predicate CompactInv(s0: seq<int>, s: seq<int>, front: int, back: int, swapped: bool)
  {
    && 0 <= front <= |s| && -1 <= back < |s| && |s| == |s0|
    && multiset(s) == multiset(s0)
    && (!swapped ==> s == s0 && front == 0 && back == |s| - 1)
    && (forall i :: 0 <= i < front ==> s[i] != FreeSpace)
    && (forall i :: back < i < |s| ==> s[i] == FreeSpace)
    && (swapped ==> front <= back + 1 < |s| && s[back + 1] == FreeSpace)
    && (swapped ==> 1 <= front && s[front - 1] != FreeSpace)
    && (swapped ==> HasFree(s0) && HasFile(s0))
  }

  /** The front scan runs off the disk only before the first swap, and
      only when the disk has no free block. */
  lemma FrontScanned(s0: seq<int>, s: seq<int>, front: int, back: int, swapped: bool, f: int)
    requires CompactInv(s0, s, front, back, swapped) && FreeScan(s, front, f)
    ensures f >= |s| ==> !swapped && s == s0 && !HasFree(s0)
    ensures swapped ==> f <= back + 1 && 1 <= f && s[f - 1] != FreeSpace
  {
  }

  /** The back scan runs off the disk only before the first swap, and only
      when the disk has no file block; when the scans have met, the disk
      is compacted. */
  lemma BackScanned(s0: seq<int>, s: seq<int>, front: int, back: int, swapped: bool, f: int, b: int)
    requires CompactInv(s0, s, front, back, swapped) && FreeScan(s, front, f) && f < |s|
    requires FileScan(s, back, b)
    ensures b < 0 ==> !swapped && s == s0 && HasFree(s0) && !HasFile(s0)
    ensures 0 <= b <= f ==> Compacted(s)
    ensures 0 <= b ==> HasFree(s0) && HasFile(s0)
  {
    FrontScanned(s0, s, front, back, swapped, f);
    if !swapped {
      assert s0[f] == FreeSpace;
      if b >= 0 {
        assert s0[b] != FreeSpace;
      }
    }
  }

  /** Swapping the free block at f with the file block at b (f < b)
      keeps the invariant with the pointers moved past them. */
  lemma Swapped(s0: seq<int>, s: seq<int>, front: int, back: int, swapped: bool, f: int, b: int, s': seq<int>)
    requires CompactInv(s0, s, front, back, swapped) && FreeScan(s, front, f) && FileScan(s, back, b)
    requires 0 <= f < b && s' == s[f := s[b]][b := s[f]]
    ensures CompactInv(s0, s', f + 1, b - 1, true)
  {
    BackScanned(s0, s, front, back, swapped, f, b);
    assert multiset(s') == multiset(s) by {
      assert s' == s[f := s[b]][b := s[f]];
    }
  }

  /** The number of free blocks in s. */
  function FreeCount(s: seq<int>): (r: nat)
    ensures r <= |s|
  {
    if s == [] then 0 else FreeCount(s[..|s| - 1]) + (if s[|s| - 1] == FreeSpace then 1 else 0)
  }

  /** The file blocks of s, read from the right. */
  function FilesFromRight(s: seq<int>): seq<int>
  {
    if s == [] then [] else FilesFromRight(s[1..]) + (if s[0] != FreeSpace then [s[0]] else [])
  }

  /** Block i of s once the k-th free block from the left has received
      moved[k]: a file block stays, a free block with no block left to
      receive stays free. */
  function PlacedAt(s: seq<int>, moved: seq<int>, i: int): int
    requires 0 <= i < |s|
  {
    if s[i] != FreeSpace then s[i]
    else if FreeCount(s[..i]) < |moved| then moved[FreeCount(s[..i])]
    else FreeSpace
  }

  /** The compacted disk, stated without pointers: with n file blocks, the
      k-th free block among the first n blocks receives the k-th file block,
      counted from the right, among the blocks from n on; the file blocks
      among the first n stay where they are, and every block from n on is
      free. */
  function Compaction(s: seq<int>): (r: seq<int>)
    ensures |r| == |s|
  {
    var n := |s| - FreeCount(s);
    seq(|s|, i requires 0 <= i < |s| => if i >= n then FreeSpace else PlacedAt(s, FilesFromRight(s[n..]), i))
  }

  lemma FreeCountSnoc(s: seq<int>, i: int)
    requires 0 <= i < |s|
    ensures FreeCount(s[..i + 1]) == FreeCount(s[..i]) + (if s[i] == FreeSpace then 1 else 0)
  {
    assert s[..i + 1][..i] == s[..i];
  }

  /** Counting free blocks over a run of blocks that are all free, or all
      file blocks. */
  lemma {:induction false} FreeCountRun(s: seq<int>, i: int, j: int, free: bool)
    requires 0 <= i <= j <= |s|
    requires forall k :: i <= k < j ==> (s[k] == FreeSpace) == free
    ensures FreeCount(s[..j]) == FreeCount(s[..i]) + (if free then j - i else 0)
    decreases j - i
  {
    if i < j {
      FreeCountRun(s, i, j - 1, free);
      FreeCountSnoc(s, j - 1);
    }
  }

  /** A free block at i has fewer free blocks before it than any longer
      prefix holds. */
  lemma {:induction false} FreeCountBefore(s: seq<int>, i: int, j: int)
    requires 0 <= i < j <= |s| && s[i] == FreeSpace
    ensures FreeCount(s[..i]) < FreeCount(s[..j])
    decreases j - i
  {
    FreeCountSnoc(s, j - 1);
    if i < j - 1 {
      FreeCountBefore(s, i, j - 1);
    }
  }

  lemma {:induction false} FreeCountMultiset(s: seq<int>)
    ensures FreeCount(s) == multiset(s)[FreeSpace]
  {
    if s != [] {
      var n := |s| - 1;
      FreeCountMultiset(s[..n]);
      assert s == s[..n] + [s[n]];
      assert multiset(s) == multiset(s[..n]) + multiset{s[n]};
    }
  }

  /** Free blocks in front of a suffix add no file block to it. */
  lemma {:induction false} FilesFromRightFree(s: seq<int>, i: int, j: int)
    requires 0 <= i <= j <= |s|
    requires forall k :: i <= k < j ==> s[k] == FreeSpace
    ensures FilesFromRight(s[i..]) == FilesFromRight(s[j..])
    decreases j - i
  {
    if i < j {
      assert s[i..][1..] == s[i + 1..];
      FilesFromRightFree(s, i + 1, j);
    }
  }

  lemma FilesFromRightFile(s: seq<int>, b: int)
    requires 0 <= b < |s| && s[b] != FreeSpace
    ensures FilesFromRight(s[b..]) == FilesFromRight(s[b + 1..]) + [s[b]]
  {
    assert s[b..][1..] == s[b + 1..];
  }

  /** The compaction's progress measured against the untouched disk s0:
      blocks before front are placed (the moved blocks are the file blocks
      after back, from the right, one per free block before front), blocks
      from front to back are untouched, and blocks after back are free. */
  ghost predicate Placed(s0: seq<int>, s: seq<int>, front: int, back: int)
  {
    && |s| == |s0| && 0 <= front <= back + 1 <= |s|
    && FreeCount(s0[..front]) == |FilesFromRight(s0[back + 1..])|
    && (forall i :: 0 <= i < front ==> s[i] == PlacedAt(s0, FilesFromRight(s0[back + 1..]), i))
    && (forall i :: front <= i <= back ==> s[i] == s0[i])
    && (forall i :: back < i < |s| ==> s[i] == FreeSpace)
  }

  /** The loop invariant of Compact. */
  ghost predicate Compacting(s0: seq<int>, s: seq<int>, front: int, back: int, swapped: bool)
  {
    CompactInv(s0, s, front, back, swapped) && Placed(s0, s, front, back)
  }

  /** One swap of Compact's loop keeps its invariant. */
  lemma SwapStep(s0: seq<int>, s: seq<int>, front: int, back: int, swapped: bool, f: int, b: int, s': seq<int>)
    requires Compacting(s0, s, front, back, swapped) && FreeScan(s, front, f) && FileScan(s, back, b)
    requires 0 <= f < b && s' == s[f := s[b]][b := s[f]]
    ensures Compacting(s0, s', f + 1, b - 1, true)
  {
    Swapped(s0, s, front, back, swapped, f, b, s');
    PlacedSwap(s0, s, front, back, f, b, s');
  }

  lemma PlacedStart(s0: seq<int>)
    ensures Placed(s0, s0, 0, |s0| - 1)
  {
    assert s0[|s0|..] == [];
  }

  /** A swap places the file block at b on the free block at f. */
  lemma PlacedSwap(s0: seq<int>, s: seq<int>, front: int, back: int, f: int, b: int, s': seq<int>)
    requires Placed(s0, s, front, back) && FreeScan(s, front, f) && FileScan(s, back, b)
    requires 0 <= f < b && s' == s[f := s[b]][b := s[f]]
    ensures Placed(s0, s', f + 1, b - 1)
  {
    var moved := FilesFromRight(s0[back + 1..]);
    FilesFromRightFree(s0, b + 1, back + 1);
    FilesFromRightFile(s0, b);
    var moved' := FilesFromRight(s0[b..]);
    assert moved' == moved + [s0[b]];
    FreeCountRun(s0, front, f, false);
    FreeCountSnoc(s0, f);
    forall i | 0 <= i < f + 1
      ensures s'[i] == PlacedAt(s0, moved', i)
    {
      if i < front && s0[i] == FreeSpace {
        FreeCountBefore(s0, i, front);
      }
    }
  }

  /** When the pointers meet, the disk is the compaction of s0. */
  lemma PlacedDone(s0: seq<int>, s: seq<int>, front: int, back: int, swapped: bool, f: int, b: int)
    requires CompactInv(s0, s, front, back, swapped) && Placed(s0, s, front, back)
    requires FreeScan(s, front, f) && f < |s| && FileScan(s, back, b) && 0 <= b <= f
    ensures s == Compaction(s0)
  {
    BackScanned(s0, s, front, back, swapped, f, b);
    forall i | f <= i < |s|
      ensures s[i] == FreeSpace
    {
      if i > f {
        assert s[f] == FreeSpace;
      }
    }
    PlacedMet(s0, s, front, back, f);
  }

  /** A disk whose first f blocks are files and the rest free has f file
      blocks, and so has every rearrangement of it. */
  lemma MetCount(s0: seq<int>, s: seq<int>, f: int)
    requires multiset(s) == multiset(s0) && 0 <= f <= |s|
    requires forall i :: 0 <= i < f ==> s[i] != FreeSpace
    requires forall i :: f <= i < |s| ==> s[i] == FreeSpace
    ensures |s0| - FreeCount(s0) == f
  {
    FreeCountRun(s, 0, f, false);
    FreeCountRun(s, f, |s|, true);
    assert s[..|s|] == s;
    FreeCountMultiset(s);
    FreeCountMultiset(s0);
    assert |s0| == |multiset(s0)| == |multiset(s)| == |s|;
  }

  lemma PlacedMet(s0: seq<int>, s: seq<int>, front: int, back: int, f: int)
    requires Placed(s0, s, front, back) && multiset(s) == multiset(s0)
    requires FreeScan(s, front, f) && f < |s|
    requires forall i :: f <= i < |s| ==> s[i] == FreeSpace
    requires forall i :: 0 <= i < front ==> s[i] != FreeSpace
    ensures s == Compaction(s0)
  {
    MetCount(s0, s, f);
    assert back + 1 < |s| ==> s[back + 1] == FreeSpace;
    assert forall k :: f <= k < back + 1 ==> s[k] == s0[k];
    FilesFromRightFree(s0, f, back + 1);
    var r := Compaction(s0);
    forall i | 0 <= i < |s|
      ensures s[i] == r[i]
    {
    }
  }

  /** Compact's swap: the file block at b moves to the free block at f. */
  method SwapBlocks(fs: array<int>, ghost s0: seq<int>, ghost front: int, ghost back: int, ghost swapped: bool,
                    f: int, b: int)
    requires Compacting(s0, fs[..], front, back, swapped)
    requires FreeScan(fs[..], front, f) && FileScan(fs[..], back, b) && 0 <= f < b
    modifies fs
    ensures Compacting(s0, fs[..], f + 1, b - 1, true)
  {
    ghost var s := fs[..];
    fs[f], fs[b] := fs[b], fs[f];
    SwapStep(s0, s, front, back, swapped, f, b, fs[..]);
  }

  /** The two-pointer compaction: the first free block from the front takes
      the last file block from the back, until the pointers meet. The scans
      run off the disk (an index panic) exactly when it has no free block
      or no file block. */
  method Compact(fs: array<int>) returns (r: Result<()>)
    modifies fs
    ensures r.Fault? <==> !(HasFree(old(fs[..])) && HasFile(old(fs[..])))
    ensures r.Fault? ==> fs[..] == old(fs[..])
    ensures r.Ok? ==> multiset(fs[..]) == multiset(old(fs[..])) && Compacted(fs[..])
    ensures r.Ok? ==> fs[..] == Compaction(old(fs[..]))
  {
    ghost var s0 := fs[..];
    var front := 0;
    var back := fs.Length - 1;
    ghost var swapped := false;
    PlacedStart(s0);
    while true
      invariant Compacting(s0, fs[..], front, back, swapped)
      decreases fs.Length - front + back + 1
    {
      var f := ScanFree(fs, front);
      FrontScanned(s0, fs[..], front, back, swapped, f);
      if f >= fs.Length {
        return Fault;
      }
      var b := ScanFile(fs, back);
      BackScanned(s0, fs[..], front, back, swapped, f, b);
      if b < 0 {
        return Fault;
      }
      if f >= b {
        PlacedDone(s0, fs[..], front, back, swapped, f, b);
        break;
      }
      SwapBlocks(fs, s0, front, back, swapped, f, b);
      front, back, swapped := f + 1, b - 1, true;
    }
    r := Ok(());
  }

  // ---------------------------------------------------------------------
  // Checksum

  /** The sum of position times id over the file blocks. */
  function ChecksumOf(s: seq<int>): int
  {
    if s == [] then 0
    else ChecksumOf(s[..|s| - 1]) + (if s[|s| - 1] != FreeSpace then (|s| - 1) * s[|s| - 1] else 0)
  }

  method Checksum(fs: seq<int>) returns (checksum: int)
    ensures checksum == ChecksumOf(fs)
  {
    checksum := 0;
    for i := 0 to |fs|
      invariant checksum == ChecksumOf(fs[..i])
    {
      assert fs[..i + 1][..i] == fs[..i];
      var id := fs[i];
      if id != FreeSpace {
        checksum := checksum + i * id;
      }
    }
    assert fs[..|fs|] == fs;
  }

  /** Freeing a file block takes its position times its id off the
      checksum, and writing a file block into a free one adds it. */
  lemma {:induction false} ChecksumUpdate(s: seq<int>, i: nat, x: int)
    requires i < |s|
    ensures ChecksumOf(s[i := x]) == ChecksumOf(s)
      - (if s[i] != FreeSpace then i * s[i] else 0) + (if x != FreeSpace then i * x else 0)
    decreases |s|
  {
    var n := |s| - 1;
    if i < n {
      assert s[i := x][..n] == s[..n][i := x];
      ChecksumUpdate(s[..n], i, x);
    } else {
      assert s[i := x][..n] == s[..n];
    }
  }
}
