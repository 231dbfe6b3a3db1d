/** Day 9, part 2 (09-2/main.go): the disk is expanded as in part 1, cut
    into maximal runs of one id (files and free spans), and then each whole
    file, from the last to the first, moves into the first free span left of
    it that is long enough. The free span shrinks from its left end; the
    space the file leaves is not added to any span. */
module FileMoves {
  import opened DiskMap

  datatype Option<T> = None | Some(value: T)

  /** A run of blocks: a file or a free span. */
  datatype FileEntry = FileEntry(ID: int, Length: nat, Location: nat)

  function End(e: FileEntry): nat
  {
    e.Location + e.Length
  }

  /** Every block of the entry's region lies on the disk and holds x. */
  predicate Holds(fs: seq<int>, e: FileEntry, x: int)
  {
    End(e) <= |fs| && forall p :: e.Location <= p < End(e) ==> fs[p] == x
  }

  // ---------------------------------------------------------------------
  // Runs

  /** The maximal runs of equal blocks among the first i, left to right. */
  function RunsTo(fs: seq<int>, i: nat): (r: seq<FileEntry>)
    requires i <= |fs|
    ensures (r == []) == (i == 0)
    ensures r != [] ==> r[|r| - 1].ID == fs[i - 1] && End(r[|r| - 1]) == i && r[|r| - 1].Length >= 1
  {
    if i == 0 then []
    else
      var rs := RunsTo(fs, i - 1);
      if rs != [] && rs[|rs| - 1].ID == fs[i - 1] then
        var last := rs[|rs| - 1];
        rs[..|rs| - 1] + [FileEntry(last.ID, last.Length + 1, last.Location)]
      else rs + [FileEntry(fs[i - 1], 1, i - 1)]
  }

  /** The maximal runs of the whole disk. */
  function Runs(fs: seq<int>): seq<FileEntry>
  {
    RunsTo(fs, |fs|)
  }

  /** The runs cover the first i blocks in order without gaps, each is a
      non-empty stretch of one id, and neighbours differ (so each run is
      maximal). */
  predicate Tiles(fs: seq<int>, runs: seq<FileEntry>, i: nat)
  {
    && (runs == [] <==> i == 0)
    && (runs != [] ==> runs[0].Location == 0 && End(runs[|runs| - 1]) == i)
    && (forall k :: 0 <= k < |runs| ==> runs[k].Length >= 1 && Holds(fs, runs[k], runs[k].ID))
    && (forall k :: 0 <= k < |runs| - 1 ==> End(runs[k]) == runs[k + 1].Location && runs[k].ID != runs[k + 1].ID)
  }

  lemma TileAppend(fs: seq<int>, rs: seq<FileEntry>, i: nat)
    requires 0 < i <= |fs| && Tiles(fs, rs, i - 1)
    requires rs != [] ==> rs[|rs| - 1].ID != fs[i - 1]
    ensures Tiles(fs, rs + [FileEntry(fs[i - 1], 1, i - 1)], i)
  {
  }

  lemma TileMerge(fs: seq<int>, rs: seq<FileEntry>, i: nat)
    requires 0 < i <= |fs| && Tiles(fs, rs, i - 1)
    requires rs != [] && rs[|rs| - 1].ID == fs[i - 1]
    ensures var last := rs[|rs| - 1];
      Tiles(fs, rs[..|rs| - 1] + [FileEntry(last.ID, last.Length + 1, last.Location)], i)
  {
    var m := |rs| - 1;
    var e := FileEntry(rs[m].ID, rs[m].Length + 1, rs[m].Location);
    var r := rs[..m] + [e];
    assert forall k :: 0 <= k < m ==> r[k] == rs[k];
    assert Holds(fs, e, e.ID) by {
      assert Holds(fs, rs[m], rs[m].ID);
    }
  }

  /** The runs tile the disk. */
  lemma {:induction false} RunsTile(fs: seq<int>, i: nat)
    requires i <= |fs|
    ensures Tiles(fs, RunsTo(fs, i), i)
  {
    if i > 0 {
      var rs := RunsTo(fs, i - 1);
      RunsTile(fs, i - 1);
      if rs != [] && rs[|rs| - 1].ID == fs[i - 1] {
        TileMerge(fs, rs, i);
      } else {
        TileAppend(fs, rs, i);
      }
    }
  }

  /** Extending a run that starts at a boundary: the runs of the longer
      prefix are those before the boundary plus the one run. */
  lemma {:induction false} RunsGrow(fs: seq<int>, start: nat, i: nat)
    requires start < i <= |fs|
    requires start == 0 || fs[start - 1] != fs[start]
    requires forall p :: start <= p < i ==> fs[p] == fs[start]
    ensures RunsTo(fs, i) == RunsTo(fs, start) + [FileEntry(fs[start], i - start, start)]
    decreases i
  {
    if i == start + 1 {
      RunsOpen(fs, start, i);
    } else {
      RunsGrow(fs, start, i - 1);
      RunsGrowStep(fs, start, i);
    }
  }

  /** One more block of the run's id lengthens the run by one. */
  lemma RunsGrowStep(fs: seq<int>, start: nat, i: nat)
    requires start + 1 < i <= |fs| && fs[i - 1] == fs[start]
    requires RunsTo(fs, i - 1) == RunsTo(fs, start) + [FileEntry(fs[start], i - 1 - start, start)]
    ensures RunsTo(fs, i) == RunsTo(fs, start) + [FileEntry(fs[start], i - start, start)]
  {
    RunsExtendLast(fs, i, RunsTo(fs, start), fs[start], i - 1 - start, start, i - start);
  }

  /** A block at a boundary opens a run of length one. */
  lemma RunsOpen(fs: seq<int>, start: nat, i: nat)
    requires i == start + 1 <= |fs|
    requires start == 0 || fs[start - 1] != fs[start]
    ensures RunsTo(fs, i) == RunsTo(fs, start) + [FileEntry(fs[start], i - start, start)]
  {
    var rs := RunsTo(fs, start);
    assert rs != [] ==> rs[|rs| - 1].ID != fs[start];
    RunsNewRun(fs, i, rs, fs[start], i - start, start);
  }

  /** A block whose id differs from the last run's starts a new run. */
  lemma RunsNewRun(fs: seq<int>, i: nat, rs: seq<FileEntry>, id: int, len: nat, loc: nat)
    requires 0 < i <= |fs| && RunsTo(fs, i - 1) == rs
    requires rs != [] ==> rs[|rs| - 1].ID != fs[i - 1]
    requires id == fs[i - 1] && len == 1 && loc == i - 1
    ensures RunsTo(fs, i) == rs + [FileEntry(id, len, loc)]
  {
  }

  /** One more block with the last run's id lengthens that run. */
  lemma RunsExtendLast(fs: seq<int>, i: nat, rs: seq<FileEntry>, id: int, len: nat, loc: nat, len': nat)
    requires 1 < i <= |fs| && RunsTo(fs, i - 1) == rs + [FileEntry(id, len, loc)] && id == fs[i - 1]
    requires len' == len + 1
    ensures RunsTo(fs, i) == rs + [FileEntry(id, len', loc)]
  {
    assert (rs + [FileEntry(id, len, loc)])[..|rs|] == rs;
  }

  /** The file runs, in order. */
  function Files(rs: seq<FileEntry>): seq<FileEntry>
  {
    if rs == [] then []
    else Files(rs[..|rs| - 1]) + (if rs[|rs| - 1].ID != FreeSpace then [rs[|rs| - 1]] else [])
  }

  /** The free runs, in order. */
  function Frees(rs: seq<FileEntry>): seq<FileEntry>
  {
    if rs == [] then []
    else Frees(rs[..|rs| - 1]) + (if rs[|rs| - 1].ID == FreeSpace then [rs[|rs| - 1]] else [])
  }

  /** Cuts the disk into runs, files and free spans kept apart. */
  method BuildSpans(fs: seq<int>) returns (files: seq<FileEntry>, freeSpans: seq<FileEntry>)
    ensures files == Files(Runs(fs)) && freeSpans == Frees(Runs(fs))
  {
    files := [];
    freeSpans := [];
    var i := 0;
    while i < |fs|
      invariant i <= |fs|
      invariant 0 < i < |fs| ==> fs[i] != fs[i - 1]
      invariant files == Files(RunsTo(fs, i)) && freeSpans == Frees(RunsTo(fs, i))
    {
      var id := fs[i];
      var fe := FileEntry(id, 0, i);
      ghost var start := i;
      while i < |fs| && id == fs[i]
        invariant start <= i <= |fs| && fe == FileEntry(id, i - start, start)
        invariant forall p :: start <= p < i ==> fs[p] == id
      {
        i := i + 1;
        fe := fe.(Length := fe.Length + 1);
      }
      RunsGrow(fs, start, i);
      ghost var rs := RunsTo(fs, start);
      assert (rs + [fe])[..|rs|] == rs;
      if id == FreeSpace {
        freeSpans := freeSpans + [fe];
      } else {
        files := files + [fe];
      }
    }
  }

  // ---------------------------------------------------------------------
  // Moving files

  /** The disk and its free spans. */
  datatype Disk = Disk(blocks: seq<int>, spans: seq<FileEntry>)

  predicate Within(n: nat, es: seq<FileEntry>)
  {
    forall k :: 0 <= k < |es| ==> End(es[k]) <= n
  }

  /** Left to right and not overlapping. */
  predicate Sorted(es: seq<FileEntry>)
  {
    forall a, b :: 0 <= a < b < |es| ==> End(es[a]) <= es[b].Location
  }

  /** The search from span j on: stop at a span right of the file, take the
      first one long enough. */
  function FirstFit(spans: seq<FileEntry>, file: FileEntry, j: nat): (r: Option<nat>)
    ensures r.Some? ==> j <= r.value < |spans| && spans[r.value].Location <= file.Location
                        && spans[r.value].Length >= file.Length
    decreases |spans| - j
  {
    if j >= |spans| then None
    else if spans[j].Location > file.Location then None
    else if spans[j].Length >= file.Length then Some(j)
    else FirstFit(spans, file, j + 1)
  }

  /** The copy loop, k blocks in: each step writes the id at the target and
      frees the source. */
  function MoveBlocks(fs: seq<int>, to: nat, from: nat, id: int, k: nat): (r: seq<int>)
    requires to + k <= |fs| && from + k <= |fs|
    ensures |r| == |fs|
  {
    if k == 0 then fs
    else MoveBlocks(fs, to, from, id, k - 1)[to + k - 1 := id][from + k - 1 := FreeSpace]
  }

  /** One file's turn. */
  function Step(d: Disk, file: FileEntry): (r: Disk)
    requires Within(|d.blocks|, d.spans) && End(file) <= |d.blocks|
    ensures |r.blocks| == |d.blocks| && |r.spans| == |d.spans| && Within(|r.blocks|, r.spans)
  {
    match FirstFit(d.spans, file, 0)
    case None => d
    case Some(j) =>
      var free := d.spans[j];
      Disk(MoveBlocks(d.blocks, free.Location, file.Location, file.ID, file.Length),
           d.spans[j := FileEntry(free.ID, free.Length - file.Length, free.Location + file.Length)])
  }

  /** The turns of files[n - 1], files[n - 2], ..., files[0]. */
  function MoveAll(d: Disk, files: seq<FileEntry>, n: nat): (r: Disk)
    requires n <= |files| && Within(|d.blocks|, d.spans) && Within(|d.blocks|, files)
    ensures |r.blocks| == |d.blocks| && Within(|r.blocks|, r.spans)
    decreases n
  {
    if n == 0 then d else MoveAll(Step(d, files[n - 1]), files, n - 1)
  }

  /** The move loop over the disk in place. */
  method MoveFiles(fs: array<int>, files: seq<FileEntry>, spans: seq<FileEntry>) returns (freeSpans: seq<FileEntry>)
    requires Within(fs.Length, files) && Within(fs.Length, spans)
    modifies fs
    ensures Disk(fs[..], freeSpans) == MoveAll(Disk(old(fs[..]), spans), files, |files|)
  {
    freeSpans := spans;
    var i := |files| - 1;
    while i >= 0
      invariant -1 <= i < |files| && Within(fs.Length, freeSpans)
      invariant MoveAll(Disk(fs[..], freeSpans), files, i + 1) == MoveAll(Disk(old(fs[..]), spans), files, |files|)
    {
      var file := files[i];
      ghost var d := Disk(fs[..], freeSpans);
      var j := 0;
      while j < |freeSpans|
        invariant j <= |freeSpans| && FirstFit(freeSpans, file, j) == FirstFit(freeSpans, file, 0)
        invariant fs[..] == d.blocks && freeSpans == d.spans
      {
        var free := freeSpans[j];
        if free.Location > file.Location {
          break;
        }
        if free.Length >= file.Length {
          for k := 0 to file.Length
            invariant fs[..] == MoveBlocks(d.blocks, free.Location, file.Location, file.ID, k)
          {
            fs[free.Location + k] := file.ID;
            fs[file.Location + k] := FreeSpace;
          }
          freeSpans := freeSpans[j := free.(Location := free.Location + file.Length, Length := free.Length - file.Length)];
          break;
        }
        j := j + 1;
      }
      assert Disk(fs[..], freeSpans) == Step(d, file);
      i := i - 1;
    }
  }

  // ---------------------------------------------------------------------
  // What the moves keep

  /** The first fit is the first span that is long enough, and every span
      before it lies left of the file; when there is none, every span left of
      the file is too short. */
  lemma {:induction false} FirstFitIsFirst(spans: seq<FileEntry>, file: FileEntry, j: nat)
    requires Sorted(spans)
    ensures FirstFit(spans, file, j).Some? ==>
      (forall k :: j <= k < FirstFit(spans, file, j).value ==>
         spans[k].Location <= file.Location && spans[k].Length < file.Length)
    ensures FirstFit(spans, file, j).None? ==>
      (forall k :: j <= k < |spans| && spans[k].Location <= file.Location ==> spans[k].Length < file.Length)
    decreases |spans| - j
  {
    if j < |spans| && spans[j].Location <= file.Location && spans[j].Length < file.Length {
      FirstFitIsFirst(spans, file, j + 1);
    } else if j < |spans| && spans[j].Location > file.Location {
      forall k | j < k < |spans|
        ensures spans[k].Location > file.Location
      {
        assert End(spans[j]) <= spans[k].Location;
      }
    }
  }

  /** With the target left of the source, the copy loop writes the id over
      the target, frees the source and leaves the rest. */
  lemma {:induction false} MoveBlocksAt(fs: seq<int>, to: nat, from: nat, id: int, k: nat, p: nat)
    requires to + k <= from && from + k <= |fs| && p < |fs|
    ensures MoveBlocks(fs, to, from, id, k)[p] ==
      if from <= p < from + k then FreeSpace else if to <= p < to + k then id else fs[p]
  {
    if k > 0 {
      MoveBlocksAt(fs, to, from, id, k - 1, p);
    }
  }

  lemma MoveBlocksEffect(fs: seq<int>, to: nat, from: nat, id: int, k: nat)
    requires to + k <= from && from + k <= |fs|
    ensures forall p :: 0 <= p < |fs| ==>
      MoveBlocks(fs, to, from, id, k)[p] ==
        if from <= p < from + k then FreeSpace else if to <= p < to + k then id else fs[p]
  {
    forall p | 0 <= p < |fs|
    {
      MoveBlocksAt(fs, to, from, id, k, p);
    }
  }

  /** Blocks lo, ..., lo + k - 1 all hold x. */
  predicate Filled(fs: seq<int>, lo: nat, k: nat, x: int)
  {
    lo + k <= |fs| && forall p :: lo <= p < lo + k ==> fs[p] == x
  }

  /** Writing ids into free blocks and freeing as many blocks of that id
      keeps the multiset of blocks. */
  lemma {:induction false} MoveBlocksKeepsBlocks(fs: seq<int>, to: nat, from: nat, id: int, k: nat)
    requires to + k <= from && from + k <= |fs|
    requires Filled(fs, to, k, FreeSpace) && Filled(fs, from, k, id)
    ensures multiset(MoveBlocks(fs, to, from, id, k)) == multiset(fs)
  {
    if k > 0 {
      FilledShorter(fs, to, k, FreeSpace);
      FilledShorter(fs, from, k, id);
      MoveBlocksKeepsBlocks(fs, to, from, id, k - 1);
      MoveBlocksLast(fs, to, from, id, k);
    }
  }

  lemma FilledShorter(fs: seq<int>, lo: nat, k: nat, x: int)
    requires 0 < k && Filled(fs, lo, k, x)
    ensures Filled(fs, lo, k - 1, x)
  {
  }

  /** The k-th pair of writes swaps a free block with a block of the id,
      which keeps the multiset. */
  lemma MoveBlocksLast(fs: seq<int>, to: nat, from: nat, id: int, k: nat)
    requires 0 < k && to + k <= from && from + k <= |fs|
    requires Filled(fs, to, k, FreeSpace) && Filled(fs, from, k, id)
    requires multiset(MoveBlocks(fs, to, from, id, k - 1)) == multiset(fs)
    ensures multiset(MoveBlocks(fs, to, from, id, k)) == multiset(fs)
  {
    assert fs[to + k - 1] == FreeSpace && fs[from + k - 1] == id;
    var s := MoveBlocks(fs, to, from, id, k - 1);
    MoveBlocksAt(fs, to, from, id, k - 1, to + k - 1);
    MoveBlocksAt(fs, to, from, id, k - 1, from + k - 1);
    UpdatePair(s, MoveBlocks(fs, to, from, id, k), to + k - 1, from + k - 1, id, FreeSpace, multiset(fs));
  }

  /** Overwriting an x with y and a y with x keeps the multiset. */
  lemma UpdatePair(s: seq<int>, r: seq<int>, a: nat, b: nat, x: int, y: int, m: multiset<int>)
    requires a < |s| && b < |s| && a != b && s[a] == y && s[b] == x
    requires multiset(s) == m && r == s[a := x][b := y]
    ensures multiset(r) == m
  {
    var s1 := s[a := x];
    assert multiset(s1) == multiset(s) - multiset{y} + multiset{x};
    assert multiset(s1[b := y]) == multiset(s1) - multiset{x} + multiset{y};
  }


  /** The state the moves keep, with files[..n] still to be processed: free
      spans are free and apart, files are apart, and every file still to be
      processed is where it started. */
  predicate Inv(d: Disk, files: seq<FileEntry>, n: nat)
  {
    && n <= |files|
    && Within(|d.blocks|, d.spans) && Within(|d.blocks|, files)
    && Sorted(d.spans) && Sorted(files)
    && (forall k :: 0 <= k < |d.spans| ==> Holds(d.blocks, d.spans[k], FreeSpace))
    && (forall m :: 0 <= m < n ==> files[m].ID != FreeSpace && Holds(d.blocks, files[m], files[m].ID))
  }

  /** A file that moves goes to the first fit, which ends at or before the
      file's start; its blocks become free and the target's hold its id. */
  lemma StepMoves(d: Disk, files: seq<FileEntry>, n: nat)
    requires Inv(d, files, n) && 0 < n
    ensures var file := files[n - 1];
      FirstFit(d.spans, file, 0).Some? ==>
        var free := d.spans[FirstFit(d.spans, file, 0).value];
        && free.Location + file.Length <= file.Location
        && forall p :: 0 <= p < |d.blocks| ==>
             Step(d, file).blocks[p] ==
               if file.Location <= p < End(file) then FreeSpace
               else if free.Location <= p < free.Location + file.Length then file.ID
               else d.blocks[p]
  {
    var file := files[n - 1];
    if FirstFit(d.spans, file, 0).Some? {
      var j := FirstFit(d.spans, file, 0).value;
      var free := d.spans[j];
      if file.Length > 0 {
        assert d.blocks[file.Location] != FreeSpace;
        assert Holds(d.blocks, free, FreeSpace);
      }
      MoveBlocksEffect(d.blocks, free.Location, file.Location, file.ID, file.Length);
    }
  }

  /** After a turn the free spans are still free and apart. */
  lemma StepKeepsSpans(d: Disk, files: seq<FileEntry>, n: nat)
    requires Inv(d, files, n) && 0 < n
    ensures var r := Step(d, files[n - 1]);
      Sorted(r.spans) && forall k :: 0 <= k < |r.spans| ==> Holds(r.blocks, r.spans[k], FreeSpace)
  {
    var file := files[n - 1];
    var r := Step(d, file);
    if FirstFit(d.spans, file, 0).Some? {
      var j := FirstFit(d.spans, file, 0).value;
      var free := d.spans[j];
      StepMoves(d, files, n);
      forall k | 0 <= k < |r.spans|
        ensures Holds(r.blocks, r.spans[k], FreeSpace)
      {
        assert Holds(d.blocks, d.spans[k], FreeSpace);
        if k < j {
          assert End(d.spans[k]) <= free.Location;
        } else if k > j {
          assert End(free) <= d.spans[k].Location;
        }
      }
    }
  }

  /** After a turn the files still to be processed are where they were. */
  lemma StepKeepsFiles(d: Disk, files: seq<FileEntry>, n: nat)
    requires Inv(d, files, n) && 0 < n
    ensures var r := Step(d, files[n - 1]);
      forall m :: 0 <= m < n - 1 ==> Holds(r.blocks, files[m], files[m].ID)
  {
    var file := files[n - 1];
    var r := Step(d, file);
    if FirstFit(d.spans, file, 0).Some? {
      var j := FirstFit(d.spans, file, 0).value;
      var free := d.spans[j];
      StepMoves(d, files, n);
      forall m, p | 0 <= m < n - 1 && files[m].Location <= p < End(files[m])
        ensures r.blocks[p] == files[m].ID
      {
        assert End(files[m]) <= file.Location;
        assert d.blocks[p] == files[m].ID && files[m].ID != FreeSpace;
        assert Holds(d.blocks, free, FreeSpace);
      }
    }
  }

  /** One turn keeps the state and the multiset of blocks. */
  lemma StepKeeps(d: Disk, files: seq<FileEntry>, n: nat)
    requires Inv(d, files, n) && 0 < n
    ensures Inv(Step(d, files[n - 1]), files, n - 1)
    ensures multiset(Step(d, files[n - 1]).blocks) == multiset(d.blocks)
  {
    var file := files[n - 1];
    StepKeepsSpans(d, files, n);
    StepKeepsFiles(d, files, n);
    if FirstFit(d.spans, file, 0).Some? {
      var free := d.spans[FirstFit(d.spans, file, 0).value];
      StepMoves(d, files, n);
      assert Holds(d.blocks, free, FreeSpace) && Holds(d.blocks, file, file.ID);
      MoveBlocksKeepsBlocks(d.blocks, free.Location, file.Location, file.ID, file.Length);
    }
  }

  /** All the turns keep the multiset of blocks and leave the free spans
      free. */
  lemma {:induction false} MoveAllKeeps(d: Disk, files: seq<FileEntry>, n: nat)
    requires Inv(d, files, n)
    ensures multiset(MoveAll(d, files, n).blocks) == multiset(d.blocks)
    ensures Inv(MoveAll(d, files, n), files, 0)
    decreases n
  {
    if n > 0 {
      StepKeeps(d, files, n);
      MoveAllKeeps(Step(d, files[n - 1]), files, n - 1);
    }
  }

  // Tiles to Inv

  lemma TilesSorted(fs: seq<int>, runs: seq<FileEntry>, i: nat)
    requires Tiles(fs, runs, i)
    ensures Sorted(runs)
  {
    forall a, b | 0 <= a < b < |runs|
      ensures End(runs[a]) <= runs[b].Location
    {
      var c := a + 1;
      while c < b
        invariant a < c <= b && End(runs[a]) <= runs[c].Location
      {
        c := c + 1;
      }
    }
  }

  lemma {:induction false} FilesIn(rs: seq<FileEntry>)
    ensures forall e :: e in Files(rs) ==> e in rs && e.ID != FreeSpace
    ensures forall e :: e in Frees(rs) ==> e in rs && e.ID == FreeSpace
  {
    if rs != [] {
      FilesIn(rs[..|rs| - 1]);
    }
  }

  /** Every entry before the last ends where the last begins or earlier. */
  lemma BeforeLast(rs: seq<FileEntry>)
    requires Sorted(rs) && rs != []
    ensures forall e :: e in rs[..|rs| - 1] ==> End(e) <= rs[|rs| - 1].Location
  {
    var n := |rs| - 1;
    forall e | e in rs[..n]
      ensures End(e) <= rs[n].Location
    {
      var a :| 0 <= a < n && rs[..n][a] == e;
    }
  }

  lemma {:induction false} FilesSorted(rs: seq<FileEntry>)
    requires Sorted(rs)
    ensures Sorted(Files(rs))
  {
    if rs != [] {
      var n := |rs| - 1;
      assert Sorted(rs[..n]);
      FilesSorted(rs[..n]);
      FilesIn(rs[..n]);
      BeforeLast(rs);
    }
  }

  lemma {:induction false} FreesSorted(rs: seq<FileEntry>)
    requires Sorted(rs)
    ensures Sorted(Frees(rs))
  {
    if rs != [] {
      var n := |rs| - 1;
      assert Sorted(rs[..n]);
      FreesSorted(rs[..n]);
      FilesIn(rs[..n]);
      BeforeLast(rs);
    }
  }

  /** The runs of a disk start in the state the moves keep. */
  lemma RunsStart(fs: seq<int>)
    ensures Inv(Disk(fs, Frees(Runs(fs))), Files(Runs(fs)), |Files(Runs(fs))|)
  {
    var rs := Runs(fs);
    RunsTile(fs, |fs|);
    TilesSorted(fs, rs, |fs|);
    FilesSorted(rs);
    FreesSorted(rs);
    FilesIn(rs);
    var files := Files(rs);
    var spans := Frees(rs);
    forall m | 0 <= m < |files|
      ensures files[m].ID != FreeSpace && Holds(fs, files[m], files[m].ID)
    {
      assert files[m] in files;
    }
    forall k | 0 <= k < |spans|
      ensures Holds(fs, spans[k], FreeSpace)
    {
      assert spans[k] in spans;
    }
  }

  /** Part 2's compaction keeps every block: each file keeps its number of
      blocks and the number of free blocks is unchanged. */
  lemma CompactionKeepsBlocks(fs: seq<int>)
    ensures Inv(Disk(fs, Frees(Runs(fs))), Files(Runs(fs)), |Files(Runs(fs))|)
    ensures multiset(MoveAll(Disk(fs, Frees(Runs(fs))), Files(Runs(fs)), |Files(Runs(fs))|).blocks) == multiset(fs)
  {
    RunsStart(fs);
    MoveAllKeeps(Disk(fs, Frees(Runs(fs))), Files(Runs(fs)), |Files(Runs(fs))|);
  }
}
