/** Day 25, part 1 (25-1/main.go): schematics of locks and keys, each seven
    rows of five columns; a key fits a lock when no column of the two
    overlaps. */
module LocksAndKeys {

  const NumTumblers: nat := 5
  const NumLevels: nat := 5

  datatype LockType = Key | Lock

  /** The column heights of a schematic, one per tumbler. */
  datatype LockPart = LockPart(kind: LockType, profile: seq<nat>)

  /** Reading ran off the end of the input or failed one of the source's
      Assert checks; either stops the program. */
  datatype Result<T> = Ok(value: T) | Fault

  function Repeat(c: char, n: nat): (s: string)
    ensures |s| == n && forall i :: 0 <= i < n ==> s[i] == c
  {
    if n == 0 then [] else Repeat(c, n - 1) + [c]
  }

  /** The number of rows with a '#' in column j. */
  function ColumnHashes(rows: seq<string>, j: nat): (n: nat)
    ensures n <= |rows|
  {
    if rows == [] then 0
    else
      var last := rows[|rows| - 1];
      ColumnHashes(rows[..|rows| - 1], j) + (if j < |last| && last[j] == '#' then 1 else 0)
  }

  /** What the source's checks accept: a first row of five '.' or five '#',
      then five rows of five characters. The bottom row is never looked at. */
  predicate WellFormedPart(lines: seq<string>)
  {
    && |lines| >= 1 + NumLevels
    && (lines[0] == Repeat('.', NumTumblers) || lines[0] == Repeat('#', NumTumblers))
    && forall i :: 1 <= i <= NumLevels ==> |lines[i]| == NumTumblers
  }

  /** The column heights of the five rows under the first. */
  function Profile(rows: seq<string>): (p: seq<nat>)
    ensures |p| == NumTumblers
    ensures forall j :: 0 <= j < NumTumblers ==> p[j] == ColumnHashes(rows, j)
  {
    seq(NumTumblers, (j: int) requires 0 <= j < NumTumblers => ColumnHashes(rows, j))
  }

  /** The part at the head of `lines` and the number of lines it takes up. */
  function PartAt(lines: seq<string>): Result<(LockPart, nat)>
  {
    if !WellFormedPart(lines) then Fault
    else
      var kind := if lines[0][0] == '.' then Key else Lock;
      Ok((LockPart(kind, Profile(lines[1..1 + NumLevels])), NumLevels + 2))
  }

  /** Lines that are not blank, from the first one. */
  function DropBlanks(lines: seq<string>): (rest: seq<string>)
    ensures |rest| <= |lines|
    ensures rest == [] || rest[0] != ""
  {
    if lines != [] && lines[0] == "" then DropBlanks(lines[1..]) else lines
  }

  /** Every part of the input, in order. */
  function AllParts(lines: seq<string>): Result<seq<LockPart>>
    decreases |lines|
  {
    if lines == [] then Ok([])
    else
      var rest := DropBlanks(lines);
      match PartAt(rest)
      case Fault => Fault
      case Ok((part, used)) =>
        if used > |rest| then Fault
        else
          match AllParts(rest[used..])
          case Fault => Fault
          case Ok(parts) => Ok([part] + parts)
  }

  /** The parts of one kind, in input order. */
  function OfKind(parts: seq<LockPart>, kind: LockType): (r: seq<LockPart>)
    ensures |r| <= |parts|
    ensures forall p :: p in r ==> p in parts && p.kind == kind
  {
    if parts == [] then []
    else
      var last := parts[|parts| - 1];
      OfKind(parts[..|parts| - 1], kind) + (if last.kind == kind then [last] else [])
  }

  /** A key fits a lock when no column holds more than the lock's height. */
  predicate Fits(key: LockPart, lock: LockPart)
  {
    && |key.profile| == NumTumblers && |lock.profile| == NumTumblers
    && forall i :: 0 <= i < NumTumblers ==> key.profile[i] + lock.profile[i] <= NumLevels
  }

  /** The number of keys that fit the lock. */
  function KeysFitting(keys: seq<LockPart>, lock: LockPart): (n: nat)
    ensures n <= |keys|
  {
    if keys == [] then 0
    else KeysFitting(keys[..|keys| - 1], lock) + (if Fits(keys[|keys| - 1], lock) then 1 else 0)
  }

  /** The number of fitting (lock, key) pairs. */
  function TotalFits(locks: seq<LockPart>, keys: seq<LockPart>): nat
  {
    if locks == [] then 0
    else TotalFits(locks[..|locks| - 1], keys) + KeysFitting(keys, locks[|locks| - 1])
  }

  // ---------------------------------------------------------------------
  // Properties

  /** A part read successfully takes seven lines, is a key exactly when its
      first row is dots and a lock exactly when it is hashes, and has five
      column heights between 0 and 5. */
  lemma PartShape(lines: seq<string>)
    requires PartAt(lines).Ok?
    ensures var (part, used) := PartAt(lines).value;
      && used == 7
      && (part.kind == Key <==> lines[0][0] == '.')
      && (part.kind == Key <==> lines[0] == Repeat('.', NumTumblers))
      && (part.kind == Lock <==> lines[0] == Repeat('#', NumTumblers))
      && |part.profile| == NumTumblers
      && forall j :: 0 <= j < NumTumblers ==> part.profile[j] <= NumLevels
  {
  }

  /** Splitting by kind loses nothing: every part is a key or a lock. */
  lemma {:induction false} KindsPartition(parts: seq<LockPart>)
    ensures |OfKind(parts, Key)| + |OfKind(parts, Lock)| == |parts|
    decreases |parts|
  {
    if parts != [] {
      KindsPartition(parts[..|parts| - 1]);
    }
  }

  /** Each lock is compared with each key once, so there are no more fits
      than pairs. */
  lemma {:induction false} FitsAtMostPairs(locks: seq<LockPart>, keys: seq<LockPart>)
    ensures TotalFits(locks, keys) <= |locks| * |keys|
    decreases |locks|
  {
    if locks != [] {
      FitsAtMostPairs(locks[..|locks| - 1], keys);
      assert (|locks| - 1) * |keys| + |keys| == |locks| * |keys|;
    }
  }

  // ---------------------------------------------------------------------
  // The source's loops

  /** LoadLockPart: classify by the first row, then count the '#' of each
      column over the next five rows. */
  method LoadLockPart(lines: seq<string>) returns (r: Result<(LockPart, nat)>)
    ensures r == PartAt(lines)
  {
    if |lines| == 0 || |lines[0]| == 0 {
      return Fault;
    }
    var kind;
    if lines[0][0] == '.' {
      if lines[0] != Repeat('.', NumTumblers) {
        return Fault;
      }
      kind := Key;
    } else {
      if lines[0] != Repeat('#', NumTumblers) {
        return Fault;
      }
      kind := Lock;
    }
    var profile: seq<nat> := [0, 0, 0, 0, 0];
    var rest := lines[1..];
    for i := 0 to NumLevels
      invariant |profile| == NumTumblers
      invariant i <= |rest| && forall k :: 0 <= k < i ==> |rest[k]| == NumTumblers
      invariant forall j :: 0 <= j < NumTumblers ==> profile[j] == ColumnHashes(rest[..i], j)
    {
      if i >= |rest| || |rest[i]| != NumTumblers {
        assert !WellFormedPart(lines) by {
          if |lines| >= 1 + NumLevels {
            assert |lines[i + 1]| != NumTumblers;
          }
        }
        return Fault;
      }
      var line := rest[i];
      assert rest[..i + 1][..i] == rest[..i];
      for j := 0 to NumTumblers
        invariant |profile| == NumTumblers
        invariant forall j' :: 0 <= j' < j ==> profile[j'] == ColumnHashes(rest[..i + 1], j')
        invariant forall j' :: j <= j' < NumTumblers ==> profile[j'] == ColumnHashes(rest[..i], j')
      {
        if line[j] == '#' {
          profile := profile[j := profile[j] + 1];
        }
      }
    }
    var rows := lines[1..1 + NumLevels];
    assert rest[..NumLevels] == rows;
    assert profile == Profile(rows);
    assert WellFormedPart(lines);
    r := Ok((LockPart(kind, profile), NumLevels + 2));
  }

  /** LoadLocksAndKeys: skip blank lines, read a part, file it by kind. */
  method LoadLocksAndKeys(lines: seq<string>) returns (r: Result<(seq<LockPart>, seq<LockPart>)>)
    ensures match AllParts(lines)
      case Fault => r == Fault
      case Ok(parts) => r == Ok((OfKind(parts, Lock), OfKind(parts, Key)))
  {
    var locks: seq<LockPart> := [];
    var keys: seq<LockPart> := [];
    ghost var done: seq<LockPart> := [];
    var rest := lines;
    PrefixedEmpty(AllParts(lines));
    while |rest| > 0
      invariant Loaded(lines, rest, done, locks, keys)
      decreases |rest|
    {
      var skipped := rest;
      while |skipped| > 0 && skipped[0] == ""
        invariant DropBlanks(skipped) == DropBlanks(rest)
        decreases |skipped|
      {
        skipped := skipped[1..];
      }
      BlanksDropped(rest, skipped);
      var res := LoadLockPart(skipped);
      if res.Fault? || res.value.1 > |skipped| {
        LoadFault(lines, rest, done, locks, keys, skipped);
        return Fault;
      }
      var (part, used) := res.value;
      ghost var rest0, done0, locks0, keys0 := rest, done, locks, keys;
      if part.kind == Key {
        keys := keys + [part];
      } else {
        locks := locks + [part];
      }
      done := done + [part];
      rest := skipped[used..];
      LoadStep(lines, rest0, done0, locks0, keys0, skipped, part, used, rest, done, locks, keys);
    }
    assert AllParts(rest) == Ok([]);
    assert done + [] == done;
    r := Ok((locks, keys));
  }

  /** LoadLocksAndKeys between parts: locks and keys hold the parts read so
      far, by kind, and those parts followed by the parts of the rest are
      the parts of the input. */
  ghost predicate Loaded(lines: seq<string>, rest: seq<string>, done: seq<LockPart>,
                         locks: seq<LockPart>, keys: seq<LockPart>)
  {
    && locks == OfKind(done, Lock) && keys == OfKind(done, Key)
    && AllParts(lines) == Prefixed(done, AllParts(rest))
  }

  /** The blank-skipping loop stops at the first line that is not blank. */
  lemma BlanksDropped(rest: seq<string>, skipped: seq<string>)
    requires DropBlanks(skipped) == DropBlanks(rest)
    requires |skipped| == 0 || skipped[0] != ""
    ensures skipped == DropBlanks(rest)
  {
  }

  /** A part that cannot be read makes the whole input fail. */
  lemma LoadFault(lines: seq<string>, rest: seq<string>, done: seq<LockPart>,
                  locks: seq<LockPart>, keys: seq<LockPart>, skipped: seq<string>)
    requires Loaded(lines, rest, done, locks, keys) && |rest| > 0 && skipped == DropBlanks(rest)
    requires PartAt(skipped).Fault? || PartAt(skipped).value.1 > |skipped|
    ensures AllParts(lines) == Fault
  {
    PrefixedFault(done);
  }

  /** Reading one part and filing it by kind keeps the loop's state. */
  lemma LoadStep(lines: seq<string>, rest: seq<string>, done: seq<LockPart>,
                 locks: seq<LockPart>, keys: seq<LockPart>, skipped: seq<string>, part: LockPart, used: nat,
                 rest': seq<string>, done': seq<LockPart>, locks': seq<LockPart>, keys': seq<LockPart>)
    requires Loaded(lines, rest, done, locks, keys) && |rest| > 0 && skipped == DropBlanks(rest)
    requires PartAt(skipped) == Ok((part, used)) && used <= |skipped|
    requires rest' == skipped[used..] && done' == done + [part]
    requires locks' == (if part.kind == Key then locks else locks + [part])
    requires keys' == (if part.kind == Key then keys + [part] else keys)
    ensures Loaded(lines, rest', done', locks', keys')
  {
    var tail := AllParts(rest');
    assert AllParts(rest) == if tail.Fault? then Fault else Ok([part] + tail.value);
    PrefixedStep(done, part, tail);
    OfKindAppend(done, part, Lock);
    OfKindAppend(done, part, Key);
  }

  /** `done` followed by the parts in `tail`, or Fault. */
  function Prefixed(done: seq<LockPart>, tail: Result<seq<LockPart>>): Result<seq<LockPart>>
  {
    match tail
    case Fault => Fault
    case Ok(parts) => Ok(done + parts)
  }

  lemma PrefixedEmpty(tail: Result<seq<LockPart>>)
    ensures Prefixed([], tail) == tail
  {
    if tail.Ok? {
      assert [] + tail.value == tail.value;
    }
  }

  lemma PrefixedFault(done: seq<LockPart>)
    ensures Prefixed(done, Fault) == Fault
  {
  }

  lemma PrefixedStep(done: seq<LockPart>, part: LockPart, tail: Result<seq<LockPart>>)
    ensures Prefixed(done, if tail.Fault? then Fault else Ok([part] + tail.value))
      == Prefixed(done + [part], tail)
  {
    if tail.Ok? {
      assert done + ([part] + tail.value) == (done + [part]) + tail.value;
    }
  }

  lemma OfKindAppend(parts: seq<LockPart>, part: LockPart, kind: LockType)
    ensures OfKind(parts + [part], kind) == OfKind(parts, kind) + (if part.kind == kind then [part] else [])
  {
    assert (parts + [part])[..|parts|] == parts;
  }

  /** The source's main loop: every key tried against every lock, giving up
      on a key at its first overlapping column. */
  method CountFits(locks: seq<LockPart>, keys: seq<LockPart>) returns (total: nat)
    requires forall p :: p in locks + keys ==> |p.profile| == NumTumblers
    ensures total == TotalFits(locks, keys)
  {
    total := 0;
    for l := 0 to |locks|
      invariant total == TotalFits(locks[..l], keys)
    {
      var lock := locks[l];
      assert lock in locks + keys;
      var fitting := 0;
      for k := 0 to |keys|
        invariant fitting == KeysFitting(keys[..k], lock)
      {
        var key := keys[k];
        assert key in locks + keys;
        var fits := true;
        var i := 0;
        while i < NumTumblers
          invariant 0 <= i <= NumTumblers
          invariant fits <==> forall i' :: 0 <= i' < i ==> key.profile[i'] + lock.profile[i'] <= NumLevels
        {
          if key.profile[i] + lock.profile[i] > NumLevels {
            fits := false;
            break;
          }
          i := i + 1;
        }
        assert fits <==> Fits(key, lock);
        assert keys[..k + 1][..k] == keys[..k];
        if fits {
          fitting := fitting + 1;
        }
      }
      assert keys[..|keys|] == keys;
      assert locks[..l + 1][..l] == locks[..l];
      total := total + fitting;
    }
    assert locks[..|locks|] == locks;
  }
}
