# Advent of Code 2024 solvers, modelled in Dafny

This project models the algorithmic cores of a set of Go puzzle solvers, one per day and part, and proves properties of them. The solvers are independent, single-threaded programs that read a puzzle file in `main`. Each core is lifted out of its `main` here and written in Dafny in the form the Go code has:

- Go types whose methods update fields in place (boards, graphs, tries, machines, searches) are classes with `modifies` clauses.
- Go loops are `while` or `for` loops with invariants.
- Go maps are Dafny `map`s. Where the Go code links objects by pointers (graph nodes, circuit wires, trie nodes), each pointer is the name or position of the object it points at.
- Pure helpers (vector arithmetic, decimal text, bit operations, Cramer's rule) are functions with lemmas.
- A Go panic, or an `Assert` that stops the program, becomes a `Fault`/`None` result.
- A Go loop with no bound is given a ghost fuel bound.

Files:

- `bits.dfy`, `go_int.dfy`, `decimal.dfy`, `grids.dfy`, `d20_2_vector.dfy` hold the shared helpers. They cover bitwise operations on naturals, Go's truncating `/` and `%` and 64-bit wrap-around, `strconv` decimal text, grid positions, and the vector type of 20-2/vector.go.
- Each `dNN_M_*.dfy` models one day's file or files.

Every verified claim is stated in the table below. Nothing in this project was executed. The Dafny verifier checks every statement.

## Model

| member | source | states |
|---|---|---|
| `GoInt.Rem` | 13-1/main.go:38-42 | Go's `%`: together with the truncating quotient `Quot` it recombines to the dividend |
| `GoInt.RemBounds` | 20-2/vector.go:29-33 | the Go remainder is smaller than the divisor in magnitude and never has the opposite sign of the dividend |
| `GoInt.RemZeroIffMultiple` | 13-1/main.go:56-60 | the Go remainder is zero exactly when the divisor divides the dividend, and then the quotient is the cofactor |
| `GoInt.Wrap64` | 20-1/main.go:118-125 | a Go `int` result is the exact value wrapped into the 64-bit two's-complement range; it is the exact value when that fits |
| `Decimal.ParseText` | 07-2/main.go:13-29 | `strconv.Atoi(strconv.Itoa(n)) == n` for non-negative n |
| `Decimal.TextParse` | 07-2/main.go:13-29 | a canonical digit string is given back by Itoa after Atoi |
| `Decimal.ParseAppend` | 07-2/main.go:13-29 | reading a concatenation of digit strings shifts the left part by one decimal place per digit of the right part |
| `Decimal.CutText` | 11-1/main.go:37-49 | cutting the text of n after its first digits gives the texts of DropDigits and KeepDigits (leading zeros dropped) |
| `Decimal.CutRejoins` | 11-2/main.go:39-53 | the two halves of a cut glue back to the number |
| `Bits.XorInvolution` | 17-2/main.go:87-110 | xor-ing the same mask twice restores the value |
| `Bits.XorBound` | 17-2/main.go:87-110 | xor of two values below 2^k is below 2^k |
| `Bits.SetBitTest` | 24-1/main.go:151-161 | x OR (1 << k) sets bit k and leaves every other bit as it was |
| `Grids.CountUpdate` | 15-1/main.go:89-118 | overwriting one grid cell trades one occurrence of its old content for one of the new content |
| `GuardWalk.FourTurns` | 06-1/main.go:137-146 | four quarter turns restore the heading, and one, two or three do not |
| `GuardWalk.NextPos` | 06-1/main.go:37-62 | a position returned is the cell one step ahead in the guard's direction |
| `GuardWalk.NextPosLeaves` | 06-1/main.go:37-62 | on a rectangular grid nextPos fails exactly when the cell ahead is off the grid |
| `GuardWalk.BlockedAt` | 06-1/main.go:136 | a cell counts as blocked exactly when it holds an obstacle |
| `GuardWalk.BlockedSet` | 06-1/main.go:148-149 | marking a non-obstacle cell visited leaves every obstacle where it was |
| `GuardWalk.Step` | 06-1/main.go:130-150 | one loop turn: stops exactly when the cell ahead is off the grid; otherwise turns right in place exactly when the cell ahead is blocked, and else steps into that free cell keeping its heading |
| `GuardWalk.Run` | 06-1/main.go:130-151 | every cell the guard steps into lies on the grid and is free |
| `GuardWalk.RunStep` | 06-1/main.go:130-151 | a walk that ends unfolds into one loop turn (adding the entered cell when the guard moved) followed by the walk from there |
| `GuardWalk.RunMoreFuel` | 06-1/main.go:130-151 | a walk that ends within some number of turns ends the same way with more |
| `GuardWalk.MarkAt` | 06-1/main.go:149 | after marking a list of cells, a cell is visited when the list passes it and keeps its status otherwise |
| `GuardWalk.DecodeRow` | 06-1/main.go:109-126 | a decoded row has one status per character of the line |
| `GuardWalk.LastCaretIn` | 06-1/main.go:118-123 | the guard's column is a '^' of the line with no '^' after it, and none is found only when the line has no '^' |
| `GuardWalk.LastCaret` | 06-1/main.go:106-127 | the guard's start is a '^' of the input: the last one in reading order |
| `GuardWalk.Board.Load` | 06-1/main.go:104-127 | the loading loop gives one decoded row per line, the guard facing up at the last '^' (the origin when there is none), on a visited cell |
| `GuardWalk.Board.Walk` | 06-1/main.go:129-151 | the walk loop marks exactly the cells of the guard's walk, keeps every obstacle, and stops with the next step off the grid |
| `GuardWalk.Board.CountVisited` | 06-1/main.go:153-161 | the final loop counts the visited cells of the grid |
| `GuardWalk.WalkVisits` | 06-1/main.go:129-161 | after the walk a cell is visited exactly when it was visited at the start or the guard stepped into it |
| `GuardLoops.Index` | 06-2/main.go:23-30 | each direction's Go value is the bit 1 << Index, one of the four low bits |
| `GuardLoops.IndexInjective` | 06-2/main.go:23-30 | different directions have different bits |
| `GuardLoops.IterSnoc` | 06-2/main.go:131-158 | n + 1 turns of the walk are n turns followed by one more |
| `GuardLoops.RunIter` | 06-2/main.go:131-158 | a walk that leaves the grid within some number of turns passes every state it reaches on the way, and leaves from each of them |
| `GuardLoops.IterRun` | 06-2/main.go:131-158 | a state that leads to a state that leaves the grid leaves it too |
| `GuardLoops.CycleNeverExits` | 06-2/main.go:141-146 | a state the walk returns to is never left: with any fuel, the walk does not leave the grid |
| `GuardLoops.LeadsStep` | 06-2/main.go:131-158 | leading to a state, a state leads to that state's successor |
| `GuardLoops.ObstaclesAt` | 06-2/main.go:153 | the obstacle layer has the grid's cells and a cell is blocked exactly when it holds an obstacle |
| `GuardLoops.ObstaclesSet` | 06-2/main.go:149-150 | marking a non-obstacle cell keeps the obstacles; putting an obstacle on a cell blocks exactly that cell |
| `GuardLoops.Bits4SetBit` | 06-2/main.go:149 | setting a direction bit the mask lacks adds one to its count of direction bits |
| `GuardLoops.LeaveMarked` | 06-2/main.go:148-150 | leaving the guard's cell marks its (cell, direction) pair and no other |
| `GuardLoops.LeaveShrinks` | 06-2/main.go:148-150 | leaving a cell in a direction not yet marked shrinks the number of unmarked (cell, direction) pairs, which is why LoopOrExit ends |
| `GuardLoops.LoopExit` | 06-2/main.go:136-139 | when the guard faces off the grid the walk from the starting state leaves the grid and does not loop |
| `GuardLoops.LoopFound` | 06-2/main.go:142-146 | when the guard is in a state already marked the walk from the starting state never leaves the grid |
| `GuardLoops.LoopTurn` | 06-2/main.go:148-157 | a turn from a new state keeps the loop's invariant one turn later and shrinks the unmarked pairs |
| `GuardLoops.StepBlocked` | 06-2/main.go:213-217 | an obstacle put on a cell the guard does not face leaves its next step unchanged |
| `GuardLoops.MainFork` | 06-2/main.go:213-217 | the copy handed to LoopOrExit, with an obstacle on the free cell ahead, meets LoopOrExit's precondition and has exactly that cell added to the obstacles |
| `GuardLoops.MainEnd` | 06-2/main.go:203-206 | when the guard faces off the grid no forks remain to be counted |
| `GuardLoops.MainStep` | 06-2/main.go:208-229 | one turn of main keeps its invariant and adds this turn's fork (1 when the cell ahead is empty and an obstacle there makes the guard loop) to the count |
| `GuardLoops.Board.Clone` | 06-2/main.go:78-88 | the clone is a new board with the same rows and the same guard |
| `GuardLoops.Board.TurnRight` | 06-2/main.go:117-128 | the heading becomes its quarter turn clockwise and nothing else changes |
| `GuardLoops.Board.LoopOrExit` | 06-2/main.go:130-159 | returns 0 exactly when the walk from the guard's starting state leaves the grid and 1 exactly when it goes round for ever; the obstacles do not change and existing marks are kept |
| `GuardLoops.Board.Fork` | 06-2/main.go:213-218 | a fork returns 1 exactly when an obstacle on the cell ahead makes the guard, from where it stands, loop; the board itself does not change |
| `GuardLoops.Board.MainTurn` | 06-2/main.go:199-229 | one turn of main keeps the counting invariant, adding the guard's cell to those entered |
| `GuardLoops.Board.CountLoops` | 06-2/main.go:191-233 | the loop count is the number of turns of the walk at which the cell ahead is free and not yet entered and an obstacle there makes the guard loop |
| `OperatorSearch.EvalSnoc` | 07-1/main.go:20-33 | evaluating with one more operator applies it to the prefix's value and the last input |
| `OperatorSearch.ReachableStep` | 07-1/main.go:24-33 | a total is reachable from the inputs iff it is the last input added to, or (when the division is exact) multiplied by, a value reachable from the prefix |
| `OperatorSearch.SearchCorrect` | 07-1/main.go:12-37 | for inputs whose tail is non-zero (the source divides by it), Search is true iff some left-to-right choice of + and * evaluates to the total |
| `ConcatSearch.ConcatShifts` | 07-2/main.go:13-29 | the concatenation x‖y is x shifted left by the digit count of y, plus y |
| `ConcatSearch.SplitJoins` | 07-2/main.go:13-29 | when split(a, b) succeeds with r, r is positive and r‖b = a |
| `ConcatSearch.SplitConcat` | 07-2/main.go:13-29 | split(x‖y, y) = (x, true) for x ≥ 1: split undoes concatenation |
| `ConcatSearch.ReachableStep` | 07-2/main.go:39-59 | a total is reachable iff the last +, * or concatenation can be undone to a value reachable from the prefix |
| `ConcatSearch.PlusBranch` | 07-2/main.go:44 | for positive inputs the guard b < total loses no solution of the addition branch |
| `ConcatSearch.TimesBranch` | 07-2/main.go:49-53 | the multiplication branch is exactly "b divides total and total/b is reachable" |
| `ConcatSearch.JoinBranch` | 07-2/main.go:55-59 | the concatenation branch is exactly "total = x‖b for some reachable x" |
| `ConcatSearch.EvalPositive` | 07-2/main.go:31-62 | positive inputs evaluate to positive values under every choice of operators |
| `ConcatSearch.SearchCorrect` | 07-2/main.go:31-62 | for positive inputs, Search is true iff some left-to-right choice of +, * and concatenation evaluates to the total |
| `DiskMap.DigitsOf` | 09-1/main.go:32-36 | the digits are read iff every rune is a decimal digit, one value per rune |
| `DiskMap.ExpandDisk` | 09-1/main.go:27-50 | the expansion loop returns the blocks Expand describes (digit p gives that many blocks of id p/2 at even p, of FreeSpace at odd p), or Fault when a rune is not a digit |
| `DiskMap.ExpandLength` | 09-1/main.go:38-44 | the expanded length equals the sum of the digits |
| `DiskMap.ExpandFileCount` | 09-1/main.go:38-48 | file k has exactly as many blocks as the digit at position 2k |
| `DiskMap.ExpandFreeCount` | 09-1/main.go:38-44 | the free blocks number the sum of the digits at odd positions |
| `DiskMap.ScanFree` | 09-1/main.go:56-58 | the front scan stops at the first free block from front on, passing only file blocks, or at the end |
| `DiskMap.ScanFile` | 09-1/main.go:59-61 | the back scan stops at the last file block from back down, passing only free blocks, or at −1 |
| `DiskMap.FrontScanned` | 09-1/main.go:56-58 | the front scan runs off the disk only when the disk has no free block at all |
| `DiskMap.BackScanned` | 09-1/main.go:59-64 | the back scan runs off only when there is no file block; when the scans have met, no file block follows a free block |
| `DiskMap.Swapped` | 09-1/main.go:65-67 | a swap keeps the blocks a rearrangement of the input, with everything before front a file and everything after back free; front only increases and back only decreases |
| `DiskMap.Compaction` | 09-1/main.go:53-68 | the compacted disk, without pointers: the k-th free block among the first n (n the number of file blocks) holds the k-th file block counted from the right, and all blocks from n on are free |
| `DiskMap.Compact` | 09-1/main.go:52-68 | the two-pointer loop leaves exactly Compaction of the input, a rearrangement of it (only swaps) in which no file block follows a free block; it faults (Go index panic), with the disk unchanged, exactly when the disk has no free block or no file block |
| `DiskMap.Checksum` | 09-1/main.go:70-76 | the loop computes the sum of i·id over the non-free blocks |
| `DiskMap.ChecksumUpdate` | 09-1/main.go:71-76 | overwriting block i removes its term i·id from the checksum and adds that of the new content |
| `FileMoves.RunsTo` | 09-2/main.go:64-81 | the runs of the first i blocks: empty only for i = 0, and the last run ends at i, is non-empty and carries the id of block i−1 |
| `FileMoves.RunsTile` | 09-2/main.go:64-81 | the runs tile the disk: they start at 0, end at its length, each is a non-empty stretch of one id, and neighbouring runs differ in id (so each run is maximal) |
| `FileMoves.RunsGrow` | 09-2/main.go:71-74 | scanning a stretch of one id from a run boundary adds exactly one run of that stretch |
| `FileMoves.BuildSpans` | 09-2/main.go:61-81 | the scan returns the file runs and the free runs of the disk, each in left-to-right order |
| `FileMoves.FirstFit` | 09-2/main.go:89-96 | a span chosen lies left of (or at) the file and is long enough |
| `FileMoves.FirstFitIsFirst` | 09-2/main.go:89-96 | the chosen span is the first long-enough one and every span before it is too short; when none is chosen, every span left of the file is too short |
| `FileMoves.MoveBlocksAt` | 09-2/main.go:98-101 | with the target left of the source, the copy loop writes the id over the target blocks, frees the source blocks and leaves every other block |
| `FileMoves.MoveBlocksKeepsBlocks` | 09-2/main.go:98-101 | writing a file into free blocks and freeing its old blocks keeps the multiset of blocks |
| `FileMoves.Step` | 09-2/main.go:86-109 | one file's turn keeps the disk length and the number of free spans, and every span stays on the disk |
| `FileMoves.StepMoves` | 09-2/main.go:96-105 | a moved file lands in the first fit, which ends at or before the file's start; its old blocks become free, the target blocks hold its id, all others are unchanged |
| `FileMoves.StepKeeps` | 09-2/main.go:85-110 | each turn keeps the multiset of blocks and the state the moves rely on: free spans free and apart, files apart, files not yet processed where they started |
| `FileMoves.MoveAll` | 09-2/main.go:85-110 | the turns, from the last file to the first, keep the disk length and keep every span on the disk |
| `FileMoves.MoveFiles` | 09-2/main.go:84-110 | the in-place loop leaves the disk and spans exactly as MoveAll says |
| `FileMoves.MoveAllKeeps` | 09-2/main.go:84-110 | all the turns keep the multiset of blocks (every file keeps its number of blocks) and leave the free spans free |
| `FileMoves.CompactionKeepsBlocks` | 09-2/main.go:61-110 | starting from the disk's own runs, the whole compaction keeps the multiset of blocks |
| `Trails.Height` | 10-1/main.go:27 | a loaded board's height at an in-bounds cell is a single digit |
| `Trails.TrailsFromSound` | 10-1/main.go:22-43 | every trail SearchBoard explores from v is a path of 4-neighbour steps with heights rising by one, starting at v and of length 9 − hPrev, so the recursion is at most ten calls deep |
| `Trails.TrailsFromComplete` | 10-1/main.go:22-43 | every such trail from v is explored |
| `Trails.StepsAtDistanceOne` | 10-1/main.go:37-40 | the four cells searched (left, right, up, down) are exactly those at Manhattan distance one |
| `Trails.SearchCountsTrails` | 10-1/main.go:22-43 | SearchBoard(v, hPrev) is the number of distinct trails from v (0 out of bounds or on a wrong height, 1 at height 9, otherwise the sum over the four neighbours) |
| `Trails.ScoreIsTrailCount` | 10-1/main.go:45-48 | ScoreTrailhead counts exactly the trails of ten cells with heights 0 to 9 that start at v |
| `DistinctPeaks.MergeIsUnion` | 10-2/main.go:23-34 | MergeMaps returns the union of the keys, and returns m1 itself when m2 is nil |
| `DistinctPeaks.PeaksAreTrailEnds` | 10-2/main.go:36-59 | the peaks SearchBoard returns are exactly the last cells of the trails from v that 10-1 counts |
| `DistinctPeaks.PeaksAreNines` | 10-2/main.go:46-50 | every returned peak is an in-bounds cell of height 9 |
| `DistinctPeaks.ScoreAtMostTrailCount` | 10-2/main.go:61-64 | the 10-2 score (distinct reachable peaks) never exceeds the 10-1 score (trails) |
| `StoneLine.HalvesAreText` | 11-1/main.go:37-49 | the halves Atoi(Itoa(s)[:n/2]) and Atoi(Itoa(s)[n/2:]) are the numbers spelled by the first and the last digits, leading zeros dropped |
| `StoneLine.RuleShape` | 11-1/main.go:32-51 | a stone becomes one or two stones: 0 becomes 1, an even digit count gives two halves that glue back to the stone, anything else becomes s·2024 |
| `StoneLine.HalvesRejoin` | 11-1/main.go:37-49 | the two halves of an even-length number glue back to it |
| `StoneLine.StepAllAppend` | 11-1/main.go:31-52 | a blink of a line is the blinks of its two parts, concatenated: the relative order of stones is kept |
| `StoneLine.StepAllGrows` | 11-1/main.go:28-55 | a blink never shortens the line |
| `StoneLine.IterateAppend` | 11-1/main.go:28-55 | n blinks of a line are n blinks of its parts, concatenated |
| `StoneLine.Blink` | 11-1/main.go:29-54 | the inner loop builds exactly the blink of the line, with the halves computed through the decimal text as the source does |
| `StoneLine.BlinkTimes` | 11-1/main.go:28-57 | the outer loop yields the n-fold blink, and the line never shrinks |
| `StoneCount.CountByRule` | 11-2/main.go:33-57 | with blinks left, Blink(0, n) = Blink(1, n−1), an even digit count gives the sum over the two halves and any other v gives Blink(2024v, n−1) |
| `StoneCount.CountIsLineLength` | 11-2/main.go:21-58 | Blink(v, n) is the length of the line [v] after n blinks of the part-1 rule (so Blink(v, 0) = 1) |
| `StoneCount.CountAtLeastOne` | 11-2/main.go:21-58 | Blink(v, n) ≥ 1 |
| `StoneCount.CountAllIsLineLength` | 11-2/main.go:81-84 | main's total over a line is the length of that line after n blinks |
| `StoneCount.Memo.Blink` | 11-2/main.go:23-58 | the memoised Blink returns the true count; every stored answer is the true count of a question with at least one blink; entries are only added, and the question asked is stored before returning |
| `StoneCount.Memo.Total` | 11-2/main.go:79-86 | main's sum is the sum of counts, equal to the length of the part-1 line after n blinks |
| `GardenRegions.AroundAdjacent` | 12-1/main.go:70-71 | the four plots GetNeighbors tries are exactly the plots at distance one |
| `GardenRegions.DistinctAppend` | 12-1/main.go:89-98 | joining two runs of plots with none in common keeps every plot once |
| `GardenRegions.GrownAppend` | 12-1/main.go:94-98 | appending a connected run whose first plot touches the first run keeps the whole run connected |
| `GardenRegions.FewerUnvisited` | 12-1/main.go:84 | visiting one more plot leaves fewer plots to visit, which is why the flood fill ends |
| `GardenRegions.Board.constructor` | 12-1/main.go:25-52 | the board holds the lines as crops, its size is the first row's width by the number of lines, and nothing is visited |
| `GardenRegions.Board.Cells` | 12-1/main.go:62-64 | the plots of the board are exactly the positions InBounds accepts |
| `GardenRegions.Board.Inside` | 12-1/main.go:72-76 | keeps exactly the plots of a list that lie on the board, in order |
| `GardenRegions.Board.GetNeighbors` | 12-1/main.go:67-79 | returns the plots around v that lie on the board, in the order tried, and the count of the others; the two add up to four |
| `GardenRegions.Board.NeighborsAreAdjacent` | 12-1/main.go:67-79 | a plot is returned exactly when it lies on the board at distance one, and none is returned twice |
| `GardenRegions.Board.FenceSplits` | 12-1/main.go:87-93 | the sides needing a fence are those leading off the board plus those leading to another crop, as GetCost counts them |
| `GardenRegions.Board.FenceSumAppend` | 12-1/main.go:95-97 | the fence of two runs of plots is the sum of their fences |
| `GardenRegions.Board.GetCost` | 12-1/main.go:81-102 | the plots visited from v were unvisited, are each visited once and are a connected run of v's crop whose same-crop neighbours are all visited; area is their number and fence the sum of their fences |
| `GardenRegions.Board.RegionFound` | 12-1/main.go:110-117 | a run GetCost visits from an unvisited plot, when the visited plots were closed under same-crop neighbours, is a whole region, and the visited plots stay closed |
| `GardenRegions.Board.RegionsMeet` | 12-1/main.go:81-102 | two regions that share a plot hold the same plots: a region is a connected component of one crop |
| `GardenRegions.Board.Spreads` | 12-1/main.go:89-98 | a region holding a plot holds each same-crop plot next to it |
| `GardenRegions.Board.PriceAppend` | 12-1/main.go:115 | each region found adds its area times its fence to the price |
| `GardenRegions.Board.TotalCost` | 12-1/main.go:104-121 | after the scan every plot is visited; the regions found partition the board's plots, each once; the cost is the sum of area times fence over those regions |
| `GardenSides.VectorCmpLRTB` | 12-2/main.go:17-31 | returns −1, 0 or 1; 0 exactly for equal vectors; negative exactly when v1 comes first row by row, left to right |
| `GardenSides.VectorCmpTBLR` | 12-2/main.go:33-47 | returns −1, 0 or 1; 0 exactly for equal vectors; negative exactly when v1 comes first column by column, top to bottom |
| `GardenSides.CmpAntisymmetric` | 12-2/main.go:17-47 | swapping the arguments negates either comparison |
| `GardenSides.Insert` | 12-2/main.go:74-78 | inserting a new key into a sorted run keeps it sorted and adds exactly that key |
| `GardenSides.SortedKeys` | 12-2/main.go:74-78 | collecting and sorting the keys gives a strictly sorted run holding exactly the map's keys |
| `GardenSides.CountStartsCard` | 12-2/main.go:83-100 | counting along a run without repeats the units that begin a side counts the set of such units among its keys |
| `GardenSides.PrevIsBehind` | 12-2/main.go:82-99 | in the sorted keys, the key before a unit (or the sentinel (−1, −1) before the first) is the unit behind it exactly when that unit is a key: nothing sorts between the two |
| `GardenSides.Region.constructor` | 12-2/main.go:68-70 | a new region of one crop has no area and no fence |
| `GardenSides.Region.NumSides` | 12-2/main.go:72-103 | the count is the number of units of fence that begin a side: a horizontal unit with no horizontal unit left of it, a vertical unit with none above it, or any unit at a key both kinds of fence share |
| `GardenSides.AroundSteps` | 12-2/main.go:180-230 | the plots part 1 looks at around a plot are Walk's four steps from it |
| `GardenSides.FencesAppend` | 12-2/main.go:174-231 | the fence keys of two runs of plots are the union of their keys |
| `GardenSides.FenceKeysNatural` | 12-2/main.go:180-230 | no key Walk records lies left of or above the board, so the sentinel is never behind a key |
| `GardenSides.HKeysApart` | 12-2/main.go:180-204 | two distinct plots of one crop never record the same horizontal key |
| `GardenSides.PlotFence` | 12-2/main.go:174-231 | a plot's part 1 fence is the number of its sides Walk fences |
| `GardenSides.FenceKeysCount` | 12-2/main.go:174-231 | over distinct plots of one crop, Walk records exactly as many keys as part 1's fence counts units |
| `GardenSides.RegionFenceKeys` | 12-2/main.go:174-231 | for a region, part 2's fence keys number exactly part 1's fence length |
| `GardenSides.Walk` | 12-2/main.go:174-231 | fills the region through v as part 1's GetCost does (a connected run of v's crop, each plot visited once, same-crop neighbours all visited); the area grows by the number of plots and the fence maps by exactly their fence keys |
| `GardenSides.WalkSide` | 12-2/main.go:180-191 | one of Walk's four blocks: records the key of side s when the plot beyond is off the board or of another crop, and otherwise walks on when that plot is unvisited |
| `GardenSides.SidesPriceAppend` | 12-2/main.go:247 | each region adds its area times its number of sides to the price |
| `GardenSides.PriceRegion` | 12-2/main.go:243-247 | a new region walked from an unvisited plot is priced at its area times its number of sides |
| `GardenSides.TotalPrice` | 12-2/main.go:234-253 | every plot ends visited, the regions found partition the board's plots, each once, and the cost is the sum over them of area times number of sides |
| `Cramer.SingularHasNoAnswer` | 13-1/main.go:51-54 | LinearSolve fails when the determinant is zero |
| `Cramer.CramerNumerators` | 13-1/main.go:56 | for c = M·v, both Cramer numerators are the determinant times the components of v |
| `Cramer.LinearSolveSound` | 13-1/main.go:50-62 | on success, A·x + B·y = c.X and C·x + D·y = c.Y for the returned (x, y) |
| `Cramer.LinearSolveComplete` | 13-1/main.go:50-62 | with a non-zero determinant, any integer (x, y) with M·(x, y) = c is exactly what LinearSolve returns, so the answer is unique |
| `Cramer.NoAnswerMeansNoPresses` | 13-1/main.go:56-60 | a failure with non-zero determinant (a numerator not divisible) means no integer vector solves the system |
| `RobotBoard.StepAll` | 14-1/main.go:96-101 | every robot is moved by its velocity and wrapped, one result per robot |
| `RobotBoard.StepKeepsRobots` | 14-1/main.go:96-101 | a step keeps the number of robots and each robot's velocity |
| `RobotBoard.StepKeepsOnBoard` | 14-1/main.go:62-70 | a robot on the board with velocity components smaller than the board stays on the board, at its moved position reduced modulo the board |
| `RobotBoard.AfterSeconds` | 14-1/main.go:196-202 | after n seconds such a robot is at its start plus n times its velocity, reduced modulo the board |
| `RobotBoard.MovesIndependently` | 14-1/main.go:96-101 | robots do not interact: each moves as it would alone |
| `RobotBoard.AddModLeft` | 14-1/main.go:69 | reducing the left summand first does not change the residue of a sum |
| `RobotBoard.Quadrant` | 14-1/main.go:107-120 | a position's quadrant is one of 0 (a middle line) to 4 |
| `RobotBoard.QuadrantsPartition` | 14-1/main.go:104-123 | every robot falls in exactly one of the four quadrants or on a middle line |
| `RobotBoard.Board.constructor` | 14-1/main.go:168 | a new board has the given size and no robots |
| `RobotBoard.Board.AddRobot` | 14-1/main.go:92-94 | the robot is appended to the list |
| `RobotBoard.Board.Step` | 14-1/main.go:96-102 | every robot, in place, becomes the robot moved once |
| `RobotBoard.Board.Run` | 14-1/main.go:196-202 | after the loop the robots are the start iterated the given number of seconds |
| `RobotBoard.Board.Score` | 14-1/main.go:104-124 | the score is the product of the robot counts of the four quadrants around the middle Div computes |
| `BoxPush.MoveVector` | 15-1/main.go:27-39 | a known move changes exactly one coordinate by one; an unknown move changes nothing |
| `BoxPush.Inside` | 15-1/main.go:89-92 | in a walled warehouse a step from a non-wall cell stays on the grid and comes closer to the border, so pushing ends |
| `BoxPush.SetKeepsWalls` | 15-1/main.go:51-53 | writing a non-wall over a non-wall keeps every wall where it was |
| `BoxPush.Push` | 15-1/main.go:89-112 | a push that succeeds keeps every wall and the warehouse walled |
| `BoxPush.Board.SetCell` | 15-1/main.go:51-53 | exactly the one cell is rewritten and the robot stays |
| `BoxPush.Board.MoveObject` | 15-1/main.go:89-112 | returns true exactly when the push succeeds, leaving the grid as Push gives it; on false (a wall, or a box that cannot move) the grid is unchanged |
| `BoxPush.Board.MoveRobot` | 15-1/main.go:114-118 | the robot's position advances one step exactly when its push succeeds, the grid becoming the pushed one; otherwise nothing changes; the robot stays on its cell in a walled warehouse |
| `BoxPush.PushMovesCell` | 15-1/main.go:98-108 | after a push the pushed object stands one step ahead |
| `BoxPush.RunEnd` | 15-1/main.go:104-105 | the first non-box cell past the run of boxes lies on the grid at least one step along |
| `BoxPush.PushSucceeds` | 15-1/main.go:94-111 | a push succeeds exactly when the cell past the run of boxes is empty (so never into a wall) |
| `BoxPush.PushRay` | 15-1/main.go:98-108 | a successful push empties pos, puts its object one step ahead, extends the run of boxes by one cell at its far end, and changes no other cell |
| `BoxPush.PushKeepsCells` | 15-1/main.go:89-112 | a push keeps the number of cells of every kind: boxes, walls and the robot |
| `BoxPush.Board.Score` | 15-1/main.go:120-130 | the score is the sum of x + 100·y over the box cells |
| `BoxPush.ScoreUpdate` | 15-1/main.go:120-130 | changing one cell changes the score by that cell's worth only |
| `WideBoxPush.WidenCell` | 15-2/main.go:78-91 | every cell of the map becomes two cells |
| `WideBoxPush.WidenRowAt` | 15-2/main.go:77-93 | cell i of a line becomes cells 2i and 2i + 1 of the widened row: '@' gives '@' '.', 'O' gives '[' ']', any other cell is doubled |
| `WideBoxPush.MapEnd` | 15-2/main.go:72-76 | the map is the lines before the first blank line, or all of them |
| `WideBoxPush.LastPlayer` | 15-2/main.go:81-84 | the column found holds an '@' with no '@' after it in the line; none is found only when the line has no '@' |
| `WideBoxPush.PlayerPos` | 15-2/main.go:69-96 | the robot starts at the widened position (twice the column) of the last '@' in reading order, or at the origin when the map has none |
| `WideBoxPush.ReadRow` | 15-2/main.go:77-93 | one line is widened cell by cell, and an '@' moves the robot to its widened position in that row |
| `WideBoxPush.ReadBoard` | 15-2/main.go:69-96 | the board read is the widened map of the lines before the first blank one, with the robot at the widened position of the last '@' |
| `WideBoxPush.WidenValid` | 15-2/main.go:69-96 | widening a walled map gives a walled grid, and the robot read stands on an '@' of it |
| `WideBoxPush.WidenPaired` | 15-2/main.go:85-88 | a map without box halves widens to a grid where every '[' has its ']' to the right and every ']' its '[' to the left |
| `WideBoxPush.WidenCount` | 15-2/main.go:85-88 | each box of the map becomes exactly one '[' and one ']' |
| `WideBoxPush.Partner` | 15-2/main.go:110-118 | only a vertical move into a box half involves another cell, the cell beside it in the same row |
| `WideBoxPush.HorizontalCanMove` | 15-2/main.go:98-121 | a horizontal move can go exactly when the cell past the run of objects ahead is empty rather than a wall (CanMove recurses on the next cell only) |
| `WideBoxPush.VerticalOneBox` | 15-2/main.go:110-157 | pushing a box half up or down with empty cells beyond both halves is allowed and moves the whole box, leaving both old cells of the pusher and the other half empty |
| `WideBoxPush.MoveF` | 15-2/main.go:124-157 | a result of Move has the grid's shape |
| `WideBoxPush.Board.Move` | 15-2/main.go:124-157 | the recursive moves rewrite the grid as MoveF says, or report the out-of-range read; the robot's position is untouched |
| `WideBoxPush.Board.MoveRobot` | 15-2/main.go:159-164 | when CanMove refuses nothing changes; otherwise the grid is the one where every pushed cell moved one step, the robot advances one step and its old cell is empty; walls stay, every box stays whole and every kind of cell keeps its count |
| `WideBoxPush.MoveShifts` | 15-2/main.go:124-157 | after a successful CanMove, Move shifts exactly the cells the move pushes one step along, keeping the count of every kind of cell |
| `WideBoxPush.ShiftWalls` | 15-2/main.go:124-157 | such a shift keeps every wall where it is |
| `WideBoxPush.ShiftPaired` | 15-2/main.go:124-157 | after the shift every box is still whole |
| `WideBoxPush.ShiftPlayer` | 15-2/main.go:155-156 | after the shift the robot stands one step further on |
| `WideBoxPush.ShiftLeaves` | 15-2/main.go:155 | after the shift the cell the robot left is empty |
| `WideBoxPush.Board.Score` | 15-2/main.go:166-176 | the score is the sum of x + 100·y over the '[' cells |
| `MazeGraph.DirVector` | 16-2/main.go:27-39 | each facing is a unit step, Up being (0, −1) |
| `MazeGraph.VectorsRotate` | 16-2/main.go:18-39 | each facing in the order of Dirs is the previous one turned a quarter clockwise, so the four steps are distinct |
| `MazeGraph.PerpendicularDot` | 16-2/main.go:41-49 | two facings are a quarter turn apart exactly when their steps have a zero dot product |
| `MazeGraph.Turns` | 16-2/main.go:41-49 | the two facings returned are distinct and are exactly those a quarter turn away |
| `MazeGraph.NewCell` | 16-2/main.go:81-88 | a new cell has one node per facing, all at its position and at distance MaxInt |
| `MazeGraph.OutEdges` | 16-2/main.go:217-236 | the edges returned are exactly the moves out of a node (forward into an open cell at cost 1, a quarter turn at cost 1000): three with the cell ahead open, else two |
| `MazeGraph.InEdges` | 16-2/main.go:238-257 | the edges returned are exactly the moves into a node: from the open cell behind at cost 1, or a quarter turn at cost 1000 |
| `MazeGraph.EdgesReverse` | 16-2/main.go:217-257 | between open cells an edge is an in-edge of its target exactly when it is an out-edge of its source |
| `MazeGraph.WalkSnoc` | 16-2/main.go:295-300 | a walk extended by an out-edge of its last node is a walk costing that edge more |
| `MazeRun.LeastExists` | 16-2/main.go:259-270 | a non-empty queue has a node of least distance, the one the heap pops |
| `MazeRun.Frontier` | 16-2/main.go:285-301 | along any walk from the start, some queued node is no further than the walk's cost, or its last node already is |
| `MazeRun.PopOptimal` | 16-2/main.go:291-293 | a least node popped on the end cell is no further than any walk to the end |
| `MazeRun.Exhausted` | 16-2/main.go:303 | with nothing queued, every walk to the end costs at least MaxInt |
| `MazeRun.Improve` | 16-2/main.go:296-299 | lowering a node to the cost through an out-edge and queueing it keeps the search state |
| `MazeRun.Expand` | 16-2/main.go:295-300 | the loop over the out-edges lowers and re-queues exactly the targets strictly improved |
| `MazeRun.Settle` | 16-2/main.go:295-300 | an expanded node whose out-edges all hold is relaxed; the sum of distances went down unless nothing changed |
| `MazeRun.Maze.constructor` | 16-2/main.go:110-138 | every cell of the maze gets the four nodes of NewCell at MaxInt, and no cell is on a path |
| `MazeRun.Maze.Solve` | 16-2/main.go:272-304 | the start facing right is at 0; the answer lies between 0 and MaxInt, is the cost of a walk to some node of the end cell when below MaxInt, and is no more than any walk from the start to the end cell |
| `MazeRun.ChainDone` | 16-2/main.go:320-336 | when the queue is empty every node reached by stepping back from the end has been taken from the queue |
| `MazeRun.Retrace` | 16-2/main.go:328-335 | the inner loop queues and marks the source of every tight in-edge of the node (finite source, costs adding up exactly) |
| `MazeRun.MarkStep` | 16-2/main.go:320-336 | one round keeps the marking sound and closed and lowers the weight of the queue, so the loop ends |
| `MazeRun.MarkAll` | 16-2/main.go:306-337 | a cell ends marked exactly when it was marked before or one of its nodes is reached by stepping back over tight in-edges from the end cell, never past the start |
| `MazeRun.Maze.MarkPath` | 16-2/main.go:306-337 | leaves the distances alone and marks exactly the earlier cells and those of nodes reached back from the end over tight in-edges |
| `ThreeBitMachine.ShiftRightShrinks` | 17-2/main.go:81-82 | `x >> k` never exceeds x |
| `ThreeBitMachine.Combo` | 17-2/main.go:62-72 | the combo operand is the literal for 0-3 (and for 7 and up, which the switch leaves alone) and A, B, C for 4, 5, 6 |
| `ThreeBitMachine.StepHaltsExactlyAtEnd` | 17-2/main.go:48-51 | a loop turn stops exactly when InstPtr ≥ len(Prog) |
| `ThreeBitMachine.DivisionsReadA` | 17-2/main.go:81-82 | ADV, BDV and CDV store A >> combo into A, B and C respectively, all reading the numerator from A, and change nothing else |
| `ThreeBitMachine.JumpOnlyWhenANonZero` | 17-2/main.go:53-104 | JNZ sets InstPtr to the literal iff A ≠ 0, otherwise InstPtr has advanced by 2; no register changes |
| `ThreeBitMachine.StepOutput` | 17-2/main.go:93-116 | a step only appends to the output, one value exactly for OUT, and that value lies in [0, 8); after BST, B lies in [0, 8) |
| `ThreeBitMachine.ExecOutputExtends` | 17-2/main.go:115-116 | over a whole run earlier outputs never change and every added value lies in [0, 8) |
| `ThreeBitMachine.ExecHaltsAtEnd` | 17-2/main.go:48-59 | a run ends normally exactly when InstPtr ≥ len(Prog); it faults (reading an operand past the end) only with InstPtr at the last program cell |
| `ThreeBitMachine.ExecFuelMonotone` | 17-2/main.go:47-138 | a run that finished within some fuel gives the same result with more fuel |
| `ThreeBitMachine.Machine.Clone` | 17-2/main.go:38-45 | the clone is a fresh object with the same registers, pointer, program and output, so changing it cannot change the original |
| `ThreeBitMachine.Machine.Run` | 17-2/main.go:47-138 | the loop leaves the machine in the state the step semantics Exec reaches, with the program unchanged |
| `Bits.XorCommutes` | 17-2/main.go:110 | B xor C equals C xor B |
| `RamRun.OnGridIn` | 18-2/main.go:43-48 | on a board's grid a position has a cell exactly when it is not out of bounds |
| `RamRun.SetScore` | 18-2/main.go:111 | scoring one cell keeps the grid's shape and changes that cell's score only |
| `RamRun.Fresh` | 18-2/main.go:32-41 | the reference grid for a set of fallen bytes: shaped to the size, nothing scored, a cell blocked exactly when a byte fell on it |
| `RamRun.UnscoredSet` | 18-2/main.go:110-112 | scoring a cell still at MaxInt leaves one unscored cell fewer, the measure that ends the search |
| `RamRun.AllUnscoredCount` | 18-2/main.go:32-41 | on a board nobody has searched, all size.x × size.y cells are unscored |
| `RamRun.RouteSameBlocks` | 18-2/main.go:107-108 | routes depend on the blocked cells only, not on scores |
| `RamRun.RouteKeeps` | 18-2/main.go:107-108 | a route stays a route when only cells it does not enter change |
| `RamRun.BlockingNeverShortens` | 18-2/main.go:157-160 | with more bytes fallen the fewest steps between two cells never go down |
| `RamRun.BlockingKeepsCut` | 18-2/main.go:157-167 | once a corner is cut off, more fallen bytes keep it cut off, so the first cut found is the answer |
| `RamRun.OpenBoardConnected` | 18-2/main.go:156 | with no byte fallen the bottom-right corner can be reached from the top-left one |
| `RamRun.InImprovable` | 18-2/main.go:107-113 | the neighbours a popped cell improves are exactly the open ones on the grid whose score is above its own plus one |
| `RamRun.AssignAt` | 18-2/main.go:111 | assigning a score to a list of cells changes exactly those cells' scores |
| `RamRun.Relax` | 18-2/main.go:107-115 | the neighbour loop scores each improved neighbour one above the popped cell and pushes them in the order Up, Right, Down, Left, and changes nothing else |
| `RamRun.MinIndex` | 18-2/main.go:83-92 | the entry popped has the least score in the queue |
| `RamRun.SearchDone` | 18-2/main.go:94-118 | however the search ends, Start scores 0, blocks are unchanged and every scored cell other than Start is open |
| `RamRun.EndPopped` | 18-2/main.go:103-104 | when End is popped, its score is the fewest steps from Start and there is a route through scored cells |
| `RamRun.QueueDry` | 18-2/main.go:100-118 | when the queue runs dry, End's score is MaxInt exactly when End cannot be reached |
| `RamRun.Board.constructor` | 18-2/main.go:32-41 | every cell free, unscored and at its own position; Start at the top-left corner and End at the bottom-right one |
| `RamRun.Board.At` | 18-2/main.go:43-48 | nil exactly out of bounds, otherwise the cell at that position |
| `RamRun.Board.Clone` | 18-2/main.go:65-71 | a new board of the same size, start, end and cells |
| `RamRun.Board.Reset` | 18-2/main.go:73-79 | every score back to MaxInt and the blocked cells unchanged |
| `RamRun.Board.Solve` | 18-2/main.go:94-119 | returns End's score, which is MaxInt exactly when End cannot be reached and otherwise the fewest steps from Start; only scores change |
| `RamRun.HoldsFresh` | 18-2/main.go:156-160 | a grid holding the fallen bytes connects the corners exactly when the reference grid does |
| `RamRun.Block` | 18-2/main.go:159-160 | a fallen byte blocks its cell and changes nothing else |
| `RamRun.Dropped` | 18-2/main.go:157-160 | after byte i falls the grid holds exactly the first i + 1 bytes |
| `RamRun.UnscoredBlockKeepsRoute` | 18-2/main.go:161 | a byte landing on a cell the last search never scored leaves its scored route intact, so skipping the new search is sound |
| `RamRun.FirstCut` | 18-2/main.go:156-169 | reports the first byte after which the corners are no longer connected, or that they stay connected after every byte |
| `Tries.Trie.constructor` | 19-1/main.go:16-20 | NewTrie is the trie holding only the root, which is not a token |
| `Tries.Trie.InsertToken` | 19-1/main.go:22-33 | after InsertToken(w) the node reached by following w from the root is a token; no existing node or token is removed, and the only new nodes are prefixes of w |
| `Tries.ChildKeepsClosed` | 19-1/main.go:26-29 | adding a missing child under an existing node keeps every node's prefixes in the trie |
| `Tries.SolveCorrect` | 19-1/main.go:35-53 | Solve(root, w) is true iff w is a concatenation of inserted non-empty tokens (false when a child is missing and the node is not a token) |
| `Tries.WalkCorrect` | 19-1/main.go:36-52 | Solve's loop standing on node w[..i] succeeds iff some token prefix of w at least i long is the whole word or is followed by a rest that splits |
| `TrieCounts.SplittingsSound` | 19-2/main.go:67-97 | everything the count gathers is a splitting of w into stored non-empty words |
| `TrieCounts.SplittingsComplete` | 19-2/main.go:67-97 | every splitting of w into stored non-empty words is gathered |
| `TrieCounts.WaysCountsSplittings` | 19-2/main.go:67-97 | the count Solve computes is the number of distinct ways to split w into inserted tokens |
| `TrieCounts.WaysPositiveIffSplits` | 19-2/main.go:67-97 | the count is positive iff part 1's Solve finds the design possible |
| `TrieCounts.NothingPastMissingChild` | 19-2/main.go:81-85 | past a missing child no longer prefix of w is a token, so returning early loses nothing |
| `TrieCounts.CountingTrie.constructor` | 19-2/main.go:27-32 | a new trie holds only the root and an empty cache |
| `TrieCounts.CountingTrie.InsertToken` | 19-2/main.go:34-45 | after InsertToken(w) the path for w ends at a token node; earlier tokens stay, and the cache is left alone |
| `TrieCounts.CountingTrie.Solve` | 19-2/main.go:67-97 | Solve(w) returns the number of ways to split w into inserted tokens; afterwards cache[w] holds that value, every cached value is the true count, and no cache entry is removed, so repeated calls agree |
| `TrieCounts.CountingTrie.TokensBelow` | 19-2/main.go:51-65 | TrieNode.Tokens on node p lists exactly the non-empty suffixes s with p + s a token |
| `TrieCounts.CountingTrie.Tokens` | 19-2/main.go:47-49 | Trie.Tokens lists exactly the non-empty inserted words |
| `Vectors.Div` | 20-2/vector.go:29-33 | quotient · d + remainder = v componentwise, with Go's truncating division: each remainder is smaller than d in magnitude and has its component's sign |
| `Vectors.Neighbors4` | 20-2/vector.go:57-64 | four vectors: Up, Right, Down, Left |
| `Vectors.AddSubInverse` | 20-2/vector.go:9-23 | Add/Sub and AddInt/SubInt undo each other |
| `Vectors.DivOfMul` | 20-2/vector.go:25-33 | dividing v·d by d gives v with zero remainder |
| `Vectors.WrapInRange` | 20-2/vector.go:39-47 | for positive sizes and components ≥ −size, Wrap lands inside the board (IsOOB false) and is congruent to the input |
| `Vectors.WrapBelowRange` | 20-2/vector.go:39-47 | below −size Wrap can leave the board: the source relies on velocities smaller than the board |
| `Vectors.ManhattanMetric` | 20-2/vector.go:66-68 | the distance is symmetric, zero exactly between equal vectors, and obeys the triangle inequality |
| `Vectors.NeighborsAtDistanceOne` | 20-2/vector.go:57-68 | each of Neighbors4 is at distance 1, and a vector is at distance 1 iff it is one of them |
| `Vectors.AbsIsDistanceFromOrigin` | 20-2/vector.go:35-37 | Abs has non-negative components summing to the distance from the origin |
| `RaceMaze.Saving` | 20-1/main.go:152 | the saving of a shortcut is the fastest time minus its distance whenever that difference fits in 64 bits |
| `RaceMaze.Extend` | 20-1/main.go:84 | setting the distance of a list of cells adds exactly those cells, at that distance, and keeps every other entry |
| `RaceMaze.ExtendKeeps` | 20-1/main.go:83-85 | only cells still at MaxInt are set, so no recorded distance changes |
| `RaceMaze.NeighborBack` | 20-1/main.go:82 | neighbourhood is symmetric, so a sweep from End measures walks towards End |
| `RaceMaze.LastSeenStep` | 20-1/main.go:37-41 | reading one more character keeps the position of the last 'S' (or 'E') read |
| `RaceMaze.ReadStep` | 20-1/main.go:35-41 | reading one more character adds its cell, adds it to the walls exactly when it is '#', and moves Start or End onto it when it is 'S' or 'E' |
| `RaceMaze.ReadNextRow` | 20-1/main.go:33-43 | finishing a row is starting the next one |
| `RaceMaze.Maze.constructor` | 20-1/main.go:31-47 | a cell per character, a wall per '#', Start and End at the last 'S' and 'E' read (or (0, 0)), the size taken from the first line and the number of lines, every distance MaxInt |
| `RaceMaze.Maze.At` | 20-1/main.go:49-54 | nil exactly out of bounds, otherwise the cell at that position, a wall exactly when '#' was read there |
| `RaceMaze.Maze.WalkPrepend` | 20-1/main.go:82-85 | a move from an open cell onto the start of a walk gives a longer walk |
| `RaceMaze.Maze.WalkTail` | 20-1/main.go:82-85 | dropping the first cell of a walk of two or more cells leaves a walk, and the first move is a move |
| `RaceMaze.Maze.FreshAmong` | 20-1/main.go:82-87 | the neighbours pushed are exactly those that are neither walls nor already reached, without repeats |
| `RaceMaze.Maze.Relax` | 20-1/main.go:82-87 | the neighbour loop sets each fresh neighbour one further than the dequeued cell and queues them in the order Up, Right, Down, Left |
| `RaceMaze.Maze.BfsStep` | 20-1/main.go:79-88 | one turn of a sweep keeps the queue sorted by distance within one step, and every dequeued cell settled |
| `RaceMaze.Maze.LowerBound` | 20-1/main.go:79-88 | once every reached cell is settled, no walk to the origin is shorter than the distance of its first cell |
| `RaceMaze.Maze.BfsDone` | 20-1/main.go:79-88 | an empty queue leaves exactly the cells that can walk to the origin with a distance, each the shortest walk |
| `RaceMaze.Maze.Progress` | 20-1/main.go:83-85 | queueing a cell shrinks the set of cells not yet reached, so the sweep ends |
| `RaceMaze.Maze.BackwardsSolve` | 20-1/main.go:76-89 | End at 0, and exactly the cells that can walk to End get the length of the shortest such walk; DistToStart unchanged |
| `RaceMaze.Maze.WallHops` | 20-1/main.go:114-127 | the two inner loops of one dequeued cell return its shortcuts, through each wall beside it to each open cell beyond, in loop order |
| `RaceMaze.Maze.SolveShortcuts` | 20-1/main.go:97-131 | the sweep from Start leaves shortest distances as BackwardsSolve does, and the list returned is the shortcuts of each dequeued cell in queue order |
| `RaceMaze.Maze.ShortcutsFound` | 20-1/main.go:97-131 | a shortcut is in the list exactly when it goes from a cell reachable from Start through a wall beside it to an open cell that reaches End, its distance the fewest moves to the first cell plus two plus the fewest moves from the landing to End, below the fastest time |
| `RaceMaze.Maze.LandingAsWritten` | 20-1/main.go:118-125 | the landing test as written records at most one shortcut, on an open in-bounds cell, below the fastest time |
| `RaceMaze.Maze.LandingReachedAgrees` | 20-1/main.go:118-125 | where the landing reaches End and the sum fits in 64 bits, the code as written and the corrected landing agree |
| `RaceMaze.Maze.UnreachableLandingCounted` | 20-1/main.go:118-125 | a landing that cannot reach End is dropped by the corrected test but recorded as written with a wrapped, negative distance, whose saving counts as at least 100 |
| `RaceCheats.InDiamond` | 20-2/main.go:98-112 | the cells NeighborsX lists are exactly those one to twenty moves away |
| `RaceCheats.DiamondDistinct` | 20-2/main.go:98-112 | NeighborsX lists no cell twice, so no cheat is found twice from one cell |
| `RaceCheats.NeighborsX` | 20-2/main.go:98-112 | the loops list the rows from twenty above to twenty below, each as wide as the moves left, skipping the cell itself |
| `RaceCheats.CheatHops` | 20-2/main.go:131-140 | the landing loop of one dequeued cell returns its cheats, to each open in-bounds cell of the diamond, in loop order |
| `RaceCheats.SolveShortcuts` | 20-2/main.go:114-144 | the sweep from Start leaves shortest distances as in part 1, and the list returned is the cheats of each dequeued cell in queue order |
| `RaceCheats.CheatsFound` | 20-2/main.go:114-144 | a cheat is in the list exactly when it goes from a cell reachable from Start to an open cell one to twenty moves away that reaches End, costing the fewest moves to the first, the Manhattan distance and the fewest moves from the second to End, below the fastest time |
| `RaceCheats.CheatLandingAsWritten` | 20-2/main.go:131-139 | the landing test as written records at most one cheat, to an open in-bounds cell, below the fastest time |
| `RaceCheats.CheatLandingReachedAgrees` | 20-2/main.go:131-139 | where the landing reaches End and the sum fits in 64 bits, the code as written and the corrected landing agree |
| `RaceCheats.UnreachableCheatCounted` | 20-2/main.go:131-139 | a landing that cannot reach End is dropped by the corrected test but recorded as written with a wrapped, negative distance, whose saving counts as at least 100 |
| `Keypads.ActionOf` | 21-1/main.go:35-41 | ActionMapInv read as Go reads a map: the press action exactly for 'A', and Up, the zero Action, for a rune that is no key |
| `Keypads.Column` | 21-1/main.go:12-20 | each direction has one of the four columns of the move tables |
| `Keypads.DirKey` | 21-1/main.go:23-28 | the rune of each column reads back, through ActionMapInv, as the direction of that column |
| `Keypads.Opposite` | 21-1/main.go:12-20 | the opposite direction is another column |
| `Keypads.KeypadMoves` | 21-1/main.go:48-60 | every button has four entries, NULL off the keypad or over its gap, and a rune that is no button gives four NULLs |
| `Keypads.RobotMoves` | 21-1/main.go:61-67 | the same for the directional keypad |
| `Keypads.KeypadReversible` | 21-1/main.go:48-60 | on the numeric keypad moving the opposite way returns to the button moved from, so the table is consistent |
| `Keypads.RobotReversible` | 21-1/main.go:61-67 | the same holds for the directional keypad's table |
| `Keypads.NextState` | 21-1/main.go:76-107 | the next state keeps the number of arms, and there is none for an empty chain |
| `Keypads.MoveUndone` | 21-1/main.go:91-104 | a direction key moves the first arm only, and the opposite key moves it back |
| `Keypads.PressActsBelow` | 21-1/main.go:85-90 | 'A' passes down the arms resting on 'A' and, at the first arm resting elsewhere, acts with that button on the robot behind it |
| `Keypads.PressAtKeypad` | 21-1/main.go:79-82 | with every arm resting on 'A' down to the keypad robot, 'A' presses a keypad button and gives no next state |
| `Keypads.Replay` | 21-1/main.go:160-171 | replaying keys one NextState at a time keeps the number of arms |
| `Keypads.ReplayAppend` | 21-1/main.go:160-171 | replaying keys after keys continues from where the first ones stopped |
| `KeypadSearch.FiniteReach` | 21-1/main.go:148-175 | only finitely many states can be reached from a start, so the search ends |
| `KeypadSearch.NewIsFar` | 21-1/main.go:166-171 | a state first seen while expanding a state at some level takes at least one key more than that level |
| `KeypadSearch.Unreachable` | 21-1/main.go:175 | when the queue is empty and nothing is pending, every state keys can reach from the start has been seen |
| `KeypadSearch.PushSound` | 21-1/main.go:166-170 | caching and queueing a newly seen state with the keys to it keeps every cached path leading where it says |
| `KeypadSearch.PushSettled` | 21-1/main.go:166-170 | and keeps the search breadth-first |
| `KeypadSearch.KeyOrder` | 21-1/main.go:21 | the search tries the five keys of the directional keypad, in the order ^ > v < A |
| `KeypadSearch.Expand` | 21-1/main.go:160-172 | after the inner loop every key from the popped state leads to a seen state, and either nothing was queued or one more state was seen |
| `KeypadSearch.Resume` | 21-1/main.go:148-175 | the loop returns keys that lead from the start to the target, or reports a dry queue; from a settled breadth-first queue the keys are a fewest-keys path and a dry queue means the target cannot be reached |
| `KeypadFinder.SaveSearch` | 21-1/main.go:156 | saving a settled search keeps both caches consistent |
| `KeypadFinder.PathFinder.constructor` | 21-1/main.go:114-126 | both caches start empty |
| `KeypadFinder.PathFinder.FindShortestPath` | 21-1/main.go:129-176 | corrected: the path returned is a fewest-keys path to the target, no path means none exists, a cached answer is returned unchanged, and only entries of searches from this start are added |
| `KeypadFinder.PathFinder.FindShortestPathAsWritten` | 21-1/main.go:129-176 | as written: any path returned leads to the target, searches from other starts are untouched, a cached answer returns at once, and a saved empty queue returns nothing |
| `KeypadStranded.OneToTwo` | 21-1/main.go:48-67 | nine keys take the arms from A A 1 to A A 2 |
| `KeypadStranded.Stranded` | 21-1/main.go:154-157 | for the code 112A the searches as written find no path from A A 1 to A A 2, though one exists |
| `KeypadCodes.Rest` | 21-1/main.go:212-214 | the state main aims for is three arms, the first two on 'A' and the last over the digit |
| `KeypadCodes.TypedReplay` | 21-1/main.go:160-171 | keys that press no keypad button type nothing and move the arms as Replay does |
| `KeypadCodes.TypeDigit` | 21-1/main.go:215-222 | a path to the arms' rest over a digit, then 'A', types that digit |
| `KeypadCodes.Split` | 21-1/main.go:209-224 | any keys typing a prefix of a code cost at least the fewest keys for each digit typed plus one press per digit |
| `KeypadCodes.TypingStep` | 21-1/main.go:213-223 | one more digit's fewest-keys path and press extends the typing of the code |
| `KeypadCodes.TypingStuck` | 21-1/main.go:215-218 | a digit that cannot be reached from the previous rest means no keys type the code |
| `KeypadCodes.TypingDone` | 21-1/main.go:209-224 | the keys built for every digit type exactly the code and no keys typing it are fewer |
| `KeypadCodes.CodeKeys` | 21-1/main.go:210-223 | with the corrected path finder, the keys returned type exactly the code and no keys that do are fewer; no result means no keys type the code |
| `KeypadCodes.SummedStep` | 21-1/main.go:225-228 | adding a code's key count times its number extends the weighted sum |
| `KeypadCodes.Complexity` | 21-1/main.go:204-231 | the complexity is the sum over the codes of the fewest keys typing each times the number its first three characters spell; no result means some code cannot be typed |
| `RobotActions.OfColumn` | 21-2/main.go:234 | Action(i) of a table column is a direction |
| `RobotActions.ColumnOf` | 21-2/main.go:15-24 | each direction has a column, and Action of that column gives it back |
| `RobotActions.Reverse` | 21-2/main.go:27-33 | ActionReverse turns each direction into the one the move tables call opposite and keeps the press key |
| `RobotActions.ReverseInvolution` | 21-2/main.go:51-53 | reversing twice gives back every action but Invalid |
| `RobotActions.KeyOf` | 21-2/main.go:47-49 | the key of an action is one of the five keys, NULL exactly for Invalid, which ActionMap lacks |
| `RobotActions.ActionOf` | 21-2/main.go:63-69 | State.Action is Invalid exactly for a rune that is no key |
| `RobotActions.KeyRoundTrip` | 21-2/main.go:35-69 | ActionMap and ActionMapInv are inverse on the five keys |
| `RobotWalks.Row` | 21-2/main.go:80-99 | every move-table row has four entries, four NULLs for a rune without a row |
| `RobotWalks.StepsSnoc` | 21-2/main.go:217-244 | a walk extended by one table move is a walk one move longer |
| `RobotWalks.ShutWalk` | 21-2/main.go:217-244 | no walk leaves a set of buttons that holds every move out of it |
| `RobotWalks.ShutOut` | 21-2/main.go:247 | a button outside such a set cannot be reached from inside it |
| `RobotWalks.RobotHome` | 21-2/main.go:93-99 | on the directional keypad every key can reach A |
| `RobotWalks.RobotConnected` | 21-2/main.go:93-99 | on the directional keypad every key can reach every key, so a parent's Press never fails |
| `ChainKeys.ActionsOf` | 21-2/main.go:63-69 | keys map to one action each |
| `ChainKeys.Drive` | 21-2/main.go:107-125 | driving the chain with human keys keeps the number of arms |
| `ChainKeys.ActAllAppend` | 21-2/main.go:163-249 | one arm's actions compose: the second run starts where the first stopped and the outputs concatenate |
| `ChainKeys.DriveAppend` | 21-2/main.go:163-249 | key sequences compose along the whole chain |
| `ChainKeys.TypesAppend` | 21-2/main.go:208-210 | costs add up: keys that take the chain from one state to a second, then to a third, type both outputs |
| `ChainKeys.PressStep` | 21-2/main.go:191-196 | pressing leaves the arm where it is and outputs its button |
| `ChainKeys.TypesTop` | 21-2/main.go:230-232 | with the human at the controls one key does one action |
| `ChainKeys.TypesLift` | 21-2/main.go:233-237 | keys that make the parent press a key, its own parents back on A, make this machine do that key's action |
| `ChainKeys.PressHere` | 21-2/main.go:165-168 | with every arm above on A, one key presses the button under the first arm |
| `RobotSearch.LeastExists` | 21-2/main.go:150-161 | a non-empty queue has an item of least cost, the one heap.Pop returns |
| `RobotSearch.Remove` | 21-2/main.go:186 | popping an item leaves every other item queued |
| `RobotSearch.StaleRemove` | 21-2/main.go:186-189 | popping an item already visited lowers the count of stale items, so the search ends |
| `RobotSearch.PopStep` | 21-2/main.go:186-189 | popping an item that is not the target starts following its moves |
| `RobotSearch.TargetStep` | 21-2/main.go:208-214 | the target popped unpressed goes back on the queue pressed at a higher cost, keeping the search invariant |
| `RobotSearch.PushStep` | 21-2/main.go:239-243 | queueing the button a move leads to, at the popped cost plus the move's cost, keeps the search invariant |
| `RobotSearch.DryQueue` | 21-2/main.go:185-247 | a search whose queue runs dry never reached the target, and the target cannot be reached |
| `RobotSearch.SearchStart` | 21-2/main.go:175-183 | the search starts with the start button visited and queued at cost 0, the parent on A |
| `RobotSearch.Progress` | 21-2/main.go:189 | visiting a new button lowers the count of buttons not yet visited |
| `RobotChain.SoundAdd` | 21-2/main.go:194-204 | caching a cost the search found keeps every cached cost sound |
| `RobotChain.CacheHit` | 21-2/main.go:170-173 | a cached cost is at least one key, for a reachable pair, and the length of a key sequence that moves the arm there and presses it with the chain above at rest |
| `RobotChain.MoveTyped` | 21-2/main.go:225-241 | a move costs one key at the top and otherwise the parent's keys for the direction key, and those keys bring the arm to the next button |
| `RobotChain.PressTyped` | 21-2/main.go:201-211 | pressing the target costs one key at the top and otherwise the parent's keys for A, and those keys press it and bring every arm above home |
| `RobotChain.RequeueOk` | 21-2/main.go:208-214 | requeueing the target pressed keeps the search invariant and makes progress |
| `RobotChain.PopOk` | 21-2/main.go:186-189 | popping an item that is not the target keeps the invariant and makes progress |
| `RobotChain.PressedFound` | 21-2/main.go:191-197 | a popped target already pressed has as cost a key sequence that types it |
| `RobotChain.TopFound` | 21-2/main.go:201-206 | a popped target with the human at the controls costs one more key, and that is a walk plus the press |
| `RobotChain.Machine.constructor` | 21-2/main.go:117-125 | a new machine has an empty cache, its keypad's table and the given parent |
| `RobotChain.Machine.ParentReach` | 21-2/main.go:233-237 | a parent's arm can reach any key from any key |
| `RobotChain.Machine.Press` | 21-2/main.go:163-249 | the cost is 1 for the same button, a cached cost unchanged, otherwise at least one key exactly when the target can be reached, the length of a human key sequence that moves the arm there and presses it with the chain above starting and ending on A (a walk plus the press with the human at the controls), and it is cached; 0 when the target cannot be reached |
| `RobotChain.Machine.Search` | 21-2/main.go:175-248 | the search finds a cost exactly when the target can be reached, and caches it |
| `RobotChain.Machine.Visit` | 21-2/main.go:185-244 | one pass either finishes with a found cost or keeps the invariant and makes progress |
| `RobotChain.Machine.AtTarget` | 21-2/main.go:191-214 | a popped target finishes when pressed or with the human at the controls, and is requeued pressed otherwise |
| `RobotChain.Machine.Requeue` | 21-2/main.go:208-214 | the target goes back on the queue pressed, at its cost plus the parent's keys for A |
| `RobotChain.Machine.PressParent` | 21-2/main.go:208 | what the parent spends pressing A is at least one key, and with the item's keys presses the target and brings every arm above home |
| `RobotChain.Machine.Follow` | 21-2/main.go:217-244 | every move out of the popped button leads off the table, to a visited button, or onto the queue at the right cost |
| `RobotChain.BuildChain` | 21-2/main.go:282-291 | the chain is the door keypad under layers − 1 robots, every cache empty |
| `RobotChain.TypingSnoc` | 21-2/main.go:299-305 | the keys for the next digit follow the keys for those before |
| `RobotChain.CodeCost` | 21-2/main.go:296-305 | the count of keys for a code is, whenever every digit can be reached, the length of a key sequence that types it, at least one per digit |
| `RobotChain.TypeDigit` | 21-2/main.go:299-305 | one digit's keys added on extend the typing of the code |
| `RobotChain.WeightedSnoc` | 21-2/main.go:307-308 | adding a code's count times its number extends the weighted sum |
| `RobotChain.Complexity` | 21-2/main.go:293-310 | the complexity is the sum of each code's key count times the number its first three characters spell |
| `SecretNumbers.Generate` | 22-1/main.go:9-23 | three mix/prune rounds with shifts <<6, >>5, <<11 in that order; the result is below 2^24 |
| `SecretNumbers.MixPrune` | 22-1/main.go:11-12 | xor into the secret and keep the low 24 bits: the result is below 2^24 |
| `SecretNumbers.GenerateN` | 22-1/main.go:25-30 | the loop returns the n-th iterate of Generate (the seed for n ≤ 0), below 2^24 when n > 0 |
| `SecretNumbers.IteratedZero` | 22-1/main.go:25-30 | zero rounds give back the seed |
| `SecretNumbers.IteratedSuccessor` | 22-1/main.go:25-30 | GenerateN(i, n+1) = Generate(GenerateN(i, n)) |
| `SecretNumbers.IteratedAdds` | 22-1/main.go:25-30 | GenerateN(GenerateN(i, a), b) = GenerateN(i, a + b) |
| `SecretNumbers.IteratedBounded` | 22-1/main.go:25-30 | after at least one round the secret lies in [0, 2^24) |
| `PriceSequences.Int8` | 22-2/main.go:61-62 | Go's conversion to int8: the result lies in [−128, 128) and equals the input when it already does |
| `PriceSequences.Byte` | 22-2/main.go:14-20 | each masked and shifted byte of a uint32 lies in [0, 256) |
| `PriceSequences.Unpack` | 22-2/main.go:14-21 | a packed sequence unpacks to four changes |
| `PriceSequences.AddAndShiftBytes` | 22-2/main.go:23-29 | for d in [−9, 9], AddAndShift puts d + 9 in the low byte and moves the old low three bytes up one byte |
| `PriceSequences.UnpackAddAndShift` | 22-2/main.go:14-29 | for d in [−9, 9], Unpack(AddAndShift(s, d)) = Unpack(s)[1..] + [d]: the oldest change is dropped, the other three kept in order, d appended |
| `PriceSequences.UnpackBytes` | 22-2/main.go:14-21 | a sequence whose bytes are four changes in [−9, 9] plus 9 unpacks to exactly those changes |
| `PriceSequences.Generate` | 22-2/main.go:37-52 | the generator's output stays below 2^24 |
| `PriceSequences.PriceOf` | 22-2/main.go:80-86 | a price is the last decimal digit of the secret, in [0, 9] |
| `PriceSequences.DiffOfPrices` | 22-2/main.go:74-76 | the int8 difference of two prices is their exact difference, in [−9, 9] |
| `PriceSequences.PriceTrace` | 22-2/main.go:78-101 | a buyer's trace after n samples has n + 1 prices, each in [0, 9] |
| `PriceSequences.RecordedLength` | 22-2/main.go:82-96 | PopulateSeqResults records only from the 4th sample on: max(0, samples − 3) adds per buyer |
| `PriceSequences.RecordedPairs` | 22-2/main.go:82-96 | the k-th recorded pair is the packed window and the price of the same sample, k + 4 |
| `PriceSequences.WindowHoldsLastFour` | 22-2/main.go:79-96 | from the 4th sample on, the packed window unpacks to exactly the last four price changes, oldest first: the initial 0xFF bytes are gone |
| `PriceSequences.Unset` | 22-2/main.go:114-121 | a new sequence's price vector has length NumInputs and holds −1 everywhere |
| `PriceSequences.AddToShape` | 22-2/main.go:111-131 | Add keeps every price vector NumInputs long and changes at most the given buyer's slot of the given sequence |
| `PriceSequences.AddFirstStores` | 22-2/main.go:123-128 | the first Add for (seq, buyer) stores the price there and returns true |
| `PriceSequences.AddLaterKeeps` | 22-2/main.go:123-130 | a later Add for the same (seq, buyer) returns false and changes nothing, keeping the first price |
| `PriceSequences.AddNewSequence` | 22-2/main.go:114-121 | a sequence seen for the first time gets a vector of −1 with this buyer's slot set |
| `PriceSequences.AddAll` | 22-2/main.go:93-95 | a series of Adds keeps vectors NumInputs long and never removes a sequence |
| `PriceSequences.AddAllKeepsFirst` | 22-2/main.go:123-130 | once a buyer's slot of a sequence is set, no later Add changes it |
| `PriceSequences.AddAllOtherBuyers` | 22-2/main.go:111-131 | one buyer's Adds leave every other buyer's slots alone |
| `PriceSequences.TotalNonNegative` | 22-2/main.go:137-143 | a vector holding −1 or non-negative prices has a non-negative total |
| `PriceSequences.SeqResults.Add` | 22-2/main.go:111-131 | Add changes the table exactly as AddTo describes and returns whether it stored the price |
| `PriceSequences.SeqResults.PopulateSeqResults` | 22-2/main.go:78-102 | sampling NumSamples secrets leaves the table as the Adds of the recorded (window, price) pairs of this buyer's trace, in order |
| `PriceSequences.SeqResults.SumPrices` | 22-2/main.go:138-143 | the inner loop's total is the sum of the vector's prices other than −1 |
| `PriceSequences.SeqResults.FindBestSeq` | 22-2/main.go:133-152 | the returned total is non-negative, no sequence has a larger total, a positive total is that of the returned sequence, and a zero total comes with sequence 0xFFFFFFFF |
| `Cliques.RowCount` | 23-1/main.go:90-93 | the number of neighbours in a row of the matrix is at most its length |
| `Cliques.RowCountSet` | 23-1/main.go:99-102 | setting one entry raises a row's count by at most one, and not at all when it was already set |
| `Cliques.Graph.constructor` | 23-1/main.go:47-54 | a new graph has only the name "INVALID", at id 0, and no matrix yet |
| `Cliques.Graph.RegisterNode` | 23-1/main.go:66-69 | before InitEdges the name gets an id; afterwards the call faults and changes nothing |
| `Cliques.Graph.GetNodeID` | 23-1/main.go:71-80 | a known name keeps its id; a new name gets the next id, the number of names, before InitEdges only, and faults after it |
| `Cliques.Graph.InitEdges` | 23-1/main.go:56-64 | with at least one name, an n-by-n matrix without edges and n zero degrees; with none, a fault |
| `Cliques.Graph.AddEdge` | 23-1/main.go:95-105 | with both ids in range after InitEdges, the edge is joined both ways and both degrees counted; otherwise a fault and no change |
| `Cliques.JoinedKeepsGraph` | 23-1/main.go:95-102 | adding an edge adds exactly that edge in both directions, raises the two degrees by one each, and keeps the matrix square and symmetric with every degree at least the number of neighbours |
| `Cliques.Graph.IsClique` | 23-1/main.go:145-154 | true exactly when every two of the first size ids of the working array are joined |
| `Cliques.Graph.FindCliquesInner` | 23-1/main.go:156-181 | the list holds exactly the cliques of the given size that extend the fixed prefix of the working array with increasing ids from startID on, each of degree at least size − 1, and none twice |
| `Cliques.Graph.CliquesThrough` | 23-1/main.go:164-176 | one round of the loop collects exactly the cliques whose next id is i, each once |
| `Cliques.Graph.FindTriangleCliques` | 23-1/main.go:138-142 | the list holds exactly the triangles of increasing ids from 1, each node of degree at least 2, none twice |
| `Cliques.TriangleFound` | 23-1/main.go:138-142 | the triangles are exactly the cliques of three found below the empty prefix from id 1 |
| `Cliques.DistinctAppend` | 23-1/main.go:43-45 | merging two lists without repeats and without a common clique gives a list without repeats |
| `Cliques.NoneThrough` | 23-1/main.go:164-168 | when a node has too small a degree or does not close a clique with the prefix, no clique continues with it |
| `Cliques.OnlyThrough` | 23-1/main.go:169-170 | with one place left, the only clique continuing with a node is the prefix plus that node, when it is one |
| `Cliques.ThroughFound` | 23-1/main.go:171-174 | the cliques found by the recursive call are exactly those of this call whose next id is the node added |
| `Cliques.ExtendFound` | 23-1/main.go:173 | a clique found below the prefix plus a node is found below the prefix |
| `MaxClique.FindMaxCliqueInner` | 23-2/main.go:167-191 | the clique returned is empty or a clique extending the prefix with increasing ids from startID, and no such clique is larger |
| `MaxClique.ThroughNext` | 23-2/main.go:182-186 | every clique through a node is at most one longer than the prefix or no longer than the recursive call's answer |
| `MaxClique.NoneThrough` | 23-2/main.go:177 | when the prefix plus a node is not a clique, no clique extends the prefix through it |
| `MaxClique.PrefixOfClique` | 23-2/main.go:177-183 | the first members of a clique form a clique |
| `MaxClique.ExtendsShorter` | 23-2/main.go:183-186 | an extension of the prefix plus a node is an extension of the prefix |
| `MaxClique.ExtendsLonger` | 23-2/main.go:183 | a longer extension of the prefix whose next id is a node extends the prefix plus that node |
| `MaxClique.FindMaxClique` | 23-2/main.go:148-153 | the clique returned has increasing ids from 1 and is a clique, and no clique of real nodes is larger |
| `Circuit.Gate` | 24-1/main.go:37-42 | an AND gate outputs true iff both inputs are true, an OR gate iff either is, an XOR gate iff they differ |
| `Circuit.ValueOfGate` | 24-1/main.go:34-45 | in an acyclic circuit every wire that is not a constant is a gate with two existing inputs, and its value is that gate applied to its inputs' values |
| `Circuit.ValueStable` | 24-1/main.go:29-48 | evaluating and caching wires never changes the value any wire stands for |
| `Circuit.ValueRankFree` | 24-1/main.go:29-48 | a wire's value does not depend on which ranking is used to show the circuit has no cycle |
| `Circuit.CacheValue` | 24-1/main.go:46-47 | storing a wire's value in its cache keeps every node's wiring, keeps the circuit evaluable and keeps every cached value right |
| `Circuit.Cache` | 24-1/main.go:37-47 | after the inputs were evaluated, caching the wire's original value is still an evolution of the starting nodes that keeps every cache right |
| `Circuit.EvolvesRanked` | 24-1/main.go:29-48 | evaluation, which keeps every node's type and inputs, keeps the circuit acyclic |
| `Circuit.WireWellFormed` | 24-1/main.go:87-91 | setting a gate's type and inputs and appending it to both inputs' fan-out keeps every referenced wire existing |
| `Circuit.WireEffect` | 24-1/main.go:86-91 | wiring a gate after creating its three wires adds only those wires, gives the output its type and inputs, and only appends the output to the inputs' fan-out |
| `Circuit.UpdateWellFormed` | 24-1/main.go:51-54 | replacing one node by one whose inputs and fan-out exist keeps the graph well formed |
| `Circuit.EvolvesWellFormed` | 24-1/main.go:29-48 | evaluation keeps the graph well formed |
| `Circuit.FreshWellFormed` | 24-1/main.go:64-73 | a new Unknown wire, listed as an output exactly when its name starts with 'z', keeps names non-empty, outputs unique and references existing |
| `Circuit.ConstantEffect` | 24-1/main.go:78-83 | after GetNode, making the wire a computed constant changes that wire only, keeps its wiring and keeps the graph well formed |
| `Circuit.RuleDone` | 24-1/main.go:85-92 | the three GetNode calls and the wiring add exactly the three wires, make out the gate op over (in1, in2) and otherwise only extend fan-outs |
| `Circuit.ComputeStep` | 24-1/main.go:95-97 | evaluating the next output keeps every earlier output computed and the graph well formed |
| `Circuit.ResetStep` | 24-1/main.go:101-105 | clearing one more node's cache, unless it is a constant, keeps the invariant that visited non-constant nodes are uncomputed and nothing else changed |
| `Circuit.ResetWellFormed` | 24-1/main.go:100-106 | clearing caches keeps the graph well formed |
| `Circuit.OutputBits` | 24-1/main.go:153-160 | the result fits in 63 bits, and bit k is set iff some output wire zk carries true |
| `Circuit.LogicGraph.constructor` | 24-1/main.go:56-60 | a new graph has no nodes and no outputs |
| `Circuit.LogicGraph.GetNode` | 24-1/main.go:62-76 | a known wire is returned with nothing changed; an unknown one is added as an Unknown wire and, when its name starts with 'z', appended to the outputs |
| `Circuit.LogicGraph.AddConstant` | 24-1/main.go:78-83 | the wire exists afterwards as a computed constant with the given value, and no other wire changes |
| `Circuit.LogicGraph.AddRule` | 24-1/main.go:85-92 | the output wire becomes the gate op over (in1, in2), the three wires exist, and the inputs' fan-outs gain the output |
| `Circuit.LogicGraph.ComputeNode` | 24-1/main.go:29-48 | the result is the wire's value in the circuit, the wire is cached afterwards, every cache stays right, and an already computed wire returns its cache and changes nothing |
| `Circuit.LogicGraph.Compute` | 24-1/main.go:94-98 | every output wire is computed and carries its value in the circuit |
| `Circuit.LogicGraph.Reset` | 24-1/main.go:100-106 | every non-constant wire loses its cache, constants keep theirs, and nothing else changes |
| `Circuit.LogicGraph.GetOutput` | 24-1/main.go:151-161 | the result fits in 63 bits, and bit k is set iff the output wire zk evaluates to true in the circuit |
| `SwappedCircuit.Redirect` | 24-2/main.go:144-146 | a rule's output goes to the swap partner of out when out has one, and to out otherwise |
| `SwappedCircuit.AddSwapSymmetric` | 24-2/main.go:122-125 | recording a swap of two unswapped wires keeps swaps symmetric, so a rule for either wire is written to the other |
| `SwappedCircuit.AliasesGrow` | 24-2/main.go:106-120 | adding wires keeps every alias pointing at an existing wire |
| `SwappedCircuit.LogicGraph.constructor` | 24-2/main.go:98-104 | a new graph has no nodes, aliases, outputs or swaps |
| `SwappedCircuit.LogicGraph.GetNode` | 24-2/main.go:106-120 | a known wire changes nothing; an unknown one is added as an Unknown wire and, when its name starts with 'z', appended to the outputs |
| `SwappedCircuit.LogicGraph.AddSwap` | 24-2/main.go:122-125 | n1 maps to n2 and n2 to n1 in the swaps, every other swap unchanged |
| `SwappedCircuit.LogicGraph.GetByAliasOrName` | 24-2/main.go:127-133 | an alias wins over a wire name, a wire name is found otherwise, and the result is nil iff the name is neither |
| `SwappedCircuit.LogicGraph.AddConstant` | 24-2/main.go:135-140 | the wire exists afterwards as a computed constant with the given value, and no other wire changes |
| `SwappedCircuit.LogicGraph.AddRule` | 24-2/main.go:142-154 | the redirected output wire becomes the gate op over (in1, in2), the three wires exist, and the inputs' fan-outs gain it |
| `SwappedCircuit.LogicGraph.ComputeNode` | 24-2/main.go:63-88 | the wire's value in the circuit is returned and cached, every cache stays right, a computed wire changes nothing, and a wire not yet computed ends with both its inputs computed, since both are evaluated with no short circuit |
| `SwappedCircuit.LogicGraph.Compute` | 24-2/main.go:156-160 | every output wire is computed and carries its value in the circuit |
| `SwappedCircuit.LogicGraph.SetAlias` | 24-2/main.go:225-229 | the wire gets the alias and looking the alias up finds that wire |
| `SwappedCircuit.LogicGraph.CreateAlias` | 24-2/main.go:276-296 | when both names stand for wires and some gate of type op reads exactly those two wires in either order, one such gate gets the alias; otherwise no alias changes |
| `LocksAndKeys.Repeat` | 25-1/main.go:32-35 | strings.Repeat(c, n) has length n and holds only c |
| `LocksAndKeys.ColumnHashes` | 25-1/main.go:40-48 | a column count is at most the number of rows counted |
| `LocksAndKeys.Profile` | 25-1/main.go:39-48 | five column heights, the j-th counting the '#' in column j of the rows given |
| `LocksAndKeys.DropBlanks` | 25-1/main.go:62-64 | skipping blank lines leaves either nothing or a non-blank first line, and never adds lines |
| `LocksAndKeys.OfKind` | 25-1/main.go:69-73 | filing by kind keeps only parts of that kind, drawn from the input |
| `LocksAndKeys.KeysFitting` | 25-1/main.go:91-98 | a lock is fitted by at most as many keys as there are |
| `LocksAndKeys.PartShape` | 25-1/main.go:26-52 | a part that loads takes NumLevels + 2 = 7 lines, is a key iff its first row starts with '.', a key iff that row is all '.' and a lock iff it is all '#', and has five heights in [0, 5] |
| `LocksAndKeys.KindsPartition` | 25-1/main.go:69-73 | every part is filed as a key or a lock: the two lists together are as long as the input's parts |
| `LocksAndKeys.FitsAtMostPairs` | 25-1/main.go:88-99 | there are no more fits than (lock, key) pairs |
| `LocksAndKeys.LoadLockPart` | 25-1/main.go:26-52 | the loop returns the part and line count PartAt describes, and Fault exactly where a Go Assert or an index out of range stops the program |
| `LocksAndKeys.LoadLocksAndKeys` | 25-1/main.go:57-77 | the loop returns the locks and the keys of the input's parts, each in input order, with blank lines skipped; Fault if any part is malformed |
| `LocksAndKeys.LoadFault` | 25-1/main.go:66 | one part that cannot be read makes the whole load fail |
| `LocksAndKeys.CountFits` | 25-1/main.go:88-99 | main's count is the number of (lock, key) pairs where key + lock ≤ NumLevels in every column |

## Left out

- GuardWalk.Board.Walk: the Go loop runs until the guard leaves the grid and never ends on a map where it goes round for ever; the model takes a ghost number of turns within which the guard leaves as a precondition.
- GuardLoops.Board.CountLoops: likewise takes a ghost number of turns within which the guard of the unblocked board leaves the grid; LoopOrExit needs none, since it ends by the number of unmarked (cell, direction) pairs.
- GuardWalk.Board.Walk: requires a rectangular grid; on ragged input Go reads the right edge from the guard's row and may index a shorter row, which is not modelled.
- GuardLoops: LoadBoard (06-2/main.go:42-76) is not modelled separately; it is part 1's loader with the start cell left empty, and CountLoops takes the loaded board through its precondition (nothing visited, no direction bits).
- GuardWalk, GuardLoops: Print and reading input.txt are I/O and are left out; line characters are taken as Go's byte offsets for ASCII input.
- OperatorSearch.Search: Go's 64-bit `int` overflow in `total - b` is not modelled; integers are unbounded, and inputs of the puzzle stay far from the limit.
- ConcatSearch.Search: Go's `int64` overflow is not modelled either, and `strconv.ParseInt` failing (which the source turns into `log.Fatal`) cannot happen on the digits left by a split.
- FileMoves: the expansion (09-2/main.go:37-58) and the checksum (09-2/main.go:113-118) are the same code as part 1 and reuse DiskMap.ExpandDisk and DiskMap.Checksum; no separate member restates them.
- FileMoves.MoveAllKeeps: proves that the moves keep every block and the free spans free, not where each file ends up beyond the single-turn statement of StepMoves.
- DiskMap: the id type is a Go int on a disk far below 2^63 blocks; the checksum is an unbounded integer (no overflow modelled).
- DistinctPeaks.MergeMaps: modelled on values (a nil map is None, a map is the set of its keys); that Go's maps.Copy mutates m1 in place, visible to other holders of m1, is not modelled, and no caller in the source shares m1.
- Trails.ValidBoard: the board is required to be rectangular with single-digit heights; Go reads ragged rows against the first row's width, which no puzzle input has, and that case is not modelled.
- Trails.SearchBoard, DistinctPeaks.SearchBoard: the board is a parameter instead of the source's package-level `board` and `size` variables.
- StoneLine.Blink, StoneCount.Memo.Blink: stones are unbounded naturals; Go's 64-bit `int` overflow in `s*2024` and in the counts is not modelled, and negative stones (which the input never holds) are excluded by the type.
- GardenRegions.Board.constructor: requires at least one line and equal line widths; Go panics on an empty input (12-1/main.go:50) and reads ragged rows against the first row's width, which is not modelled.
- GardenRegions: a cell's Visited flag is modelled as the set of visited positions and the Cell pointers GetNeighbors returns as positions; the crops are read as characters, not Go runes of a UTF-8 decode.
- GardenSides: the board loader, InBounds, GetCell and GetNeighbors (12-2/main.go:111-172) are part 1's and reuse GardenRegions.Board; GetCrop (12-2/main.go:152-157) is never called by the code and is not modelled.
- GardenSides.Region.NumSides: proved equal to the count of units that begin a side as the code defines it; that this equals the geometric number of straight sides of every region shape is not proved.
- GardenSides.SortedKeys: sorts by insertion into a sequence; the algorithm of slices.SortFunc and Go's random map iteration order are not modelled, only their result.
- RobotBoard: reading input.txt and the regular-expression parse of each line (14-1/main.go:162-190), the printing and Board.String are I/O and are left out; the board size 101 by 103 is a parameter of the constructor.
- RobotBoard.AfterSeconds: stated for robots whose velocity components are smaller than the board; Wrap adds the size only once, so a larger velocity would leave a negative position, which Moved reproduces and Vectors.WrapBelowRange exhibits.
- BoxPush, WideBoxPush: reading input.txt, ReadMoves and the printing are I/O; part 1's ReadBoard (15-1/main.go:67-87) is not modelled, its board is the constructor's state with the robot on its '@'.
- BoxPush.Board.MoveRobot and WideBoxPush.Board.MoveRobot: require a warehouse bordered by walls; without the border the Go code indexes out of range.
- WideBoxPush.Board.MoveRobot: requires a known move; for any other rune MoveVector returns the same cell and CanMove recurses on the robot's own cell without end in the Go code.
- WideBoxPush.MoveF: returns None where Go would index out of range; on a valid board this never happens (MoveRobot ensures ok).
- MazeRun: reading input.txt (ReadMaze's file handling), Maze.String, SavePNG and the printing are I/O and left out; the constructor takes the cell types with Start and End already replaced by '.', as ReadMaze leaves them.
- MazeRun: the final count of marked cells (16-2/main.go:349-358) is the size of OnPath and is not a separate member.
- MazeRun.Maze.Solve: the heap is a sequence from which a node of least distance is taken; which of several equal nodes container/heap pops first is not modelled, and the answer does not depend on it.
- MazeRun.Maze.MarkPath: stated over the distances Solve leaves, which stop being updated once the end is popped; no lemma states that the marked cells are exactly those on every cheapest path.
- MazeGraph: requires every open cell to have its four neighbours on the grid (the maze framed by walls); Maze.At indexes unchecked otherwise.
- ThreeBitMachine.Machine.Run: the source's loop is unbounded (a program may jump forever); the model takes a `fuel` bound on the number of instructions and reports OutOfFuel when it runs out.
- ThreeBitMachine.Machine.Run: reading the operand past the end of the program, an index-out-of-range panic in Go, is modelled as the outcome Faulted.
- ThreeBitMachine.Machine: the program is a sequence of naturals, where Go's `[]int` would accept negative opcodes and operands; the parsed puzzle programs are digits 0 to 7.
- ThreeBitMachine.Machine: registers are `nat`; Go's 64-bit `int` is not modelled, which is safe because loaded registers are non-negative and every instruction keeps values below 2^63 (Bits.XorBound, ThreeBitMachine.ShiftRightShrinks).
- 17-2 main's search for the initial A, three bits at a time (17-2/main.go:211-240), is not modelled; LoadMachine's regex parsing is input handling.
- RamRun: reading input.txt, Board.String, the timing and printing are I/O and left out; FirstCut returns the index of the byte main prints, and takes the board size (71 by 71 for the input, 7 by 7 for the test) as a parameter.
- RamRun.Board.Solve: requires an unscored board, as main guarantees by Reset; the heap is a sequence from which a least entry is taken, and the order container/heap keeps among equal scores is not modelled.
- RamRun.FirstCut: requires every byte to land on the board (Go would dereference nil otherwise) and a board with fewer than MaxInt − 1 cells.
- Tries.Solve, TrieCounts.CountingTrie.Solve: both require that the empty word was never inserted; with "" stored as a token, the Go Solve calls itself on the same word forever (a stack overflow), so no answer exists to model.
- Tries.Trie, TrieCounts.CountingTrie: a node is identified with the path that leads to it, so the trie is a map from paths to Token flags; Go's separate node objects and rune-keyed child maps, and their pointer identity, are not modelled. Runes are characters, and Go's byte index `word[i:]` equals the character index on the ASCII patterns.
- TrieCounts.CountingTrie.InsertToken: the cache is only known to be correct while it is empty; the source never inserts after solving, so a stale cache is not a case it meets.
- TrieCounts.CountingTrie.TokensBelow: the set of listed words is specified, not their order (Go's map iteration order is unspecified) nor that each appears once.
- RaceMaze: reading input.txt, Maze.String, the histogram and the printing are I/O and left out; the count of shortcuts saving at least 100 (20-1/main.go:163-168, 20-2/main.go:188-193) is the number of list entries whose Saving is at least 100 and is not a separate member.
- RaceMaze.Maze.BackwardsSolve: requires every open cell (and the origin) to have its four neighbours inside the size, the maze framed by walls; Go dereferences nil otherwise.
- RaceMaze.Maze.constructor: requires at least one line (Go indexes the first line for the size); cells are a set of positions and the distance fields are maps, a missing entry standing for MaxInt.
- RaceCheats.NeighborsX: ignores its radius argument, as the source does, and always lists the diamond of radius twenty.
- RaceCheats: the maze, the sweep and BackwardsSolve are those of part 1 (20-2/main.go:1-89 repeats them) and are not modelled twice.
- Keypads: Action.String, DebugLogf, the timing and the printing are left out; Go's `state(currPos)` turns the rune into its UTF-8 bytes, and the model works on runes, which agree for the ASCII buttons of both keypads.
- KeypadCodes.Complexity: takes the codes as a parameter (the test and input codes are constants in main) and requires each to start with three digits; MustAtoi's error exit on other text is not modelled.
- KeypadCodes.CodeKeys: uses the corrected path finder, so the key counts are fewest-keys counts; with the finder as written, main can stop with log.Fatalf on a reachable digit (see Findings).
- RobotChain.Machine.Press: proves that the cost is the length of a key sequence that types the move, not that it is the fewest; the answer of the search depends on which of several equal-cost items the heap pops, which the model leaves open.
- RobotChain.Machine.Press: Go stops with Assert(false, "No path found") when the queue runs dry (21-2/main.go:247); the model returns 0 there, which only the numeric keypad can reach, for a button off the keypad.
- RobotChain: Name, Depth and DebugLogf are debugging output and left out; QueueItem.String likewise.
- RobotChain.Complexity: takes the codes as a parameter and requires each to start with three digits; MustAtoi's error exit is not modelled.
- SecretNumbers.GenerateReadsLow24: not stated; the fact that Generate only depends on the low 24 bits of its input was too costly for the solver in 64-bit vectors.
- PriceSequences.Generate: its agreement with SecretNumbers.Generate (the 22-1 version on 64-bit words) is not proved; both are checked against the source separately.
- PriceSequences.SeqResults.FindBestSeq: Go's map iteration order is unspecified, so among sequences with equal best totals the model does not say which one is returned; it iterates the keys in an arbitrary order too.
- 22-2 GenerateN (22-2/main.go:54-59) is not used by that program's main and is covered by the 22-1 model.
- Cliques: LoadGraph (23-1/main.go:107-136) parses the lines with a regular expression and is left out; its effect is the RegisterNode, InitEdges and AddEdge calls modelled here, with the names in sorted order.
- Cliques: GetNodeName, GetNumNodes and GetNodeDegree are field reads and not separate members; Clique.String, DebugLogf and the printing are output.
- Cliques: the count of triangles with a name starting with 't' (23-1/main.go:198-205) reads names only and is not modelled.
- Cliques: Go's Assert stops the program; here it is a Fault result that leaves the graph unchanged.
- MaxClique.FindMaxCliqueInner: among several largest cliques, which one the search keeps is not stated.
- 24-1 and 24-2 Load: the regular-expression parsing of the puzzle text is not modelled; the model starts from AddConstant and AddRule calls.
- Circuit.LogicGraph.Compute and ComputeNode: require a ranking of every wire (an acyclic circuit), whereas the Go code only needs the wires reachable from the outputs to be acyclic; a cycle or an Unknown gate makes the Go code recurse forever or fault, and the model excludes it.
- SwappedCircuit.LogicGraph.Compute and ComputeNode: likewise require a ranking of every wire, whereas 24-2's Compute only needs the wires reachable from the outputs to be defined and acyclic.
- Circuit.LogicGraph.GetOutput: requires every output number to be below 63, where Go's shift would overflow the 64-bit int; the Go code does not check it.
- Circuit.OutputBits and Circuit.LogicGraph.GetOutput: require every output name to have a non-empty digit suffix after the 'z'; on a name "z" Go's MustAtoi stops the program, which is not modelled.
- Circuit.LogicGraph.GetNode and SwappedCircuit.LogicGraph.GetNode: require a non-empty name, where Go panics at `name[0]`; the puzzle's names are never empty.
- 24-2 Reset and GetOutput are the same code as in part 1 and are not modelled a second time.
- 24-2 PrintLogic, PrintLogicInner, NodeType.String, NameString and ValString only print, and main's loop over the bit positions only creates aliases to print; they are left out.
- SwappedCircuit.LogicGraph.CreateAlias: the Go map's iteration order picks which matching gate is aliased; the model says only that some matching gate is.
- Both mains read the puzzle file and print; the swaps main records are data, not logic, and are left out.
- LocksAndKeys.LoadLockPart: the source's Assert (a debugger breakpoint) and its index-out-of-range panics are both modelled as Fault; lines are character sequences, so `len(line)` counts characters, which equals Go's byte count on the ASCII input.
- Decimal.Parse: reads the empty string as 0, where Go's MustAtoi stops the program; every caller in the model passes a non-empty digit string.
- Cramer: the determinant and the Cramer numerators are unbounded integers; Go's 64-bit `int` overflow is not modelled, and the puzzle's values stay far below it.
- Strings are sequences of characters, not UTF-8 bytes; every input the solvers read is ASCII, where the two agree.
- Reading input files, timing, logging and printing in every `main` are I/O and are left out.

## Findings

| source | as written | input that shows it | evidently intended | confidence | as-written member | corrected member |
|---|---|---|---|---|---|---|
| 20-1/main.go:118-125 | a landing cell that is open but cannot reach End has DistToEnd = MaxInt, and the 64-bit sum DistToStart + 2 + MaxInt wraps to a negative length, so the shortcut is recorded with a huge saving | the maze `#######` / `#S.E#.#` / `#######`: the cell right of the wall beside End is open but walled in, and the shortcut through that wall is counted as saving more than 100 | a landing cell that cannot reach End gives no shortcut | high, from the code's arithmetic; not executed | `RaceMaze.Maze.UnreachableLandingCounted` | `RaceMaze.Maze.ShortcutsFound` |
| 20-2/main.go:131-139 | the same MaxInt sum for a cheat that lands on an open cell that cannot reach End wraps negative and is counted | the same maze, with the cheat that starts at E (3,1) and lands on the enclosed cell (5,1) two moves away | a landing cell that cannot reach End gives no cheat | high, from the code's arithmetic; not executed | `RaceCheats.UnreachableCheatCounted` | `RaceCheats.CheatsFound` |
| 21-1/main.go:154-157 | when the search pops its target it returns without putting the popped state back, so the queue saved for the next search from the same start has lost it | the code 112A: the search from A A 1 to itself saves an empty queue, and the later search from A A 1 to A A 2 then finds no path, although the nine keys `v<A^>A<A>` reach it | the saved search resumes with every state it had reached, so every reachable state is found | high, from the code's control flow; not executed | `KeypadStranded.Stranded` | `KeypadFinder.PathFinder.FindShortestPath` |
