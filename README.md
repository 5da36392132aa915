# Advent of Code solvers, modelled in Dafny

This project models the algorithmic core of a collection of Python puzzle solvers
(Advent of Code 2022 to 2025). The solvers are independent: one script per day, each
reading a puzzle file, computing with small integer, sequence, grid and graph
algorithms, and printing an answer. There is one Dafny module per modelled script.
File reading and printing are not modelled. Every module works on the values the
script computes after parsing.

| module | script | what it models |
|---|---|---|
| `Snafu` | day25/day25.py | balanced base-5 (SNAFU) numerals: the borrow loop of `snafu2int`, the carry loop of `int2snafu`, and their round trip |
| `LensHash` | 2023/day15/day15.py | the rolling hash modulo 256 and the sum over the steps |
| `FreshRanges` | 2025/day5/day5.py | the in-place sort and interval merging of `merge_ranges`, and fresh-id counting |
| `Joltage` | 2025/day3/day3.py | `find_highest` (with a finding) and the stack-based `max_subsequence` |
| `InvalidIds` | 2025/day2/day2.py | the repeated-digit tests `is_valid`/`is_valid2` and the range sum |
| `PacketOrder` | day13/day13.py | the recursive packet comparison |
| `RopeBridge` | 2022/day9/day9.py | head moves and tail following |
| `Extrapolation` | 2023/day9/day9.py | finite-difference extrapolation |
| `DiskFragmenter` | 2024/day9/day9.py | the `Blocks` disk layout, both compactions, the free-span index, the checksum |
| `BridgeRepair` | 2024/day7/day7.py | the base-3 counter and both equation solvers |
| `SecretDial` | 2025/day1/day1.py | the dial of both parts |
| `RedNosedReports` | 2024/day2/day2.py | the safe-report checks, strict and tolerant |
| `TuningTrouble` | 2022/day6/day6.py | the sliding-window marker search |
| `Scratchcards` | 2023/day4/day4.py | card points and the growing card pool |
| `GrovePositioning` | 2022/day20/day20.py | circular list mixing and the grove coordinates |
| `PipeMaze` | 2023/day10/day10.py | the pipe loop walk, the shoelace area and the enclosed-area formula |
| `CosmicExpansion` | 2023/day11/day11.py | galaxy expansion and Manhattan distances |
| `BeaconExclusion` | day15/day15.py | sensor diamonds, their rims, the coverage test and the crop |
| `ValveDistances` | day16/day16.py | the adjacency matrix and the Floyd-Warshall relaxation |
| `CamelCards` | 2023/day7/day7.py | card counting, hand types, the cached strength and the base-14 score |
| `RegolithReservoir` | day14/day14.py | rock-path drawing and one falling grain of sand |
| `ReflectorDish` | 2023/day14/day14.py | tilting rounded rocks north and the load |
| `PrintQueue` | 2024/day5/day5.py | page-ordering rules as linked pages, update checking and repair |
| `MonkeyCube`, `MonkeyFaces`, `MonkeyMap` | day22/day22.py | integer cube rotations, labelled edges, faces and the jump tables of the flat and cube wraps |
| `Arith`, `Arrays`, `Wrappers` | (shared) | Euclid's gcd (`numpy.gcd`), copying a 2-D array, `Option` |

Conventions used throughout:
- A Python crash that the puzzle relies on, or that a property of the script is about, is
  modelled as a `None` result. Examples are `int2snafu(0)`, `merge_ranges([])` and
  `list.index` raising `ValueError`.
- A crash on input the puzzle never gives, such as a malformed line, becomes a `requires`.
- Objects whose fields the script updates become classes with those fields. Examples are
  `Blocks`, `CardHand`, `Vector`, `Edge`, `Cube`, the `Tiles` map and the page-rule list.
- NumPy grids become `array2`.
- Python's unbounded `int` is Dafny's `int`.

## Model

| member | source | states |
|---|---|---|
| Arith.Gcd | day22/day22.py:513 | the greatest common divisor `numpy.gcd` computes, by Euclid's algorithm; positive when either argument is (GcdDivides and GcdGreatest give its meaning) |
| Arith.GcdDivides | day22/day22.py:513 | Gcd(a, b) divides both a and b |
| Arith.GcdGreatest | day22/day22.py:513 | every common divisor of a and b divides Gcd(a, b), so it is the greatest one |
| Arrays.CopyInto | 2023/day14/day14.py:68 | `grid[:, :] = new_grid[:, :]`: every cell of the destination takes the value of the same cell of the source |
| BeaconExclusion.GetManhattanDistance | day15/day15.py:23-26 | the distance from the sensor to its beacon, never negative, and 0 exactly when the beacon sits on the sensor |
| BeaconExclusion.IsCovered | day15/day15.py:58-85 | true exactly when some sensor lies within its beacon distance of the point |
| BeaconExclusion.BeaconIsCovered | day15/day15.py:79-85 | every sensor covers its own beacon, and so does any sensor list holding that sensor |
| BeaconExclusion.RimShape | day15/day15.py:46-55 | the rim at distance d > 0 is the two tips on the x axis plus, for each offset strictly between -d and d, one point below and one above |
| BeaconExclusion.AddSensorEdges | day15/day15.py:29-55 | the points at distance d + 1 from the sensor: there are 4(d + 1) of them, the sensor covers none of them, and every point at that distance is among them |
| BeaconExclusion.CleanEdges | day15/day15.py:103-104 | keeps exactly the points no sensor covers, in their order |
| BeaconExclusion.CropArea | day15/day15.py:107-110 | keeps exactly the points inside the box, in their order |
| BeaconExclusion.UncoveredEdgeSurvives | day15/day15.py:103-104 | a point outside every diamond and on the rim of some sensor survives clean_edges applied to that sensor's edge list |
| BridgeRepair.ToBase3 | 2024/day7/day7.py:11-21 | the base-3 spelling of n, without leading zeros, whose value is n |
| BridgeRepair.ZFill | 2024/day7/day7.py:22-23 | `zfill`: the result is as long as the width, or as s when s is longer (PaddedValue: its value is s's) |
| BridgeRepair.PaddedValue | 2024/day7/day7.py:22-23 | leading zeros do not change a base-3 value |
| BridgeRepair.Base3Bound | 2024/day7/day7.py:11-23 | a base-3 string of length k is worth less than 3^k |
| BridgeRepair.Base3Unique | 2024/day7/day7.py:11-23 | two base-3 strings of the same length and value are equal |
| BridgeRepair.Base3Digits | 2024/day7/day7.py:17-20 | the base-3 spelling of n, with no leading zero, whose base-3 value is n |
| BridgeRepair.FilledIncrement | 2024/day7/day7.py:21-23 | zero-filling the spelling of value + 1 to the input's length gives a base-3 string worth value + 1, at least as long as the input and exactly as long when the value fits in that many digits |
| BridgeRepair.IncrementBase3 | 2024/day7/day7.py:11-23 | the base-3 string whose value is one more than s, zero-padded on the left to at least s's length; None on the empty string, where `int("", 3)` raises |
| BridgeRepair.ConcatShifts | 2024/day7/day7.py:72-73 | concatenating decimal spellings shifts a left by b's digit count and adds b |
| BridgeRepair.MaskBits | 2024/day7/day7.py:44-51 | k operator choices read off loop value i, bit j selecting + for operator j (MaskRoundTrip: every choice is some i) |
| BridgeRepair.MaskRoundTrip | 2024/day7/day7.py:40-54 | every + / * choice has a mask below 2^k that decodes back to it, so every choice is tried |
| BridgeRepair.EvalMask | 2024/day7/day7.py:44-51 | the inner loop evaluates the numbers left to right with the operators that mask i selects |
| BridgeRepair.EvalEquation | 2024/day7/day7.py:40-54 | true exactly when some left-to-right assignment of + and * reaches the target |
| BridgeRepair.EvalOperators | 2024/day7/day7.py:65-74 | the inner loop of eval_equation_3ops evaluates the numbers with the operators the base-3 string spells, "2" concatenating |
| BridgeRepair.EvalEquation3Ops | 2024/day7/day7.py:57-81 | true exactly when some assignment of +, * and concatenation reaches the target; None for a one-number equation |
| BridgeRepair.EncodeBits | 2024/day7/day7.py:57-81 | a + / * choice read as a string over "0" and "1" evaluates the same under the three-operator rules |
| BridgeRepair.Part1SolvesPart2 | 2024/day7/day7.py:40-81 | an equation solvable with + and * is solvable with the three operators |
| BridgeRepair.FindCalibrationResult | 2024/day7/day7.py:84-91 | the sum of the targets of the equations that some + / * assignment solves |
| BridgeRepair.FindCalibrationResult3Ops | 2024/day7/day7.py:94-101 | the sum of the targets of the equations that three operators solve; None when an equation has one number |
| BridgeRepair.Total3AtLeastTotal2 | 2024/day7/day7.py:84-101 | part 2's total is never below part 1's |
| CamelCards.Distinct | 2023/day7/day7.py:12-17 | the labels of the hand, each exactly once |
| CamelCards.Distribution | 2023/day7/day7.py:12-17 | the dictionary cards_distribution: each label of the hand mapped to its number of occurrences, keys in first-appearance order |
| CamelCards.GroupByCount | 2023/day7/day7.py:19-26 | the labels grouped by multiplicity, each group in key order |
| CamelCards.CountCards | 2023/day7/day7.py:11-28 | maps each multiplicity that occurs to exactly the labels occurring that many times |
| CamelCards.SumMultsIsLength | 2023/day7/day7.py:12-17 | the multiplicities of the distinct labels add up to the number of cards |
| CamelCards.CountsOfSize | 2023/day7/day7.py:11-28 | the labels of multiplicity v are as many as the entries v among the multiplicities |
| CamelCards.TypeStrength | 2023/day7/day7.py:46-78 | a type in 1..7 when one is found, and 7 (five of a kind) exactly when some label occurs five times; None is the "Unknown card hand" branch |
| CamelCards.HandTypeDefined | 2023/day7/day7.py:46-78 | every five-card hand gets a type in 1..7; the unknown branch is never reached |
| CamelCards.FiveOfAKind | 2023/day7/day7.py:46-50 | a hand is five of a kind exactly when one label makes up all of it |
| CamelCards.Rank | 2023/day7/day7.py:80-87 | `_card_values.index(c)`: a position in the card order holding c, None exactly when c is no card label |
| CamelCards.StrengthOf | 2023/day7/day7.py:42-87 | the strength tuple: the type followed by the five card ranks; None when indexing a card raises |
| CamelCards.ScoreBounds | 2023/day7/day7.py:96-107 | a base-14 score of digits below 14 lies between 0 and 14^(n+1) - 14 |
| CamelCards.HeadDecides | 2023/day7/day7.py:96-107 | a smaller first digit gives a smaller score, whatever follows |
| CamelCards.ScoreOrder | 2023/day7/day7.py:96-107 | strength_score orders hands exactly as the lexicographic order of their strength tuples |
| CamelCards.StrengthDigits | 2023/day7/day7.py:96-107 | a computed strength tuple has six entries, all in 0..13 |
| CamelCards.CardHand.constructor | 2023/day7/day7.py:34-37 | a hand with its cards and bid and an empty strength cache |
| CamelCards.CardHand.ComputeStrength | 2023/day7/day7.py:42-87 | the cache holds the strength tuple afterwards, or keeps its old value where a card lookup raises |
| CamelCards.CardHand.GetStrength | 2023/day7/day7.py:89-94 | the strength is computed on first use and read from the cache afterwards; the result is the hand's strength tuple |
| CamelCards.CardHand.StrengthScore | 2023/day7/day7.py:96-107 | fills an empty cache with the strength as _compute_strength does and keeps a full one; the base-14 score of the strength tuple; None where the strength cannot be computed or the type is unknown |
| CamelCards.TotalWinnings | 2023/day7/day7.py:127-133 | the sum of each bid times its 1-based rank, over the hands sorted by ascending score |
| CamelCards.RankIsPosition | 2023/day7/day7.py:127-133 | in a strictly ascending score list, a hand's position is the number of scores below its own |
| CamelCards.WinningsAreByRank | 2023/day7/day7.py:127-133 | with distinct sorted scores the total is the sum of each bid times one more than the number of hands it beats |
| CosmicExpansion.ManhattanDistance | 2023/day11/day11.py:20-22 | never negative, and 0 exactly between equal coordinates |
| CosmicExpansion.ManhattanSymmetric | 2023/day11/day11.py:20-22 | the distance is symmetric |
| CosmicExpansion.ManhattanTriangle | 2023/day11/day11.py:20-22 | the distance obeys the triangle inequality |
| CosmicExpansion.LastLessCounts | 2023/day11/day11.py:52-56 | on an ascending list the expansion factor expand_coord finds is the number of empties below the coordinate |
| CosmicExpansion.ExpandCoord | 2023/day11/day11.py:33-67 | each coordinate expanded along its own axis (ExpandAxisCounts: by the expansion once per empty below it) |
| CosmicExpansion.ExpandAxisCounts | 2023/day11/day11.py:47-67 | with ascending empties, the coordinate never decreases for a non-negative expansion and is unchanged for expansion 0 |
| CosmicExpansion.ExpandAxisDistance | 2023/day11/day11.py:47-67 | after expansion two coordinates are as far apart as before plus the expansion once per empty strictly between them |
| CosmicExpansion.ExpandedDistance | 2023/day11/day11.py:33-67 | two expanded galaxies are as far apart as before plus the expansion once per empty column and row between them |
| CosmicExpansion.ColumnsEmptyExact | 2023/day11/day11.py:102-104 | columns_empty lists exactly the columns holding no galaxy, in increasing order |
| CosmicExpansion.RowsEmptyExact | 2023/day11/day11.py:107-109 | rows_empty lists exactly the rows holding no galaxy, in increasing order |
| CosmicExpansion.FindColumnsEmpty | 2023/day11/day11.py:102-104 | the column scan returns the galaxy-free columns in increasing order |
| CosmicExpansion.FindRowsEmpty | 2023/day11/day11.py:107-109 | the row scan returns the galaxy-free rows in increasing order |
| CosmicExpansion.ScanRow | 2023/day11/day11.py:113-117 | the galaxies gain exactly the galaxies of row y, in column order, each expanded |
| CosmicExpansion.SumPairsNonNegative | 2023/day11/day11.py:122 | the sum of the pairwise distances is never negative |
| CosmicExpansion.FindShortestPaths | 2023/day11/day11.py:92-122 | the galaxies in scan order, each expanded by expansion - 1 per empty column and row below it, and the sum of their pairwise distances |
| DiskFragmenter.LayoutLength | 2024/day9/day9.py:31-68 | the laid-out disk is as long as the sum of the digits |
| DiskFragmenter.LayoutHolds | 2024/day9/day9.py:31-68 | the layout holds (\|m\| + 1) / 2 files, each cell of a file holding its id; every free span is non-empty and free, and the free spans do not overlap |
| DiskFragmenter.FirstFree | 2024/day9/day9.py:70-75 | the first free cell of the disk, or its length when there is none |
| DiskFragmenter.ChecksumUpdate | 2024/day9/day9.py:136-142 | changing one cell changes the checksum by that cell's term only |
| DiskFragmenter.ChecksumMoveDown | 2024/day9/day9.py:98-116 | moving a file cell from i down to free cell f lowers the checksum by (i - f) times the id |
| DiskFragmenter.Moved | 2024/day9/day9.py:127-131 | the disk after moving a file's cells down and freeing its old cells, as long as before (MoveKeepsSpans says what it holds) |
| DiskFragmenter.Shifted | 2024/day9/day9.py:84-91 | the free spans after the span at offset gives up its first cells, as many spans as before (MoveKeepsSpans says they stay free and disjoint) |
| DiskFragmenter.MoveKeepsSpans | 2024/day9/day9.py:118-134 | one whole-file move keeps the spans describing the disk: files still hold their ids, shifted free spans are still free and disjoint |
| DiskFragmenter.FillRun | 2024/day9/day9.py:55-61 | the `size` cells from `base` on take the file id for a file entry and stay free for a free entry; the cells before are kept and the cells after stay free |
| DiskFragmenter.Blocks.constructor | 2024/day9/day9.py:25-68 | parse_map: the block array is the layout of the digits, with ids 0, 1, ... for files and FREE cells between, and the free-span index lists the free spans |
| DiskFragmenter.Blocks.FindFirstFreeBlock | 2024/day9/day9.py:70-75 | the first free cell at or after offset, or None |
| DiskFragmenter.Blocks.MoveBlock | 2024/day9/day9.py:108-109 | the cell moves into the free cell and its old cell becomes free; the multiset of cells is kept |
| DiskFragmenter.Blocks.CompactTurn | 2024/day9/day9.py:100-116 | one turn keeps the compaction invariant and moves the cursor down by one unless it stops; it stops failed only on a disk of two or more cells without a free cell, and otherwise stops only with the disk compact |
| DiskFragmenter.Blocks.CompactBlocks | 2024/day9/day9.py:93-116 | the blocks become Compacted of the blocks before; the multiset of cells is kept, cells before the first free cell do not change, and afterwards no file cell follows a free cell; `failed` exactly when a disk of two or more cells has no free cell, where Python compares None with an int |
| DiskFragmenter.FirstFreeFrom | 2024/day9/day9.py:70-75 | the first free cell at or after offset, or the disk length when there is none |
| DiskFragmenter.CompactFromMeaning | 2024/day9/day9.py:93-116 | from any state of the compaction loop, the rest of the loop keeps the multiset and the cells before the first free cell, and ends compact unless a disk of two or more cells has no free cell |
| DiskFragmenter.CompactFromChecksum | 2024/day9/day9.py:98-116 | the rest of the compaction loop never raises the checksum, each move taking a file cell downwards |
| DiskFragmenter.CompactedMeaning | 2024/day9/day9.py:93-116 | the compacted disk is a permutation of the cells, keeps the cells before the first free cell, is compact when there is a free cell, and has no larger checksum |
| DiskFragmenter.CompactedExample | 2024/day9/day9.py:93-116 | the disk 0 . 1 2 compacts to 0 2 1 .: the last file cell fills the first hole, then the loop stops at the hole it left |
| DiskFragmenter.Blocks.ChecksumBlocks | 2024/day9/day9.py:136-142 | the sum of i * blocks[i] over the non-free cells |
| DiskFragmenter.Blocks.FindFirstFreeBlockWithSize | 2024/day9/day9.py:77-82 | the start of the first free span of at least `size` cells, with its position in the index, or None |
| DiskFragmenter.Blocks.UpdateFreeBlockIndex | 2024/day9/day9.py:84-91 | every span starting at offset starts occupied cells later and is occupied cells shorter; the others are unchanged |
| DiskFragmenter.Blocks.MoveFile | 2024/day9/day9.py:127-131 | a whole file moves down into free cells and its old cells become free |
| DiskFragmenter.Blocks.CompactBlocksWithoutFrag | 2024/day9/day9.py:118-134 | the multiset of cells and the file index are kept, and the free-span index still describes free, disjoint spans |
| Extrapolation.Diffs | 2023/day9/day9.py:38-42 | each difference row is one element shorter and holds the adjacent differences |
| Extrapolation.DistinctCountAtMostOne | 2023/day9/day9.py:36 | a row has at most one distinct value exactly when all its values are equal, so a one-element row stops the loop |
| Extrapolation.Differences | 2023/day9/day9.py:38-42 | the inner loop computes the difference row |
| Extrapolation.FindExtrapolatedValue | 2023/day9/day9.py:20-57 | the sum of the last value of every row computed, down to the first constant row; needs at least one value |
| Extrapolation.ConstantExtrapolates | 2023/day9/day9.py:29-57 | a constant report extrapolates to its own value |
| Extrapolation.ArithDiffs | 2023/day9/day9.py:38-42 | the differences of an arithmetic report are constant |
| Extrapolation.ArithmeticExtrapolates | 2023/day9/day9.py:20-57 | an arithmetic report of n >= 2 values extrapolates to its next term a + n*d |
| FreshRanges.SortRanges | 2025/day5/day5.py:12 | the ranges afterwards are sorted by start and a permutation of those before |
| FreshRanges.InsertLast | 2025/day5/day5.py:12 | one insertion-sort pass extends the sorted prefix by one and keeps the multiset of ranges |
| FreshRanges.MergeSorted | 2025/day5/day5.py:14-28 | the merged ranges are Merge of the input; each starts after the previous one ends, they cover exactly the ids of the input, and they are well formed when the input is |
| FreshRanges.MergeExtend | 2025/day5/day5.py:17-22 | a range starting within the current one extends it, keeping the loop invariant |
| FreshRanges.MergeClose | 2025/day5/day5.py:23-26 | a range starting after the current one closes it and becomes the current range, keeping the loop invariant |
| FreshRanges.CountIsUnion | 2025/day5/day5.py:57 | well-formed separated ranges covering what the input covers add up to the number of ids of the input |
| FreshRanges.MergeRanges | 2025/day5/day5.py:10-28 | sorts its argument in place and returns Merge of the sorted list: separated ranges covering the same ids, no more of them than given; None on an empty list |
| FreshRanges.UnionBelowLastEnd | 2025/day5/day5.py:17-26 | all ids of separated ranges lie at or below the last end |
| FreshRanges.FreshCount | 2025/day5/day5.py:57 | the sum of e - s + 1 over the ranges; FreshRanges.FreshCountIsUnionSize proves it is the number of distinct ids covered when the ranges are well formed and separated |
| FreshRanges.FreshCountIsUnionSize | 2025/day5/day5.py:57 | for well-formed separated ranges, the sum of e - s + 1 is the number of distinct ids covered |
| FreshRanges.AllFreshCount | 2025/day5/day5.py:55-57 | the sum of e - s + 1 over the merged ranges, which is the number of distinct ids some range contains when every range is well formed; None on no ranges, where merge_ranges raises |
| FreshRanges.CountFreshIngredients | 2025/day5/day5.py:44-53 | the number of available ids that some range contains |
| GrovePositioning.Enumerate | 2022/day20/day20.py:12 | each value paired with its original position |
| GrovePositioning.EnumerateHasIds | 2022/day20/day20.py:12 | the enumeration holds every original position as an id |
| GrovePositioning.PermutationKeepsIds | 2022/day20/day20.py:17-29 | a permutation of the list keeps the ids present |
| GrovePositioning.IndexOfId | 2022/day20/day20.py:19 | the first position holding the id, or None where Python raises ValueError |
| GrovePositioning.InsertRemove | 2022/day20/day20.py:21-28 | inserting at a position and popping it gives the list back |
| GrovePositioning.MultisetRemove | 2022/day20/day20.py:21 | `pop` removes exactly the entry at the position from the multiset |
| GrovePositioning.MultisetInsert | 2022/day20/day20.py:28 | `insert` adds exactly the new entry to the multiset |
| GrovePositioning.MoveLands | 2022/day20/day20.py:22-29 | popping the entry and inserting it at a position congruent to its old position plus its value modulo len - 1 keeps the length and the multiset of entries and lands the entry there |
| GrovePositioning.Moved | 2022/day20/day20.py:17-29 | the list keeps its length and its multiset of (id, value) entries, and the entry lands at a position in 1..len-1 congruent to its old position plus its value modulo len - 1 with the other entries in order; None exactly where Python raises (id missing, or one entry) |
| GrovePositioning.MoveInList | 2022/day20/day20.py:17-29 | the step-by-step new-position computation gives Moved, None exactly where Python raises |
| GrovePositioning.LandsAtUnique | 2022/day20/day20.py:22-29 | only one position and one list satisfy that landing description |
| GrovePositioning.MovedIsOnlyLanding | 2022/day20/day20.py:17-29 | any list in which the entry lands as described is the one move_in_list produces |
| GrovePositioning.SameResidue | 2022/day20/day20.py:22-27 | two positions in 1..m of the same residue modulo m are equal, so the new index is determined |
| GrovePositioning.NewIndexCongruent | 2022/day20/day20.py:22-27 | the new position lies in 1..m and is congruent modulo m to the unreduced one |
| GrovePositioning.RoundFrom | 2022/day20/day20.py:43-44 | the moves from an original position onward keep the multiset; they succeed whenever every id is present and the list has more than one entry, and fail on a one-entry list |
| GrovePositioning.Round | 2022/day20/day20.py:43-44 | one round keeps the multiset; with every id present it fails exactly on a one-entry list |
| GrovePositioning.MixRound | 2022/day20/day20.py:43-44 | the loop gives Round, the composition of the moves for ids 0..len-1 in turn |
| GrovePositioning.Mixed | 2022/day20/day20.py:53-55 | repeated rounds keep the multiset; with every id present they fail exactly on a one-entry list and at least one round |
| GrovePositioning.MixedStaysNone | 2022/day20/day20.py:53-55 | once a round raises, every larger round count raises |
| GrovePositioning.Mix | 2022/day20/day20.py:53-55 | the loop gives Mixed, the rounds of Round composed `rounds` times |
| GrovePositioning.Decrypt | 2022/day20/day20.py:51 | every value times 811589153, every original position kept |
| GrovePositioning.DecryptKeepsIds | 2022/day20/day20.py:51 | decryption keeps the set of ids |
| GrovePositioning.FirstZero | 2022/day20/day20.py:33 | the first position of a 0, or None where Python raises |
| GrovePositioning.GetGroveCoordinates | 2022/day20/day20.py:32-38 | the sum of the values 1000, 2000 and 3000 places after the 0, modulo the length |
| GrovePositioning.GroveRotation | 2022/day20/day20.py:32-38 | with exactly one 0, the coordinates depend only on the circle, not on where the list starts |
| GrovePositioning.MixedGroveExists | 2022/day20/day20.py:32-38 | after mixing a list holding every id there are grove coordinates exactly when it has a 0 and more than one entry (or no round) |
| GrovePositioning.DecryptKeepsZeros | 2022/day20/day20.py:51 | multiplying by the key keeps exactly the zeros |
| GrovePositioning.DecryptedGroveExists | 2022/day20/day20.py:49-57 | on the decrypted file there are grove coordinates exactly when it has a 0 and more than one number |
| GrovePositioning.Day20Part1 | 2022/day20/day20.py:40-46 | the grove coordinates of Mixed(enumerate(values), 1); an answer exactly when the file has more than one number and a 0 |
| GrovePositioning.Day20Part2 | 2022/day20/day20.py:49-57 | the grove coordinates of ten rounds of Mixed on the decrypted list; an answer exactly when the file has more than one number and a 0 |
| GrovePositioning.ZeroSurvives | 2022/day20/day20.py:17-29 | a permutation has a 0 exactly when the original has one |
| InvalidIds.IsValid | 2025/day2/day2.py:9-14 | an even number of digits whose halves are equal; InvalidIds.DoubledIsValid and InvalidIds.ValidIsDoubled prove it holds exactly for a block of digits written twice |
| InvalidIds.DoubledIsValid | 2025/day2/day2.py:9-14 | a block written twice is an invalid part-1 id, whatever the block |
| InvalidIds.ValidIsDoubled | 2025/day2/day2.py:9-14 | an invalid part-1 id has even length and is its first half written twice |
| InvalidIds.ValidImpliesValid2 | 2025/day2/day2.py:16-23 | every id invalid in part 1 is invalid in part 2 |
| InvalidIds.SingleDigitNotValid2 | 2025/day2/day2.py:17-26 | single-digit ids are never invalid in part 2 |
| InvalidIds.RepeatedIsValid2 | 2025/day2/day2.py:16-26 | a non-empty block written k >= 2 times is invalid in part 2 |
| InvalidIds.IsValid2 | 2025/day2/day2.py:16-26 | true exactly when the spelling is some block repeated at least twice |
| InvalidIds.SumInvalid | 2025/day2/day2.py:29-40 | the sum over every range, ends included, of the ids the predicate selects |
| Joltage.MaxOf | 2025/day3/day3.py:12 | Python's max: an element of the list, at least every element |
| Joltage.FirstIndex | 2025/day3/day3.py:12 | `list.index`: the first position holding the value |
| Joltage.BestPairIsMax | 2025/day3/day3.py:10-20 | the best two-digit joltage bounds every pair of batteries in order, and some pair reaches it |
| Joltage.IsBestPair | 2025/day3/day3.py:10-20 | any value bounding every pair and reached by one is the best pair |
| Joltage.FindHighest | 2025/day3/day3.py:10-20 | find_highest as written; Joltage.FindHighestRange, Joltage.FindHighestIsBest and Joltage.FindHighestZeroDigit state its range, where it is the best pair and where it is not |
| Joltage.FindHighestFixedIsBest | 2025/day3/day3.py:10-20 | the corrected find_highest returns the largest two-battery joltage |
| Joltage.FindHighestIsBest | 2025/day3/day3.py:10-20 | on banks of digits 1 to 9 find_highest as written is the largest two-battery joltage |
| Joltage.FindHighestZeroDigit | 2025/day3/day3.py:17-18 | a zero after the maximum is ignored: the bank "90" gives 0 instead of 90 |
| Joltage.FindHighestRange | 2025/day3/day3.py:10-20 | the result lies in 0..99, and when it is nonzero one of its digits is the largest digit of the bank |
| Joltage.MaxSubsequence | 2025/day3/day3.py:22-51 | the kept digits are an in-order subsequence of the bank, k of them when the bank has at least k digits and the bank itself when it has at most k; the value is their decimal reading, None when nothing is kept (`int("")` raises); every pop removes a digit smaller than the incoming one, at most len - k pops happen (none when len <= k), and when removals are left over the kept digits are non-increasing |
| Joltage.PopStep | 2025/day3/day3.py:39-43 | popping a top smaller than the incoming digit uses one removal and keeps the stack an in-order, non-increasing-while-removals-remain subsequence |
| Joltage.PushStep | 2025/day3/day3.py:46 | pushing the incoming digit once no pop applies keeps that invariant for one more digit |
| LensHash.StrToHash | 2023/day15/day15.py:10-15 | the hash of the string, in 0..255 (HashEmpty, HashAppend and HashIsPolyMod describe it) |
| LensHash.HashRange | 2023/day15/day15.py:10-15 | every hash lies in 0..255 |
| LensHash.HashEmpty | 2023/day15/day15.py:11 | the empty string hashes to 0 |
| LensHash.HashAppend | 2023/day15/day15.py:12-13 | hash(s + c) == ((hash(s) + ord(c)) * 17) % 256 |
| LensHash.StepReduces | 2023/day15/day15.py:12-13 | reducing the running value modulo 256 before the next step does not change the result |
| LensHash.HashIsPolyMod | 2023/day15/day15.py:10-15 | the hash is the sum of ord(c_i) * 17^(n-i) reduced modulo 256 |
| LensHash.SumHashesBound | 2023/day15/day15.py:25-31 | the sum lies between 0 and 255 times the number of steps |
| LensHash.FindSum | 2023/day15/day15.py:25-31 | the sum of the hashes of the steps |
| MonkeyCube.FourRotations | day22/day22.py:153-155 | four quarter turns about one axis restore every vector |
| MonkeyCube.RotsPeriod | day22/day22.py:172-183 | rotating n + 4 times is rotating n times |
| MonkeyCube.Vector.Copy | day22/day22.py:235-236 | a fresh vector with the same coordinates |
| MonkeyCube.Vector.Rotate | day22/day22.py:172-183 | rx quarter turns about x, then ry about y, then rz about z, in place; a count that is not positive turns nothing |
| MonkeyCube.RotateFourTimes | day22/day22.py:172-183 | four calls of rotate with one quarter turn about the same axis leave the vector as it was |
| MonkeyCube.RollEdge | day22/day22.py:238-252 | rolling an edge keeps its label (RollEdgeInverse: it can be rolled back) |
| MonkeyCube.RollInverse | day22/day22.py:238-252 | rolling towards d and then towards the opposite facing restores a vector |
| MonkeyCube.RollEdgeInverse | day22/day22.py:238-252 | UP then DOWN, DOWN then UP, RIGHT then LEFT and LEFT then RIGHT give the edge back, label included |
| MonkeyCube.Edge.Copy | day22/day22.py:235-236 | a new edge with the same label and copies of both vectors |
| MonkeyCube.Edge.Rotate | day22/day22.py:238-252 | the edge's point and vector roll towards the facing in place; the label is unchanged |
| MonkeyCube.RollAll | day22/day22.py:295-298 | every edge of a cube value rolled towards d, labels kept |
| MonkeyCube.RollAllInverse | day22/day22.py:295-298 | rolling the whole cube towards d and back gives it back |
| MonkeyCube.InitialDistinct | day22/day22.py:272-293 | the twelve edges of a new cube have pairwise different geometries |
| MonkeyCube.RollAllDistinct | day22/day22.py:295-298 | rolling the cube keeps the geometries pairwise different, so each point and vector belongs to one label only |
| MonkeyCube.MatchingMembers | day22/day22.py:307-311 | the search keeps exactly the edges with the geometry of one of the two targets |
| MonkeyCube.TopEdges | day22/day22.py:300-331 | the edges lying on the top face, top, right, bottom and left in that order; MonkeyCube.InitialTopEdges evaluates it on a new cube and MonkeyCube.Cube.FindTopEdges computes it |
| MonkeyCube.InitialTopEdges | day22/day22.py:272-280 | on a new cube the top edges are 1, 2, 3 and 4, in the order up, right, down, left |
| MonkeyCube.Cube.constructor | day22/day22.py:259-263 | a new cube holding the twelve initial edges |
| MonkeyCube.Cube.FromEdges | day22/day22.py:259-261 | a cube over the given edges |
| MonkeyCube.Cube.Copy | day22/day22.py:265-267 | a new cube of copied edges with the same values |
| MonkeyCube.Cube.Rotate | day22/day22.py:295-298 | every edge rolls towards d in place; labels unchanged |
| MonkeyCube.Cube.CollectMatching | day22/day22.py:307-311 | the edges of the cube with the geometry of one of the two targets, in order (MatchingMembers) |
| MonkeyCube.Cube.FindTopEdges | day22/day22.py:300-331 | the top edges of the cube's current edges; on a new cube 1, 2, 3, 4 (InitialTopEdges) |
| MonkeyFaces.IsAdjacent | day22/day22.py:353-357 | true exactly when the faces sit side by side in the grid of faces |
| MonkeyFaces.EdgeSideMeaning | day22/day22.py:359-364 | the side of a label is its first position among the face's edges, or -1 |
| MonkeyFaces.EdgeIdDirection | day22/day22.py:359-364 | the side carrying the label: its first position among the face's edges, or -1 when the face does not carry it (EdgeSideMeaning) |
| MonkeyFaces.GetCoordsFromEdge | day22/day22.py:366-380 | exactly `size` distinct tiles, all on the named side of the face, in the order of the edge's vector; nothing for a value that is no facing |
| MonkeyFaces.MapTileUnique | day22/day22.py:366-380 | a tile of a face tells its face position and its own place in the face |
| MonkeyFaces.HoldersMembers | day22/day22.py:474-479 | every holder of a label is a face carrying it on one of its sides |
| MonkeyFaces.PairWrites | day22/day22.py:488-509 | an even number of jumps, the jump one way and the jump back for each pair of zipped tiles (PairWritesReversible) |
| MonkeyFaces.EdgeWrites | day22/day22.py:473-509 | an even number of jumps for one edge; none unless exactly two faces carry it and their sides are not already continuous (EdgeWritesOf) |
| MonkeyFaces.ApplyConcat | day22/day22.py:473-509 | writing a and then b is writing a + b |
| MonkeyFaces.ApplyDistinct | day22/day22.py:473-509 | after writes with pairwise distinct keys every write is still in place |
| MonkeyFaces.ApplyTurnsSafely | day22/day22.py:504-509 | writing jumps that keep the facing in 0..3 keeps a table that does so |
| MonkeyFaces.JumpReverses | day22/day22.py:504-509 | the jump from side d1 into side d2 and the jump back undo each other |
| MonkeyFaces.PairWritesReversible | day22/day22.py:504-509 | every jump between two sides comes with its way back and keeps the facing in 0..3 after turning |
| MonkeyFaces.PairWritesDistinct | day22/day22.py:488-509 | the jumps between two sides of two different faces start from pairwise distinct keys |
| MonkeyFaces.PairWritesOwned | day22/day22.py:488-509 | each jump starts from a tile of one of the two faces, on that face's side |
| MonkeyFaces.EdgeWritesReversible | day22/day22.py:504-509 | every jump written for an edge comes with its way back and keeps the facing in 0..3 |
| MonkeyFaces.EdgeWritesOwned | day22/day22.py:474-509 | a jump written for an edge starts from a side labelled with that edge |
| MonkeyFaces.EdgeWritesDistinct | day22/day22.py:474-509 | the jumps written for one edge start from pairwise distinct keys |
| MonkeyFaces.CubeWritesDistinct | day22/day22.py:473-509 | the jumps written for edges 1 to k start from pairwise distinct keys and all keep the facing in 0..3 |
| MonkeyFaces.CubeJumpsKept | day22/day22.py:473-509 | after writing the twelve edges every jump written is in the table and the table keeps the facing in 0..3 |
| MonkeyMap.FirstNonzeroMeaning | day22/day22.py:127-145 | the first nonzero index at or after i, or -1 when there is none |
| MonkeyMap.RunEndMeaning | day22/day22.py:127-145 | the end of the nonzero stretch starting at i |
| MonkeyMap.BoundariesMeaning | day22/day22.py:127-145 | (-1, -1) exactly when every value is 0; otherwise left <= right, both nonzero, nothing before left nonzero, and everything between nonzero |
| MonkeyMap.FindBoundaries | day22/day22.py:127-145 | the loop returns the boundaries described above |
| MonkeyMap.Direction.Turn | day22/day22.py:208-216 | 'R' and 'L' turn the facing in place; any other letter is refused and changes nothing |
| MonkeyMap.TurnedRange | day22/day22.py:208-216 | a turn always leaves a facing in 0..3 |
| MonkeyMap.TurnBack | day22/day22.py:208-216 | 'R' then 'L', 'L' then 'R', and four turns the same way give back the facing |
| MonkeyMap.ClosedHoldsReachable | day22/day22.py:528-562 | a set holding the start and closed under the traversal's looks holds every face reachable through them |
| MonkeyMap.AsWrittenStopsShort | day22/day22.py:540 | with the guard as written the traversal of the two-by-five staircase stops after three faces |
| MonkeyMap.CorrectedReachesStaircase | day22/day22.py:528-562 | with the corrected guard, every set closed under the traversal and holding (0, 0) holds the whole staircase |
| MonkeyMap.WritePairs | day22/day22.py:488-509 | the zip loop writes exactly the jumps between the two sides, both ways, into the table; nothing when the sides are already continuous |
| MonkeyMap.Tiles.constructor | day22/day22.py:406-416 | the map of tiles with no faces, no jumps, no position, facing right, and a new cube |
| MonkeyMap.Tiles.RowMapWraps | day22/day22.py:453-458 | the row jumps make every row wrap around from one end to the other, and hold no other key |
| MonkeyMap.Tiles.ColumnMapWraps | day22/day22.py:460-465 | the column jumps make every column wrap around, and hold no other key |
| MonkeyMap.Tiles.SetRowJumps | day22/day22.py:453-458 | the table gains the row jumps and the position becomes the left end of the first row |
| MonkeyMap.Tiles.WriteRow | day22/day22.py:454-458 | one row's two jumps are written |
| MonkeyMap.Tiles.SetColumnJumps | day22/day22.py:460-465 | the table gains the column jumps |
| MonkeyMap.Tiles.WriteColumn | day22/day22.py:461-465 | one column's two jumps are written |
| MonkeyMap.Tiles.SetJumpsAsPlane | day22/day22.py:448-465 | every row and every column wraps around, the position is the left end of the first row, and every other jump is kept |
| MonkeyMap.Tiles.PlaneWraps | day22/day22.py:448-465 | column jumps never overwrite row jumps: both wrap in the combined table |
| MonkeyMap.Tiles.InNet | day22/day22.py:536 | a position belongs to the net exactly when its corner tile is not empty |
| MonkeyMap.Tiles.VisitFace | day22/day22.py:534-560 | a face not found yet is recorded with the cube's top edges after the earlier faces, which are kept, and the faces from it on are closed under the traversal's looks |
| MonkeyMap.Tiles.TravelThroughFaces | day22/day22.py:528-562 | with the corrected guard: a face is recorded at the position with the cube's top edges, earlier faces are kept, and the faces added are closed under the traversal's looks |
| MonkeyMap.Tiles.AddFace | day22/day22.py:536-537 | a new face is recorded at an occupied position not seen yet |
| MonkeyMap.Tiles.LookAround | day22/day22.py:540-560 | after the three looks every position the traversal moves on to that holds a face has been found |
| MonkeyMap.Tiles.Look | day22/day22.py:541-560 | when the position holds a face, the traversal goes on from it with a copy of the cube rolled towards d: afterwards the position is among the faces found, and when it was not before, the first face appended is that position with the top edges of the rolled cube; earlier faces are kept and the new ones are closed under the traversal |
| MonkeyMap.Tiles.AnalyseFaces | day22/day22.py:511-526 | the face size is the gcd of width and height and divides both; the first face in row order is found with the initial top edges; the faces found are closed under the traversal |
| MonkeyMap.Tiles.SetEdgeJumps | day22/day22.py:474-509 | the table gains exactly the jumps written for one edge |
| MonkeyMap.Tiles.SetEdgesJumps | day22/day22.py:473-509 | edges 1 to 12 in order; afterwards every jump written for any of them is in the table |
| MonkeyMap.Tiles.SetJumpsAsCube | day22/day22.py:467-509 | after analysing the faces the twelve edges' jumps are written; each is in the table afterwards and every jump keeps the facing in 0..3 |
| MonkeyMap.Tiles.GetNextPosition | day22/day22.py:564-586 | the jump from the position in the facing, with its turn, when there is one; otherwise the neighbouring tile in the facing and no turn; the new facing is in 0..3 |
| MonkeyMap.Tiles.Advance | day22/day22.py:604-607 | the position moves to the next position and the facing turns by its delta, staying in 0..3 |
| PacketOrder.Compare | day13/day13.py:11-28 | always -1, 0 or 1 |
| PacketOrder.CompareLists | day13/day13.py:15-20 | the list-list case is always -1, 0 or 1 |
| PacketOrder.CompareRefl | day13/day13.py:11-28 | every packet ties with itself |
| PacketOrder.CompareListsRefl | day13/day13.py:16-20 | every list ties with itself |
| PacketOrder.CompareAntisym | day13/day13.py:11-28 | compare(a, b) == -compare(b, a) |
| PacketOrder.CompareListsAntisym | day13/day13.py:16-20 | swapping two lists negates the verdict |
| PacketOrder.IntAsSingleton | day13/day13.py:22-26 | an integer facing a list compares as the one-element list holding it, on either side |
| PacketOrder.PrefixComesFirst | day13/day13.py:16-20 | a proper prefix of a list comes before the list |
| PipeMaze.Connections | 2023/day10/day10.py:33-42 | four flags, one per side north, east, south, west |
| PipeMaze.Neighbourhood | 2023/day10/day10.py:60-72 | north, east, south and west neighbours, each in bounds and next to the cell, or None at the border |
| PipeMaze.NextStep | 2023/day10/day10.py:135-164 | None exactly when no direction qualifies; otherwise a cell in the array, next to the current one and not yet visited |
| PipeMaze.FindStart | 2023/day10/day10.py:124 | the first start cell, x major then y, or None when there is none |
| PipeMaze.RulePathIsSimple | 2023/day10/day10.py:139-168 | a walk that follows the rule never visits a cell twice and moves one cell at a time |
| PipeMaze.CountPipesBound | 2023/day10/day10.py:169-177 | straight and corner pipes together never outnumber the cells entered |
| PipeMaze.WalkLoop | 2023/day10/day10.py:131-180 | steps to the next connected cell until there is none, appending only unvisited cells and counting straight and corner pipes entered |
| PipeMaze.FindLoop | 2023/day10/day10.py:122-189 | the visited cells form a simple walk from the start cell with correct pipe counts; failure where there is no start or no first step |
| PipeMaze.LoopCounters | 2023/day10/day10.py:122-189 | the counters never exceed the number of loop cells |
| PipeMaze.FindFarthestPoint | 2023/day10/day10.py:192-194 | half the number of loop cells; PipeMaze.FarthestIsMaximal proves it is the largest distance along the loop from the start |
| PipeMaze.FarthestIsMaximal | 2023/day10/day10.py:192-194 | half the loop length is the largest distance along the loop from the start, and some cell is that far |
| PipeMaze.Shoelace | 2023/day10/day10.py:75-83 | the shoelace area of the vertex list, never negative |
| PipeMaze.TermsRotate | 2023/day10/day10.py:75-83 | the cross terms of a rotated vertex list are the rotated cross terms |
| PipeMaze.ShoelaceRotation | 2023/day10/day10.py:75-83 | the area does not depend on which vertex comes first |
| PipeMaze.FindEnclosedArea | 2023/day10/day10.py:197-209 | the shoelace area minus half the boundary count corrected by the corner count; PipeMaze.EnclosedIsPick proves it is Pick's theorem for an even boundary |
| PipeMaze.EnclosedIsPick | 2023/day10/day10.py:197-209 | for an even boundary count b the formula is Pick's theorem solved for the interior points: A - b/2 + 1 |
| PrintQueue.FindPage | 2024/day5/day5.py:26-29 | the first page with the number, or None |
| PrintQueue.FindSuccessor | 2024/day5/day5.py:20-23 | the first successor with the number, or None |
| PrintQueue.FindSuccessorSameNumbers | 2024/day5/day5.py:20-29 | lookups depend only on the numbers of the pages they reach |
| PrintQueue.UpdateValue | 2024/day5/day5.py:58-78 | either 0 or the middle step (UpdateValueMeaning says which) |
| PrintQueue.WalkIsChain | 2024/day5/day5.py:67-75 | the walk succeeds exactly when every pair of consecutive steps is ordered by a rule |
| PrintQueue.UpdateValueMeaning | 2024/day5/day5.py:58-78 | 0 when some consecutive pair has no rule, otherwise the middle step |
| PrintQueue.PassFrom | 2024/day5/day5.py:86-92 | a pass keeps the length and the multiset of steps |
| PrintQueue.PassKeepsOrdered | 2024/day5/day5.py:86-92 | a pass leaves alone an update with no reversed consecutive pair |
| PrintQueue.StuckUpdate | 2024/day5/day5.py:82-95 | rules "1\|3" and update 1,2: the update is wrong and a pass cannot change it |
| PrintQueue.PageRules.ParsePageOrderingRule | 2024/day5/day5.py:33-54 | pages a and b are added when missing, each number at most once, and b's page becomes a successor of a's; the rules gain exactly "a\|b" |
| PrintQueue.AddRuleFacts | 2024/day5/day5.py:33-54 | the page list built by the step is still linked, knows the old numbers plus a and b, gains exactly the rule "a\|b", and keeps numbers distinct |
| PrintQueue.RuleAfterAdd | 2024/day5/day5.py:33-54 | the rule relation after the step is the old one plus "a\|b" |
| PrintQueue.ParseUpdate | 2024/day5/day5.py:58-78 | the loop returns 0 as soon as a step is no successor of the one before, and the middle step otherwise |
| PrintQueue.SwapAt | 2024/day5/day5.py:89-92 | after one turn the steps are the pass of the steps before carried one position further; steps i and i + 1 swap exactly when a rule makes step i a successor of step i + 1 |
| PrintQueue.SwapPass | 2024/day5/day5.py:86-92 | one pass of adjacent swaps in place; the steps afterwards are the pass of the steps before, a permutation of them |
| PrintQueue.ParseIncorrectUpdate | 2024/day5/day5.py:82-95 | the steps end as k passes of the steps before, every earlier one rejected by parse_update; the result keeps the multiset of steps and yields its middle step; None only after all maxPasses passes, the last still rejected |
| RedNosedReports.MonotonicMeansOrdered | 2024/day2/day2.py:11-14 | the adjacent-pair test means strictly increasing or strictly decreasing at all positions |
| RedNosedReports.IsMonotonic | 2024/day2/day2.py:11-14 | every adjacent pair rises or every one falls; RedNosedReports.MonotonicMeansOrdered proves this is strict order between any two positions |
| RedNosedReports.DifferencesValid | 2024/day2/day2.py:17-18 | every adjacent pair differs by 1 to 3; with IsMonotonic it makes a report safe, and RedNosedReports.SafeSpan and RedNosedReports.SafeWithoutEnd state what that implies |
| RedNosedReports.ShortReportsAreSafe | 2024/day2/day2.py:12-18 | reports of at most one level pass both checks |
| RedNosedReports.SafeSpan | 2024/day2/day2.py:17-18 | a safe report spans, first to last, between 1 and 3 per step |
| RedNosedReports.SafeWithoutEnd | 2024/day2/day2.py:41-57 | dropping the first or the last level of a safe report keeps it safe |
| RedNosedReports.Remove | 2024/day2/day2.py:50-51 | the report without one level, one shorter |
| RedNosedReports.SafeListNb | 2024/day2/day2.py:30-38 | the number of reports passing both checks |
| RedNosedReports.SomeRemovalSafe | 2024/day2/day2.py:49-55 | true exactly when removing some one level makes the report safe |
| RedNosedReports.SafeListWithToleration | 2024/day2/day2.py:41-57 | the number of reports safe as they are or after removing one level, each counted once |
| RedNosedReports.ToleranceBounds | 2024/day2/day2.py:30-57 | the tolerant count lies between the strict count and the number of reports |
| RedNosedReports.SafeIsRemovable | 2024/day2/day2.py:46-55 | a non-empty safe report is also accepted by the removal loop |
| ReflectorDish.StepColumn | 2023/day14/day14.py:53-65 | one tilt pass on a column keeps its height (StepShape, StepKeepsRounded and StepLoad say what moves) |
| ReflectorDish.StepKeepsRounded | 2023/day14/day14.py:53-65 | a pass keeps the number of rounded rocks of a column |
| ReflectorDish.StepLoad | 2023/day14/day14.py:53-65 | a pass raises a column's load by the number of rocks that move |
| ReflectorDish.LoadBound | 2023/day14/day14.py:78-97 | a column's load is at most its height times its number of rocks |
| ReflectorDish.LeavingMoves | 2023/day14/day14.py:58-72 | a column with a rock under an empty cell still has a move |
| ReflectorDish.StepShape | 2023/day14/day14.py:61-65 | a pass moves every rock by at most one row, never moves anything else |
| ReflectorDish.PassKeepsFrame | 2023/day14/day14.py:53-65 | a pass keeps the grid's shape, every column's number of rounded rocks and every cube rock |
| ReflectorDish.PassLoad | 2023/day14/day14.py:53-65 | a pass raises the total load by the number of rocks that move and keeps the number of rocks |
| ReflectorDish.UnsettledMoves | 2023/day14/day14.py:58-72 | a grid with a rock under an empty cell has a move left |
| ReflectorDish.SettledFixed | 2023/day14/day14.py:58-72 | a pass leaves a settled grid as it is |
| ReflectorDish.PassProgress | 2023/day14/day14.py:46-72 | a pass keeps the rectangle, its frame and its rocks, and raises the load unless the grid was settled |
| ReflectorDish.ScanRow | 2023/day14/day14.py:53-65 | row y of the new grid holds the row as visited, row y - 1 receives the pass, the other rows are unchanged; moved is 0 exactly when no rock of row y moves |
| ReflectorDish.ScanRows | 2023/day14/day14.py:52-65 | the new grid holds the pass; the count of moved rocks is 0 exactly when the grid is settled |
| ReflectorDish.ScanCell | 2023/day14/day14.py:54-65 | the cell takes its value in the pass, the cell above is final, no other cell of the new grid changes, and one rock is counted exactly when the rock leaves the cell |
| ReflectorDish.TiltPass | 2023/day14/day14.py:46-65 | a new grid holding the pass and the number of rocks moved |
| ReflectorDish.TiltGrid | 2023/day14/day14.py:43-75 | the grid ends as some number of passes of the grid before, settled, with its shape, its cube rocks and every column's number of rounded rocks kept, and at least the load it had; the returned grid holds the same cells |
| ReflectorDish.RowsAreCols | 2023/day14/day14.py:78-97 | summing a rectangle by rows or by columns gives the same total |
| ReflectorDish.FindTotalLoad | 2023/day14/day14.py:78-97 | the sum over rounded rocks of (rows - y) |
| RegolithReservoir.XRange | day14/day14.py:28-34 | start to end inclusive, stepping towards end; empty when start == end |
| RegolithReservoir.SegmentShape | day14/day14.py:28-34 | a straight piece covers its ends and what lies between, unless the ends coincide; every cell lies in the box of the ends |
| RegolithReservoir.PointSegmentEmpty | day14/day14.py:28-34 | a piece whose ends coincide draws nothing |
| RegolithReservoir.DrawSegment | day14/day14.py:49-54 | exactly the cells of the piece become walls; the others are unchanged |
| RegolithReservoir.DrawPaths | day14/day14.py:47-54 | exactly the cells of the rock paths become walls; the rest of the grid is as it was |
| RegolithReservoir.MaxCoord | day14/day14.py:43-44 | the largest coordinate, reached by some point; None for no points, where max raises |
| RegolithReservoir.DrawPath | day14/day14.py:48-54 | exactly the cells of the path's pieces become walls; every other cell keeps its value |
| RegolithReservoir.DrawFloor | day14/day14.py:58-60 | a grid holding the walls without floor becomes the grid with row max_y + 2 walled as well |
| RegolithReservoir.ParsePaths | day14/day14.py:37-62 | the grid's size, the walls of the paths, the pour point, and a wall across row max_y + 2 with the floor; None where max or numpy raises |
| RegolithReservoir.PyIndex | day14/day14.py:75-82 | Python's index into a dimension of n: defined exactly for -n <= i < n, negative indices counting from the end |
| RegolithReservoir.RestSupported | day14/day14.py:65-93 | a grain rests above the last row on three cells none of which is air, in a cell that was air unless it never moved |
| RegolithReservoir.VoidPassesLastRow | day14/day14.py:71-73 | in_void is reported only when the grain reaches the last row |
| RegolithReservoir.FloorStopsVoid | day14/day14.py:58-60 | with the floor no grain falls into the void |
| RegolithReservoir.PourSand | day14/day14.py:65-93 | at most one cell changes, becoming sand where the grain rests; in_void exactly when it reaches the last row; blocked exactly when it rests at the pour point |
| RopeBridge.HeadStep | 2022/day9/day9.py:26-36 | the head moves one unit right, down, up or left by the command's first letter, and stays otherwise; RopeBridge.HeadStepIsUnit states it |
| RopeBridge.TailStep | 2022/day9/day9.py:39-53 | the tail follows on both axes reading the deltas taken first; RopeBridge.TouchingTailStays, RopeBridge.TailCatchesUp and RopeBridge.TailStepIsSmall state how |
| RopeBridge.MoveHead | 2022/day9/day9.py:26-36 | the head array takes the position of the head step, which is returned (HeadStepIsUnit) |
| RopeBridge.MoveTail | 2022/day9/day9.py:39-53 | the tail array takes the position of the tail step, which is returned (TouchingTailStays, TailCatchesUp, TailStepIsSmall) |
| RopeBridge.HeadStepIsUnit | 2022/day9/day9.py:26-36 | a head step is a unit step in one coordinate |
| RopeBridge.TouchingTailStays | 2022/day9/day9.py:39-42 | a tail touching the head stays where it is |
| RopeBridge.TailCatchesUp | 2022/day9/day9.py:43-51 | a tail at most two steps away on each axis touches the head afterwards |
| RopeBridge.TailStepIsSmall | 2022/day9/day9.py:43-51 | the tail moves at most one step on each axis |
| RopeBridge.RopeStaysConnected | 2022/day9/day9.py:26-53 | one head step from a touching rope leaves the tail within two steps, so the rope stays connected |
| Scratchcards.Lookup | 2023/day4/day4.py:63-64 | `id in cards` and `cards[id]`: the match count of the card with that id, or -1 when no card has it |
| Scratchcards.PointsDouble | 2023/day4/day4.py:45-50 | every match after the first doubles a card's points |
| Scratchcards.PointsBounds | 2023/day4/day4.py:45-50 | a card scores 0 exactly when it has no match, and at least m with m matches |
| Scratchcards.FindTotalPoints | 2023/day4/day4.py:41-52 | the sum of 2^(m-1) over the cards with m > 0 matches |
| Scratchcards.Won | 2023/day4/day4.py:63-66 | a card with id c and m matches wins one each of c+1, ..., c+m |
| Scratchcards.SumTreeAtLeast | 2023/day4/day4.py:55-69 | every card in the pool counts at least as itself |
| Scratchcards.AppendWon | 2023/day4/day4.py:64-66 | the pool gains exactly the m ids after the card, in order |
| Scratchcards.FindTotalScratchcards | 2023/day4/day4.py:55-69 | the size of the pool that grows by the copies each card wins, starting with every card once |
| Scratchcards.AtLeastOriginals | 2023/day4/day4.py:59-69 | the total is at least the number of original cards |
| Scratchcards.NoMatchIsOne | 2023/day4/day4.py:63-66 | a card with no match stays a single card |
| SecretDial.Turn | 2025/day1/day1.py:15-20 | one line turns the dial left or right modulo 100; SecretDial.DialInRange keeps it in 0..99 and SecretDial.TurnBack shows a right turn undoes a left one |
| SecretDial.TurnBack | 2025/day1/day1.py:15-20 | turning left n clicks and then right n clicks gives the starting position back |
| SecretDial.DialInRange | 2025/day1/day1.py:10-20 | the dial starts at 50 and never leaves 0..99 |
| SecretDial.Password1AtMostLines | 2025/day1/day1.py:22-23 | the part 1 password never exceeds the number of lines |
| SecretDial.RotateDial | 2025/day1/day1.py:9-25 | the number of rotations that end at 0 |
| SecretDial.ClicksRight | 2025/day1/day1.py:40-43 | turning right n clicks passes 0 once per completed hundred |
| SecretDial.ClicksLeft | 2025/day1/day1.py:40-43 | turning left n clicks passes 0 first after d clicks and then once per hundred |
| SecretDial.FailureSticks | 2025/day1/day1.py:27-45 | once part 2 has failed, later lines do not matter |
| SecretDial.Click | 2025/day1/day1.py:40-43 | the clicks of one line: the new dial and the number of clicks landing on 0 |
| SecretDial.RotateDial2 | 2025/day1/day1.py:27-45 | the number of single clicks that land on 0 |
| SecretDial.Part2CountsPart1 | 2025/day1/day1.py:15-43 | on proper lines part 2 counts every rotation ending at 0, so its password is at least part 1's |
| SecretDial.ZeroTickLine | 2025/day1/day1.py:15-43 | "L50" then "R0": part 1 gives 2, part 2 gives 1 |
| Snafu.Digits | day25/day25.py:21-22 | the digit values of a numeral, in order |
| Snafu.Chars | day25/day25.py:46-48 | the numeral spelled by balanced digits, only the characters 0 1 2 - = |
| Snafu.ValueShift | day25/day25.py:23-26 | moving units to a neighbouring position with five times the weight keeps the value |
| Snafu.ValueRange | day25/day25.py:35-41 | digits in 0..4 spell a value in [0, 5^n) |
| Snafu.BorrowedTail | day25/day25.py:35-41 | the n base-5 digits of a value below 5^n |
| Snafu.Base5Unique | day25/day25.py:35-41 | base-5 digits are determined by their value |
| Snafu.SnafuToInt | day25/day25.py:19-28 | the value the borrow loop produces; it is the balanced base-5 value of the numeral when the leading digit is positive or the numeral has one digit |
| Snafu.BorrowedMatches | day25/day25.py:23-26 | the digits the borrow loop leaves behind are the borrowed digits the specification describes |
| Snafu.Base5Digits | day25/day25.py:35-37 | the base-5 digits of n, each in 0..4 and the first positive, whose value is n |
| Snafu.BalanceDigits | day25/day25.py:39-46 | balanced digits in -2..2 whose first digit is 1 or 2 and whose value is that of the base-5 digits |
| Snafu.IntToSnafu | day25/day25.py:31-48 | a numeral of 0 1 2 - = whose first character is 1 or 2 and whose value is nb; None for nb <= 0 |
| Snafu.SumOfNumerals | day25/day25.py:51-53 | a SNAFU numeral whose value is the sum of what snafu2int reads from each numeral; None exactly when that sum is not positive |
| Snafu.SumReadIsSumValues | day25/day25.py:19-53 | when every numeral leads with 1 or 2 or has one digit, the sum snafu2int reads is the sum of the numerals' balanced values |
| Snafu.BorrowedIsValue | day25/day25.py:19-28 | snafu2int reads a numeral leading with 1 or 2, or of one digit, as its balanced base-5 value |
| Snafu.ReadNegativeLead | day25/day25.py:19-28 | snafu2int reads "-1" as -6, though its balanced value is -4 |
| Snafu.SnafuRoundTrip | day25/day25.py:19-48 | a numeral with leading 1 or 2 is read back as its value, so snafu2int(int2snafu(n)) == n for n > 0 |
| Snafu.TailBound | day25/day25.py:19-48 | a balanced tail of n digits lies strictly between -5^n/2 and 5^n/2 |
| TuningTrouble.DistinctCountMeansDistinct | 2022/day6/day6.py:11-13 | a window has as many different characters as characters exactly when none repeats |
| TuningTrouble.StartOfMarker | 2022/day6/day6.py:10-23 | n + w for the first window of w distinct characters, no earlier window being distinct; the last loop value \|s\| - 1 when there is none |
| TuningTrouble.StartOfPacket | 2022/day6/day6.py:10-15 | the end of the first window of 4 distinct characters; \|s\| - 1 when there is none; None on an empty string |
| TuningTrouble.StartOfMessage | 2022/day6/day6.py:18-23 | the end of the first window of 14 distinct characters; \|s\| - 1 when there is none; None on an empty string |
| TuningTrouble.PacketNotAfterMessage | 2022/day6/day6.py:10-23 | a window of 14 distinct characters starts with 4 distinct ones, so the packet marker never comes after the message marker |
| ValveDistances.IndexOf | day16/day16.py:109 | a position holding the name, or None when the name is missing, where Python raises |
| ValveDistances.GraphToMatrix | day16/day16.py:101-111 | entries are 0 or 1, with 1 exactly for the listed tunnels; None for a tunnel to an unknown valve |
| ValveDistances.Relaxed | day16/day16.py:133-136 | one round of relaxation through valve k |
| ValveDistances.RelaxedKeeps | day16/day16.py:132-136 | a round through k keeps a distance matrix one and extends the triangle inequality to k |
| ValveDistances.RelaxedLowers | day16/day16.py:133-136 | a round never raises a distance |
| ValveDistances.RelaxThrough | day16/day16.py:133-136 | the in-place loops compute the round on the matrix as it was, since row and column k do not change |
| ValveDistances.InitDistances | day16/day16.py:119-127 | 0 on the diagonal, the adjacency entry for a tunnel, the sentinel size * size elsewhere |
| ValveDistances.WalkJoin | day16/day16.py:133-136 | a walk to k followed by a walk from k is a walk whose length is the sum |
| ValveDistances.RelaxedWalks | day16/day16.py:133-136 | after a round through k, every entry below the sentinel is still the length of an actual walk through the tunnels |
| ValveDistances.InitialWalks | day16/day16.py:119-127 | the starting matrix's entries below the sentinel are walks of no step or one |
| ValveDistances.RelaxAll | day16/day16.py:130-137 | afterwards no detour through any valve is shorter, no entry has grown, and every entry below the sentinel is the length of an actual walk |
| ValveDistances.FinalShortest | day16/day16.py:114-139 | the relaxed starting matrix is the matrix of shortest distances |
| ValveDistances.WalkBound | day16/day16.py:114-139 | no walk from i to j is shorter than the result's entry d[i][j]; with FloydWarshall, an entry below the sentinel is the length of a shortest walk |
| ValveDistances.FloydWarshall | day16/day16.py:114-139 | zero diagonal, at most 1 for each direct tunnel, no entry above the sentinel size * size, d[i][j] <= d[i][k] + d[k][j] for all i, j, k, and every entry below the sentinel the length of a walk from i to j (WalkBound: of a shortest one); None for a tunnel to an unknown valve |

## Left out

- File reading, parsing and printing are not modelled in any script (`read_*`, `parse_file`, `parse_*`, `display_*`, `day*_1`/`day*_2` drivers). Each module starts from the values parsing produces.
- Crashes on input the puzzle never gives, such as a malformed line, an unknown pipe character or a sensor list without a boundary, are `requires` clauses and not error results.
- GrovePositioning.MoveInList: the list is mutated in place by `pop`/`insert` in the source; the model works on list values.
- Joltage.MaxSubsequence: the greedy stack yields the largest k-digit subsequence; the contract states the shape (an in-order subsequence of length k), that each pop removes a smaller digit, that at most len - k removals are used and that leftover removals mean a non-increasing result, not optimality.
- BeaconExclusion: `get_sensors_boundary` and the choice of the tuning point in `day15_2` are not part of this model.
- ValveDistances: the `Bot` search of day16 (`go_through`) is not part of this model; only the distance matrix is.
- PipeMaze: the `steps` counter of find_loop is not modelled, since nothing reads it.
- CamelCards: the `sorted()` call of `day7_1` is an input of CamelCards.TotalWinnings (the hands in ascending order of score), not modelled as a sort; `day7_2` (jokers) is not part of this model.
- ReflectorDish: `parse_grid`, the driver loops and `day14_2` (spin cycles) are not part of this model.
- PrintQueue: page numbers are natural numbers.
- BridgeRepair: the operands are natural numbers; the target matches `\d+` and so is one, but `int()` on an operand would also accept a negative number such as "-3", and negative operands are not modelled.
- PrintQueue.PageRules.ParsePageOrderingRule: DistinctNumbers is not kept by a rule a\|a on a new page, where the source appends two pages with that number.
- PrintQueue.ParseIncorrectUpdate: the loop of the source runs until the update is accepted, which may be forever (PrintQueue.StuckUpdate); the model takes a bound maxPasses and returns None when it is reached.
- MonkeyMap: `travel_tiles` is modelled only by its step (MonkeyMap.Tiles.Advance); its walls test and tile marking, `get_final_password`, `read_tiles` and `display_tiles` are not part of this model.
- MonkeyMap.Tiles.TravelThroughFaces: never looks upward, as the source; a net whose faces are only reachable upward from the first face loses them.
- MonkeyFaces: a `Face` stores value snapshots of its top edges; the source keeps references to edges that are never rotated after the face is recorded, so the values agree.
- MonkeyMap.Tiles.AnalyseFaces: does not prove that a rolled cube has exactly four top edges, so a face side with no label is possible in the model and writes no jump.
- MonkeyMap.Tiles.AnalyseFaces: does not prove face coverage, that on a valid net the traversal finds exactly six faces and each of the twelve edge labels lies on exactly two of them; only closure of the faces found under the traversal is proved.
- RegolithReservoir.ParsePaths: requires non-negative coordinates; a negative one would make numpy count the index from the end or raise, and that path is not modelled (RegolithReservoir.PyIndex models such indices only for the falling sand).
- FreshRanges.AllFreshCount: for a range that ends before it starts, the count is stated as the sum over the merged ranges (which may count such a range as zero or negative), not as a number of ids.
- MonkeyMap.WritePairs: works on map values returned to the caller; the source writes into `self.jumps` in place.
- DiskFragmenter.Blocks.CompactBlocksWithoutFrag: the contract does not state that each file moves whole and only leftwards into a large enough span; that is stated for one move by DiskFragmenter.MoveKeepsSpans and DiskFragmenter.Blocks.FindFirstFreeBlockWithSize.
- Integers are unbounded Python integers in every script; no width or wrap-around applies.

## Findings

| source | as written | input that shows it | evidently intended | confidence | as-written member | corrected member |
|---|---|---|---|---|---|---|
| 2025/day3/day3.py:17-18 | `max_left > 0` / `max_right > 0` are used as "the side is non-empty", so a zero digit after the maximum is ignored | the bank "90": find_highest returns 0 instead of 90 | test for a non-empty side; return the largest two-digit joltage | not executed | Joltage.FindHighestZeroDigit | Joltage.FindHighestFixedIsBest |
| day22/day22.py:540 | the traversal looks right and left only when `0 < x < W - 1`, so a face in the first net column never looks right and one in the last never looks left | the two-by-five staircase net with faces at (0,0), (0,1), (0,2), (1,2), (1,3), (1,4): only the first three faces are found | look right whenever there is a column to the right, left whenever there is one to the left | not executed | MonkeyMap.AsWrittenStopsShort | MonkeyMap.CorrectedReachesStaircase |
