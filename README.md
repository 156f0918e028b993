# Advent of Code 2020 solvers, modelled in Dafny

This project models the core logic of a set of Rust solvers for the 2020 Advent of Code
puzzles. Each `day_NN/src/main.rs` becomes one module `DayNN` in `dayNN.dfy`.
`common.dfy` holds the shared modules:
- `Wrappers`: `Option` and `Result`.
- `Seqs`: distinctness and multiset facts about sequences.
- `Arith`: division and remainder, powers, and the 64-bit wrap-around of a `usize` cast.
- `Text`: splitting, joining, trimming and number parsing on strings.

The model takes the form of each source file:
- Iterator chains and recursive helpers become functions, with lemmas about them.
- Loops that update variables become methods with loop invariants. Each such method is proved
  equal to a specification function, or to state a property directly.
- Structs updated in place become classes. These are day 15's `SpokenRecord`, day 23's `Ring`,
  day 8's `Computer` and day 20's `OrientationCache`.

Inputs come in as parameters rather than from the embedded `input.txt` files.
Unbounded searches (days 7, 11, 19, 20, 21 and 22) carry an explicit `fuel` bound or an
acyclicity precondition.

The centre of the project is day 20, the jigsaw tile assembly. It covers:
- the grid symmetries, modelled as the source writes them;
- the border matcher and its priorities;
- the placement work queue;
- the stitching of the final image;
- the sea-monster score.

## Model

| member | source | states |
|---|---|---|
| `Day01.Part1` | day_01/src/main.rs:15-27 | Ok iff some element i has t−i ≥ 0 in the input; the pair is (i, t−i) for the first such i in input order |
| `Day01.Part1Sums` | day_01/src/main.rs:18-23 | a returned pair sums to the target, both members occur in the input and the second is non-negative |
| `Day01.Part2First` | day_01/src/main.rs:29-39 | Ok iff some (i, k) has t−i−k in the input; the triple is the first hit in nested loop order |
| `Day01.SearchOuterOk` | day_01/src/main.rs:31-38 | the outer loop from position `from` succeeds iff some later i has a hit |
| `Day01.SearchOuterFirst` | day_01/src/main.rs:31-36 | the outer loop's triple comes from the first outer and first inner position with a hit |
| `Day01.SearchInner` | day_01/src/main.rs:32-36 | the inner loop returns (i, k, t−i−k) for the first k with t−i−k in the input, Err if none |
| `Day01.Part2Sums` | day_01/src/main.rs:33-34 | a returned triple sums to the target and its three members occur in the input |
| `Day02.CountIsMultiplicity` | day_02/src/main.rs:35 | the filtered count of `ch` is its multiplicity in the password |
| `Day02.IsValidOccurrences` | day_02/src/main.rs:34-37 | `is_valid` holds iff min ≤ occurrences of the char ≤ max |
| `Day02.IsValid2ExactlyOne` | day_02/src/main.rs:39-43 | `is_valid2` holds iff exactly one of the 1-based positions min and max holds the char; equal positions never pass |
| `Day02.Part1` | day_02/src/main.rs:9-15 | keeps exactly the rules `is_valid` accepts |
| `Day02.Part1Append` | day_02/src/main.rs:10-13 | the filter distributes over concatenation, so it keeps input order |
| `Day02.Part2` | day_02/src/main.rs:17-23 | keeps exactly the rules `is_valid2` accepts |
| `Day02.Part2Append` | day_02/src/main.rs:18-21 | the filter distributes over concatenation, so it keeps input order |
| `Day02.ParseLine` | day_02/src/main.rs:49-58 | a parsed rule has a non-empty password and a char that is not a separator |
| `Day02.FormatPieces` | day_02/src/main.rs:50-52 | splitting "lo-hi c: pw" on ' ', ':' and '-' gives lo, hi, c, an empty piece, pw |
| `Day02.ParseFormat` | day_02/src/main.rs:46-61 | parsing the printed form of a rule gives the rule back |
| `Day02.ReadLines` | day_02/src/main.rs:46-61 | all lines parse, or none is returned; the i-th rule is the parse of the i-th line |
| `Day03.Stride` | day_03/src/main.rs:23-27 | lines advance by y per visit, and by 1 when y is 0 (the skip range `1..y` is then empty) |
| `Day03.TreesAreVisitedTrees` | day_03/src/main.rs:13-32 | the count equals the number of visited lines with '#' at the visit's column |
| `Day03.VisitLine` | day_03/src/main.rs:18-29 | the k-th visited line is examined at column (k·x) mod width |
| `Day03.SkippedLine` | day_03/src/main.rs:23-27 | lines strictly between two visits are never examined |
| `Day03.Part1` | day_03/src/main.rs:9-33 | the loop counts the trees on the slope |
| `Day03.Part2` | day_03/src/main.rs:35-40 | the product of the counts for slopes (1,1), (3,1), (5,1), (7,1) and (1,2) |
| `Day04.Tokens` | day_04/src/main.rs:38 | flattening the whitespace words split at ':' gives at least one token per word |
| `Day04.FromPairsSpec` | day_04/src/main.rs:37-42 | the keys are exactly the tokens at even positions that have a following token, and each key maps to the token after its last occurrence |
| `Day04.ParseInput` | day_04/src/main.rs:30-35 | one passport per `split_terminator("\n\n")` piece, parsed in order |
| `Day04.CidOptional` | day_04/src/main.rs:13-16 | adding or replacing `cid` never changes whether the required fields are present |
| `Day04.Part1` | day_04/src/main.rs:11-19 | the count is at most the number of passports; it is all of them iff every passport has the seven fields, and 0 iff none has |
| `Day04.Part2AtMostPart1` | day_04/src/main.rs:21-28 | validation only removes passports: part 2 ≤ part 1 |
| `Day04.YearField` | day_04/src/main.rs:46-48 | a decimal year passes byr/iyr/eyr iff it lies in [1920, 2002], [2010, 2020] and [2020, 2030] respectively |
| `Day04.HeightField` | day_04/src/main.rs:49-56 | a height passes iff its unit is "cm" and the number is in [150, 193], or "in" and in [59, 76]; any other unit fails |
| `Day04.UnparsableYear` | day_04/src/main.rs:46-48 | an unparsable year becomes 0 and fails |
| `Day04.ParseOrZero` | day_04/src/main.rs:46 | `parse::<i32>().unwrap_or(0)` stays within the i32 range |
| `Day04.ParseIntToString` | day_04/src/main.rs:46-50 | parsing a decimal numeral gives its value, and 0 once it exceeds the i32 range |
| `Day05.BinaryAppend` | day_05/src/main.rs:41-51 | the binary value of a concatenation shifts the first part by the length of the second |
| `Day05.ParseSeat` | day_05/src/main.rs:40-54 | row is the binary value of the first 7 letters (F/L = 0, B/R = 1), col that of the rest, id = row·8 + col |
| `Day05.TenLetterPass` | day_05/src/main.rs:50-53 | for a 10-letter pass row < 128, col < 8, and the id is the binary value of the whole pass, so < 1024 |
| `Day05.Example` | day_05/src/main.rs:61-63 | "BFFFBBFRRR" has id 567 |
| `Day05.MaxId` | day_05/src/main.rs:12-14 | part 1: an id of some pass, and no pass has a larger one |
| `Day05.MinId` | day_05/src/main.rs:22 | an id of some pass, and no pass has a smaller one |
| `Day05.Seats` | day_05/src/main.rs:17-20 | the set holds exactly the parsed passes |
| `Day05.SearchCols` | day_05/src/main.rs:26-34 | the column loop returns row·8 + c for the first c < 7 whose id is in [min, max] and absent; column 7 is never tried |
| `Day05.SearchRowsFirst` | day_05/src/main.rs:25-37 | the row loop returns Err iff no row from `from` to 126 has a free seat, else the first free seat in row-then-column order |
| `Day05.Part2First` | day_05/src/main.rs:16-38 | part 2 returns the first free id in row 1..=126, col 0..7 order; it lies in [min, max] and no pass has that seat; Err iff there is none |
| `Day06.Concat` | day_06/src/main.rs:17-19 | a char is in the flattened group iff some line holds it |
| `Day06.Tally` | day_06/src/main.rs:34-42 | the fold's map has exactly the group's chars as keys, each with its number of occurrences |
| `Day06.EveryoneAtMostAnyone` | day_06/src/main.rs:16-46 | a group's part 2 value is at most its part 1 value |
| `Day06.SumsOrdered` | day_06/src/main.rs:13-47 | the part 2 sum over groups is at most the part 1 sum |
| `Day06.Part2AtMostPart1` | day_06/src/main.rs:13-48 | part 2 ≤ part 1 on any input split by `split_terminator("\n\n")` |
| `Day06.NoRepeatsOnce` | day_06/src/main.rs:30-42 | a line without repeated chars holds each char at most once |
| `Day06.Containing` | day_06/src/main.rs:30-44 | the number of lines holding c is at most the line count, and equals it iff every line holds c |
| `Day06.CountIsContaining` | day_06/src/main.rs:30-44 | when no line repeats a char, a char's total count is the number of lines holding it |
| `Day06.EveryoneAnswered` | day_06/src/main.rs:26-46 | when no line repeats a char, the part 2 value of a group is the number of chars every line holds |
| `Day07.FullChunks` | day_07/src/main.rs:28-32 | the 4-word chunks of the contents, a shorter last chunk dropped: chunk i is words 4i..4i+4 |
| `Day07.ParseChunks` | day_07/src/main.rs:33 | each chunk gives (its first word as a count, its second and third words joined by a space) |
| `Day07.ParseContents` | day_07/src/main.rs:26-34 | contents with fewer than four words, such as "no other bags", give an empty list |
| `Day07.ParseRules` | day_07/src/main.rs:13-39 | every line parses or none is returned; rule i is the parse of line i |
| `Day07.CollectSpec` | day_07/src/main.rs:38 | the graph's keys are exactly the rules' colours, and a colour maps to the contents of its last rule |
| `Day07.ChainInSeen` | day_07/src/main.rs:49-60 | once `seen` is closed under containment, every bag on a containment chain to shiny gold is in it |
| `Day07.MarkContainer` | day_07/src/main.rs:56-59 | one container is pushed at the front and added to `seen`, keeping a chain to shiny gold for every seen bag |
| `Day07.QueueContainers` | day_07/src/main.rs:50-59 | `seen` grows by exactly the containers of the popped colour, which all join the queue |
| `Day07.Step` | day_07/src/main.rs:49-60 | one iteration keeps the search invariant: seen bags reach shiny gold, and seen holds the containers of every processed colour |
| `Day07.Part1` | day_07/src/main.rs:41-63 | when the loop ends within the fuel, the answer is the number of colours that transitively contain shiny gold |
| `Day07.SeenIsAncestors` | day_07/src/main.rs:49-62 | at the end `seen` is exactly the set of colours transitively containing shiny gold |
| `Day07.ContainersUnion` | day_07/src/main.rs:50-54 | the containers of a set of colours are the union of the containers of each |
| `Day07.CountBagsRankFree` | day_07/src/main.rs:70-75 | `count_bags` does not depend on which acyclicity ranking proves that it terminates |
| `Day07.SumContentsRankFree` | day_07/src/main.rs:71-74 | the same for the sum over a bag's contents |
| `Day07.CountBagsSingle` | day_07/src/main.rs:70-75 | a bag holding n bags of one colour d counts n + n·count_bags(d) |
| `Day07.ChainCount` | day_07/src/main.rs:70-75 | along a chain where each bag holds two of the next, the i-th bag counts 2^(len−i) − 2 |
| `Day07.ChainExample` | day_07/src/main.rs:97-107 | the seven-bag chain of the test gives count_bags("shiny gold") = 126 |
| `Day07.AncestorsClosed` | day_07/src/main.rs:49-62 | a set of colours that all reach shiny gold and is closed under containment is exactly the set of shiny gold's ancestors |
| `Day07.ExampleDistinct` | day_07/src/main.rs:83-91 | the nine colours of the part 1 test are distinct |
| `Day07.ExampleClosed` | day_07/src/main.rs:83-91 | in the test graph only light red, dark orange, bright white and muted yellow hold shiny gold or one of themselves |
| `Day07.ExampleChains` | day_07/src/main.rs:83-91 | each of those four eventually contains shiny gold |
| `Day07.HoldersExample` | day_07/src/main.rs:82-92 | in the test graph exactly those four colours contain shiny gold, so part1 gives 4 |
| `Day08.Computer.constructor` | day_08/src/main.rs:99-101 | a new computer has acc = 0 and ip = 0 |
| `Day08.Computer.EvaluateLine` | day_08/src/main.rs:103-117 | nop: ip + 1; acc v: acc + v and ip + 1; jmp v: ip + v with the usize wrap, acc unchanged |
| `Day08.FreshExcludes` | day_08/src/main.rs:22-30 | while every instruction run so far was new, the run has neither halted nor looped |
| `Day08.OutcomeUnique` | day_08/src/main.rs:22-56 | a run halts or loops at a single step, never both |
| `Day08.LoopsWithUnique` | day_08/src/main.rs:22-32 | the accumulator at the first repeated instruction is unique |
| `Day08.HaltsNotLoops` | day_08/src/main.rs:45-59 | a program that halts never repeats an instruction |
| `Day08.RunAdvance` | day_08/src/main.rs:50-55 | running a new instruction keeps the run invariant and grows `seen_ops` by one, bounded by the program length |
| `Day08.RunHalt` | day_08/src/main.rs:46-48 | ip ≥ len ends the run with the current accumulator as the halting value |
| `Day08.RunLoop` | day_08/src/main.rs:25-27 | a repeated ip ends the run with the current accumulator as the looping value |
| `Day08.Run` | day_08/src/main.rs:41-56 | the run loop reports halting with the final accumulator, or looping with the accumulator before the repeat |
| `Day08.Part1` | day_08/src/main.rs:16-33 | returns the accumulator just before an instruction would run a second time |
| `Day08.BuildMutations` | day_08/src/main.rs:66-91 | the loop builds exactly the mutation list |
| `Day08.KnownContains` | day_08/src/main.rs:71-80 | for nop/acc/jmp, `contains("jmp")` and `contains("nop")` are equality tests |
| `Day08.MutationsShape` | day_08/src/main.rs:70-88 | each mutation equals `memory` except one line whose op is swapped jmp↔nop with its argument kept; indices come in order |
| `Day08.MutationsComplete` | day_08/src/main.rs:70-88 | every jmp line and every nop line has its mutation in the list |
| `Day08.MutationsValid` | day_08/src/main.rs:70-88 | mutations of a valid program are valid programs |
| `Day08.MutationsCount` | day_08/src/main.rs:70-88 | there is exactly one mutation per non-acc line |
| `Day08.Part2` | day_08/src/main.rs:35-64 | Ok: the first mutation that halts, with its line and final accumulator; Err: every mutation loops |
| `Day08.ParseLines` | day_08/src/main.rs:122-133 | every line parses or none is returned; instruction i is the parse of line i |
| `Day08.ParseSigned` | day_08/src/main.rs:129 | a signed decimal parses back to its value |
| `Day08.ParseFormat` | day_08/src/main.rs:125-131 | parsing "op v" gives (op, v) back |
| `Day09.CheckPreambleContains` | day_09/src/main.rs:28-40 | true iff some x ≤ n in the preamble has n − x in the preamble with n − x ≠ x (distinct values, not positions) |
| `Day09.Part1` | day_09/src/main.rs:11-26 | returns `numbers[start + window]` for the first start whose preamble fails the check; Err iff every window passes |
| `Day09.SumAppend` | day_09/src/main.rs:49 | the sum of a concatenation is the sum of the sums |
| `Day09.SumMono` | day_09/src/main.rs:49-57 | a slice inside another sums to no more |
| `Day09.Min` | day_09/src/main.rs:53 | an element of the slice, at most every element |
| `Day09.Max` | day_09/src/main.rs:53 | an element of the slice, at least every element |
| `Day09.Overshoot` | day_09/src/main.rs:55-58 | once a slice from `start` exceeds n, no slice from `start` sums to n, so moving on to start + 1 loses nothing |
| `Day09.Exhausted` | day_09/src/main.rs:47-64 | when `end` reaches the length, no slice `[s, e)` with e < len sums to n |
| `Day09.Part2` | day_09/src/main.rs:42-65 | Ok: (min, max) of the first slice, by start then end, that sums to n (length 1 is allowed); Err iff there is none |
| `Day09.ParseNumbers` | day_09/src/main.rs:67-69 | every line parses or none is returned; number i is the parse of line i |
| `Day10.Insert` | day_10/src/main.rs:50 | inserting into a sorted list keeps it sorted and adds exactly x |
| `Day10.Sort` | day_10/src/main.rs:50 | `sort_unstable`: a sorted permutation of the input |
| `Day10.ParseLines` | day_10/src/main.rs:49 | every line parses to a value below 256, or none is returned; value i is the parse of line i |
| `Day10.ParseInput` | day_10/src/main.rs:48-52 | the parsed ratings, sorted ascending |
| `Day10.FoldSpan` | day_10/src/main.rs:15-23 | with gaps of 1 or 3 only, the fold counts one gap per neighbouring pair, and ones + 3·threes spans the ratings |
| `Day10.Part1Counts` | day_10/src/main.rs:13-26 | part 1 is ones·threes, where ones + threes = len + 1 and (ones − 1) + 3·(threes − 1) = last − first |
| `Day10.LookupIsTerm` | day_10/src/main.rs:35-41 | the map lookup at x − d agrees with the recursive path count, because the input is sorted |
| `Day10.Part2Step` | day_10/src/main.rs:34-43 | storing the sum of the three lookups keeps the map equal to the path count for every rating seen |
| `Day10.Part2` | day_10/src/main.rs:28-46 | the answer is ways(last rating), with ways(0) = 1 and ways(x) = Σ over d = 1..3 of ways(x − d) over present ratings; Err on an empty list |
| `Day10.Unreachable` | day_10/src/main.rs:35-41 | a rating with none of x−1, x−2 and x−3 present has no path |
| `Day10.SmallExample` | day_10/src/main.rs:28-46 | ratings {1, 2, 3} give 4 arrangements |
| `Day11.Cells` | day_11/src/main.rs:28-29 | the cells are the input with its whitespace removed |
| `Day11.KeyInjective` | day_11/src/main.rs:31 | distinct cell indices get distinct keys (i mod width, i / width) |
| `Day11.PlaceSpec` | day_11/src/main.rs:27-32 | the map built from the first k cells holds cell i at key (i mod w, i / w), and nothing else |
| `Day11.ParseInputSpec` | day_11/src/main.rs:24-33 | the width is the length of the first word; the i-th non-whitespace char is at (i mod width, i / width), and every key is of that form |
| `Day11.AdjacentFromCount` | day_11/src/main.rs:35-40 | the first k directions give one value per present neighbour, and the '#' among them are the occupied neighbours |
| `Day11.AdjacentNodesCount` | day_11/src/main.rs:35-40 | `adjacent_nodes` returns the values of the present neighbours among the 8 directions, so at most 8; its '#' count is the number of occupied neighbours |
| `Day11.Extent` | day_11/src/main.rs:50-58 | a bound on the coordinates of every key, so a ray that leaves it never meets a cell again |
| `Day11.RayBound` | day_11/src/main.rs:51 | a ray finds cells only within that bound |
| `Day11.FovDrop` | day_11/src/main.rs:50-54 | popping a ray that hits a seat (recorded) or leaves the map (dropped) keeps the queue invariant and lowers the budget |
| `Day11.FovPush` | day_11/src/main.rs:54-56 | a floor cell sends the ray one step further to the back of the queue, keeping the invariant and lowering the budget |
| `Day11.FirstSeatSkip` | day_11/src/main.rs:51-56 | a floor cell on a ray does not change the first seat along it |
| `Day11.StartQueue` | day_11/src/main.rs:46-48 | the first step of all 8 directions is queued, and what remains to be seen is exactly the visible seats |
| `Day11.StartRaysPending` | day_11/src/main.rs:46-48 | the rays of the first k directions leave exactly the first seats of those directions to be seen |
| `Day11.AdjacentNodesFov` | day_11/src/main.rs:42-61 | the neighbours are, as a multiset, the first '#' or 'L' along each direction, where a ray off the map yields nothing |
| `Day11.VisibleOccupied` | day_11/src/main.rs:82-85 | the '#' count of the visible seats is the number of directions that see an occupied seat, at most 8 |
| `Day11.Logic` | day_11/src/main.rs:64-94 | the closure returns the change `Rule` prescribes: 'L' with no occupied neighbour becomes '#', '#' with at least 4 (part 1) or 5 (part 2) becomes 'L' |
| `Day11.CollectChanges` | day_11/src/main.rs:103-112 | the scan of the unmodified map collects one valid change for every seat whose rule fires, and none iff the map is settled |
| `Day11.ApplyChanges` | day_11/src/main.rs:118-120 | popping and inserting the changes updates exactly the touched seats to their new values |
| `Day11.ApplyStep` | day_11/src/main.rs:118-120 | one pop and insert extends the updated region by one change |
| `Day11.AppliedIsNext` | day_11/src/main.rs:101-120 | after the pops the map is the simultaneous next round of the automaton |
| `Day11.PartX` | day_11/src/main.rs:100-124 | with Some(k): the first round with no changes is within the fuel, and k is its number of '#' cells; None: no settling within the fuel |
| `Day11.Part1` | day_11/src/main.rs:63-78 | `partx` with the adjacent-neighbour rule |
| `Day11.Part2` | day_11/src/main.rs:80-95 | `partx` with the visible-seat rule |
| `Day11.NextCell` | day_11/src/main.rs:63-121 | a round keeps the key set and the floor; 'L' becomes '#' iff no neighbour is occupied; '#' becomes 'L' iff at least the tolerance is occupied; seats stay seats |
| `Day11.SettledIsFixpoint` | day_11/src/main.rs:114-116 | a round produces no change iff the map is a fixpoint of the round |
| `Day13.DelaySpec` | day_13/src/main.rs:13 | delay = bus − (timestamp mod bus) lies in 1..=bus, and timestamp + delay is a multiple of the bus |
| `Day13.DelayIsFirst` | day_13/src/main.rs:13 | no shorter positive wait reaches a departure of that bus |
| `Day13.FirstMin` | day_13/src/main.rs:14 | `min_by` picks a smallest delay, and the first bus among ties |
| `Day13.Part1` | day_13/src/main.rs:9-17 | there is an answer iff the bus list is non-empty |
| `Day13.Part1Spec` | day_13/src/main.rs:9-17 | the answer is bus·delay for the first bus of smallest delay, which departs at timestamp + delay |
| `Day13.Part1Answer` | day_13/src/main.rs:9-17 | the fixed buses and timestamp give 3865 |
| `Day13.FirstMinUnique` | day_13/src/main.rs:14 | a strictly smallest delay is the one picked |
| `Day13.Part2Solves` | day_13/src/main.rs:19-36 | the constant 415579909629976, plus any multiple of the product of the buses, meets every offset condition |
| `Day13.PeriodIsProduct` | day_13/src/main.rs:33 | the period 1474630201287997 is the product of the nine bus numbers |
| `Day14.AndBit` | day_14/src/main.rs:30 | bit i of `a & b` is set iff it is set in both |
| `Day14.OrBit` | day_14/src/main.rs:30 | bit i of the bitwise or of a and b is set iff it is set in either |
| `Day14.BinaryBit` | day_14/src/main.rs:26-27 | bit i of a binary numeral's value is its i-th digit from the right |
| `Day14.BinaryBound` | day_14/src/main.rs:26-27 | a numeral of k binary digits is below 2^k |
| `Day14.FromBinary` | day_14/src/main.rs:26-27 | `from_str_radix(_, 2)` gives a value that fits a 64-bit usize |
| `Day14.FromBinaryDigits` | day_14/src/main.rs:26-27 | a non-empty binary numeral of at most 64 digits parses to its value |
| `Day14.Replace` | day_14/src/main.rs:26-27 | `replace` maps every occurrence of one char to the other and keeps the rest |
| `Day14.MasksParse` | day_14/src/main.rs:25-28 | `and_mask` is the mask with X read as 1 and `or_mask` with X read as 0, and both parse |
| `Day14.MaskedBitOf` | day_14/src/main.rs:30 | a bit of the masked value (value AND the and-mask, then OR the or-mask) is set where `or` has it, else kept where `and` has it, else cleared |
| `Day14.MaskedBit` | day_14/src/main.rs:29-31 | part 1 stores 1 where the mask has '1', 0 where it has '0', and the value's bit where it has 'X' |
| `Day14.CurrentMask` | day_14/src/main.rs:23-28 | the mask in force is one of the mask operations seen so far |
| `Day14.Memory1Keys` | day_14/src/main.rs:23-33 | an address holds a value iff some assignment wrote it |
| `Day14.Memory1LastWrite` | day_14/src/main.rs:29-31 | an address holds the masked value of its last write, under the mask in force at that write |
| `Day14.SumRemove` | day_14/src/main.rs:35 | the sum of the values is one value plus the sum of the others |
| `Day14.SumMemory` | day_14/src/main.rs:35 | the loop sums the values of the memory |
| `Day14.Part1` | day_14/src/main.rs:16-36 | the loop builds the part 1 memory and returns the sum of its values |
| `Day14.XCountZero` | day_14/src/main.rs:67 | no 'X' is left iff the X count is 0 |
| `Day14.FirstX` | day_14/src/main.rs:68-69 | `replacen(_, _, 1)` acts on the first 'X' |
| `Day14.ChoicesFill` | day_14/src/main.rs:60-82 | every finished choice fills each 'X' with '0' or '1' and keeps the other chars |
| `Day14.ChoicesComplete` | day_14/src/main.rs:60-82 | every such filling is among the choices |
| `Day14.ChoicesCount` | day_14/src/main.rs:60-82 | there are exactly 2^k choices, k the number of 'X' |
| `Day14.ChoicesDistinct` | day_14/src/main.rs:60-82 | the choices are pairwise distinct |
| `Day14.ChoicesDiffer` | day_14/src/main.rs:60-82 | two different choices differ at some position where each has a '0' or '1' |
| `Day14.LeafDigitAt` | day_14/src/main.rs:73-76 | in a finished choice, 'N' gives or 0 / and 1, 'E' gives or 1 / and 0, and a chosen digit appears in both |
| `Day14.LeafParses` | day_14/src/main.rs:73-77 | both numerals of a finished choice parse to the pair stored for it |
| `Day14.RelabelFloating` | day_14/src/main.rs:64 | the queue starts with the mask where '0' becomes 'N' and '1' becomes 'E' |
| `Day14.SplitPending` | day_14/src/main.rs:67-71 | replacing the front entry by its '0' and '1' versions at the front keeps the pending choices in order |
| `Day14.SplitWork` | day_14/src/main.rs:67-71 | a split lowers the work left |
| `Day14.QueueSplit` | day_14/src/main.rs:67-71 | a split keeps the loop invariant |
| `Day14.QueueLeaf` | day_14/src/main.rs:72-78 | a finished front entry is pushed as a pair, keeping the loop invariant |
| `Day14.FindMaskVariations` | day_14/src/main.rs:60-82 | the loop returns the (or, and) pairs of all choices, in order |
| `Day14.TargetBit` | day_14/src/main.rs:51 | the address written for a choice keeps the address bit under '0', is 1 under '1', and takes the chosen bit under 'X' |
| `Day14.VariationFloats` | day_14/src/main.rs:50-52 | every written address agrees with the floating-bit rule |
| `Day14.FloatsIsVariation` | day_14/src/main.rs:50-52 | every address the floating-bit rule allows is written by some pair |
| `Day14.VariationsDistinct` | day_14/src/main.rs:50-52 | different pairs write different addresses |
| `Day14.VariationsCount` | day_14/src/main.rs:60-82 | there are 2^k pairs, k the number of 'X' |
| `Day14.WriteAll` | day_14/src/main.rs:50-52 | the inner loop adds the targets of all pairs, each holding the value, and keeps every other entry |
| `Day14.WriteVariations` | day_14/src/main.rs:50-52 | the inner loop's map is that write |
| `Day14.Memory2Keys` | day_14/src/main.rs:44-55 | an address holds a value iff some assignment wrote it under the floating rule |
| `Day14.Memory2LastWrite` | day_14/src/main.rs:44-55 | an address holds the value of its last write, since later writes overwrite |
| `Day14.MemoryGrows` | day_14/src/main.rs:44-55 | part 2 only inserts, so an address that holds a value keeps holding one |
| `Day14.MemoryKeeps` | day_14/src/main.rs:44-55 | operations that do not write an address leave its value unchanged |
| `Day14.MemoryWriter` | day_14/src/main.rs:44-55 | every address in memory was written by some assignment before it |
| `Day14.Memory2Prefix` | day_14/src/main.rs:44-55 | a mask operation replaces the pairs, and an assignment writes through the current pairs |
| `Day14.Part2` | day_14/src/main.rs:38-58 | the loop builds the part 2 memory and returns the sum of its values |
| `Day14.ParseLines` | day_14/src/main.rs:89-106 | every line parses or none is returned; operation i is the parse of line i |
| `Day14.ParseMaskLine` | day_14/src/main.rs:93-95 | "mask = M" parses to Mask(M), the third word |
| `Day14.ParseAssignmentLine` | day_14/src/main.rs:96-102 | "mem[A] = V" parses to Assignment(A, V), with A read from chars 4..len−1 |
| `Day15.PrevIndex` | day_15/src/main.rs:41-46 | the most recent earlier position of a number, None iff it was never spoken |
| `Day15.Game` | day_15/src/main.rs:49-76 | the game played up to turn n holds n numbers, or just the seeds when n is not beyond them |
| `Day15.GameRule` | day_15/src/main.rs:60-73 | every turn after the seeds speaks 0 if the last number was new, else the gap between its last two turns |
| `Day15.GamePrefix` | day_15/src/main.rs:60-73 | a longer game extends a shorter one |
| `Day15.PositionsSpec` | day_15/src/main.rs:28-35 | each list holds exactly the turns of its number, strictly increasing |
| `Day15.PositionsLast` | day_15/src/main.rs:41-46 | a number has a list iff it was spoken, and the list ends with its most recent turn |
| `Day15.RecordStep` | day_15/src/main.rs:28-35 | recording the next number at the next turn keeps the record in step with the game |
| `Day15.RecordsNext` | day_15/src/main.rs:37-46 | `occurences` is 1 iff the last number is new; otherwise `last_two` gives its previous turn and the current one |
| `Day15.NextFromRecord` | day_15/src/main.rs:60-70 | the next number is 0 when the count is 1, else last − second_last, with second_last < last |
| `Day15.SpokenRecord.constructor` | day_15/src/main.rs:22-26 | a new record is empty |
| `Day15.SpokenRecord.RecordNumber` | day_15/src/main.rs:28-35 | appends the turn to the number's list, creating the list when absent |
| `Day15.RecordSeeds` | day_15/src/main.rs:54-58 | after the first loop the record lists each seed's turns, and the last seed is the last number spoken |
| `Day15.SpeakNext` | day_15/src/main.rs:60-72 | one turn speaks the game's next number (0 after a first occurrence, else the gap between the last two turns) and records it |
| `Day15.PlayUntil` | day_15/src/main.rs:60-75 | the second loop ends with the number spoken on turn `target_index` |
| `Day15.Part1` | day_15/src/main.rs:49-80 | returns the number spoken on turn `target_index`, or the last seed when the seeds already reach it; Err with no seeds and a positive target, where the source panics |
| `Day15.ExampleStart` | day_15/src/main.rs:87-88 | seeds 0, 3, 6 continue with 0, 3, 3 |
| `Day15.Example` | day_15/src/main.rs:87-88 | seeds 0, 3, 6 give the first ten turns 0, 3, 6, 0, 3, 3, 1, 0, 4, 0 |
| `Day16.Interval` | day_16/src/main.rs:96-98 | the set of numbers in [lo, hi) |
| `Day16.Accepts` | day_16/src/main.rs:96-98 | `accepts(n)` holds iff n lies in rule1's or rule2's inclusive range |
| `Day16.AnyAccepts` | day_16/src/main.rs:20 | some rule accepts n |
| `Day16.FindInvalid` | day_16/src/main.rs:18-20 | `find` returns the first value no rule accepts, and nothing iff the ticket is valid |
| `Day16.ErrorRateAppend` | day_16/src/main.rs:15-22 | the error rate of a concatenation is the sum of the error rates |
| `Day16.ErrorOfTicket` | day_16/src/main.rs:15-22 | a valid ticket contributes 0, an invalid one its first value no rule accepts |
| `Day16.ErrorRateOfValid` | day_16/src/main.rs:15-22 | tickets that are all valid give error rate 0 |
| `Day16.Filter` | day_16/src/main.rs:26-33 | `filter` keeps elements of the input that pass, and every element that passes |
| `Day16.FilterAppend` | day_16/src/main.rs:26-33 | the filter distributes over concatenation, so it keeps input order |
| `Day16.FilterValid` | day_16/src/main.rs:25-34 | keeps exactly the tickets whose every value some rule accepts |
| `Day16.FilterValidNoErrors` | day_16/src/main.rs:25-34 | the kept tickets have error rate 0 |
| `Day16.FilterValidExample` | day_16/src/main.rs:161-179 | of the test's four tickets only [7, 3, 47] is kept |
| `Day16.Initial` | day_16/src/main.rs:58-60 | the queue starts with one single-rule arrangement per rule, in order |
| `Day16.PushesShape` | day_16/src/main.rs:75-81 | each pushed arrangement extends the popped one by one rule not yet in it, and the rest of the queue follows them |
| `Day16.PushesHas` | day_16/src/main.rs:75-81 | every rule not yet in the arrangement gets its extension pushed |
| `Day16.Lighter` | day_16/src/main.rs:62-83 | popping, and popping then pushing extensions of a short arrangement, lower the queue's weight, so the search ends |
| `Day16.CandidatesStep` | day_16/src/main.rs:62-83 | every queued arrangement stays a repetition-free list of rules |
| `Day16.SearchSound` | day_16/src/main.rs:62-83 | a found arrangement has one rule per field, no rule twice, and its i-th rule accepts the i-th value of every pool ticket |
| `Day16.SearchComplete` | day_16/src/main.rs:62-85 | when a queued arrangement is a prefix of some solution, the search succeeds |
| `Day16.ArrangementSpec` | day_16/src/main.rs:52-86 | an Ok arrangement is a solution; a solution exists ⇒ Ok when there are rules; no rules ⇒ Err |
| `Day16.FindArrangement` | day_16/src/main.rs:52-86 | the queue loop computes the depth-first search from the initial queue |
| `Day16.SearchDrops` | day_16/src/main.rs:63-70 | an arrangement that fails a ticket is dropped |
| `Day16.SearchExtends` | day_16/src/main.rs:70-81 | a fitting but incomplete arrangement is replaced by its extensions at the front of the queue (depth first) |
| `Day16.SearchExample` | day_16/src/main.rs:182-220 | the example's rules and pool give the arrangement row, class, seat |
| `Day16.Departures` | day_16/src/main.rs:42-45 | the positions whose rule field contains "departure", in increasing order |
| `Day16.ProductAt` | day_16/src/main.rs:46-47 | the product is defined iff every position is within your ticket |
| `Day16.ProductAtAppend` | day_16/src/main.rs:46-47 | the product over concatenated positions is the product of the products |
| `Day16.DepartureProductDefined` | day_16/src/main.rs:42-47 | the product of the departure values is defined iff your ticket covers every departure position |
| `Day16.ParseAll` | day_16/src/main.rs:109-144 | each piece parses or none is returned; result i is the parse of piece i |
| `Day16.ParseTicket` | day_16/src/main.rs:109-112 | one usize value per comma-separated piece |
| `Day16.ParseShowRule` | day_16/src/main.rs:114-135 | "field: a-b or c-d" parses back to the rule |
| `Day16.ParseShowRange` | day_16/src/main.rs:123-127 | "a-b" parses back to (a, b) |
| `Day16.TrimAll` | day_16/src/main.rs:104 | every line is trimmed |
| `Day16.ParseInput` | day_16/src/main.rs:103-147 | rules are the lines containing "or"; the first comma line is your ticket and the rest are nearby; None when any piece fails to parse or no comma line exists |
| `Day16.Part1` | day_16/src/main.rs:13-23 | the error rate of the nearby tickets |
| `Day16.Answer2Spec` | day_16/src/main.rs:36-50 | Ok: the product of your departure values under a solution for the valid tickets; a solution and a long enough ticket ⇒ Ok |
| `Day16.Part2` | day_16/src/main.rs:36-50 | parses, filters, searches and multiplies as `part2` does; Err when the input does not parse |
| `Day17.GetStatus` | day_17/src/main.rs:106-108 | true iff the position is in the map with value true; a missing position is inactive |
| `Day17.OffsetsShape` | day_17/src/main.rs:83-102 | the offset list has 26 entries in 3D and 80 in 4D, all different |
| `Day17.OffsetsMembers` | day_17/src/main.rs:83-102 | the offsets are exactly the non-zero vectors with components in {-1, 0, 1} (w = 0 in 3D) |
| `Day17.NeighbourListSpec` | day_17/src/main.rs:81-104 | 26 or 80 pairs, none at the cell itself, each with its status, no position twice, and exactly the adjacent positions |
| `Day17.Neighbours` | day_17/src/main.rs:81-104 | the nested dx, dy, dz, dw loops push the neighbour list in the source's order |
| `Day17.PushColumn` | day_17/src/main.rs:92-101 | the dz and dw loops for fixed dx, dy append that block of pairs |
| `Day17.PushRow` | day_17/src/main.rs:93-99 | the dw loop appends one row of pairs, skipping the zero offset |
| `Day17.CountActive` | day_17/src/main.rs:22 | at most the number of pairs; positive iff some pair is active |
| `Day17.CountActiveDistinct` | day_17/src/main.rs:22 | over distinct positions the count equals the number of active positions |
| `Day17.ActiveAroundSpec` | day_17/src/main.rs:21-22 | the active count is the number of active cells adjacent to the position |
| `Day17.CollectInactive` | day_17/src/main.rs:24-28 | adds exactly the inactive neighbour positions |
| `Day17.FrontierAdd` | day_17/src/main.rs:20-28 | visiting one more active entry adds its inactive neighbours to the frontier |
| `Day17.NextIsConway` | day_17/src/main.rs:16-46 | after a cycle a cell is active iff it was active with 2 or 3 active neighbours, or inactive with exactly 3 |
| `Day17.BornInFrontier` | day_17/src/main.rs:35-43 | any cell with an active neighbour is active or in the collected inactive set, so the second pass misses no birth |
| `Day17.Cycle` | day_17/src/main.rs:17-45 | one cycle replaces the active map by the cells NextIsConway describes |
| `Day17.ScanActive` | day_17/src/main.rs:20-33 | the first pass yields the surviving cells and the inactive neighbours of all active cells |
| `Day17.VisitActive` | day_17/src/main.rs:21-32 | one active entry adds itself if it survives and its inactive neighbours to the set |
| `Day17.ScanFrontier` | day_17/src/main.rs:35-43 | the second pass adds exactly the inactive cells with 3 active neighbours |
| `Day17.VisitInactive` | day_17/src/main.rs:36-42 | one collected position is added iff it is inactive with exactly 3 active neighbours |
| `Day17.InitialSpec` | day_17/src/main.rs:51-70 | the initial cells are the '#' at (column, line, 0, 0) of the trimmed lines, all true |
| `Day17.ParseInput` | day_17/src/main.rs:51-70 | the line and character loops build that initial grid |
| `Day17.CyclesAllTrue` | day_17/src/main.rs:16-48 | every stored status stays true, so the final count is the number of stored cells |
| `Day17.Part1` | day_17/src/main.rs:13-49 | the number of active cells after six cycles, in 3D or 4D |
| `Day18.DigitValue` | day_18/src/main.rs:79 | a digit character's value is below 10 |
| `Day18.NoSpaces` | day_18/src/main.rs:58 | the filtered characters contain no space, and a well-formed line leaves only tokens |
| `Day18.NoSpacesSnoc` | day_18/src/main.rs:58 | the filter drops exactly the spaces, one character at a time |
| `Day18.LastOpen` | day_18/src/main.rs:61-66 | the index of the topmost '(' on the operator stack, or -1 when there is none |
| `Day18.CloseParenSpec` | day_18/src/main.rs:61-66 | ')' pops the operators above the topmost '(' to the output, most recent first, and drops the '('; with no '(' it empties the stack |
| `Day18.PrecedenceRunSpec` | day_18/src/main.rs:68-75 | the popped run is the longest top segment of the stack whose operators are in the precedence list |
| `Day18.PopPrecedenceSpec` | day_18/src/main.rs:68-75 | '+' or '*' moves that run to the output, most recent first, and keeps the rest |
| `Day18.FlushSpec` | day_18/src/main.rs:84-86 | at the end the remaining operators go to the output, most recent first |
| `Day18.FeedAllAppend` | day_18/src/main.rs:58-82 | feeding two token strings is feeding one after the other |
| `Day18.FeedAllShape` | day_18/src/main.rs:58-82 | the stack keeps only '(', '+', '*' and the output only values and '+', '*' |
| `Day18.FeedAllValues` | day_18/src/main.rs:58-82 | the values in the output are the line's digits in order |
| `Day18.OutputValues` | day_18/src/main.rs:49-88 | the final output's values are the line's digits in order |
| `Day18.RunAppend` | day_18/src/main.rs:25-46 | running the evaluator over a concatenation runs the second part on the first part's stack |
| `Day18.ReversePolishNotation` | day_18/src/main.rs:25-46 | the stack loop returns the value that the postfix evaluation defines |
| `Day18.PopToParen` | day_18/src/main.rs:61-66 | the ')' loop computes CloseParen |
| `Day18.PopOperators` | day_18/src/main.rs:68-75 | the operator loop computes the precedence pop |
| `Day18.FlushOperations` | day_18/src/main.rs:84-86 | the final loop computes Flush |
| `Day18.Shunt` | day_18/src/main.rs:59-81 | one character updates both stacks as the match arms say |
| `Day18.ShuntLine` | day_18/src/main.rs:50-82 | the character loop feeds the space-free line into empty stacks |
| `Day18.ShuntingYard` | day_18/src/main.rs:49-89 | the result is the postfix value of the output, and equals the expression's value under the chosen precedence |
| `Day18.ShuntingYardCorrect` | day_18/src/main.rs:49-89 | for every well-formed line with a value, the postfix output evaluates to that value: left to right when addition is not first, addition before multiplication otherwise |
| `Day18.LineFeeds` | day_18/src/main.rs:58-82 | feeding a whole parsed expression leaves operators and values whose collapse is its value |
| `Day18.ExprFeeds` | day_18/src/main.rs:58-82 | feeding a sub-expression pushes one operator frame and its values, collapsing to the sub-expression's value |
| `Day18.FactorFeeds` | day_18/src/main.rs:58-82 | a digit or bracketed factor leaves the stack as it was and adds exactly its value |
| `Day18.ParenFeeds` | day_18/src/main.rs:60-66 | a bracketed expression pushes '(' then pops back to it, leaving its value |
| `Day18.FlatTailFeeds` | day_18/src/main.rs:67-77 | with '+' and '*' of equal precedence each operator pops the previous one, so evaluation goes left to right |
| `Day18.SumTailFeeds` | day_18/src/main.rs:67-77 | with addition first a '+' pops only '+' |
| `Day18.ProductTailFeeds` | day_18/src/main.rs:67-77 | with addition first '*' waits on the stack until the sums between are done |
| `Day18.Factor` | day_18/src/main.rs:49-89 | a parsed factor consumes at least one character |
| `Day18.Expr` | day_18/src/main.rs:49-89 | a parsed expression consumes at least one character and stays within the line |
| `Day18.TotalIsEvaluated` | day_18/src/main.rs:11-17 | the summed results are the sum of the lines' values |
| `Day18.SumLines` | day_18/src/main.rs:11-17 | the loop sums shunting_yard over the lines |
| `Day18.Part1` | day_18/src/main.rs:11-13 | the sum of the lines evaluated left to right |
| `Day18.Part2` | day_18/src/main.rs:15-17 | the sum of the lines evaluated with addition first |
| `Day18.EvaluateFlat` | day_18/src/main.rs:98 | "2 * 3 + (4 * 5)" is 26 left to right |
| `Day18.EvaluateAdditionFirst` | day_18/src/main.rs:110 | and 46 with addition first |
| `Day18.Example26` | day_18/src/main.rs:98-110 | the shunting-yard output evaluates to 26 and 46 |
| `Day19.Reversed` | day_19/src/main.rs:67-70 | position i holds the element i places from the end |
| `Day19.ReversedAppend` | day_19/src/main.rs:67-70 | reversing a concatenation reverses and swaps the parts |
| `Day19.ReversedTwice` | day_19/src/main.rs:67-70 | reversing twice gives the sequence back |
| `Day19.PushReversed` | day_19/src/main.rs:66-70 | pushing the subrules last to first leaves the stack with the reversed sequence on top, first subrule topmost |
| `Day19.MatchAll` | day_19/src/main.rs:38-57 | the recursive matcher returns what Matches defines: true on empty stack and message, false when only one is empty, else dispatch on the popped rule (a choice tries both alternatives on copies) |
| `Day19.MatchChar` | day_19/src/main.rs:59-64 | true iff the message starts with the character and the rest matches the stack |
| `Day19.MatchSequence` | day_19/src/main.rs:66-72 | matches against the stack with the sequence pushed in reverse |
| `Day19.MatchesMono` | day_19/src/main.rs:38-57 | more fuel never turns acceptance into rejection |
| `Day19.MatchesSound` | day_19/src/main.rs:38-72 | an accepted message is derived by the stack's rules read top to bottom |
| `Day19.MatchesComplete` | day_19/src/main.rs:38-72 | without empty sequences, a derived prefix followed by an accepted rest is accepted with enough fuel |
| `Day19.AcceptedIsDerived` | day_19/src/main.rs:16 | a message accepted from [0] is in the language of rule 0 |
| `Day19.DerivedIsAccepted` | day_19/src/main.rs:16 | without empty sequences, every message in the language of rule 0 is accepted with enough fuel |
| `Day19.DerivesMono` | day_19/src/main.rs:75-80 | a derivation within a height bound stays one under a larger bound |
| `Day19.DerivesAllSplit` | day_19/src/main.rs:75-80 | two concatenated rule sequences derive two consecutive pieces |
| `Day19.DerivesNonEmpty` | day_19/src/main.rs:75-80 | without empty sequences no rule derives the empty message |
| `Day19.ExampleLanguage` | day_19/src/main.rs:140-145 | every message the test grammar derives is 'a', a middle of three pairs, then 'b' |
| `Day19.ExampleDerives` | day_19/src/main.rs:140-145 | every message of that shape is derived |
| `Day19.ExampleAccepted` | day_19/src/main.rs:140-153 | the matcher accepts every message of that shape |
| `Day19.ExampleRejected` | day_19/src/main.rs:140-153 | and rejects every other message, whatever the fuel |
| `Day19.ExampleMessages` | day_19/src/main.rs:140-153 | of the test's five messages exactly ababbb and abbbab are accepted (the count 2) |
| `Day19.ParseIds` | day_19/src/main.rs:126-128 | every word parses as a usize, in order, or None |
| `Day19.ParseRule` | day_19/src/main.rs:100-132 | the id before ':'; a '"' line is a terminal of the remainder's second character; a line with a bar a choice; else a sequence |
| `Day19.RuleRoundTrip` | day_19/src/main.rs:100-132 | every rule the input format can write parses back to itself with its id |
| `Day19.TerminalRoundTrip` | day_19/src/main.rs:105-106 | `id: "c"` parses to Terminal(c) |
| `Day19.SingleRoundTrip` | day_19/src/main.rs:122-131 | `id: a b c` parses to that sequence |
| `Day19.DoubleRoundTrip` | day_19/src/main.rs:107-121 | a line with two alternatives parses to that choice |
| `Day19.ParseRules` | day_19/src/main.rs:92-94 | each rule line trimmed and parsed, in order |
| `Day19.CollectRulesDefined` | day_19/src/main.rs:92-95 | the rules collect iff every rule line parses |
| `Day19.CollectRulesAt` | day_19/src/main.rs:92-95 | the map's ids are exactly the lines' ids and each holds the rule of the last line with that id |
| `Day19.ParseInput` | day_19/src/main.rs:82-98 | rules from the first section, trimmed messages from the lines of the second; None when there is no second section or a rule fails |
| `Day19.TrimAll` | day_19/src/main.rs:89 | every message line trimmed |
| `Day19.CountMatching` | day_19/src/main.rs:14-17 | at most the number of messages |
| `Day19.MatchesMonoTo` | day_19/src/main.rs:38-72 | a message accepted within some fuel is accepted with any larger fuel |
| `Day19.CountDerivable` | day_19/src/main.rs:14-17 | the number of messages in the language of rule 0 is at most the number of messages |
| `Day19.CountMatchingMono` | day_19/src/main.rs:14-17 | the count never falls as the fuel grows |
| `Day19.CountMatchingSound` | day_19/src/main.rs:14-17 | the count is at most the number of messages in the language of rule 0 |
| `Day19.CountMatchingComplete` | day_19/src/main.rs:14-17 | without empty sequences, from some fuel on the count is exactly the number of messages in the language of rule 0 |
| `Day19.CountAccepted` | day_19/src/main.rs:14-17 | the filter-count loop returns the count of accepted messages |
| `Day19.Part1` | day_19/src/main.rs:11-27 | Ok with the count of messages accepted from [0] iff the input parses, every rule's subrules exist and rule 0 exists; part2 is the same code |
| `Day20.Top` | day_20/src/main.rs:217-219 | the top border has one char per column |
| `Day20.TopCells` | day_20/src/main.rs:217-219 | char c of the top border is cell (0, c) |
| `Day20.Bottom` | day_20/src/main.rs:221-224 | the bottom border has one char per column |
| `Day20.BottomCells` | day_20/src/main.rs:221-224 | char c of the bottom border is cell (W-1, c) |
| `Day20.Left` | day_20/src/main.rs:226-233 | the left border has one char per row |
| `Day20.LeftCells` | day_20/src/main.rs:226-233 | char r of the left border is cell (r, 0), read top to bottom |
| `Day20.Right` | day_20/src/main.rs:235-242 | the right border has one char per row |
| `Day20.RightCells` | day_20/src/main.rs:235-242 | char r of the right border is cell (r, W-1), read top to bottom |
| `Day20.FlipKeyAt` | day_20/src/main.rs:266-278 | the char put at position p has sort key p, so the output is the chars sorted by key ascending |
| `Day20.FlipSrcInvolution` | day_20/src/main.rs:264-281 | the source index map of flip is its own inverse |
| `Day20.Flip` | day_20/src/main.rs:264-281 | flip keeps the id, width and height and a square grid |
| `Day20.FlipCell` | day_20/src/main.rs:264-281 | new cell (r, c) is old cell (r, W-1-c): every row mirrored |
| `Day20.FlipTwice` | day_20/src/main.rs:264-281 | flipping twice restores the tile |
| `Day20.RotateKeyValue` | day_20/src/main.rs:253 | the usize key `col*W - (row - 9)` equals col*W + 9 - row modulo 2^64 |
| `Day20.RotateKeyAt` | day_20/src/main.rs:250-259 | the key of the char put at position p: huge (wrapped) for the first max(0, W-10) positions, then decreasing in p |
| `Day20.RotateKeysDescend` | day_20/src/main.rs:259 | keys strictly decrease along the output, so the output is the chars sorted by key descending |
| `Day20.RotateDstSrc` | day_20/src/main.rs:244-262 | the output position of a char's source is that position: the rearrangement is a bijection |
| `Day20.RotateSrcDst` | day_20/src/main.rs:244-262 | and the other way round |
| `Day20.Rotate` | day_20/src/main.rs:244-262 | rotate keeps the id, width and height and a square grid |
| `Day20.RotateNarrow` | day_20/src/main.rs:244-262 | for W ≤ 10, new cell (i, j) is old cell (j, W-1-i): a left rotation |
| `Day20.RotateFour` | day_20/src/main.rs:244-262 | for W ≤ 10 four rotations restore the tile |
| `Day20.RotateWideIsNotRotation` | day_20/src/main.rs:253 | at width 11 the result's first cell is not the left rotation's, so the constant 9 only works up to width 10 |
| `Day20.RotateTopIsRight` | day_20/src/main.rs:244-262 | for W ≤ 10 the rotated tile's top border is the old right border |
| `Day20.Trim` | day_20/src/main.rs:283-301 | trim_tile keeps the id, yields a (W-2)×(W-2) square and new cell (r, c) is old cell (r+1, c+1) |
| `Day20.Get` | day_20/src/main.rs:341-347 | None iff x + y·W is negative or past the end, else the char at that flat index; no per-row bound |
| `Day20.GetNoRowBound` | day_20/src/main.rs:341-347 | x + W at row y reads the same cell as x at row y + 1 |
| `Day20.SeaMonsterFlat` | day_20/src/main.rs:316-339 | the monster test at idx checks exactly the 14 flat indices idx + dx + dy·W for '#' |
| `Day20.SeaMonsterIgnoresAnchor` | day_20/src/main.rs:316-339 | there is a tile with a monster at an index whose own char is not '#': the anchor is not checked |
| `Day20.CountSeaMonsters` | day_20/src/main.rs:303-314 | the number of indices at which the monster test holds |
| `Day20.Orientations` | day_20/src/main.rs:173-200 | eight square tiles of the same id and width |
| `Day20.FlippedOrientations` | day_20/src/main.rs:180-195 | for W ≤ 10 the first four are the flipped tile rotated 0, 1, 2 and 3 times, cell by cell |
| `Day20.UnflippedOrientations` | day_20/src/main.rs:180-195 | and the last four the tile itself rotated 0, 1, 2 and 3 times |
| `Day20.OrientationAt` | day_20/src/main.rs:180-195 | entry 4·f + rotation is the (flipped when f = 0) tile turned rotation times |
| `Day20.ComputeOrientations` | day_20/src/main.rs:173-200 | the nested loops produce the eight orientations in that order, when their data are pairwise distinct (the assert at 197) |
| `Day20.PushOrientation` | day_20/src/main.rs:182-193 | one step appends the next orientation and keeps the set of seen data the size of the list |
| `Day20.Orient` | day_20/src/main.rs:182-189 | flipping when asked, then rotating `rotation` times |
| `Day20.AddDistinct` | day_20/src/main.rs:191-197 | a new orientation's data is not yet in the set, so the set grows by one |
| `Day20.Matches` | day_20/src/main.rs:202-215 | None iff no orientation passes a test; otherwise an orientation from the list whose borders meet as the direction says |
| `Day20.FirstFit` | day_20/src/main.rs:203-213 | the index of the first orientation that passes any test |
| `Day20.MatchesFirstFit` | day_20/src/main.rs:202-215 | the result classifies the first fitting orientation with priority south, north, east, west |
| `Day20.IsolatedIsNoMatch` | day_20/src/main.rs:202-215 | no orientation fits iff the matcher returns None |
| `Day20.OrientationCache.constructor` | day_20/src/main.rs:24-28 | a new cache is empty |
| `Day20.OrientationCache.GetOrInsert` | day_20/src/main.rs:30-37 | afterwards the id is cached; a cached entry is returned unchanged and nothing else changes; a new id gets the tile's orientations |
| `Day20.Place` | day_20/src/main.rs:82-95 | the new placement is at (x, y+1) north, (x, y-1) south, (x+1, y) east, (x-1, y) west of the matched tile, with the matched orientation |
| `Day20.ChainedExtend` | day_20/src/main.rs:106-108 | appending a placement adjacent to a placed one keeps every placement after the first adjacent to an earlier one |
| `Day20.OrientedExtend` | day_20/src/main.rs:106-108 | appending an orientation of a tile keeps each placement an orientation of its source tile |
| `Day20.QueueStep` | day_20/src/main.rs:72-104 | popping the front and requeueing or placing it keeps todo plus placed sources equal to the input tiles as multisets |
| `Day20.NeighbourFrom` | day_20/src/main.rs:78-101 | the placement found is one of the given orientations |
| `Day20.NeighbourNone` | day_20/src/main.rs:78-101 | no placement is found iff no placed tile matches any orientation |
| `Day20.NeighbourFirst` | day_20/src/main.rs:78-101 | a placement found is the one `matches` picks next to the first placed tile, in placement order, that any orientation matches; every earlier placed tile matches none |
| `Day20.NeighbourAdjacent` | day_20/src/main.rs:78-101 | a placement found is one of the orientations and adjacent to some placed tile |
| `Day20.FindNeighbour` | day_20/src/main.rs:78-101 | the loop over the placed tiles, with the cached orientations of the popped tile, yields exactly that first-match placement, and the cache stays faithful |
| `Day20.TryNeighbour` | day_20/src/main.rs:80-96 | Some iff the placed tile has a match, and then it is the placement in the direction and orientation `matches` chose, adjacent to the placed tile |
| `Day20.Lookup` | day_20/src/main.rs:80 | the cache returns the tile's eight orientations and stays faithful to the input tiles |
| `Day20.AssemblyDone` | day_20/src/main.rs:110-112 | once every tile is placed, the placements form an assembly of all the input tiles |
| `Day20.Insert` | day_20/src/main.rs:113 | inserting keeps the order y ascending, x descending and adds the element |
| `Day20.SortPlacements` | day_20/src/main.rs:113 | sorted by y ascending then x descending, and a permutation of the input |
| `Day20.FindTileOrientations` | day_20/src/main.rs:66-115 | Some: every tile placed exactly once in one of its orientations, the first at (0, 0) unchanged, each later one adjacent to an earlier one, sorted by y ascending, x descending |
| `Day20.Chunk` | day_20/src/main.rs:382-384 | the copied chunk is one tile line |
| `Day20.Joined` | day_20/src/main.rs:371-396 | a square image of width k·w with id 0 |
| `Day20.JoinedCell` | day_20/src/main.rs:371-396 | image cell (g·w + l, q·w + j) is cell (l, j) of tile g·k + q |
| `Day20.JoinTiles` | day_20/src/main.rs:371-396 | the nested loops build that image |
| `Day20.AppendTileRow` | day_20/src/main.rs:376-388 | one tile row appends its w image lines |
| `Day20.RowInTiles` | day_20/src/main.rs:377-379 | the slice of tile row g, from g*k to g*k+k, lies inside the k*k tiles |
| `Day20.RowBlockStep` | day_20/src/main.rs:380-387 | appending image line l of tile row g extends the first l lines of that row by one |
| `Day20.AppendLine` | day_20/src/main.rs:380-387 | one local row appends line l of each tile in the row, left to right |
| `Day20.MinOf` | day_20/src/main.rs:45-55 | at most 0 and at most every coordinate; 0 or attained |
| `Day20.MaxOf` | day_20/src/main.rs:45-55 | at least 0 and at least every coordinate; 0 or attained |
| `Day20.ExtremaStep` | day_20/src/main.rs:50-55 | one more placement updates the minimum and maximum as `min`/`max` do |
| `Day20.CornerBounds` | day_20/src/main.rs:45-55 | the loop computes the bounds seeded at 0 |
| `Day20.CornerProductAppend` | day_20/src/main.rs:57-61 | the product over a concatenation is the product of the products |
| `Day20.CornerProductPermutation` | day_20/src/main.rs:57-61 | the corner product does not depend on the order of the placements |
| `Day20.Part1` | day_20/src/main.rs:40-64 | Ok: the product of the ids placed at x in {min_x, max_x} and y in {min_y, max_y} of an assembly of all the tiles |
| `Day20.Prepare` | day_20/src/main.rs:130-136 | flip, two rotations, trim: a square of width W-2 with the same id |
| `Day20.PrepareCell` | day_20/src/main.rs:130-136 | for W ≤ 10 prepared cell (r, c) is old cell (W-2-r, c+1): turned upside down, border removed |
| `Day20.PrepareAll` | day_20/src/main.rs:127-137 | each placed tile prepared, in order |
| `Day20.LastMax` | day_20/src/main.rs:142-146 | `max_by`: a maximal count with no later count as large (the last maximum) |
| `Day20.MonsterCounts` | day_20/src/main.rs:142-144 | one monster count per orientation |
| `Day20.Score` | day_20/src/main.rs:140-148 | Ok iff the image's eight orientations are distinct; then the '#' count less 15 per monster in the last orientation with the most monsters |
| `Day20.Part2` | day_20/src/main.rs:125-151 | Ok: the roughness of the image joined from the prepared tiles of an assembly of all the tiles |
| `Day21.ParseFood` | day_21/src/main.rs:140-160 | a line parses iff it has a non-empty part after "(contains "; a parsed food has at least one allergen |
| `Day21.ParseFoodText` | day_21/src/main.rs:140-160 | round trip: parsing the printed form of a food gives the food back |
| `Day21.ParseFoods` | day_21/src/main.rs:120-123 | every trimmed line parses iff the list parses; the foods are those lines' parses, in order |
| `Day21.IngredientSet` | day_21/src/main.rs:129-132 | the set holds exactly the food's ingredients |
| `Day21.FoodRules` | day_21/src/main.rs:128-134 | one rule per allergen of the food, each pairing it with the food's ingredient set |
| `Day21.CollectRules` | day_21/src/main.rs:125-135 | the loop builds the concatenation of every food's rules |
| `Day21.ParseInput` | day_21/src/main.rs:119-138 | None iff some line fails to parse; otherwise the foods and their rules |
| `Day21.RulesOfSpec` | day_21/src/main.rs:127-135 | a rule (a, s) is present iff some food lists allergen a and has ingredient set s |
| `Day21.RulesOfLength` | day_21/src/main.rs:127-135 | there are as many rules as allergen mentions over all foods |
| `Day21.MergeRules` | day_21/src/main.rs:55-71 | the loop builds the merged candidate map |
| `Day21.MergeKeys` | day_21/src/main.rs:58-71 | an allergen is a key iff some rule names it |
| `Day21.MergeIntersection` | day_21/src/main.rs:58-71 | an ingredient is a candidate for an allergen iff it is in the set of every rule naming that allergen |
| `Day21.FoodAllergens` | day_21/src/main.rs:58-71 | the merged keys are exactly the allergens some food lists |
| `Day21.CommonInRule` | day_21/src/main.rs:127-135 | an ingredient in every food listing an allergen is in every rule for it |
| `Day21.RuleCommonInFood` | day_21/src/main.rs:127-135 | an ingredient in every rule for an allergen is in every food listing it |
| `Day21.FoodCandidates` | day_21/src/main.rs:58-71 | an ingredient is a candidate for an allergen iff every food listing that allergen contains it |
| `Day21.CandidatesOfFoods` | day_21/src/main.rs:16-37 | an ingredient is some allergen's candidate iff some listed allergen occurs only in foods that contain it |
| `Day21.Only` | day_21/src/main.rs:81-84 | the one element of a one-element set |
| `Day21.Visit` | day_21/src/main.rs:74-90 | visiting an allergen keeps the set of allergens in the working map |
| `Day21.Sweep` | day_21/src/main.rs:74-90 | a full sweep keeps the set of allergens in the working map |
| `Day21.DropEmpty` | day_21/src/main.rs:92-95 | exactly the allergens with a non-empty candidate set are kept, with their sets |
| `Day21.IterationOrder` | day_21/src/main.rs:74 | each allergen of the working map is visited exactly once |
| `Day21.VisitAllergen` | day_21/src/main.rs:75-89 | one loop body: agrees with the Visit specification |
| `Day21.EliminationPass` | day_21/src/main.rs:74-95 | one pass of the outer loop: a sweep followed by dropping empty sets |
| `Day21.VisitSpec` | day_21/src/main.rs:75-89 | other allergens untouched; one undecided ingredient: it is assigned and the set cleared; otherwise the set shrinks to the undecided ingredients |
| `Day21.VisitSound` | day_21/src/main.rs:75-89 | a visit keeps the assignment injective, each assignment a candidate, and each working set within the candidates |
| `Day21.SweepSound` | day_21/src/main.rs:74-90 | a sweep keeps that soundness invariant |
| `Day21.PassSound` | day_21/src/main.rs:74-95 | a pass keeps that soundness invariant |
| `Day21.VisitCovered` | day_21/src/main.rs:75-89 | a visit keeps every candidate that left an open set assigned, every dropped allergen's candidates assigned, and never withdraws an assignment |
| `Day21.SweepCovered` | day_21/src/main.rs:74-90 | a sweep keeps that completeness invariant |
| `Day21.PassCovered` | day_21/src/main.rs:74-95 | a pass keeps that completeness invariant: only emptied sets are dropped |
| `Day21.SettledValues` | day_21/src/main.rs:96-98 | when no allergen is open, the assigned ingredients are exactly the candidates of all allergens |
| `Day21.BuildAllergenMap` | day_21/src/main.rs:54-103 | when it finishes, the map is injective, maps each allergen to one of its merged candidates, and its assigned ingredients are exactly the candidates of all allergens |
| `Day21.AppearancesIn` | day_21/src/main.rs:20-24 | an ingredient appears iff some food lists it |
| `Day21.CountIn` | day_21/src/main.rs:105-111 | the count of an ingredient in a list is its multiplicity |
| `Day21.CountIngredient` | day_21/src/main.rs:105-111 | occurrences over all foods equal the multiplicity in their concatenated ingredients |
| `Day21.CountInSetEmpty` | day_21/src/main.rs:31-34 | summing over no ingredients gives 0 |
| `Day21.CountInSetAdd` | day_21/src/main.rs:31-34 | adding a new ingredient to the sum adds its occurrences |
| `Day21.CountInSetOutside` | day_21/src/main.rs:26-34 | summing over the allergen-free distinct ingredients equals counting the appearances that are not assigned an allergen |
| `Day21.CountSafe` | day_21/src/main.rs:20-34 | the loop yields the number of appearances of ingredients not assigned an allergen |
| `Day21.Part1` | day_21/src/main.rs:16-37 | on the rules of the same foods, when elimination finishes: the number of appearances of ingredients that are no allergen's candidate |
| `Day21.LexIrreflexive` | day_21/src/main.rs:44 | string order is irreflexive |
| `Day21.LexTransitive` | day_21/src/main.rs:44 | string order is transitive |
| `Day21.LexTotal` | day_21/src/main.rs:44 | distinct strings are ordered one way or the other |
| `Day21.InsertKey` | day_21/src/main.rs:43-44 | insertion keeps a strictly sorted list sorted and adds exactly the new key |
| `Day21.SortKeys` | day_21/src/main.rs:43-44 | the allergens, each once, in ascending order |
| `Day21.LexAsymmetric` | day_21/src/main.rs:44 | string order is asymmetric |
| `Day21.SortedHead` | day_21/src/main.rs:44 | the head of a strictly sorted list is below every other element |
| `Day21.SortedTail` | day_21/src/main.rs:44 | the tail holds exactly the elements other than the head |
| `Day21.SortedUnique` | day_21/src/main.rs:43-44 | two strictly sorted lists with the same elements are equal |
| `Day21.ValuesAt` | day_21/src/main.rs:45-48 | the values of the keys, in the keys' order |
| `Day21.AscendingKeys` | day_21/src/main.rs:43-44 | the keys, each once, in ascending order |
| `Day21.Part2` | day_21/src/main.rs:39-52 | the assigned ingredients joined by "," in ascending order of their allergens |
| `Day21.CollectValues` | day_21/src/main.rs:45-48 | the loop yields the values of the keys in order |
| `Day22.Reverse` | day_22/src/main.rs:89-90 | the deck read from the bottom up |
| `Day22.WeightedSnoc` | day_22/src/main.rs:88-94 | adding a card at the top of the reversed deck adds that card times its position |
| `Day22.ScoreFromTop` | day_22/src/main.rs:88-94 | the score (bottom card times 1, up to the top card times the deck size) equals the sum of each card times its distance from the bottom |
| `Day22.CombatRoundCards` | day_22/src/main.rs:21-33 | a round keeps every card (both dropped on a tie); the round's winner puts its own card then the loser's at the bottom |
| `Day22.CombatEnds` | day_22/src/main.rs:21-33 | a finished game leaves one deck empty and no card that was not dealt |
| `Day22.CombatKeepsCards` | day_22/src/main.rs:21-38 | with distinct cards the winner ends holding every card |
| `Day22.Part1` | day_22/src/main.rs:18-41 | the loop returns the score of the winner of the combat game, or None when the fuel runs out first |
| `Day22.CombatStep` | day_22/src/main.rs:21-33 | one loop iteration is one combat round |
| `Day22.CombatExample` | day_22/src/main.rs:123 | the example decks end after 29 rounds with player 2 holding all cards, score 306 |
| `Day22.RoundCards` | day_22/src/main.rs:66-72 | the winner of a round takes both cards, so the cards are kept |
| `Day22.PlayCards` | day_22/src/main.rs:43-80 | a recursive game's winning deck holds only dealt cards, and all of them unless the game stopped on a repeated state; player 1's winning deck is never empty |
| `Day22.PlayGame` | day_22/src/main.rs:43-80 | the loop with its set of seen states agrees with the recursive-combat definition |
| `Day22.Part2` | day_22/src/main.rs:82-86 | the score of the recursive game's winning deck, or None when the fuel runs out first |
| `Day22.ParseDeck` | day_22/src/main.rs:98-104 | Some iff every line is a number; then those numbers in order |
| `Day22.ParseInput` | day_22/src/main.rs:96-115 | Some iff there are two blank-line separated blocks whose lines after the header are numbers; then those two decks |
| `Day23.Next` | day_23/src/main.rs:96-100 | the clockwise neighbour position stays inside the circle |
| `Day23.Label` | day_23/src/main.rs:50-52 | a label counted down past 1 wraps round into 1..n |
| `Day23.CountDown` | day_23/src/main.rs:54-55 | the modular decrement is the plain decrement for any label in range |
| `Day23.Destination` | day_23/src/main.rs:47-59 | the destination search yields a label of the circle |
| `Day23.SearchStep` | day_23/src/main.rs:49-55 | a picked candidate is never the destination; the next candidate follows with the source's wrap to 0 and then max |
| `Day23.SearchEnd` | day_23/src/main.rs:53-57 | the first candidate not picked up is the destination |
| `Day23.DestinationFree` | day_23/src/main.rs:47-59 | the destination is never one of the three picked cups |
| `Day23.IndexOf` | day_23/src/main.rs:63 | the position of a cup in the circle |
| `Day23.Splice` | day_23/src/main.rs:61-67 | the picked cups inserted after the destination: the same cups, the current cup still first |
| `Day23.Rotate` | day_23/src/main.rs:69 | moving to the next current cup rotates the circle and keeps its cups |
| `Day23.Rest` | day_23/src/main.rs:77-89 | the circle without the three cups after the current one |
| `Day23.RestDistinct` | day_23/src/main.rs:77-89 | the remaining circle has no repeats and holds none of the picked cups |
| `Day23.Dest` | day_23/src/main.rs:47-59 | the destination is still in the circle and is not a picked cup |
| `Day23.Move` | day_23/src/main.rs:45-70 | one move is a permutation of the labels 1..n |
| `Day23.LabelsPermutation` | day_23/src/main.rs:45-70 | any permutation of the labels 1..n is a circle of labels |
| `Day23.Moves` | day_23/src/main.rs:16-18 | any number of moves keeps the cups a permutation of 1..n |
| `Day23.AfterOne` | day_23/src/main.rs:93-101 | the labels after cup 1 exclude cup 1 itself |
| `Day23.AfterOneAt` | day_23/src/main.rs:93-101 | the k-th label after cup 1 is the cup k + 1 places clockwise of it |
| `Day23.ToTextDigits` | day_23/src/main.rs:101 | single-digit labels print as one digit character each |
| `Day23.UnlinkedLinks` | day_23/src/main.rs:77-89 | after `take_three_cups` the map links the remaining circle |
| `Day23.UnlinkedKeys` | day_23/src/main.rs:83-86 | the map's keys are exactly the remaining cups |
| `Day23.RelinkedLinks` | day_23/src/main.rs:61-67 | relinking after the destination links the spliced circle |
| `Day23.RelinkedKeys` | day_23/src/main.rs:63-67 | after relinking the keys are exactly the cups of the spliced circle |
| `Day23.RelinkedAt` | day_23/src/main.rs:63-67 | after relinking each cup maps to its clockwise neighbour in the spliced circle |
| `Day23.RelinkedInserted` | day_23/src/main.rs:63-67 | the destination and the three inserted cups map to their new neighbours |
| `Day23.RelinkedKept` | day_23/src/main.rs:63-67 | every other cup keeps its neighbour |
| `Day23.RotateLinks` | day_23/src/main.rs:72-75 | the links are unchanged by rotation and lead from the current cup to the new current cup |
| `Day23.SplicedLinks` | day_23/src/main.rs:61-67 | the relinked map links the circle with the three cups spliced in after the destination |
| `Day23.MoveLinks` | day_23/src/main.rs:45-70 | the cups map after one `tick` links the circle of one move, its head the new current cup |
| `Day23.Zip` | day_23/src/main.rs:122-130 | the keys of the zipped map are the given keys |
| `Day23.ZipAt` | day_23/src/main.rs:122-130 | each key maps to the value at its position |
| `Day23.RotatedRight` | day_23/src/main.rs:122-124 | the last label moved to the front: each label lands one place clockwise |
| `Day23.RotatedRightLabels` | day_23/src/main.rs:122-124 | rotating keeps the labels and their distinctness |
| `Day23.ZipLinks` | day_23/src/main.rs:122-130 | zipping the rotated labels with the labels links each cup to its clockwise neighbour |
| `Day23.LinksCard` | day_23/src/main.rs:55 | the map holds one entry per cup in the circle |
| `Day23.UnlinkedCard` | day_23/src/main.rs:55 | with three cups picked up the map holds n - 3 entries, so `len() + 3` is n |
| `Day23.Clockwise` | day_23/src/main.rs:94-100 | the position k places clockwise stays in the circle |
| `Day23.FollowLink` | day_23/src/main.rs:96-99 | following a link from the k-th cup after 1 yields the next label after 1 |
| `Day23.Digits` | day_23/src/main.rs:106-109 | Some iff every character is a digit; then the digit values in order |
| `Day23.Upto` | day_23/src/main.rs:114-116 | the consecutive labels lo up to hi - 1 |
| `Day23.ParseInput` | day_23/src/main.rs:105-132 | the digits, followed by 10 up to 1000000 when extending |
| `Day23.Maximum` | day_23/src/main.rs:120 | a largest element |
| `Day23.LabelsMaximum` | day_23/src/main.rs:120 | the largest label of a circle 1..n is n |
| `Day23.ExtendLabels` | day_23/src/main.rs:113-117 | appending the next labels keeps a circle of labels 1..hi - 1 |
| `Day23.ExtendedInput` | day_23/src/main.rs:113-117 | a nine-cup input extends to the labels 1..1000000 |
| `Day23.FollowFromOne` | day_23/src/main.rs:93-100 | the loop from cup 1 yields the labels after 1, in clockwise order |
| `Day23.InitialRing` | day_23/src/main.rs:105-132 | the parsed ring links the labels, the first label current, max the largest label |
| `Day23.Ring.constructor` | day_23/src/main.rs:105-132 | a valid ring over the given circle |
| `Day23.Ring.TakeThreeCups` | day_23/src/main.rs:77-89 | the three cups after the current one, unlinked from the map |
| `Day23.Ring.IncCup` | day_23/src/main.rs:72-75 | the current cup becomes its clockwise neighbour, which is returned |
| `Day23.Ring.SelectDestination` | day_23/src/main.rs:47-59 | the loop finds the destination label |
| `Day23.Ring.Tick` | day_23/src/main.rs:45-70 | the ring stays valid and its circle becomes that of one move |
| `Day23.Ring.Into` | day_23/src/main.rs:92-103 | the labels after cup 1, printed |
| `Day23.Ring.TwoAfterOne` | day_23/src/main.rs:30-33 | the product of the two labels after cup 1 |
| `Day23.IntoExample` | day_23/src/main.rs:140 | the circle 8, 3, 7, 4, 1, 9, 2, 6, 5 (the example after ten moves, written out, not computed) prints "92658374" |
| `Day23.ExampleText` | day_23/src/main.rs:140 | the labels after cup 1 of that circle print "92658374" |
| `Day23.AfterOneExample` | day_23/src/main.rs:140 | the labels after cup 1 of that circle |
| `Day23.Part1` | day_23/src/main.rs:13-21 | the labels after cup 1 once the given number of moves is made, printed |
| `Day23.Part2` | day_23/src/main.rs:23-34 | the extended circle is a circle of labels; the product of the two labels after cup 1 once the moves are made |
| `Day24.Delta` | day_24/src/main.rs:108-115 | each move is a non-zero step that stays on the plane x + y + z = 0 |
| `Day24.DirectionsAreMoves` | day_24/src/main.rs:68-75 | the six neighbour offsets are the six moves' steps, all distinct and on the plane |
| `Day24.Opposite` | day_24/src/main.rs:68-75 | every offset has an opposite offset that cancels it |
| `Day24.Lex` | day_24/src/main.rs:129-145 | the move at the head of the text, which spells the move's name; None exactly where the source reaches `unreachable!` |
| `Day24.ParseRender` | day_24/src/main.rs:124-152 | round trip: the text of a list of moves parses back to the moves |
| `Day24.RenderParse` | day_24/src/main.rs:124-152 | round trip: a parsed line is the text of its moves |
| `Day24.Position` | day_24/src/main.rs:103-121 | following moves from the origin stays on the plane |
| `Day24.CountedPositionAdd` | day_24/src/main.rs:103-121 | one more move adds its step to the position |
| `Day24.PositionCounts` | day_24/src/main.rs:103-121 | the position depends only on how many of each move there are, not on their order |
| `Day24.TileFrom` | day_24/src/main.rs:104-121 | the loop yields the position reached by the moves |
| `Day24.ThenStep` | day_24/src/main.rs:128-149 | consuming the head move from the text appends it to the moves so far |
| `Day24.ParseTile` | day_24/src/main.rs:124-152 | the loop yields the position of the line's moves, or None where the source panics |
| `Day24.ParseTiles` | day_24/src/main.rs:84-86 | None iff some line fails; otherwise each line's position, in order |
| `Day24.ParseInput` | day_24/src/main.rs:84-86 | the loop agrees with ParseTiles over the lines |
| `Day24.InitialFloor` | day_24/src/main.rs:53-66 | only listed tiles can be black |
| `Day24.InitialFloorSnoc` | day_24/src/main.rs:57-63 | one more listed tile flips that tile |
| `Day24.BuildInitialFloor` | day_24/src/main.rs:53-66 | a tile is black iff it is listed an odd number of times |
| `Day24.InitialFloorOnPlane` | day_24/src/main.rs:53-66 | every black tile lies on the plane |
| `Day24.Part1` | day_24/src/main.rs:13-16 | None iff some line fails to parse; otherwise the number of black tiles |
| `Day24.Neighbours` | day_24/src/main.rs:77-82 | the six tiles at the six offsets |
| `Day24.NeighboursDistinct` | day_24/src/main.rs:77-82 | the six neighbours are distinct, differ from the tile and stay on the plane |
| `Day24.NeighbourBack` | day_24/src/main.rs:77-82 | stepping out and back by the opposite offset returns to the tile |
| `Day24.NeighbourSymmetric` | day_24/src/main.rs:77-82 | adjacency is symmetric |
| `Day24.CountIn` | day_24/src/main.rs:35 | the count is at most the list length, and 0 iff no listed tile is black |
| `Day24.BlackNeighbours` | day_24/src/main.rs:34-35 | a tile has at most six black neighbours |
| `Day24.AroundMember` | day_24/src/main.rs:22-31 | a tile is checked iff it is black or has a black neighbour |
| `Day24.StepRule` | day_24/src/main.rs:33-45 | a tile is black the next day iff it is black with 1 or 2 black neighbours, or white with exactly 2 |
| `Day24.StepOnPlane` | day_24/src/main.rs:21-48 | a day keeps every black tile on the plane |
| `Day24.AroundAdd` | day_24/src/main.rs:25-31 | checking one more black tile adds it and its six neighbours |
| `Day24.TilesToCheck` | day_24/src/main.rs:22-31 | the loop collects exactly the black tiles and their neighbours |
| `Day24.DayStep` | day_24/src/main.rs:21-48 | the loop applies the flipping rule to every tile |
| `Day24.Part2` | day_24/src/main.rs:18-51 | None iff some line fails to parse; otherwise the number of black tiles after 100 days |
| `Day25.StepsIsCeilSqrt` | day_25/src/main.rs:28 | the step count used for the modulus 20201227 is the ceiling of its square root |
| `Day25.MulMod` | day_25/src/main.rs:33 | the product reduced modulo p is below p |
| `Day25.ResidueMul` | day_25/src/main.rs:33 | reducing a factor first does not change the product modulo p |
| `Day25.ModExp` | day_25/src/main.rs:16-17 | `mod_exp` is below the modulus |
| `Day25.ModExpIsPow` | day_25/src/main.rs:16-17 | `mod_exp` is the power reduced modulo p |
| `Day25.MulModComm` | day_25/src/main.rs:33 | modular product is commutative |
| `Day25.MulModReduced` | day_25/src/main.rs:33 | either factor may be reduced first |
| `Day25.MulModAssoc` | day_25/src/main.rs:33 | modular product is associative |
| `Day25.ModExpReduced` | day_25/src/main.rs:16-17 | the base may be reduced first |
| `Day25.PowMul` | day_25/src/main.rs:16-17 | a power of a power multiplies the exponents |
| `Day25.KeyAgreement` | day_25/src/main.rs:16-18 | the two encryption keys agree: exponentiating by a then b equals by b then a |
| `Day25.Baby` | day_25/src/main.rs:30-34 | from the second baby step on, the value is below the modulus |
| `Day25.BabyPowers` | day_25/src/main.rs:30-34 | the j-th baby step is g to the j modulo p |
| `Day25.TableHasBabies` | day_25/src/main.rs:30-34 | every baby step value is a key of the table |
| `Day25.TableValues` | day_25/src/main.rs:30-34 | each key maps to a step index below m whose baby step is that key |
| `Day25.TableLast` | day_25/src/main.rs:30-34 | each key keeps the last index with that value, since later inserts overwrite |
| `Day25.GiantPowers` | day_25/src/main.rs:37-44 | the i-th giant step is h times factor to the i, modulo p |
| `Day25.FirstHit` | day_25/src/main.rs:39-48 | the first giant step index whose value is in the table, or None when none below m is |
| `Day25.CeilSqrtBelow` | day_25/src/main.rs:28 | the ceiling square root of a modulus above 2 is below it, so `mod - m - 1` is a natural number |
| `Day25.DlogMeaning` | day_25/src/main.rs:25-49 | None iff no giant step hits the table; otherwise i * m + j where h times factor to the i equals g to the j, j the last such baby index |
| `Day25.BabystepGiantstep` | day_25/src/main.rs:25-49 | the two loops compute the baby-step giant-step result |
| `Day25.ExampleTable` | day_25/src/main.rs:30-34 | the table for g = 2, p = 11, m = 4 |
| `Day25.ExamplePowers` | day_25/src/main.rs:36 | the factor for that example is 9, and 2 to the 4 is 5 modulo 11 |
| `Day25.ExampleHit` | day_25/src/main.rs:39-46 | for h = 5 the second giant step hits the table |
| `Day25.DlogExample` | day_25/src/main.rs:25-49 | the discrete logarithm of 5 to base 2 modulo 11 is 4 |
| `Day25.Part1` | day_25/src/main.rs:12-21 | Some iff both loop sizes are found and the two encryption keys agree; then that key |
| `Day25.Part1Agrees` | day_25/src/main.rs:16-18 | keys derived from true loop sizes always agree, so the assertion cannot fail on them |
| `Arith.Wrap` | day_08/src/main.rs:108 | the `as usize` cast: below 2^64, the identity on values in range, and a negative value plus 2^64 |
| `Text.SplitWhereFirst` | day_02/src/main.rs:50-51 | splitting at a predicate cuts at the first separator character |
| `Text.JoinSplit` | day_02/src/main.rs:50-51 | joining the pieces of a split at one character restores the string |
| `Text.SplitStrFirst` | day_21/src/main.rs:142 | splitting at a separator string cuts at its first occurrence |
| `Text.JoinSplitStr` | day_22/src/main.rs:97 | joining the pieces of a split at a separator string restores the string |
| `Text.SplitStrJoin` | day_21/src/main.rs:150-153 | splitting a join whose pieces do not contain the separator gives the pieces back |
| `Text.SplitTerminatorStr` | day_06/src/main.rs:15 | `split_terminator` gives at most the pieces of `split` |
| `Text.Words` | day_21/src/main.rs:146 | `split_whitespace` yields non-empty pieces free of whitespace |
| `Text.WordsOfJoin` | day_21/src/main.rs:146 | `split_whitespace` of words joined by spaces gives the words back |
| `Text.Lines` | day_21/src/main.rs:121 | `lines` yields pieces free of line breaks |
| `Text.Trim` | day_21/src/main.rs:122 | `trim` yields a part of the string without whitespace at either end |
| `Text.ParseNat` | day_22/src/main.rs:103 | parsing succeeds iff the string is digits with an optional leading '+' |
| `Text.ParseUsize` | day_22/src/main.rs:103 | `parse::<usize>` succeeds iff the number parses and is below 2^64; then its value |
| `Text.ParseInt` | day_08/src/main.rs:129 | `parse::<isize>` of digits, optionally after a '-', is their value with that sign |
| `Text.ParseNatToString` | day_23/src/main.rs:101 | round trip: `to_string` of a number parses back to it |

## Left out

- Every `main`, the `println!` output and the `include_str!` loading of `input.txt`: inputs are parameters, and the answers on the private puzzle inputs (the `input.txt` assertions of each test) are not stated.
- day_12/src/main.rs is not part of this model: its rotation is `f32` trigonometry with rounding, and the rest is bookkeeping around it. `template.rs` is an empty stub.
- Floating-point square roots (day_20/src/main.rs:373, day_25/src/main.rs:28): the side `k` of the tile grid and the step count `m` are parameters, with `|tiles| == k * k` and `m` the ceiling square root of the modulus required.
- The `mod_exp` crate is not part of this model: `Day25.ModExp` is a recursive specification of modular exponentiation.
- Byte-indexed string slicing: inputs are taken to be ASCII, and Rust's byte slices of `&str` (day_04/src/main.rs:50-51, day_14/src/main.rs:100, day_19/src/main.rs:61, day_21/src/main.rs:150) are modelled as slices of the character sequence. On non-ASCII text these differ, and a cut inside a multi-byte character, which panics in the source, is not modelled.
- Hash map and hash set iteration order: maps and sets are Dafny `map` and `set`, a loop over one picks any remaining element, and only results that do not depend on that order are stated.
- Machine integers: `usize`, `isize`, `u32` and `u64` arithmetic is unbounded here except where the source depends on wrap-around (the `usize` cast of a negative instruction pointer in day 8, the 36-bit masks of day 14). Overflow on large inputs (day 17 and day 24 coordinates, day 22 scores, day 25 products) is not modelled.
- Panicking `unwrap`s, `unreachable!()`s and failed `assert!`s become either an `Err`/`None` result or a precondition. The preconditions are `Day02.Part2` (both positions exist), `Day03.Part1` and `Day03.Part2` (a non-empty first line no longer than the others), `Day04.Part2` (keys are known and hgt values are long enough to slice), `Day05.Part2` (at least one well-formed pass), `Day08.Part1` and `Day08.Part2` (only nop/acc/jmp), `Day10.Part1` (every gap is 1 or 3), `Day13.Part1` (positive bus periods), `Day14.Part1` and `Day14.Part2` (parseable masks), `Day18.Part1` and `Day18.Part2` (lines that evaluate), `Day20.Part1` and `Day20.Part2` (square tiles, distinct ids, eight distinct orientations per tile) and `Day23.Part1` and `Day23.Part2` (the input is a permutation of 1..n).
- Unbounded loops and recursion (day 7 `part1`, day 11 `partx`, day 19 matching, day 20 placement, day 21 elimination, day 22 both games) run on a `fuel` bound and yield `None`/`Err` when it runs out. Non-termination in the source is not distinguished from running out of fuel. `Day07.CountBags` instead requires an acyclic graph in which every contained colour is a key, witnessed by a rank map that decreases along every containment.
- Full-scale runs: day 15's 2020th and 30000000th numbers, day 23's 10000000 moves over 1000000 cups and day 22's recursive example (291). The laws hold for any number of turns, but those concrete answers are not stated.
- Day07: the part 1 test graph is written out as the map `build_graph` yields for its lines (`Day07.ExampleGraph`), not parsed from the test text; the same holds for the part 2 chain in `Day07.ChainExample`.
- Day04: the two test batches (4 valid, 0 valid) are not stated as examples.
- Day11: the 10 by 10 test grids (37 and 26 occupied seats) are not stated as examples.
- Day14: the examples 165 and 208 are not stated. `Day14.ParseInput` does not guarantee `MasksValid`, where the source would panic on a bad mask.
- Day17: the examples 112 and 848 are not stated. The source's `Result` is always `Ok`, so `Day17.Part1` returns a plain number. `Grid.inactive` is never read and is not modelled.
- Day18: only the space-free form of one test line is stated as an example; the other test lines are not.
- Day19: the source's shared `&mut Vec` stack is modelled by value, each alternative of a `Double` receiving its own copy. Completeness of the matcher against the grammar needs the rules to derive no empty string, which holds for puzzle grammars. `Day19.Part1` returns `Err` up front when a referenced rule or rule 0 is missing, where the source panics only once matching reaches it. The answers 113 and 253 are not stated.
- Day20: `Display`, `FromStr`/`parse_tiles` and the debug print in `count_sea_monsters` are not modelled. Tiles are supplied as values. `flip` and `rotate` are value functions rather than `&mut self` updates, since no tile is aliased. `sort_by` stability is not modelled, because placement coordinates are distinct. The tests 20899048083289 and 273 and the literal tile tests for flip, rotation, border getters, trim and join are not stated as examples.
- `Day20.FindTileOrientations`, `Day20.Part1` and `Day20.Part2` state their result for some assembly of all the tiles: each tile once, in one of its orientations, the first at (0, 0), each later one adjacent to an earlier one. Each round's choice is pinned exactly by `Day20.FindNeighbour`: the first placed tile, in placement order, that some orientation matches, with the direction and orientation `matches` returns. The particular assembly that the queue order produces over all rounds is not pinned. A specification of the whole run evaluates the eight orientations of a tile in every round and is too costly to verify.
- Day21: the examples 5 and "mxmxvkd,sqjhc,fvjkl" are not stated. `Day21.BuildAllergenMap`: an allergen whose candidates are all taken by others is dropped unassigned, as in the source, so the map need not cover every allergen; what is proved is that its values are exactly the candidates.
- Day23: the `min` field is never read and is not modelled. The literal examples of single moves, the ten-move result and the 100-move result are not derived from the starting circle 389125467.
- `Day23.IntoExample` starts from the example's circle after ten moves written out (8, 3, 7, 4, 1, 9, 2, 6, 5). That ten applications of `Day23.Move` to 389125467 reach it is not proved, because evaluating a move on a literal circle is too costly for the verifier.
- Day24: only the `input.txt` tests exist, so no example is stated.
- Day25: the test answer 181800 is not stated.
