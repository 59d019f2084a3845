# Advent of Code 2020 solvers, days 1 to 13, in Dafny

This project models the puzzle solvers of `src/day1.rs` to `src/day13.rs`.
Each solver reads its puzzle input with a generator, then answers one or two puzzle parts.
There is one module per day, plus `Common`, which holds the string and number helpers they share.

| module | file | day | what it models |
|---|---|---|---|
| `Expenses` | expenses.dfy | 1 | the first pair and the first triple of entries summing to 2020, in combination order over the sorted report |
| `Passwords` | passwords.dfy | 2 | the password database parser and the two policies |
| `Toboggan` | toboggan.dfy | 3 | the tree map and the tree count along a slope |
| `Passports` | passports.dfy | 4 | the key/value passport parser, the required-field check and the field validators |
| `Boarding` | boarding.dfy | 5 | binary boarding passes, the highest seat ID and the missing seat |
| `Customs` | customs.dfy | 6 | customs answer groups: union and intersection counts |
| `Luggage` | luggage.dfy | 7 | the bag rule parser, the containers of the shiny gold bag, and the queue that counts the bags inside it |
| `Adapters` | adapters.dfy | 10 | the adapter map built from windows of four, and the count of adapter chains |
| `Handheld` | handheld.dfy | 8 | the handheld console: a three-instruction machine, its loop detector, and the repair by one flip |
| `Xmas` | xmas.dfy | 9 | the XMAS cipher: two-sum validity over a preamble of 25, and the contiguous weakness |
| `Seating` | seating.dfy | 11 | the seating automaton: neighbour and line-of-sight rules, the in-place tick over a snapshot, the printer and the parser |
| `Navigation` | navigation.dfy | 12 | ship navigation instructions and the part-one fold |
| `Buses` | buses.dfy | 13 | the bus notes, the earliest bus, and the sieve fold for the aligned departures |

Day 8 is modelled in the most depth.
- `Run` is the reference semantics of a run; the method `ExecuteFrom` is the source's while loop, proved equal to `Run`.
- `RunFacts` proves the invariants of a run:
  - visited offsets lie in the program;
  - the accumulator is the sum of the `acc` operands at the visited offsets;
  - `halting` holds exactly when the pointer stopped on an offset already visited;
  - otherwise the pointer stopped at or past the end.
- `FindHalting` is the source's drain of the candidate set, proved equal to the union of the looping runs' visited sets, whatever order the set yields.
- `SolvePart2` is proved equal to `Repair`; `RepairFacts` characterises `Repair`.

Conventions used in every module:
- Where the source panics, the model gives `None` or an `Err` instead of requiring the case away. Panics include `unwrap` and `unreachable!`, as well as the arithmetic overflows a debug build traps.
- Integers are unbounded; the Rust widths are written out where the code depends on them:
  - `usize` subtraction;
  - `u32` sums (days 1 and 7);
  - `isize` arithmetic (days 12 and 13);
  - the `step as usize` cast (day 13).
- Rust's `%` is truncated and Dafny's `%` is Euclidean. They agree on whether the remainder is zero, which is all days 3 and 13 use.
- `rem_euclid(360)` is Dafny's `%`.
- Hash maps and hash sets become `map` and `set`. Where the source's result could depend on iteration order, the model proves it does not: day 8 `find_halting`, and day 10 and day 7 `collect`. For the two `collect`s, the last pair for a key wins, which the lemmas state.
- Every parser has a printer beside it, and a lemma proves the parser reads back what the printer writes.

Details of the code that are easy to misread:
- `execute_from` stops on `rip >= len`, so a run that falls through may leave the pointer past the end rather than on it (`Handheld.FallThroughPastEnd`).
- `solve_part2` of day 8 does not skip `acc` offsets that happen to be in the loop set. Flipping an `acc` leaves the program unchanged, so such a trial re-runs the original program, which loops whenever part two applies (`Handheld.OutsideLoopSetLoops`).
- Day 4's `format!("{:09}", pid)` formats a string, so the `0` flag has no effect and the value is padded with spaces. A passport ID therefore passes exactly when it is nine decimal digits.

## Model

| member | source | states |
|---|---|---|
| Handheld.Operation.Flip | src/day8.rs:25-31 | a flip keeps the operand, turns `nop` into `jmp` and `jmp` into `nop`, and leaves `acc` as it is |
| Handheld.FlipTwice | src/day8.rs:19-31 | flipping twice gives the operation back, and a flip never changes whether the operation is `acc` (`is_acc`) |
| Handheld.RunFacts | src/day8.rs:60-92 | every run from a consistent state: visited offsets stay in `[0, len)`; the accumulator equals the sum of the `acc` operands at the visited offsets; `halting` holds iff the pointer stopped inside the program, then on a visited offset; otherwise the pointer is at or past `len`; the only failure is the jump below 0 |
| Handheld.ExecutionFacts | src/day8.rs:60-92 | a run from any base visits at most `len` offsets, with the invariants of `RunFacts` |
| Handheld.OffsetsSize | src/day8.rs:63-65 | the program has exactly `len` offsets, which bounds the loop of `execute_from` |
| Handheld.FallThroughPastEnd | src/day8.rs:64-91 | a jump past the end stops the run with the pointer beyond `len` (3 for `[jmp +3]`), not on it |
| Handheld.ExecuteFrom | src/day8.rs:60-92 | the while loop with `rip`, `acc` and `visited` returns exactly the report of the reference run `Run`, or the underflow fault |
| Handheld.SolvePart1 | src/day8.rs:110-113 | part one is the accumulator of the run from offset 0, and fails exactly when that run fails |
| Handheld.LoopUnionCovers | src/day8.rs:94-108 | the visited set of every looping candidate run is inside the union, and the union is inside the program |
| Handheld.LoopUnionStep | src/day8.rs:100-106 | adding one start to the processed starts adds exactly its loop set to the union, so the order of the drain is irrelevant |
| Handheld.FindHalting | src/day8.rs:94-108 | the drain of the non-`acc` offsets fails exactly when some candidate run underflows; otherwise it returns the union of the visited sets of the candidate runs that loop |
| Handheld.Trial | src/day8.rs:122-125 | a trial program equals the input except at index k, which holds the flipped instruction |
| Handheld.SearchFromFinds | src/day8.rs:117-129 | an answer of the search is the accumulator of a trial that falls through, at the lowest index in the loop set from k on whose trial does not loop |
| Handheld.SearchFromNoRepair | src/day8.rs:128-129 | the search fails with `NoRepair` iff every trial in the loop set from k on loops |
| Handheld.RepairFacts | src/day8.rs:114-131 | part two answers the accumulator of the first trial in index order, over the loop set, that falls through, and every earlier one loops; it fails with `NoRepair` iff no candidate run underflows and every trial loops |
| Handheld.LoopIsClosed | src/day8.rs:60-92 | in a run that loops, every offset it visits steps into the visited set, so the loop set is closed under the step |
| Handheld.RunIgnoresUnvisited | src/day8.rs:60-92 | changing an instruction at an offset the run never executes leaves the run unchanged |
| Handheld.LoopPathInUnion | src/day8.rs:94-108 | when the run from 0 loops, every non-`acc` offset on its path is in the union of loop sets |
| Handheld.OutsideLoopSetLoops | src/day8.rs:94-131 | when the original program loops, every trial at an offset outside the union of loop sets loops too, so searching the loop set alone misses no repair |
| Handheld.RepairOverAllOffsets | src/day8.rs:114-131 | part two answers what the same search over every offset of the program would answer |
| Handheld.SolvePart2 | src/day8.rs:114-131 | the method (loop set, then trials in index order) returns exactly `Repair` |
| Handheld.ParseOperation | src/day8.rs:41-53 | `operation` consumes input when it matches, and fails to match exactly when no space is left |
| Handheld.Named | src/day8.rs:47-52 | `nop`, `acc` and `jmp` build the operation with the operand; any other mnemonic is the `unreachable!` case |
| Handheld.Generator | src/day8.rs:55-58 | `many1(operation).unwrap()` succeeds exactly when at least one operation parses, and then yields at least one |
| Handheld.ParseShownOperation | src/day8.rs:41-53 | a line written as mnemonic, space and signed operand is read back as the same operation, leaving the text after it untouched |
| Handheld.GeneratorOfShown | src/day8.rs:55-58 | round trip: every non-empty program with `isize` operands, written one operation per line, is read back |
| Handheld.ExampleAnswers | src/day8.rs:137-177 | the sample program: part one answers 5, part two answers 8 |
| Seating.Get | src/day11.rs:36-53 | `seats.get(a)?.get(b)` gives a cell exactly for coordinates on the grid |
| Seating.GetAdjacent | src/day11.rs:36-53 | at most eight neighbours are returned |
| Seating.InteriorAdjacent | src/day11.rs:36-53 | an interior cell sees all eight neighbours, in the listed direction order |
| Seating.SampleAdjacent | src/day11.rs:212-216 | the centre of a 3×3 block of empty seats has eight neighbours |
| Seating.FirstSeenAt | src/day11.rs:55-85 | a ray whose first n cells are floor and whose next cell is a seat shows that seat |
| Seating.FirstSeenNone | src/day11.rs:55-85 | a ray that leaves the grid after floor cells only shows nothing |
| Seating.GetAdjacentWithSight | src/day11.rs:55-85 | at most one seat per direction, and never floor |
| Seating.SampleSight | src/day11.rs:218-223 | in the test grid, given as seats, whose only seats are at (0, 0), (0, 8) and (3, 0), the seat at (0, 0) sees exactly the two other seats |
| Seating.Next | src/day11.rs:88-151 | one tick, computed from the snapshot alone, keeps the grid's shape |
| Seating.NextCellFacts | src/day11.rs:93-147 | floor never changes and nothing becomes floor; an occupied seat empties iff it has at least 4 occupied neighbours (5 visible seats for part two); an empty seat fills iff none are occupied |
| Seating.SeatLayout.Tick | src/day11.rs:88-151 | every cell is rewritten from the snapshot taken before the first write; the new grid is `Next` of the old one; the result is true iff some cell changed; width and height are unchanged |
| Seating.SeatLayout.TickRow | src/day11.rs:91-117 | the inner loop rewrites row x, cell by cell, from the snapshot, and reports whether the row changed |
| Seating.SeatLayout.TickPart1 | src/day11.rs:88-119 | `tick_part1` is the tick with the adjacency rule and tolerance 4 |
| Seating.SeatLayout.TickPart2 | src/day11.rs:120-151 | `tick_part2` is the tick with the line-of-sight rule and tolerance 5 |
| Seating.SeatLayout.constructor | src/day11.rs:175-205 | `input.clone()`: the layout starts as a copy of the input |
| Seating.SettleIsFixpoint | src/day11.rs:175-205 | the tick loop stops only at a fixed point of the tick, of the input's shape |
| Seating.SettleMonotone | src/day11.rs:175-205 | more fuel never changes an answer, it only decides whether there is one |
| Seating.Solve | src/day11.rs:175-205 | the clone-and-tick loop returns the number of occupied seats at the fixed point reached within the fuel |
| Seating.SolvePart1 | src/day11.rs:175-189 | part one is that count under the adjacency rule |
| Seating.SolvePart2 | src/day11.rs:191-205 | part two is that count under the line-of-sight rule |
| Seating.ParseRowMeaning | src/day11.rs:154-173 | a line is read iff every character is `.`, `L` or `#`, and printing the row gives the line back |
| Seating.ParseRows | src/day11.rs:154-173 | every line is read as its row, and the generator fails iff some line holds another character |
| Seating.GeneratorOfDisplay | src/day11.rs:20-34 | `Display` and `generator` are inverse: every grid is read back as printed |
| Seating.GeneratedWellFormed | src/day11.rs:154-173 | a layout read from lines of equal length is well formed |
| Luggage.DigitRun | src/day7.rs:21-23 | `take_while1(is_digit)` takes exactly the leading run of ASCII digits |
| Luggage.ParseContain | src/day7.rs:24-39 | a matching `parse_contain` consumes input |
| Luggage.NoOtherBags | src/day7.rs:25-28 | `no other bags` is the item without a pair |
| Luggage.BagConstraint | src/day7.rs:20-52 | a matching `bag_constraint` consumes input |
| Luggage.ParseShownItem | src/day7.rs:29-38 | a written item `n colour bag(s), ` is read back as `(n, colour)` with its separator consumed |
| Luggage.ParseShownConstraint | src/day7.rs:20-52 | a written rule `A bags contain ... .` is read back as colour A with its pairs in order, and "no other bags" as no pairs |
| Luggage.ManyShownConstraints | src/day7.rs:56-58 | round trip: rules written one per line are read back in order |
| Luggage.Collect | src/day7.rs:59-61 | the map has a key for exactly the colours that have a rule |
| Luggage.CollectLastWins | src/day7.rs:59-61 | each colour ends up with the last rule written for it |
| Luggage.Generator | src/day7.rs:54-62 | the generator fails exactly when no rule parses |
| Luggage.GeneratorOfShown | src/day7.rs:54-62 | the generator of written rules is the map collected from them |
| Luggage.PushCopies | src/day7.rs:89-91 | pushing `num` copies of a child adds `num` to the queue length and `num` times the child's weight to the pending count |
| Luggage.Unpack | src/day7.rs:86-93 | unpacking a popped colour: the counts added to the sum plus the pending weight of the new queue equal the pending weight of the old queue plus the colour's own weight, so the loop invariant is kept |
| Luggage.SolvePart2 | src/day7.rs:81-96 | for rules ranked over the colours the queue can reach, the `u32` queue count has an answer iff Σ n·(1 + inside(child)) over the shiny gold bag's rules fits in `u32`, and then equals it; colours without a rule add nothing |
| Luggage.UnreachableCycle | src/day7.rs:81-96 | a cycle reached only through a count of 0 still has a ranking, and the answer is 0 |
| Luggage.SampleInside | src/day7.rs:147-156 | the sample chain of seven colours, two of each inside the previous one, holds 126 bags |
| Luggage.Grow | src/day7.rs:64-79 | the growth of `{shiny gold}` contains its start and is closed under "is contained in" |
| Luggage.GrowSound | src/day7.rs:64-79 | every colour the growth adds can reach the shiny gold bag |
| Luggage.ClosedComplete | src/day7.rs:64-79 | every colour that reaches a member of a closed set is in it |
| Luggage.SolvePart1Counts | src/day7.rs:64-79 | part one counts exactly the colours other than shiny gold from which shiny gold is reachable |
| Adapters.KeepMembers | src/day10.rs:23 | a window's followers are exactly its entries within 3 above the first, other than the first itself |
| Adapters.WindowAt | src/day10.rs:21-23 | the followers of window i are those kept from entries i to i + 3 |
| Adapters.ToMapMeaning | src/day10.rs:24 | the map's keys are the windows' first entries, each holding the followers of one window for it |
| Adapters.BuildFails | src/day10.rs:9-25 | the generator fails exactly when no line holds a rating (`last().unwrap()`) or when the largest rating plus 6 overflows `usize`: that is the device window's `x[0] + 3` |
| Adapters.DeviceWindowBound | src/day10.rs:15-23 | the bound is tight: the rating 2^64 - 7 builds a map, while 2^64 - 6 makes the device window's filter overflow |
| Adapters.ChainKeys | src/day10.rs:10-24 | the keys are exactly the outlet 0, the ratings and the device, the maximum plus 3 |
| Adapters.BuildFacts | src/day10.rs:10-24 | the generated map's keys are exactly the outlet, the ratings and the device; every key has at most 3 followers, and every non-zero follower is a key 1 to 3 above its predecessor |
| Adapters.BuildBounds | src/day10.rs:10-24 | the generated map holds the outlet and the device, every key lies between the two, and every non-zero follower is a key 1 to 3 above its predecessor |
| Adapters.WalkCounts | src/day10.rs:40-53 | on such a map every non-zero follower leads upward, so `total_paths` terminates, and part two counts the chains from the outlet to the device, with multiplicity when a key lists a follower twice |
| Adapters.PathsCount | src/day10.rs:40-46 | `total_paths` equals the number of chains listed by the reference enumeration |
| Adapters.PathsSound | src/day10.rs:40-46 | every listed chain is a path that follows non-zero followers from the node to the target |
| Adapters.PathsComplete | src/day10.rs:40-46 | every such path is listed |
| Adapters.SolvePart2 | src/day10.rs:48-53 | part two has an answer exactly when the map is not empty |
| Adapters.Part2CountsChains | src/day10.rs:48-53 | part two on generated input counts the chains from the outlet to the device, in the enumeration's multiplicity |
| Adapters.PathsDistinct | src/day10.rs:40-46 | when no key lists a non-zero follower twice, the enumeration lists no chain twice, and every chain starts at its node |
| Adapters.SortedStrict | src/day10.rs:10-14 | sorted ratings without a repeated rating strictly ascend |
| Adapters.KeepDistinct | src/day10.rs:23 | the filter of a window keeps non-zero entries distinct |
| Adapters.WindowMapDistinct | src/day10.rs:21-24 | a chain without a repeated non-zero entry gives a map listing no follower twice |
| Adapters.DistinctChains | src/day10.rs:9-53 | when no rating is repeated, part two counts distinct chains from the outlet to the device, each once |
| Adapters.SampleChains | src/day10.rs:40-53 | the map for the ratings 1, 2, 3 and 5 has 6 chains |
| Buses.Generator | src/day13.rs:5-17 | the generator fails exactly when there are fewer than two lines or the first does not parse as an `isize`; otherwise the timestamp is that number, and the second line is split at `,` with entry i read as the `isize` of piece i (`None` for `x`) |
| Buses.GeneratorOfShown | src/day13.rs:5-17 | round trip: notes written as timestamp line and comma-separated IDs (`x` for none) are read back |
| Buses.FirstBus | src/day13.rs:26-30 | the bus found departs at x; when none is found, no listed bus departs at x |
| Buses.FirstBusIsFirst | src/day13.rs:26-30 | the bus found is the first listed one that departs at x |
| Buses.FirstBusNoneWhen | src/day13.rs:26-30 | conversely, when no listed bus has a zero ID or departs at x, nothing is found and nothing panics |
| Buses.FirstBusAtWhen | src/day13.rs:26-30 | and when a bus departs at x with no earlier listed bus zero or departing then, that bus is found |
| Buses.Earliest | src/day13.rs:22-34 | the time found lies in `[timestamp, isize::MAX)` and the bus found departs then |
| Buses.EarliestIsLeast | src/day13.rs:22-34 | no bus departs strictly between the timestamp and the time found |
| Buses.SolvePart1 | src/day13.rs:19-36 | part one stays within the `isize` range |
| Buses.SolvePart1Meaning | src/day13.rs:19-36 | part one is the wait until the earliest departure times the first listed bus leaving then |
| Buses.Search | src/day13.rs:46-48 | the candidate found is a whole number of strides from the start, below `isize::MAX`, and its bus departs `offset` minutes later |
| Buses.SearchIsLeast | src/day13.rs:46-48 | no earlier candidate of the stride works |
| Buses.WideStride | src/day13.rs:47 | a stride of at least 2^63, which is what a negative step cast to `usize` gives, leaves only the start as a candidate |
| Buses.FoldAligns | src/day13.rs:41-54 | fold invariant: the step's magnitude is the product of the processed IDs, every processed bus is aligned with its offset, and the solution never decreases |
| Buses.FoldStep | src/day13.rs:45-49 | one fold step with a bus keeps that invariant |
| Buses.FoldStepIsLeast | src/day13.rs:46-49 | within one fold step, the solution found is the first candidate `solution + k·step` that aligns the new bus |
| Buses.SolvePart2Aligned | src/day13.rs:38-55 | part two answers a time that is not negative, at which the bus at every position j departs j minutes later |
| Buses.SamplePart1 | src/day13.rs:61-67 | the sample notes answer 295 |
| Buses.SamplePart2 | src/day13.rs:69-75 | the sample buses answer 1068781 |
| Xmas.Generator | src/day9.rs:5-11 | every number read is in the `usize` range |
| Xmas.GeneratorOfShown | src/day9.rs:5-11 | round trip: numbers written one per line are read back in order |
| Xmas.TwoSum | src/day9.rs:13-24 | a pair found adds up to the sum, has two different values, both in the input; none is found iff no value below the sum has a partner of another value |
| Xmas.TwoSumFirst | src/day9.rs:19-23 | the pair starts with the first value, in input order, that has a partner |
| Xmas.TwoSumExample | src/day9.rs:57-60 | `two_sum([35, 20, 15, 25, 47], 40)` is `(15, 25)` |
| Xmas.FirstInvalidAt | src/day9.rs:28-33 | the scan of `windows(26)` finds the first invalid number from k on, or reports that there is none |
| Xmas.SolvePart1Meaning | src/day9.rs:26-34 | part one is the first number after the preamble of 25 that is not a sum of two different numbers among the 25 before it, and has no answer iff every number is valid |
| Xmas.WindowAt | src/day9.rs:37-39 | the scan finds the first window of the length adding up to the sum, or reports that there is none |
| Xmas.SearchWindow | src/day9.rs:36-41 | `search_window` returns a copy of the first window of the length adding up to the sum, and nothing iff none does |
| Xmas.RunLength | src/day9.rs:46-49 | the lengths 2, 3, … are tried in order, and the first that has a matching window is found |
| Xmas.SolvePart2 | src/day9.rs:43-51 | part two has an answer only when part one does, and it is the weakness for part one's answer |
| Xmas.WeaknessMeaning | src/day9.rs:43-51 | the weakness is the least plus the largest number of the first run of the shortest length adding up to the target |
| Boarding.OrFreshBit | src/day5.rs:12 | or-ing in a bit below every bit already set adds it |
| Boarding.RowIsReading | src/day5.rs:7-12 | the row fold reads the first seven characters in binary, most significant first, with `B` as one |
| Boarding.ColumnIsReading | src/day5.rs:13-18 | the column fold reads what follows the row in binary with `R` as one, when at most three characters follow |
| Boarding.ColumnTooLong | src/day5.rs:18 | a fourth character after the row makes the shift amount `2 - index` underflow |
| Boarding.ParseSeatMeaning | src/day5.rs:5-20 | `parse_seat` fails exactly when more than ten characters are given; otherwise it gives the row and column readings, with row < 128 and column < 8 |
| Boarding.ParseSeatExample1 | src/day5.rs:58-63 | `FBFBBFFRLR` is row 44, column 5 |
| Boarding.ParseSeatExample2 | src/day5.rs:58-63 | `BFFFBBFRRR` is row 70, column 7 |
| Boarding.ParseSeatExample3 | src/day5.rs:58-63 | `FFFBBBFRRR` is row 14, column 7 |
| Boarding.ParseSeatExample4 | src/day5.rs:58-63 | `BBFFBBFRLL` is row 102, column 4 |
| Boarding.Generator | src/day5.rs:22-25 | the generator succeeds iff no line is longer than ten characters, and then gives each line's seat in order |
| Boarding.SeatIdInverse | src/day5.rs:32 | the seat ID `row * 8 + column` determines the seat |
| Boarding.SolvePart1 | src/day5.rs:27-35 | part one has an answer iff there is a pass, and then it is the seat ID of some pass, at least every pass's ID |
| Boarding.GapAt | src/day5.rs:45-47 | the scan of `windows(2)` finds the first pair that does not go up by one, or reports that there is none |
| Boarding.MissingSeat | src/day5.rs:37-51 | without repeated IDs, the seat part two finds is free, the one before it is taken, and so is every seat from the lowest ID up to it |
| Passwords.ParseShownEntry | src/day2.rs:13-37 | a line written as `min-max letter: password` is read back as that entry |
| Passwords.GeneratorOfShown | src/day2.rs:13-37 | round trip: a database written one entry per line is read back entry by entry |
| Passwords.Entries | src/day2.rs:17-36 | lines that do not parse are dropped, so there are never more entries than lines |
| Passwords.OccurrencesIsMultiplicity | src/day2.rs:45 | the letter count of a password is the letter's multiplicity in it |
| Passwords.SolvePart1 | src/day2.rs:39-48 | part one counts at most every entry |
| Passwords.Part1Adds | src/day2.rs:39-48 | the part one count adds up over a split of the database |
| Passwords.SolvePart2 | src/day2.rs:50-59 | part two fails exactly when some position is 0, where `min - 1` or `max - 1` underflows, and otherwise counts at most every entry |
| Passwords.Part2Adds | src/day2.rs:50-59 | the part two count adds up over a split of the database |
| Passwords.SampleCounts | src/day2.rs:65-79 | the sample database: two entries satisfy the first policy and one the second |
| Passports.HexPrimary | src/day4.rs:11-15 | `hex_primary` matches exactly two hex digits, reads them as one byte and leaves the rest |
| Passports.HexColorAccepts | src/day4.rs:17-21 | a colour passes exactly when it starts with `#` followed by six hex digits; what follows is left unread |
| Passports.HexColorOfShown | src/day4.rs:17-21 | round trip: a colour written `#rrggbb` is read back as its three bytes |
| Passports.TakeTill | src/day4.rs:27 | the value runs up to the first space or line break |
| Passports.ParsePairMeaning | src/day4.rs:23-30 | a parsed pair did not start at a line break; its key is everything before the first `:`; the value holds no separator; at most one separator is consumed |
| Passports.ParsePairExamples | src/day4.rs:103-119 | `ecl:gry` followed by a space or a line break is the pair (`ecl`, `gry`) |
| Passports.CollectMeaning | src/day4.rs:35 | the passport holds exactly the keys of the pairs, each with the value of the last pair for it |
| Passports.ParsePassportShown | src/day4.rs:32-36 | a written passport is read back as the map of its pairs, with one line break consumed |
| Passports.GeneratorOfShown | src/day4.rs:38-42 | round trip: a written batch is read back as the passports of its pairs |
| Passports.SolvePart1 | src/day4.rs:44-58 | part one counts at most every passport |
| Passports.CidOptional | src/day4.rs:48-56 | `cid` makes no difference to whether a passport has every field |
| Passports.YearIn | src/day4.rs:73-75 | a year check fails exactly when the value does not parse as `i32`, and passes iff the number is in the inclusive range |
| Passports.TrimEndMeaning | src/day4.rs:79-81 | `trim_end_matches` removes a whole number of copies of the suffix, and what is left does not end with it |
| Passports.HeightValid | src/day4.rs:76-85 | 150–193 with `cm`, else 59–76 with `in`, any other height fails |
| Passports.Padded | src/day4.rs:92 | a string is padded on the right with spaces up to width 9 |
| Passports.PidValidMeaning | src/day4.rs:91-94 | a passport ID passes iff it is exactly nine decimal digits |
| Passports.AndThen | src/day4.rs:73-94 | a chain of filters passes iff both steps pass, and a step that fails or panics decides the result without the later step |
| Passports.ValidMeaning | src/day4.rs:61-96 | a passport is valid iff it has every field and the years, height, hair colour, eye colour and ID all pass |
| Passports.PanicsMeaning | src/day4.rs:73-85 | a complete passport panics iff `byr` does not parse as an `i32`, or the filters before it pass and `iyr`, `eyr` or the height number does not |
| Passports.SolvePart2 | src/day4.rs:60-96 | part two fails exactly when some complete passport reaches an `unwrap` that panics |
| Passports.Part2WithinPart1 | src/day4.rs:61-72 | part two never counts more than part one |
| Passports.SampleText | src/day4.rs:202-217 | the written test batch is counted 2 by part one and 2 by part two |
| Customs.Answers | src/day6.rs:14 | a person's distinct answers are exactly the characters they wrote |
| Customs.UnionMeaning | src/day6.rs:13-15 | `count_unique` counts the answers that someone in the group gave |
| Customs.SharedMeaning | src/day6.rs:16-23 | `count_intersection` counts the answers everyone in a group gave, and 0 for a group with no people |
| Customs.IntersectionWithinUnique | src/day6.rs:13-23 | what everyone answered, someone answered |
| Customs.RepeatedAnswer | src/day6.rs:14-19 | a repeated answer counts once in both counts |
| Customs.Generator | src/day6.rs:26-34 | one group per piece between blank lines |
| Customs.GeneratorOfShown | src/day6.rs:26-34 | round trip: groups written one person per line, separated by blank lines, are read back |
| Customs.Part2WithinPart1 | src/day6.rs:36-44 | part two never exceeds part one |
| Customs.SolvesAdd | src/day6.rs:36-44 | both sums add up over a split of the groups |
| Customs.SampleRead | src/day6.rs:50-68 | the sample text is read as its five groups |
| Customs.SampleCounts | src/day6.rs:70-108 | the sample groups count 11 and 6 |
| Navigation.ActionOf | src/day12.rs:19-34 | `try_from` succeeds exactly on the seven one-letter names |
| Navigation.ActionOfName | src/day12.rs:19-34 | every action is read back from its name |
| Navigation.ParseInstruction | src/day12.rs:42-53 | a line is read exactly when it is not empty, its first character names an action and the rest is an `isize` |
| Navigation.GeneratorOfShown | src/day12.rs:42-53 | round trip: instructions written one per line are read back |
| Navigation.GeneratorExample | src/day12.rs:123-139 | `S1\nL2` is read as south 1, left 2 |
| Navigation.Turn | src/day12.rs:66-67 | a turn leaves the position alone and puts the heading in `[0, 360)` |
| Navigation.Step | src/day12.rs:62-74 | a step other than a turn leaves the heading; north and south leave x, east and west leave y |
| Navigation.HeadingInRange | src/day12.rs:55-78 | every ship the fold reaches from heading 0 has its heading in `[0, 360)` |
| Navigation.QuarterTurnsStayOnCompass | src/day12.rs:66-74 | with quarter turns only, the heading stays on 0, 90, 180 or 270 |
| Navigation.ForwardOnCompass | src/day12.rs:68-73 | on a compass heading, moving forward fails only by overflow |
| Navigation.ForwardOffCompass | src/day12.rs:74 | off a compass heading, moving forward is the panic |
| Navigation.TurnBack | src/day12.rs:66-67 | turning right and then left by the same amount restores the ship |
| Navigation.FullTurn | src/day12.rs:66-67 | a full turn changes nothing |
| Navigation.RunIsIdeal | src/day12.rs:55-78 | the checked fold agrees with the fold on unbounded integers whenever it succeeds |
| Navigation.ExampleDistance | src/day12.rs:147-155 | the sample route ends at distance 25 |
| Expenses.Entries | src/day1.rs:6-9 | every entry read is a `u32` |
| Expenses.GeneratorOfShown | src/day1.rs:6-9 | round trip: `u32` entries written one per line are read back |
| Expenses.FindPair | src/day1.rs:14-24 | the pair found stops the search (it sums to 2020 or its addition overflows) and every earlier pair in combination order does not; nothing found means no pair stops it |
| Expenses.SolvePart1 | src/day1.rs:14-24 | an answer is the product of two entries at distinct positions, smaller first, summing to 2020; without overflowing sums, there is an answer iff such a pair exists |
| Expenses.PairProductFits | src/day1.rs:20 | the product of a pair summing to 2020 fits in `u32` |
| Expenses.Part1Unordered | src/day1.rs:14-24 | the answer depends only on the multiset of entries |
| Expenses.HalfPairs | src/day1.rs:19 | a single 1010 does not pair with itself, two do |
| Expenses.FindTripleMeaning | src/day1.rs:29-39 | the triple found stops the search and every earlier triple does not; nothing found means no triple stops it |
| Expenses.Part2Meaning | src/day1.rs:29-39 | an answer is the product of three entries at distinct positions, in ascending order, summing to 2020; without overflowing sums, there is an answer iff such a triple exists |
| Expenses.TripleProductFits | src/day1.rs:35 | the product of a triple summing to 2020 fits in `u32` |
| Expenses.Part2Unordered | src/day1.rs:29-39 | the answer depends only on the multiset of entries |
| Expenses.SamplePart1 | src/day1.rs:45-55 | the sample report answers 514579 |
| Expenses.SamplePart2 | src/day1.rs:57-66 | the sample report answers 241861950 |
| Expenses.SampleText | src/day1.rs:45-66 | the sample report text is read as the sample entries |
| Toboggan.Row | src/day3.rs:6-12 | a cell is a tree exactly when its character is `#` |
| Toboggan.GeneratorOfShown | src/day3.rs:6-12 | round trip: a drawn map is read back row by row |
| Toboggan.SlopeFrom | src/day3.rs:14-27 | the count is at most the number of examined rows; it fails exactly when `down` is 0 or an examined row is empty |
| Toboggan.SlopeIsWalk | src/day3.rs:14-27 | the slope counts the trees at row k·down, column k·right wrapped by the row length, for every k |
| Toboggan.EveryRowExamined | src/day3.rs:18 | with `down == 1` every row is examined |
| Toboggan.OpenGround | src/day3.rs:14-27 | a map without trees meets none on any slope |
| Toboggan.Product | src/day3.rs:34-41 | the product has an answer only when every slope has one, and is 0 from a zero start |
| Toboggan.ProductOfSlopes | src/day3.rs:36-40 | the fold of the counts from an accumulator has an answer exactly when every partial product fits in `usize`, and then equals the accumulator times the product of the counts |
| Toboggan.Part2IsProduct | src/day3.rs:34-41 | part two answers the product of the five slope counts, exactly when each partial product fits in `usize` |
| Toboggan.ZeroFactor | src/day3.rs:34-41 | one slope meeting no tree makes the product 0 |
| Toboggan.SampleText | src/day3.rs:47-61 | the sample map drawn as text is read back as the sample |
| Toboggan.SamplePart1 | src/day3.rs:47-61 | the sample map meets 7 trees on slope (3, 1) |
| Toboggan.SamplePart2 | src/day3.rs:63-77 | the product over the five slopes is 336 |
| Common.Split | src/day6.rs:29 | `split` always gives at least one piece, no piece contains the separator, and joining the pieces with it gives the input back |
| Common.SplitOfJoin | src/day2.rs:16 | splitting what was joined gives the pieces back, when no piece contains the separator |
| Common.LinesOfTerminated | src/day9.rs:8 | `lines` reads back every row written with a line break after it |
| Common.ReadingsOfShown | src/day9.rs:9 | numbers in the `usize` range written one per line are read back in order |
| Common.ParseNatOfShowNat | src/day2.rs:29-30 | a decimal number written without sign is read back |
| Common.ParseIntOfShowSigned | src/day8.rs:46 | a signed decimal number is read back |
| Common.Sort | src/day5.rs:43 | the sorted sequence is ascending and a permutation of the input |
| Common.SortedUnique | src/day1.rs:16 | ascending sequences with the same elements are equal, so the sort is the only one its contract allows |
| Common.SetMin | src/day10.rs:50 | the least key is a key no key is below |
| Common.SetMax | src/day10.rs:51 | the largest key is a key no key is above |

## Left out

- The aoc-runner macros, reading puzzle input from files, and the tests that `include_str!` the puzzle inputs are not modelled: they are I/O. The unit tests with inline samples are stated as lemmas.
- nom and itertools are not modelled as libraries. Each parser is a string function with the behaviour of the combinators it uses.
- Day 12 `rotate` and `solve_part2` (src/day12.rs:80-117) are not modelled, because they compute with `f64` trigonometry and rounding.
- Toboggan.SlopeFrom: the column is the integer `i * right / down` rather than the `f32` expression of src/day3.rs:20. For the slopes the solvers pass (`down` 1 or 2) the two agree while `i * right` is below 2^24, where every value involved is exact in `f32`. On longer maps they differ: on slope (1, 1), row 2^24 + 1 reads column 2^24 in the source, because `f32` rounds the row number, and column 2^24 + 1 in the model (both wrapped by the row length).
- Day 10 `solve_part1` and its `pathfinding` depth-first search are not modelled, because the search is a foreign library call.
- Adapters.TotalPaths: the `cached` memoisation of src/day10.rs:35-39 is left out, and the model is plain recursion. The cache is global and persists across inputs. Its key `node << 16 | target` tells the (node, target) pairs of one input apart only while the device is below 2^16, and on such an input a fresh cache gives the recursion's value. With a device of 2^16 or more, keys collide and the source can answer differently. An example is the ratings 1, 2, 3, 4, 7, 10, … (4 + 3k), up to 65536: the device is 65539 = 0x10003, so nodes 0 and 1 share a key, as do 2 and 3. There the source can read back a count stored for another node, where the model counts each node's own chains.
- Luggage.SolvePart1Counts: `dijkstra_all` is specified as reachability over the reversed edges instead of being modelled step by step.
- Luggage.SolvePart2: it requires a ranking of the colours the queue can reach from shiny gold through positive counts, that is, no cycle among them. On such a cycle the source's queue never empties.
- The day 7 part one sample (4 colours) and the generator sample count (9 rules) are not evaluated: the closure over the sample's set of colours is too costly for the verifier. Part one is characterised for every input by `SolvePart1Counts`.
- Seating.Solve: the source loops until nothing changes; the model takes a `fuel` bound on the number of ticks and gives `None` when it runs out. `SettleMonotone` shows that more fuel never changes an answer.
- The day 11 sample answers (37 and 26) are not evaluated, because the ten-by-ten fixed point is too costly for the verifier. The neighbour samples (8 and 2) are.
- Seating.SeatLayout.Tick and Seating.Solve require a well-formed layout, every row as wide as the first. The source also accepts rows longer than the first: its ticks visit only the first row's width (src/day11.rs:157), so `L\nLL` answers 2 there. A row shorter than the first makes the ticks index out of range, which is a panic. These layouts are not modelled, and no `None` is given for them.
- Seating.GetAdjacentWithSight: it requires a rectangular grid. On a row shorter than the first row, the `unwrap` of src/day11.rs:79 panics in the source; the model gives no `None` for this.
- Buses.SolvePart2Aligned: it proves that the answer aligns every bus, and that each fold step picks the first working candidate (`FoldStepIsLeast`). It does not prove that the answer is the least such time overall, which needs pairwise coprime IDs (the Chinese remainder theorem).
- Handheld.Run: the accumulator is unbounded; an `isize` overflow of `acc += param` is not modelled. Neither is a pointer overflowing `usize` on a forward jump.
- Sum overflows of `usize` are not modelled in the counts of days 2, 4, 6 and 9, nor in the window sums of day 9.
- Adapters.TotalPaths: the `.sum()` of src/day10.rs:44 is an unbounded sum in the model. In the source it is a `usize` sum, which a debug build traps once the count reaches 2^64; the ratings 1 to 100 already give more chains than that. The day 1 sums and products, the day 3 product, and the day 12 and 13 arithmetic are checked.
- Operations on whole text use `char` positions, where Rust slices bytes; the inputs are ASCII. Day 12's `line[0..1]` on a multi-byte first character panics in the source and gives `None` in the model either way.
- Strings of day 4's sample are stated through the written form of its pairs (`Passports.SampleText`) rather than as one literal text. Likewise day 3's sample is the literal map with its drawing (`Toboggan.SampleText`): the long literal string equalities are too costly for the verifier.
- Day 4's generator is modelled on input that ends right after a passport or a separator. Trailing text that no passport matches is ignored by `many0`, as in the source.
- Xmas.SolvePart1Meaning: the samples of day 9 use a preamble of 5, while the solver has 25 built in. Only `two_sum`'s sample is evaluated.
- The `Display` formatter's `fmt::Result` error plumbing is not modelled, only the characters it writes.
