# Advent of Code 2021, days 1 and 3 to 15, in Dafny

A model of the puzzle solutions in chandl/advent-of-code-2021, with the properties each
solution relies on proved about the model. There is one module per solution file:

- `Day01`: counting depth increases, singly and over three-reading windows.
- `Day03`: the power consumption (gamma and epsilon rates) and the life-support ratings
  (oxygen and CO2 filtering) of a diagnostic report.
- `Day04`: bingo boards (a `Board` class whose `winner` flag the last-board search sets),
  the first board to win and the last one.
- `Day05`: hydrothermal vent segments parsed from text and drawn onto a grid (`array2`),
  with the cells where at least two overlap counted.
- `Day06`: lanternfish timers, as the growing list of part A and as the spawn schedule of part B.
- `Day07`: crab alignment fuel at a constant rate and at a rate that grows by one per step.
- `Day08` and `Day08Wiring`: seven-segment decoding. `Day08` follows `parse_signals`,
  `parse_output` and the two parts step by step. `Day08Wiring` proves that on any line
  showing the ten digits under some wiring of the segments, the decoding reads every
  output as the digit it shows.
- `Day09`: low points of a height map, and basins found by the recursive flood fill `ff`.
- `Day10`: bracket matching with a stack, the corrupt-line score and the completion score.
- `Day11`: the octopus flash cascade on an `array2` grid, with `ff` as mutually recursive methods.
- `Day12`: cave paths by depth-first search: counted for part A, collected as a set for part B.
- `Day13`: folding transparent paper as numpy slices, flips and broadcasting additions.
- `Day14`: polymer insertion, as a list (`Formula` class) and as counts of pairs in a `Counter`.
- `Day15`: the lowest-risk walk through a grid. Part A uses Dijkstra's algorithm. Part B
  uses the priority-queue search on the grid expanded five times in each direction.
- `Common`: an `Option` type, an insertion sort standing for Python's `sort`, and list sums.

Loops and in-place updates in the source are methods with loop invariants, each proved
against a function or predicate that states what the loop computes. Python's errors
(`KeyError`, `IndexError`, `ValueError`, unpacking failures, indexing `None`) are mostly `None`
results, modelled where the source would raise them. The rest are excluded by a `requires`,
and each such case is listed under "Left out" with the member it applies to.

## Model

| member | source | states |
|---|---|---|
| Common.Sort | day10/day10.py:89 | `list.sort()` returns a permutation of the list |
| Common.SortIsSorted | day10/day10.py:89 | under a total order the result is sorted |
| Common.SumAppend | day9/day9.py:59 | the sum of two lists joined is the sum of their sums |
| Day01.CountIncreases | day01/day1.py:10-20 | the count is the number of readings larger than a previous reading that is not 0 (Python's `not last` also skips a 0), and at most one less than the number of readings |
| Day01.CountedBelowBound | day01/day1.py:12-19 | among the first `n` readings at most `n - 1` are counted, since the first has nothing to compare with |
| Day01.NoZeroMeansPlainIncreases | day01/day1.py:13-19 | on readings without a 0 the count is exactly the number of plain increases `xs[i] > xs[i - 1]` |
| Day01.ZeroHidesNextIncrease | day01/day1.py:13-15 | the falsy test differs from `is None`: after a 0 reading the next increase is not counted (`[0, 5]` counts 0, has 1 increase) |
| Day01.Windows | day01/day1.py:29-37 | one window per start index `0 .. len - 3` (none for fewer than two readings), each the sum of three consecutive readings |
| Day01.WindowIncrease | day01/day1.py:31-47 | consecutive windows share two readings, so the later is larger exactly when its new reading exceeds the one the earlier window had alone |
| Day01.PartB | day01/day1.py:24-48 | the answer is the same falsy-`last` increase count taken over the window sums, and at most `len - 3` |
| Day03.CountsAddUp | day03/day3.py:13-18 | at every position the '0' count and the other-character count add up to the number of lines that reach that position |
| Day03.LongerThanAll | day03/day3.py:13-18 | when every line reaches a position, the two counts there add up to the number of lines |
| Day03.CalcOccurrences | day03/day3.py:7-19 | one counter pair per position of the first line; each zero counter is the number of lines with '0' there and each one counter the number with any other character |
| Day03.Complement | day03/day3.py:27-34 | epsilon's string has gamma's length and the other binary digit at every position |
| Day03.BinValueBound | day03/day3.py:36-37 | `int(s, 2)` of `n` binary digits is below `2^n` |
| Day03.ComplementSum | day03/day3.py:36-39 | a binary number and its digit-wise complement add up to `2^n - 1` |
| Day03.GammaEpsilon | day03/day3.py:25-34 | gamma has a '1' exactly where ones strictly outnumber zeros (a tie gives '0'), and epsilon is gamma complemented |
| Day03.PartA | day03/day3.py:22-42 | the answer is gamma times epsilon for the gamma of the most common bits, and gamma plus epsilon is all ones |
| Day03.KeepAppend | day03/day3.py:63-67 | splitting one more line appends it to the list its bit selects |
| Day03.KeepMembers | day03/day3.py:63-67 | a line is kept for a bit value exactly when it is a candidate with that value at `bit` |
| Day03.KeepSplits | day03/day3.py:63-67 | the zeros list and the ones list together hold every candidate |
| Day03.FilterKeepsSelectedBit | day03/day3.py:69-79 | each round keeps exactly the candidates carrying one chosen bit value |
| Day03.OxygenStaysNonEmpty | day03/day3.py:70 | the oxygen rule keeps the ones on a tie, so it never empties a non-empty list |
| Day03.Co2CanEmpty | day03/day3.py:79 | the CO2 rule keeps the zeros on `<=` even when there are none, so it can empty the list (`["1"]` at bit 0) |
| Day03.KeepReport | day03/day3.py:63-79 | filtering keeps every candidate at full width |
| Day03.Rating | day03/day3.py:55-88 | the candidate list after any number of rounds still has lines of full width |
| Day03.RatingSetMeansSingle | day03/day3.py:82-88 | a rating is only ever set from a single remaining candidate, as the value of that candidate |
| Day03.RatingStaysFixed | day03/day3.py:61-79 | once a rating is set its state never changes again: later rounds skip filtering |
| Day03.Split | day03/day3.py:63-78 | the split loop raises exactly when some candidate is too short to be read at `bit`, and otherwise produces, in order, the candidates with '0' at `bit` and the others |
| Day03.RoundsStayRaised | day03/day3.py:58-88 | once a round has raised, the loop has ended: no later round gives a state |
| Day03.RatingFromLines | day03/day3.py:63-79 | every candidate left is a line of the report |
| Day03.RoundsOnReport | day03/day3.py:58-88 | on lines of binary digits none shorter than the first, no round raises and the rounds keep the candidates and ratings `Rating` gives |
| Day03.ShortLineRead | day03/day3.py:58-88 | a line shorter than the first is harmless once filtered out: `["10", "0"]` fixes the ratings at 2 and 0 |
| Day03.ShortLineRaises | day03/day3.py:64-66 | a line too short for a round while still a candidate raises: `["0", "1", "11"]` |
| Day03.Round | day03/day3.py:63-88 | one rating's share of a round filters while the rating is unset and reads it off a single candidate, raising exactly when `Rounds` does and otherwise giving its next state |
| Day03.PartB | day03/day3.py:45-94 | on any lines, the answer is the product of the oxygen and CO2 ratings after one round per position of the first line; `None` where the source raises: no lines, a candidate too short for its round, a single candidate that is not binary, or `None * int` when a rating was never set; on a report of binary lines none shorter than the first it is the product of the `Rating` values |
| Day03.KeepConcat | day03/day3.py:63-67 | splitting a concatenation splits each half |
| Day03.TestHeadFirstRound | day03/day3.py:97 | the first half of the worked example split at bit 0 |
| Day03.TestTailFirstRound | day03/day3.py:97 | the second half of the worked example split at bit 0 |
| Day03.TestCaseFirstRound | day03/day3.py:97 | the worked example split at bit 0: five zeros and seven ones |
| Day03.OxygenRound1 | day03/day3.py:69-70 | the oxygen candidates of the worked example after one round |
| Day03.OxygenRound2 | day03/day3.py:69-70 | the oxygen candidates of the worked example after two rounds |
| Day03.OxygenRound4 | day03/day3.py:69-70 | the oxygen candidates of the worked example after four rounds |
| Day03.TestCaseOxygen | day03/day3.py:97-111 | the worked example's oxygen rating is 23 (10111) |
| Day03.Co2Round2 | day03/day3.py:79 | the CO2 candidates of the worked example after two rounds |
| Day03.Co2Value | day03/day3.py:87 | `int("01010", 2)` is 10 |
| Day03.Co2Round3 | day03/day3.py:73-88 | after three rounds the worked example's CO2 candidates are `01010` alone, and the rating is fixed at 10 |
| Day03.TestCaseCo2 | day03/day3.py:97-111 | the worked example's CO2 rating is 10 (01010) |
| Day04.ParseCols | day04/day4.py:15-26 | one column per entry of the first row, each as tall as the board, and column `i` holds entry `i` of every row in order |
| Day04.TransposeTwice | day04/day4.py:10-11 | the columns of the columns of a rectangular board are its rows again |
| Day04.Board.constructor | day04/day4.py:9-13 | a new board keeps its rows and number, takes the transposed rows as columns, and is not yet a winner |
| Day04.IntersectionCounts | day04/day4.py:67-72 | the intersection keeps every occurrence in the first list of a number the second holds, and nothing else |
| Day04.IntersectionOrder | day04/day4.py:67-72 | the intersection is taken element by element in the first list's order: it splits at any point of that list |
| Day04.IntersectionElements | day04/day4.py:67-72 | the numbers of the intersection are exactly those on both lists |
| Day04.DistinctIntersection | day04/day4.py:67-72 | a draw without repeats gives an intersection without repeats |
| Day04.FullLine | day04/day4.py:80-86 | when neither the draw nor a five-number line repeats a number, the line has five marks exactly when all its numbers are drawn |
| Day04.CheckLines | day04/day4.py:79-82 | the loop reports a win exactly when some line has exactly five drawn positions |
| Day04.CheckBoard | day04/day4.py:74-90 | a board wins exactly when one of its rows or one of its columns has five drawn positions |
| Day04.UnmarkedAndMarked | day04/day4.py:92-101 | the unmarked and the marked numbers of a board add up to the sum of all its numbers |
| Day04.RowSplit | day04/day4.py:98-100 | the same split for one row |
| Day04.NothingDrawn | day04/day4.py:92-101 | with nothing drawn the unmarked sum is the sum of the whole board |
| Day04.NothingDrawnRow | day04/day4.py:98-100 | with nothing drawn a row's unmarked sum is its total |
| Day04.UnmarkedSum | day04/day4.py:92-101 | the loop computes the sum of the board's numbers that are not among the drawn ones |
| Day04.FirstWinFrom | day04/day4.py:108-112 | the result, when present, is the shortest draw prefix from `n` on after which the board wins; absent when no such prefix wins |
| Day04.FindWinningBoard | day04/day4.py:104-116 | the board found wins at the shortest draw, earliest in the list among those, and is scored as the last number times its unmarked sum; `None` exactly when no board ever wins |
| Day04.FirstAt | day04/day4.py:109-116 | the board that wins at number `i + 1`, when none won sooner and no board before it wins then, is the earliest winner |
| Day04.LosingRound | day04/day4.py:128-136 | one pass over the boards keeps the marking and last-winner invariants, advancing every board by one number |
| Day04.LosingVisit | day04/day4.py:129-136 | a marked board is skipped; an unmarked one that wins now is marked and becomes the latest winner; no other board changes |
| Day04.NotNow | day04/day4.py:132 | a board that does not win on `i + 1` numbers does not first win there |
| Day04.SameCounted | day04/day4.py:129-132 | checking a board that does not first win now leaves the latest winner as it was |
| Day04.NewLast | day04/day4.py:132-136 | an unmarked board that wins now first wins at this number and comes after every earlier winner |
| Day04.FlagsStep | day04/day4.py:136 | after board `j` is handled the marks agree with the winners seen so far |
| Day04.FindLosingBoard | day04/day4.py:118-141 | every board that wins ends up marked; the result is the board, among those not marked at first, that wins at the longest draw and latest in the list among those, scored after its winning number; `None` when none of them wins |
| Day04.ScoreLast | day04/day4.py:139-140 | the recorded winner is scored from the numbers drawn when it won: the last of them times its unmarked sum |
| Day04.EndFlags | day04/day4.py:126-136 | after the last number the marked boards are those marked at first and those that won |
| Day04.StartFlags | day04/day4.py:122-125 | before any number is drawn no board has been recorded |
| Day04.RoundDone | day04/day4.py:126-136 | a finished pass moves every board to the next number |
| Day04.EndNone | day04/day4.py:122-136 | when nothing was recorded no board unmarked at first ever wins |
| Day04.EndSome | day04/day4.py:133-135 | after the last number the recorded board comes last among all that won |
| Day05.Split | day5/day5.py:11-13 | `str.split` always returns at least one piece |
| Day05.NatString | day5/day5.py:12-13 | the decimal form the input writes a coordinate in is a non-empty string of digits |
| Day05.NatStringValue | day5/day5.py:12-13 | `int` of a coordinate's decimal form is the coordinate |
| Day05.SplitWithout | day5/day5.py:11-13 | a string without the separator's first character splits into itself alone |
| Day05.SplitOnce | day5/day5.py:11-13 | a separator after a piece free of it splits off exactly that piece |
| Day05.PairRoundTrip | day5/day5.py:12-13 | "a,b" parses back to the pair `(a, b)` |
| Day05.ParseFormat | day5/day5.py:7-14 | parsing a segment written as "x1,y1 -> x2,y2" gives back the segment |
| Day05.NoArrowRejected | day5/day5.py:11 | a line without " -> " is rejected: unpacking its split fails |
| Day05.Bounds | day5/day5.py:26-36 | the bounds are at least every endpoint's x (columns) and y (rows), and each is 0 or attained by an endpoint |
| Day05.Zeros | day5/day5.py:37 | a fresh grid of `rows + 1` by `columns + 1` zeros |
| Day05.EndpointsCovered | day5/day5.py:50-85 | both endpoints of a straight or 45 degree segment are marked |
| Day05.MarkStraight | day5/day5.py:47-59 | a vertical segment (or single point) adds 1 on its column between the two y values, a horizontal one on its row between the two x values, a sloped one nothing; no other cell changes |
| Day05.MarkStraights | day5/day5.py:41-61 | every cell gains the number of straight segments covering it |
| Day05.MarkDiagonal | day5/day5.py:70-85 | a 45 degree segment adds 1 on every cell from its start to its end, one step in x and y at a time; a straight one adds nothing |
| Day05.MarkDiagonals | day5/day5.py:63-86 | every cell gains the number of 45 degree segments covering it |
| Day05.CountOverlap | day5/day5.py:88-98 | the count is the number of cells holding more than 1 |
| Day05.RowOverlapsCount | day5/day5.py:94-97 | the row counts are sizes of the sets of cells holding more than 1 |
| Day05.PartA | day5/day5.py:100-104 | the grid covers every endpoint, each cell holds the number of straight segments covering it, and the answer counts the cells covered at least twice |
| Day05.PartB | day5/day5.py:106-112 | the same with 45 degree segments counted too |
| Day06.Ticked | day06/day6.py:31-35 | ticking keeps one timer per fish |
| Day06.Eights | day06/day6.py:32 | the newborns appended in a day are that many 8s |
| Day06.TickedAt | day06/day6.py:31-35 | each old fish's timer after a day is 6 if it was 0 and one less otherwise |
| Day06.EightsAt | day06/day6.py:32 | every newborn's timer is 8 |
| Day06.DayLength | day06/day6.py:28-35 | a day adds one fish for every timer that was 0 when the day began |
| Day06.TimersStayInRange | day06/day6.py:28-35 | timers in 0 to 8 stay in 0 to 8 after a day |
| Day06.SimulateInRange | day06/day6.py:26-35 | and after any number of days |
| Day06.EightsCounts | day06/day6.py:32 | the newborns hold only the value 8 |
| Day06.TickedCounts | day06/day6.py:31-35 | after ticking, timer 6 is held by the old 7s and 0s, timer 8 by none, and every other timer `j` by the old `j + 1`s |
| Day06.DayCounts | day06/day6.py:28-35 | after a day, timer 6 is held by the old 7s and 0s, timer 8 by the old 0s, and every other `j` by the old `j + 1`s |
| Day06.PartialStep | day06/day6.py:31-35 | the in-place update at one index: a 0 becomes 6 and appends an 8, anything else counts down |
| Day06.PartialAll | day06/day6.py:27-35 | the pass over the original indices produces the next day's list |
| Day06.UpdateFish | day06/day6.py:31-35 | the update at an index the pass has reached turns the partly updated list into the one with that fish updated too |
| Day06.DayPass | day06/day6.py:27-35 | one day's in-place pass, skipping the fish appended during it, gives every old fish its next timer followed by one 8 per old 0 |
| Day06.PartA | day06/day6.py:14-39 | the list after `days` passes is the day-by-day simulation, and timers stay in 0 to 8 |
| Day06.Respawn | day06/day6.py:63-71 | the schedule keeps its length and never changes at or before the current day; the `+ 7` update survives when only `day + 9` is out of range |
| Day06.RespawnDay | day06/day6.py:63-71 | the two in-place `+=` of the `try` block, stopped at the first index out of range, leave exactly the `Respawn` schedule |
| Day06.RespawnTracks | day06/day6.py:61-71 | if the schedule from `day` on holds how many fish carry each timer, after the update it does so from `day + 1` for the next day's fish |
| Day06.InRangeTracks | day06/day6.py:51-57 | for timers in 0 to 8 the initial schedule holds how many fish carry each timer, and 0 beyond |
| Day06.CountTimers | day06/day6.py:51-57 | schedule entry `i` counts the fish with timer `i`, plus those with timer `i - days`, since a negative index counts from the end |
| Day06.PartB | day06/day6.py:42-73 | the schedule ends as the first loop's per-timer counts (`InitialSchedule`) after every day's `try` block (`Respawned`), and the total is the initial count plus every entry of it; for timers in 0 to 8 the total equals the length of part_a's list after the same number of days |
| Day06.QuietDays | day06/day6.py:63-71 | days on which no fish spawns leave the schedule unchanged |
| Day06.NineTimer | day06/day6.py:51-71 | a timer outside 0 to 8 is scheduled too: one fish at 9 over 17 days makes 3 fish, since only the `+ 7` update of day 9 is in range |
| Day07.AbsCostAppend | day7/day7.py:29-30 | the constant-rate fuel of two groups of crabs is the sum of their fuels |
| Day07.TriCostAppend | day7/day7.py:52-65 | the same for the growing rate |
| Day07.PartA | day7/day7.py:27-30 | the total is the sum over all crabs of the distance to the target |
| Day07.MedianMinimizesAbsCost | day7/day7.py:21-30 | on sorted positions either middle element is a target no other target beats at one unit per step, which is why part_a moves to the median |
| Day07.StepCost | day7/day7.py:55-58 | moving `d` steps with step costs 1, 2, 3, ... costs the triangular number `d(d+1)/2` |
| Day07.PartB | day7/day7.py:44-67 | both totals are the sums of triangular distances to the two targets, and the answer is the smaller of the two |
| Day07.TriCostAtLeastAbsCost | day7/day7.py:52-65 | the growing rate never costs less than the constant rate |
| Day08.Candidates | day08/day8.py:35-50 | a pattern gets a candidate list exactly when it has 2 to 7 letters; otherwise the `elif` chain falls through to `None` |
| Day08.CandidatesByLength | day08/day8.py:35-50 | the candidates are exactly the digits that light as many segments as the pattern has letters |
| Day08.UniqueLengths | day08/day8.py:91-96 | a pattern has a single candidate exactly when it has 2, 3, 4 or 7 letters (the digits 1, 7, 4, 8) |
| Day08.CountIsOccurrences | day08/day8.py:62-66 | the letter dict maps each letter of the signals to its number of occurrences, and its keys are the distinct letters, each once |
| Day08.CountLetters | day08/day8.py:62-66 | the counting loop, letter by letter, builds that dict in insertion order |
| Day08.CountSignal | day08/day8.py:64-66 | the letters of one more signal extend the count of those before it as if counted in one run |
| Day08.CountSnoc | day08/day8.py:65-66 | counting one more letter is one dict update |
| Day08.LastWithIsLast | day08/day8.py:70-84 | the letter left in a variable is absent exactly when no letter has that count, and otherwise is the last key in dict order that has it |
| Day08.Wires | day08/day8.py:70-84 | the scan leaves top-left, bottom-left and bottom-right as the last letters counted 6, 4 and 9 times |
| Day08.Known | day08/day8.py:89-96 | after the loop there are ten slots |
| Day08.KnownSlots | day08/day8.py:89-96 | the loop succeeds exactly when every pattern has 2 to 7 letters; each slot then holds the last pattern whose length only that digit has, or stays empty |
| Day08.UniqueDigits | day08/day8.py:89-96 | the loop fills the slots of the unique-length digits, failing on a pattern without candidates |
| Day08.KnownFails | day08/day8.py:93-96 | once `len(None)` has raised, the loop does not recover |
| Day08.RemoveCounts | day08/day8.py:109-134 | a filter keeps every letter outside the excluded ones as often as it occurs, and no other |
| Day08.Deduce | day08/day8.py:98-134 | the deductions of 9, 5, 6, 3, 2 and 0 keep ten slots, raising where `br`, `tr` or `bl` is missing |
| Day08.CharLeIsTotalPreorder | day08/day8.py:140-141 | character order is a total preorder, so sorting applies |
| Day08.Keys | day08/day8.py:139-142 | one sorted key per slot, each the slot's letters in alphabetical order |
| Day08.IndexIsLastSlot | day08/day8.py:138-142 | the `out` dict holds exactly the slots' keys, each mapped to the last slot that has it |
| Day08.IndexKeysSorted | day08/day8.py:140-142 | every key of the `out` dict is a sorted string |
| Day08.IndexSlots | day08/day8.py:138-142 | the loop builds that dict slot by slot |
| Day08.ParseSignals | day08/day8.py:52-143 | `parse_signals` returns the map from each deduced pattern, sorted, to its digit; its keys are sorted and its values are digits; `None` where it raises |
| Day08.DecodingDigits | day08/day8.py:138-142 | every value of the decoded map is a digit below 10 |
| Day08.LookupFailsIffMissing | day08/day8.py:151-155 | reading fails exactly when some sorted output pattern is not a key |
| Day08.LookupIsPerPattern | day08/day8.py:151-155 | a successful reading has one digit per output pattern: the value of its sorted letters |
| Day08.ParseOutput | day08/day8.py:146-157 | `parse_output` looks up each output pattern, sorted, failing at the first missing key |
| Day08.LookupSnoc | day08/day8.py:151-155 | reading one more pattern appends its digit, or fails |
| Day08.LookupFails | day08/day8.py:154 | once a lookup has failed the whole reading fails |
| Day08.DecimalRoundTrip | day08/day8.py:191 | joining digits and reading the number back gives a number below `10^n` whose last `n` digits are those digits |
| Day08.ReadLine | day08/day8.py:169-170 | one line's signals decoded and its outputs read with that map |
| Day08.PartA | day08/day8.py:159-176 | the count is the number of output digits, over all lines, that are 1, 4, 7 or 8; `None` where a line raises, and on no lines, where the closing `print` reads the unbound `nums` |
| Day08.CountEasy | day08/day8.py:172-174 | the inner loop counts the digits of one line that are 1, 4, 7 or 8 |
| Day08.EasyLine | day08/day8.py:169-174 | one line raises exactly when its reading does, and otherwise adds its count of 1, 4, 7 and 8 to the running count |
| Day08.EasyTotalSnoc | day08/day8.py:168-174 | one more line adds its count, or raises |
| Day08.PartB | day08/day8.py:180-194 | the sum is that of the numbers the output digits spell, line by line; `None` where a line raises, including `int("")` for a line with no outputs |
| Day08.Combine | day08/day8.py:191 | `int` of the joined digits is their decimal value |
| Day08.NumberLine | day08/day8.py:189-192 | one line raises exactly when its reading does or has no digits, and otherwise adds the number its digits spell to the sum |
| Day08.ReadingTotalSnoc | day08/day8.py:188-192 | one more line adds its number, or raises |
| Day08.TotalFails | day08/day8.py:168-192 | once a line has raised, the whole part has raised |
| Day08Wiring.ShowsSize | day08/day8.py:35-50 | a pattern showing a digit has as many letters as that digit has segments |
| Day08Wiring.HitsByMultiset | day08/day8.py:68-77 | how often a segment is lit over the ten patterns does not depend on their order |
| Day08Wiring.StandardFrequencies | day08/day8.py:71-77 | over the ten digits the segments are lit 8, 6, 8, 7, 4, 9 and 7 times |
| Day08Wiring.FlattenCounts | day08/day8.py:62-66 | over patterns that show digits, each wiring letter occurs as often as its segment is lit, and no other letter occurs |
| Day08Wiring.LetterCounts | day08/day8.py:62-66 | on a scrambled line the letter dict holds exactly the wiring's letters, each counted with its segment's frequency |
| Day08Wiring.LastWithOnly | day08/day8.py:70-84 | a count held by a single letter is found by the scan |
| Day08Wiring.WiresFound | day08/day8.py:68-84 | on a scrambled line the scan finds the true top-left, bottom-left and bottom-right letters |
| Day08Wiring.KnownShows | day08/day8.py:89-96 | on a scrambled line every pattern has a valid length, and the slots of 1, 4, 7 and 8 hold patterns showing those digits |
| Day08Wiring.PatternSizes | day08/day8.py:35-50 | each pattern of a scrambled line has as many letters as its digit has segments |
| Day08Wiring.SlotSource | day08/day8.py:93-96 | a slot some pattern fills holds one of the patterns of that length |
| Day08Wiring.RemoveLit | day08/day8.py:109-134 | dropping the letters of some segments from a pattern lights the remaining segments |
| Day08Wiring.AppendLit | day08/day8.py:121-122 | appending the letter of an unlit segment lights it too |
| Day08Wiring.SingleLit | day08/day8.py:100 | a pattern of one segment is that segment's letter |
| Day08Wiring.SegmentAlgebra | day08/day8.py:98-134 | the facts the deductions rest on: 1 minus bottom-right is top-right, 4 minus top-left, top-right and bottom-right is the middle, 9 is 8 minus bottom-left, 5 is 9 minus top-right, 6 is 5 plus bottom-left, 3, 2 and 0 are 8 minus two or one segments |
| Day08Wiring.DeduceShows | day08/day8.py:98-134 | from correct patterns of 1, 4, 7 and 8 and the three counted letters the deductions fill every slot with a pattern of its own digit |
| Day08Wiring.DeduceIsSlots | day08/day8.py:98-134 | the deductions, with the counted letters correct, compute the slots stated on the wiring |
| Day08Wiring.TopRightFound | day08/day8.py:100 | dropping bottom-right from the pattern of 1 leaves the top-right letter |
| Day08Wiring.MiddleFound | day08/day8.py:109 | dropping top-left, top-right and bottom-right from the pattern of 4 leaves the middle letter |
| Day08Wiring.SlotsShow | day08/day8.py:112-134 | every slot of those deductions shows its own digit |
| Day08Wiring.NineFound | day08/day8.py:113 | 8 without bottom-left shows 9 |
| Day08Wiring.FiveFound | day08/day8.py:117 | 9 without top-right shows 5 |
| Day08Wiring.SixFound | day08/day8.py:121-122 | 5 with bottom-left appended shows 6 |
| Day08Wiring.EightMinus | day08/day8.py:126-134 | 8 without the right segments shows 3, 2 and 0 |
| Day08Wiring.SortedUnique | day08/day8.py:140-142 | two sorted strings with the same letters are equal |
| Day08Wiring.KeyIsLetters | day08/day8.py:140-154 | the sorted key of a pattern depends only on its letters and determines them |
| Day08Wiring.LitDetermines | day08/day8.py:138-154 | under one wiring, two patterns have the same letters exactly when they light the same segments |
| Day08Wiring.StandardDistinct | day08/day8.py:137-143 | no two digits light the same segments |
| Day08Wiring.DecodingRelabelled | day08/day8.py:52-143 | on a line whose ten signals are the ten digits under some wiring, `parse_signals` succeeds and maps the sorted letters of any pattern showing `d` to `d` |
| Day08Wiring.DecodedSlot | day08/day8.py:138-142 | when every slot shows its own digit, the key of a pattern showing `d` maps to `d` |
| Day08Wiring.ReadingRelabelled | day08/day8.py:146-157 | the outputs of such a line read as exactly the digits they show |
| Day08Wiring.PartsRelabelled | day08/day8.py:159-194 | on input the puzzle promises, `part_a` counts the 1s, 4s, 7s and 8s shown, and `part_b`, when every line has outputs, sums the numbers shown |
| Day08Wiring.EasyByLength | day08/day8.py:166-174 | counting the shown digits 1, 4, 7 and 8 is counting the output patterns of 2, 3, 4 and 7 letters |
| Day08Wiring.EasyDigit | day08/day8.py:35-50 | 1, 4, 7 and 8 are the digits whose number of segments no other digit has |
| Day09.LowMeansBelowNeighbours | day9/day9.py:37-44 | with heights below `sys.maxsize`, a cell passes the test exactly when it is lower than every neighbour on the map |
| Day09.LowInRowMembers | day9/day9.py:34-46 | the low points the scan of row `i` collects up to column `j` are exactly the low cells of that row before `j` |
| Day09.LowPointsMembers | day9/day9.py:33-46 | the low points collected over the first `i` rows are exactly the low cells of those rows |
| Day09.LowInRowParallel | day9/day9.py:45-46 | the values collected along a row are the heights at the points collected, position by position |
| Day09.LowPointsParallel | day9/day9.py:45-46 | over the whole map the two lists stay parallel: `low_point_vals[k]` is the height at `low_points[k]` |
| Day09.FindLowPoints | day9/day9.py:19-48 | `find_low_points` returns the row-major list of low points and their heights |
| Day09.LowPointsOfRow | day9/day9.py:34-46 | the inner loop over one row returns that row's low points and their heights |
| Day09.PartA | day9/day9.py:50-60 | the risk score is the number of low points plus the sum of their heights |
| Day09.LongerRowRisk | day9/day9.py:28-46 | a row longer than the first is read only up to the first row's width: `[[1], [2, 0]]` has the one low point `(0, 0)` and risk 2 |
| Day09.BlockedGrows | day9/day9.py:70 | a cell that is refused stays refused once more cells are visited |
| Day09.PartialStart | day9/day9.py:73-74 | after appending and marking the start cell the fill's invariant holds |
| Day09.PartialStep | day9/day9.py:76-79 | a finished recursive call on a neighbour keeps the fill's invariant |
| Day09.PartialDone | day9/day9.py:62-79 | after the four recursive calls the cells appended are a complete fill from the start cell |
| Day09.Ff | day9/day9.py:62-79 | `ff` appends to the basin exactly the cells it newly marks, each accepted by the guard when reached, none twice, each a neighbour of an earlier one, and leaves every neighbour of them refused; it appends nothing exactly when the start cell is refused |
| Day09.Spread | day9/day9.py:73-79 | on an accepted cell, appending and marking it and recursing in all four directions is such a complete fill |
| Day09.Recurse | day9/day9.py:76-79 | recursing in the remaining directions completes the fill begun at the cell |
| Day09.Mark | day9/day9.py:74 | marking a cell adds exactly that cell to the visited set |
| Day09.Visit | day9/day9.py:76-79 | one recursive call keeps the fill's invariant and leaves its target refused |
| Day09.BasinIsRegion | day9/day9.py:62-79 | a fill from a fresh visited grid holds each cell at most once, only cells the guard accepts, and every cell reachable from the start by a walk of neighbours the guard accepts; `prev` is passed on unchanged (-1 from `part_b`), so on digit heights the guard rejects only cells off the map, visited, or of height 9 |
| Day09.Unvisited | day9/day9.py:95 | the fresh visited grid has the map's size and nothing marked |
| Day09.BasinSizes | day9/day9.py:92-96 | one basin per low point, in order, each a complete fill from that point with prev = -1, and its length recorded |
| Day09.Basin | day9/day9.py:94-95 | one round of that loop: `ff` from the low point with an empty basin and a fresh visited grid gives a complete fill from that point with prev = -1 |
| Day09.Largest3 | day9/day9.py:99 | `nlargest(3, ...)` keeps three values, or all of them when fewer |
| Day09.Largest3Largest | day9/day9.py:99 | the kept values come from the list, and no value left out is larger than one kept |
| Day09.PartB | day9/day9.py:81-102 | the answer is the product of the three largest basin sizes, one complete fill per low point |
| Day10.Closer | day10/day10.py:8-13 | `char_map` takes each of the four openers to a character that is not an opener |
| Day10.ScoreLineA | day10/day10.py:39-47 | the inner loop of `part_a` yields the summed values of the line's mismatched closers, going on after each mismatch, or the error an empty-stack `pop` or an unknown character raises |
| Day10.PartA | day10/day10.py:23-48 | the score is the sum of the line scores; any raised error ends the part |
| Day10.EveryMismatchScores | day10/day10.py:40-47 | a line with two mismatches scores both: `(<)]` scores 3 + 57 |
| Day10.CleanIffOpen | day10/day10.py:39-47 | part_a scores a line 0 exactly when part_b's scan of it (lines 66-75) neither raises nor stops at a mismatch, and a line on which part_b's `pop` raises makes part_a raise too |
| Day10.TotalCleanIffOpen | day10/day10.py:37-48 | part_a's total is 0 exactly when no line is corrupt or raises in part_b's scan |
| Day10.ScanB | day10/day10.py:66-76 | the stack left by `part_b`'s scan holds only openers |
| Day10.ScanLineB | day10/day10.py:66-76 | the inner loop of `part_b` stops at the first mismatch (corrupt line), raises on a closer with an empty stack, or returns the stack of unclosed openers |
| Day10.ScanBAppend | day10/day10.py:68-76 | scanning a line in two pieces is scanning the second from the stack the first leaves |
| Day10.Closing | day10/day10.py:80 | `closing_chars` has one closer per stacked opener, innermost first |
| Day10.ClosingCompletes | day10/day10.py:79-80 | the closing characters close every stacked opener with no mismatch |
| Day10.CompletedLineScansClean | day10/day10.py:78-80 | an incomplete line followed by its closing characters is a complete, valid line |
| Day10.CompletionScore | day10/day10.py:83-84 | the comprehension computes the base-5 fold `score * 5 + value` of the closing characters |
| Day10.ScoreLastDigit | day10/day10.py:55-60 | the last closer is the non-zero lowest base-5 digit of the score |
| Day10.ScoreInjective | day10/day10.py:55-84 | two completions with the same score are the same completion |
| Day10.ClosingIsClosers | day10/day10.py:80 | the closing characters are all closers |
| Day10.LineEntry | day10/day10.py:66-85 | one line adds its completion score exactly when it is incomplete and not corrupt, and raises exactly when its scan does |
| Day10.Middle | day10/day10.py:89-90 | the result is the element at index `len // 2` of a sorted permutation of the scores |
| Day10.PartB | day10/day10.py:50-91 | the answer is the middle of the sorted completion scores of the incomplete lines; there is none exactly when a line raises or no line is incomplete |
| Day11.FlashesLeast | day11/day11.py:12-32 | the positions that flash in a step lie in every set that contains each position it would ignite (level plus one plus one per flashing neighbour reaching 10) |
| Day11.FlashesFixed | day11/day11.py:22-32 | a position flashes in a step exactly when its level, one, and one for each flashing neighbour reach 10 |
| Day11.AfterValid | day11/day11.py:23-26 | after a step every level is again a digit on the same positions: a position below 10 keeps its raised level, and one that flashed is 0 |
| Day11.FlashesBound | day11/day11.py:26-27 | a step flashes each position at most once |
| Day11.FlashTotalBound | day11/day11.py:42-51 | `n` steps flash at most `n` times per position |
| Day11.Flood | day11/day11.py:12-32 | `ff` returns `flashed` followed by the positions that flash in the call (the first being `(x, y)` when it is on the grid, unflashed and at 9 or more); off the grid or at an already flashed 0 nothing changes; every unflashed position ends at its level before, plus one when it is `(x, y)`, plus one per neighbour that flashed in the call; and each new flash had reached 10 through those raises |
| Day11.Flash | day11/day11.py:26-32 | the flashing branch: `(x, y)` is set to 0 and appended, and the raises of its eight neighbours and of the flashes they cause follow |
| Day11.Spread | day11/day11.py:30-32 | the loop over the eight directions raises each neighbour once and adds one raise per new flash to the positions around it, each new flash caused by those raises |
| Day11.SpreadTo | day11/day11.py:31-32 | one recursive call adds the raise for its direction to those of the earlier directions |
| Day11.TracksRaise | day11/day11.py:31-32 | the levels reached so far can serve as the base levels of the next call |
| Day11.Compose | day11/day11.py:31-32 | the raises and causes of two successive calls add up to those of both |
| Day11.NotFlashedYet | day11/day11.py:18-26 | a position that reaches the flashing branch is not yet in `flashed` |
| Day11.Shrinks | day11/day11.py:26-27 | each flash leaves fewer unflashed positions, which is why the recursion ends |
| Day11.StepAt | day11/day11.py:48-50 | a call of `ff` from the step loop adds its own raise to those of the positions visited before it |
| Day11.Step | day11/day11.py:47-50 | one step of `ff` over every position in row-major order flashes exactly the positions the least fixed point gives and leaves exactly the levels the step function gives; a position is then 0 exactly when it flashed |
| Day11.StepResult | day11/day11.py:47-50 | once every position was visited, the flashes recorded are the least closed set and the levels are those of one step |
| Day11.AllFlashed | day11/day11.py:62-73 | a step flashes at most `rows * cols` positions, and exactly that many when every position flashed |
| Day11.CellsCard | day11/day11.py:62 | the grid has `rows * cols` positions |
| Day11.DistinctElements | day11/day11.py:51 | a list of distinct positions has as many elements as its length |
| Day11.SyncStep | day11/day11.py:65-73 | one step's flash count is the size of that step's flash set, at most `rows * cols`, and reaches it exactly when the grid is left all 0 |
| Day11.PartA | day11/day11.py:35-53 | the grid ends at the levels after 100 steps and the answer is the sum over those steps of each step's number of flashes, at most one per position and step |
| Day11.SearchStep | day11/day11.py:65-73 | one round of the `while` loop moves the grid one step on and reports whether that step flashed every position |
| Day11.FirstSync | day11/day11.py:63-75 | the `while` loop returns the first step, within the limit, that flashes every position, leaving the grid all 0, and `None` when no step up to the limit does |
| Day11.PartB | day11/day11.py:55-75 | the answer is the first step that flashes every position, when one does within the limit, leaving the grid all 0; `None` when none does, or when the grid has no rows and `len(grid[0])` raises |
| Day12.BigNames | day12/day12.py:14 | `Node.big`: "start" and "end" are small, and other names are big exactly when `isupper` holds: some upper-case letter and no lower-case one (`LN`, `A-1` big; `dc`, `kW`, `12` small) |
| Day12.AddEdge | day12/day12.py:31-42 | one line `a-b` gives both names a node if they lack one and no other node is added |
| Day12.BuildGraph | day12/day12.py:29-44 | the edge loop of `parse_input` builds the graph of the lines, line by line |
| Day12.BuildIsNeighbours | day12/day12.py:29-44 | the graph has a node for every name on the lines and no other, and each node's edges are, in line order, the other end of every line it is on |
| Day12.AddEdgeAt | day12/day12.py:41-42 | one line appends to a node's edges only the other end, one copy per end the node is |
| Day12.NeighboursOutside | day12/day12.py:35-38 | a name on no line has no edges |
| Day12.BuildSymmetric | day12/day12.py:41-42 | edges are undirected: `b` occurs among the edges of `a` as often as `a` among those of `b` |
| Day12.NeighboursSymmetric | day12/day12.py:41-42 | the same count symmetry, stated on the lines |
| Day12.BuildClosed | day12/day12.py:35-42 | every edge leads to a node of the graph |
| Day12.SlackStep | day12/day12.py:56-61 | passing a big cave keeps the allowance of small-cave visits, passing a small one uses one up |
| Day12.RemoveFirst | day12/day12.py:65 | `list.remove` drops exactly one occurrence of the cave |
| Day12.Dfs | day12/day12.py:46-66 | `dfs` restores `visited` as a multiset and returns the number of paths to the goal that pass small caves at most once |
| Day12.DfsEdges | day12/day12.py:62-63 | the loop over the edges adds up the counts from each edge |
| Day12.DfsB | day12/day12.py:79-104 | `dfs_b` restores `visited` and adds to `paths` exactly the completions from `curr` under the rule for `small` |
| Day12.DfsBEdges | day12/day12.py:101-104 | the loop over the edges adds the completions through each edge |
| Day12.PartA | day12/day12.py:68-77 | `None` exactly when "start" or "end" is missing (the `KeyError` of `graph[...]`); otherwise the count returned by `dfs`, which equals the number of distinct recorded start-to-end paths visiting each small cave at most once when no edge is listed twice |
| Day12.PartB | day12/day12.py:106-124 | `None` exactly when there is a small cave other than start and end and "start" or "end" is missing (the `KeyError` inside the loop); otherwise `paths` holds exactly the start-to-end paths allowed by the rule for some such small cave, and the answer is their number (0 when there is none) |
| Day12.RouteCons | day12/day12.py:53-63 | a route of two or more caves is a first step followed by a route from the cave it reaches |
| Day12.CompletionsAllMember | day12/day12.py:102-103 | a path is recorded through the edge list exactly when it is recorded through one edge |
| Day12.CompletionsAreRoutes | day12/day12.py:79-104 | the paths `dfs_b` records from `curr` are exactly `visited` continued by a route from `curr` that follows edges, ends at the goal, and never passes a cave the rule refuses |
| Day12.ContinuesCons | day12/day12.py:101-103 | a continuation through `curr` is a continuation from a neighbour with `curr` appended to `visited` |
| Day12.RankStep | day12/day12.py:101-103 | each recursive call is made at a lower rank, so the search ends when no two big caves are adjacent |
| Day12.SoundStep | day12/day12.py:101-103 | a path recorded from a cave other than the goal is recorded from a neighbour the rule allows |
| Day12.CompleteStep | day12/day12.py:101-103 | a path recorded from an allowed neighbour is recorded from the cave |
| Day12.RoutesSound | day12/day12.py:86-104 | every recorded path is a route |
| Day12.RoutesComplete | day12/day12.py:86-104 | every route is recorded |
| Day12.CountIsRoutes | day12/day12.py:46-66 | with no edge listed twice, `dfs`'s count is the number of paths `dfs_b` records with the goal itself as the cave allowed twice, that is the routes meeting each small cave once |
| Day12.CountAllIsRoutes | day12/day12.py:62-63 | over an edge list without repeats the counts add up to the number of distinct paths through them |
| Day13.Take | day13/day13.py:70 | the slice `s[0:i]` keeps the first `i` elements, or all when there are fewer |
| Day13.Drop | day13/day13.py:71 | the slice `s[i:]` keeps what follows the first `i` elements, or nothing |
| Day13.Reverse | day13/day13.py:74 | `np.flip` puts element `i` at position `len - 1 - i` |
| Day13.AddRow | day13/day13.py:75 | element-wise `+` of two rows of one length adds them position by position |
| Day13.AddRowB | day13/day13.py:86 | `+` of rows under numpy broadcasting has the broadcast length |
| Day13.AddRowsB | day13/day13.py:75 | `+` of two stacks of rows under broadcasting keeps the width and has the broadcast number of rows |
| Day13.FoldY | day13/day13.py:68-78 | a 'y' fold succeeds exactly when the kept rows and the flipped rows below the fold line have broadcast-compatible counts, and keeps the width |
| Day13.FoldX | day13/day13.py:79-89 | an 'x' fold succeeds exactly when the two column halves are broadcast-compatible, and keeps the number of rows |
| Day13.DoFold | day13/day13.py:64-91 | `do_fold` picks the fold by axis and returns a well-formed array |
| Day13.FoldYInHalf | day13/day13.py:68-78 | folding an odd number of rows at the middle gives half the rows, each cell plus its mirror across the fold row |
| Day13.FoldXInHalf | day13/day13.py:79-89 | folding an odd width at the middle gives half the columns, each cell plus its mirror across the fold column |
| Day13.FoldYDots | day13/day13.py:68-78 | with no negative cells, a cell after a fold in half along a row shows a dot exactly when it or its mirror did |
| Day13.FoldXDots | day13/day13.py:79-89 | the same for a fold in half along a column |
| Day13.DotsAppend | day13/day13.py:102-105 | the dot count of stacked rows is the sum of the counts |
| Day13.DotsReverse | day13/day13.py:74 | flipping does not change the dot count |
| Day13.DotsAdd | day13/day13.py:75 | adding two non-negative arrays gives at most the dots of both |
| Day13.FoldYNoNewDots | day13/day13.py:68-78 | a fold in half along a row never adds dots |
| Day13.FoldXNoNewDots | day13/day13.py:79-89 | a fold in half along a column never adds dots |
| Day13.CountDots | day13/day13.py:102-105 | the loop counts the cells greater than 0 |
| Day13.MarkPoints | day13/day13.py:36-59 | the loops build exactly the `Marking` of the points: one row past the largest second coordinate, one column past the largest first, 1 exactly at the listed points and 0 elsewhere |
| Day13.Marking | day13/day13.py:46-59 | the marked array has `Height` rows of `Width` cells, holds 1 exactly at the listed points and none negative |
| Day13.MarkingShape | day13/day13.py:46-48 | the array is the smallest holding every point: each point is inside it, and some point lies on its last row and some on its last column |
| Day13.PartA | day13/day13.py:93-107 | the answer is the dot count of the `Marking` of the points after the first fold; `None` where the source raises: no folds (`folds[0]`), a fold that raises, or a folded array with no cells (`np.nditer`); a fold in half never shows more dots than the marked array |
| Day13.FoldAtTopEmpty | day13/day13.py:68-75 | a 'y' fold at 0 on two rows succeeds but leaves an array with no cells |
| Day13.FoldAll | day13/day13.py:115-118 | applying the folds in order keeps the array well formed |
| Day13.PartB | day13/day13.py:109-118 | the loop applies every fold in order, the first one that raises ending the part |
| Day13.SingleRowBroadcasts | day13/day13.py:70-75 | with a single row after the fold line and two before it, numpy adds that row to both kept rows |
| Day14.Formula.constructor | day14/day14.py:9-12 | the formula holds the given polymer and rules |
| Day14.Formula.DoInsertion | day14/day14.py:30-45 | `do_insertion` replaces the polymer by the one-step insertion of the old polymer and leaves the rules alone |
| Day14.InsertedLength | day14/day14.py:36-43 | a step lengthens the polymer by the number of adjacent pairs that have a rule |
| Day14.InsertedEnds | day14/day14.py:39-43 | a step keeps the first and the last character |
| Day14.InsertedPositions | day14/day14.py:36-43 | the old polymer is an order-preserving subsequence of the new one, and a ruled pair gets its rule's character between its two characters |
| Day14.PairsAt | day14/day14.py:83-85 | the pairs of a polymer are its adjacent characters, one fewer than its length |
| Day14.BindAdd | day14/day14.py:92-101 | summing a pair counter's expansions does not depend on the order of its keys |
| Day14.BindSeq | day14/day14.py:92-101 | summing over a list's multiset is summing over the list |
| Day14.AddTo | day14/day14.py:85 | `counter[k] += n` raises the count of `k` by `n`, leaves the others, and adds `k` as a key |
| Day14.AddToRepresents | day14/day14.py:97-101 | a counter of a multiset updated by `+= n` counts that multiset with `n` more copies |
| Day14.GetFound | day14/day14.py:92 | every key with a positive count is an entry of the counter |
| Day14.EntriesBindIsBind | day14/day14.py:92-101 | the loop over a counter's entries computes the sum over the multiset it counts |
| Day14.KeyCounted | day14/day14.py:92 | a key of a counter of a multiset occurs in it with the key's count |
| Day14.CountedKey | day14/day14.py:92 | every element of the multiset is a key of its counter |
| Day14.PairsOfInserted | day14/day14.py:89-104 | with a rule for every pair, the pairs after a step are those each old pair expands into: its first character with the inserted one, and the inserted one with its second |
| Day14.PairHeads | day14/day14.py:106-113 | the first characters of all pairs plus the last character are the polymer's characters |
| Day14.PairCountDoubles | day14/day14.py:89-104 | with a rule for every pair, a step doubles the number of pairs |
| Day14.AllRuledCount | day14/day14.py:36-43 | with a rule for every pair, a step inserts one character per pair |
| Day14.IterateEnds | day14/day14.py:111-113 | after any number of steps the polymer still ends with its original last character |
| Day14.CountPairs | day14/day14.py:79-85 | `pair_counter` starts as the counts of the polymer's adjacent pairs |
| Day14.Step | day14/day14.py:89-104 | one step of `part_b` turns the counts of a polymer's pairs into the counts of the pairs after the list step, doubling the total, and raises exactly when some pair has no rule |
| Day14.PairSteps | day14/day14.py:89-104 | `n` counter steps count the pairs of the polymer `n` list steps build, and raise exactly when the polymer of some step before `n` has a pair without a rule |
| Day14.KeyIsPair | day14/day14.py:92-97 | a key of the pair counter is a pair of the polymer |
| Day14.StepEntry | day14/day14.py:97-101 | the two `+=` of one iteration add the key's count to both pairs its insertion forms |
| Day14.SpreadPairs | day14/day14.py:91-101 | the loop over the pair counter stops only at a pair of the polymer without a rule, and otherwise counts each pair of the next polymer |
| Day14.StepDone | day14/day14.py:92-104 | a loop that found a rule for every key found one for every pair, and its result counts the pairs after the step |
| Day14.EntriesSingleSize | day14/day14.py:106-109 | the counts of a counter add up to the size of the multiset it lists |
| Day14.RepresentsTotal | day14/day14.py:106-113 | a counter of a list's elements counts as many elements as the list has |
| Day14.CountHeads | day14/day14.py:107-109 | `char_counter` counts every character but the last |
| Day14.HeadEntry | day14/day14.py:109 | one iteration adds the pair's count to its first character |
| Day14.HeadsDone | day14/day14.py:108-109 | the loop's result counts every character before the last |
| Day14.CountChars | day14/day14.py:59 | `Counter(polymer)` counts each character of the polymer |
| Day14.MaxCount | day14/day14.py:59-60 | the count of `most_common()[0]` is at least every count and is one of them |
| Day14.MinCount | day14/day14.py:61 | the count of `most_common()[-1]` is at most every count and is one of them |
| Day14.MostOften | day14/day14.py:59-60 | the largest frequency in the polymer of any of the given characters, attained by one of them |
| Day14.LeastOften | day14/day14.py:61 | the smallest such frequency, attained by one of them |
| Day14.CounterSpread | day14/day14.py:59-63 | for a counter of a polymer's characters, most common minus least common is the polymer's spread |
| Day14.PartA | day14/day14.py:48-65 | ten list steps leave the polymer of ten insertions, and the result is its most minus its least frequent character count |
| Day14.PartB | day14/day14.py:68-119 | forty counter steps give the character counts, total and spread of the polymer forty list steps would build; the part raises exactly when at some step a pair has no rule |
| Day14.LastCharacter | day14/day14.py:111-113 | adding one for the last character completes the count of the polymer's characters |
| Day15.Neighbours | day15/day15.py:25-46 | `get_neighbors` returns at most four cells, each one step from the cell, listed up, down, left, right; for a cell of the grid they are exactly its neighbours on the grid |
| Day15.NeighboursDistinct | day15/day15.py:34-44 | the neighbours are distinct and never the cell itself |
| Day15.PathSnoc | day15/day15.py:78 | extending a walk by a neighbour of its end adds that neighbour's risk level |
| Day15.ReachableSnoc | day15/day15.py:124-126 | a cost reached at a cell plus a neighbour's level is a cost reached at that neighbour |
| Day15.PrefixPath | day15/day15.py:81 | a prefix of a walk is a walk to its own last cell |
| Day15.PrefixRisk | day15/day15.py:78-80 | a prefix of a walk costs no more than the walk |
| Day15.StraightPath | day15/day15.py:160-174 | every cell reaches every other along a row and then a column, by a walk whose risk is at most 9 times the number of steps for digit levels; `Day15.PartA` uses this to show the end cell's cost is below `sys.maxsize` |
| Day15.BumpTimesMod | day15/day15.py:148 | for levels 1 to 9 the wrap-around increment repeated `k` times is a shift modulo 9 |
| Day15.BumpTimesRange | day15/day15.py:148 | the increment keeps levels in 1 to 9 |
| Day15.BlockIsQuotient | day15/day15.py:138-147 | the tile of a row or column and its place in the tile are the quotient and remainder of division by the grid's size |
| Day15.ExpandGraph | day15/day15.py:132-156 | `expand_graph` returns a grid five times as tall and as wide whose cell `(r, c)` is the original cell at the same place in its tile, incremented once per tile down and once per tile right, 9 wrapping to 1 |
| Day15.CopyRight | day15/day15.py:151-154 | the second pass over a row sets each cell right of the first tile to the cell one tile to its left, incremented |
| Day15.CopyDown | day15/day15.py:142-148 | the first pass copies a cell down the first tile column, incremented once per tile |
| Day15.ExpandedTopLeft | day15/day15.py:145 | the top-left tile of the expansion is the original grid |
| Day15.ExpandedClosedForm | day15/day15.py:142-154 | for levels 1 to 9 the expanded level at `(r, c)` is `(level - 1 + r / rows + c / cols) % 9 + 1` |
| Day15.ExpandedInRange | day15/day15.py:148-154 | every expanded level outside the top-left tile is in 1 to 9 |
| Day15.Expansion | day15/day15.py:132-156 | the expansion of a grid, cell by cell |
| Day15.ExpansionUnique | day15/day15.py:132-156 | a grid has one expansion |
| Day15.ExpansionShape | day15/day15.py:136 | the expansion is a rectangular grid five times as tall and as wide, of digits when the input's are |
| Day15.RowMajorCells | day15/day15.py:53-56 | the list of cells has rows times columns entries |
| Day15.RowMajorCellsAre | day15/day15.py:53-56 | it holds exactly the cells of the grid, each once, in increasing row-major order |
| Day15.CellList | day15/day15.py:53-56 | the nested loops build that row-major list |
| Day15.InitialCosts | day15/day15.py:58-65 | every listed cell starts at `sys.maxsize`, the start at 0, and no other cell has a cost |
| Day15.FirstMin | day15/day15.py:68-73 | the scan picks an unvisited cell of least cost, the first such in list order |
| Day15.IndexOf | day15/day15.py:83 | the first position of a cell in the list |
| Day15.RemoveFirst | day15/day15.py:83 | `list.remove` drops the first occurrence and keeps the rest in order |
| Day15.Relax | day15/day15.py:75-81 | each neighbour reached through the selected cell more cheaply than its cost gets that cost and the selected cell as previous node; every other cost and previous node is unchanged |
| Day15.SelectedIsFinal | day15/day15.py:67-73 | with levels never negative, the unvisited cell of least cost has the lowest cost of any walk to it |
| Day15.RemoveFromIncreasing | day15/day15.py:83 | removing a cell from the increasing list drops just that cell and keeps it increasing |
| Day15.RoundCosts | day15/day15.py:75-81 | a round changes no settled cost and lowers no cost below 0 |
| Day15.RoundFinal | day15/day15.py:67-83 | after a round every settled cell has the lowest cost |
| Day15.RoundEdges | day15/day15.py:75-81 | after a round each neighbour of a settled cell costs at most the settled cost plus its level |
| Day15.RoundSound | day15/day15.py:75-81 | every finite cost is the risk of some walk from the start |
| Day15.RoundPrevious | day15/day15.py:79-81 | each previous node is a settled neighbour whose cost plus the cell's level is the cell's cost |
| Day15.DijkstraStep | day15/day15.py:67-83 | one round of the loop keeps the search invariant with the selected cell settled |
| Day15.DijkstraInit | day15/day15.py:53-65 | the invariant holds before the first round |
| Day15.Dijkstra | day15/day15.py:48-85 | `dijkstra` runs one round per cell and returns for every cell a cost no walk undercuts, which for finite costs is the risk of a walk, and previous nodes that are neighbours whose cost plus the cell's level is the cell's cost |
| Day15.LeastExists | day15/day15.py:118 | a non-empty frontier has a least cell in row-major order |
| Day15.Pop | day15/day15.py:118 | `frontier.get` takes out one entry of the least cell, leaving the rest |
| Day15.Lowered | day15/day15.py:123-129 | lowering costs and adding cells never raises the number of unpriced cells, and a new cell or a lowered cost lowers the measure |
| Day15.BetterSnoc | day15/day15.py:125 | a neighbour is repriced exactly when it has no cost or is cheaper through the cell taken |
| Day15.ExploredAdd | day15/day15.py:125-129 | repricing a neighbour gives it the new cost, puts it on the frontier and records the cell it came from |
| Day15.ExploredKeep | day15/day15.py:125 | a neighbour not repriced is left alone |
| Day15.Explore | day15/day15.py:123-129 | the loop over the neighbours reprices exactly the neighbours better reached through the cell taken, pushes each on the frontier with the cell as its previous one, and leaves the rest |
| Day15.ExploreMeasure | day15/day15.py:123-129 | exploring either changes nothing or lowers the measure of the search, so the loop ends |
| Day15.StepPriced | day15/day15.py:123-129 | after exploring, costs stay on grid cells with the start at 0, never rise, and only repriced cells change |
| Day15.StepSound | day15/day15.py:124-126 | every cost stays the risk of some walk from the start |
| Day15.StepLinked | day15/day15.py:129 | previous cells stay priced neighbours that cost at most the cell's cost less its level |
| Day15.ClosedAtCurr | day15/day15.py:123-128 | after exploring, every neighbour of the cell taken costs at most its cost plus the neighbour's level |
| Day15.ClosedElsewhere | day15/day15.py:123-128 | cells explored earlier keep that property, since costs only fall |
| Day15.SearchStep | day15/day15.py:117-129 | one round of the loop keeps the search invariant |
| Day15.ClosedWalk | day15/day15.py:117-129 | a walk from the start whose cells but the last are off the frontier ends at a priced cell costing at most the walk |
| Day15.LastIsGreatest | day15/day15.py:185 | no grid cell comes after the bottom-right one |
| Day15.FirstArrival | day15/day15.py:118-121 | any walk to the bottom-right goal has a prefix, no dearer, that avoids the frontier before its end |
| Day15.GoalSettled | day15/day15.py:118-121 | when the cell taken off the frontier is the bottom-right goal, its cost is the lowest of any walk |
| Day15.FrontierEmpty | day15/day15.py:117 | when the frontier runs empty every grid cell is priced at its lowest risk |
| Day15.NeighboursListed | day15/day15.py:123 | the neighbours of a grid cell are distinct grid cells, all of its neighbours |
| Day15.Astar | day15/day15.py:96-130 | `astar` returns costs on grid cells, each the risk of some walk, with the start at 0 and previous cells that are priced neighbours; for the bottom-right goal its cost is the lowest risk of any walk |
| Day15.LowestRiskUnique | day15/day15.py:172 | two lowest risks between the same cells are equal |
| Day15.PartA | day15/day15.py:160-174 | no walk from the top-left to the bottom-right cell is cheaper than the answer, which is the lowest risk when finite, and is finite for digit grids |
| Day15.PartB | day15/day15.py:177-189 | the answer is the lowest risk of a walk across the grid expanded five times each way |

## Left out

- File reading, `parse_input` text splitting and every `print` are I/O. The closing `print` of Day08.PartA, which raises when there are no lines, is modelled. The models take the parsed values: lists of ints, strings and grids. Day 5 is the exception: its line parser is modelled.
- Timing with `time.time()` (day 6) is left out.
- `day2/day2.py` and `template.py` are not part of this model.
- Day01.CountIncreases: `int(line)` is not modelled; the readings arrive as ints.
- Day03.ParseBin, Day03.PartB: `int(s, 2)` is modelled as accepting exactly the non-empty strings of '0' and '1'. Python's `int` also accepts surrounding whitespace, a sign, underscores between digits and a `0b` prefix, which a report line of this puzzle never has.
- Day03.PartA: `int(s, 2)` is modelled on strings of '0' and '1'. The requires ask for a non-empty first line that no other line is longer than. A longer line makes `zeros[i]` raise, and an empty first line makes `int('', 2)` raise.
- Day04.FindLosingBoard: requires the boards to be distinct objects, as `parse_input` makes them. When no board wins, the source crashes on `None.rows`; that is modelled as `None`.
- Day04.ParseCols, Day04.Board.constructor: require a non-empty board with no row shorter than the first. On an empty board `input[0]` raises `IndexError`, and `parse_input` builds one when the input ends with a blank line; a shorter row raises it at `input[k][i]`. Neither error is modelled.
- Day05.ParseFormat: coordinates are parsed as plain digit strings. `int` also accepts a sign, underscores and surrounding whitespace, which puzzle input never has.
- Day05.PartB: requires every diagonal segment to be at 45 degrees. On other slopes the source's loop marks cells off the segment or indexes outside the grid.
- Day06.PartA, Day06.PartB: the number of days is a parameter, not the constants 80 and 256. Part B requires timers below the number of days (`[0] * days` is indexed by them). It accepts negative timers the way Python's negative indexing does.
- Day07.PartA, Day07.PartB: `statistics.median` and the rounded mean are inputs, given as integer targets. The median of an even-length list can be a `.5` float, and floats are not modelled. Day07.MedianMinimizesAbsCost proves that either middle element is a best target.
- Day08.PartB and the rest of `Day08`: a Python `dict` is an association list in insertion order. The unused top segment `t` is computed by the source but not modelled. `int` of the joined digits is their decimal value.
- Day08Wiring.DecodingRelabelled: assumes an honest line, a wiring of seven distinct letters showing each digit once. On other input `Day08` models what the source does.
- Day09.FindLowPoints, Day09.PartA, Day09.BasinSizes, Day09.PartB: require a non-empty map whose rows are at least as long as the first. On an empty map `len(data[0])` raises `IndexError`, and a shorter row raises it at `data[i][j]`. Longer rows are modelled, their extra heights unread.
- Day09.PartB: `heapq.nlargest(3, ...)` is modelled as the last three of the sorted list. The product does not depend on their order.
- Day11.PartB, Day11.FirstSync: the source's `while(1)` loop has no bound. The model takes a step limit and returns `None` when it is reached, as it does for the `IndexError` of a grid without rows.
- Day11.Step, Day11.PartA, Day11.PartB: the grid is an `array2`, so rows of different widths are not modelled: `ff` bounds `y` by `len(grid[0])` while the step loops use `len(grid[x])`.
- Day11.Step, Day11.PartA, Day11.PartB: levels are required to be digits, as `int(c)` of the characters of a puzzle line gives them.
- Day12.IsUpper, Day12.Big, Day12.BigNames: `str.isupper` is modelled on ASCII letters only. Python also counts other cased letters, so `"É".isupper()` is true while the model calls such a cave small.
- Day12.Dfs, Day12.DfsB, Day12.PartA, Day12.PartB: require that no two big caves are joined anywhere in the graph, whenever a search runs: PartA needs this only when "start" and "end" exist, and PartB only when there is also a small cave; otherwise each returns its `KeyError` `None`, or 0, without it. When the search reaches two joined big caves the recursion never ends on its own, and CPython stops it with a `RecursionError` at its recursion limit. The requires also excludes graphs whose joined big caves the search from "start" never reaches, on which the source ends: lines `start-end` and `A-B` give 1 in `part_a`. The model's termination measure is stated over the whole graph, so these inputs are not modelled. Paths are lists of names, not the `",".join` strings. The two differ only when a cave name contains ','.
- Day13.Fold, Day13.PartA, Day13.PartB: a fold index is a `nat`. A negative `int(idx)` is not modelled: Python slices `graph[0:-k]` and `graph[-k+1:]` count such an index from the end.
- Day13.PartA: numpy floats are ints here, which is exact for these counts. That `np.nditer` raises `ValueError` on an array with no cells follows numpy's documentation (iterating zero-sized operands needs the `zerosize_ok` flag).
- Day14.PartA, Day14.PartB: rules map two-character strings to single characters. `most_common()` is modelled by the largest and the smallest count, since only the counts are used. Both require a non-empty polymer: on an empty template `polymer[-1]` raises `IndexError`.
- Day15.Dijkstra, Day15.Astar, Day15.PartA, Day15.PartB: require a rectangular grid (every row as long as the first). On a ragged grid the source's `get_neighbors` bounds columns by `len(graph[0])`, so a shorter row makes `graph[neighbor[0]][neighbor[1]]` raise `IndexError`, and the cells of a longer row are listed but never reached; neither is modelled.
- Day15.PartA, Day15.PartB: require a non-empty first row, since `len(data[0]) - 1` and `graph[0]` need one. The source's result is `sys.maxsize` for an unreached cell, 2^63 - 1 here.
- Day15.Astar: requires the start to lie in the grid. The `PriorityQueue` is a multiset of cells.
  - `heuristic` uses a float `math.sqrt` and is left out.
  - `astar` calls `frontier.put(next, priority)`, where the second argument is the queue's `block` flag, not a priority. So the queue orders cells by their tuple, row-major. The model pops that way, and the heuristic never affects the order.
  - The search is not a best-first search, so the model proves the goal's cost optimal only for the bottom-right goal that `part_b` passes. That cell comes last in row-major order, so when it is popped no other cell is left on the frontier.
