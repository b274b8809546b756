# Advent of Code solvers in Dafny

This project models the compute step of a set of PHP Advent of Code solvers
and proves properties of those models. Each solver reads a puzzle input,
computes one or two answers and prints them. Each modelled solver gets one
Dafny module in one file. The modules share two helper modules.

| file | module | puzzle |
|---|---|---|
| common.dfy | `Common` | option and result types, decimal digits, PHP's `%` and `range()` |
| text.dfy | `Text` | PHP string handling: `(string)`/`(int)` on naturals, `explode`/`implode`, `trim`, `ltrim($s, '0')` |
| location_lists.dfy | `LocationLists` | 2024/01: the distance and similarity of two sorted id columns |
| reports.dfy | `Reports` | 2024/02: report safety, and the dampener that retries three candidate removals |
| word_search.dfy | `WordSearch` | 2024/04: a word read in eight directions from every cell, tallied per direction, plus crossing diagonal pairs |
| page_order.dfy | `PageOrder` | 2024/05: updates sorted with the page-rule comparator, and the middle pages added up |
| guard_patrol.dfy | `GuardPatrol` | 2024/06: a guard walking straight to the next landmark and turning right; the distinct cells visited |
| equations.dfy | `Equations` | 2024/07: the operator tree `EquationMember`, `find`, and the two-phase calibration |
| antennas.dfy | `Antennas` | 2024/08: antinodes of same-frequency antenna pairs, with and without harmonics |
| disk_compaction.dfy | `DiskCompaction` | 2024/09: a disk map of file and space blocks, whole files spliced into free space, and the checksum |
| hiking_trails.dfy | `HikingTrails` | 2024/10: trails climbing from height 0 to 9, with their scores and ratings |
| stones.dfy | `Stones` | 2024/11: the stone rules, the stone memo and the line tally |
| garden_groups.dfy | `GardenGroups` | 2024/12: regions of same-letter plants claimed by a flood fill, and their prices |
| claw_machines.dfy | `ClawMachines` | 2024/13: the 2×2 system of a claw machine, solved with Cramer's rule, and the token cost |
| bathroom_robots.dfy | `BathroomRobots` | 2024/14: robots moving on a wrapping grid, the quadrant counts and the safety factor |
| chronospatial_computer.dfy | `ChronospatialComputer` | 2024/17: the three-register machine and its eight instructions |
| keys_locks.dfy | `KeysLocks` | 2024/25: schematic blocks read as locks or keys, and the pairs that fit |
| dial_lock.dfy | `DialLock` | 2025/01: a dial turned left and right; the turns that end on 0 |
| product_ids.dfy | `ProductIds` | 2025/02: ids made of one block of digits written twice, filtered from each range |
| battery_banks.dfy | `BatteryBanks` | 2025/03: the greedy choice of the largest joltage from a bank, and its optimality |
| paper_rolls.dfy | `PaperRolls` | 2025/04: rolls of paper with fewer than four neighbouring rolls |
| fresh_ranges.dfy | `FreshRanges` | 2025/05: ingredient ids against ranges, and the merge of the ranges into disjoint ones |
| worksheet.dfy | `MathWorksheet` | 2025/06: worksheet columns read left to right and right to left, summed or multiplied |
| junction_circuits.dfy | `JunctionCircuits` | 2025/08: the network database (`store`, `mergeNetworks`), and connecting boxes pair by pair |
| device_trails.dfy | `DeviceTrails` | 2025/11: trails written as `a->b->c`, and the memoised count of trails between two devices |

The PHP code mutates state in several ways: objects whose methods update
fields, arrays spliced in place, and memo tables. That state becomes a
Dafny `class` with `modifies` clauses. Each such method is proved equal to
a specification function over the old state, and the properties are
proved about that function. Pure helpers become functions. Loops become
methods with invariants.

Static PHP state becomes ordinary fields of one object. This covers the
page rules and the last corrected order of 2024/05, the output list and
jump target of 2024/17, and the trail-count memo of 2025/11. A run only
ever uses one instance, so nothing is lost. Time stamps and hashes serve
only as unique tokens:
- the `hrtime` certificate of 2024/12 is a clock value passed in;
- the `sha1` default id of a 2025/08 network is never used, because every network is built with its number;
- the `md5` trail hash of 2025/11 serves only `getTrailsTo`, which is left out.

## Model

| member | source | states |
|---|---|---|
| Common.PhpMod | 2025/01/puzzle01.php:100 | PHP's `%` keeps the sign of the dividend: the Euclidean remainder for a non-negative dividend, its negation for a negative one, and always strictly between `-m` and `m` |
| Common.PhpModWrap | 2025/01/puzzle01.php:100 | a negative PHP remainder plus the modulus is the Euclidean remainder |
| Common.PhpDiv | 2024/13/puzzle13.php:93-95 | `$top / $_denom` on an exact division, written as PHP's quotient rounded toward zero: quotient times divisor plus the remainder of the dividend's sign gives the dividend, and the quotient's size is that of the sizes' quotient |
| Common.Range | 2024/11/puzzle11.php:146 | `range($a, $b)` holds `b - a + 1` integers counting up from `a`, or counts down when `a > b` |
| Text.NatToString | 2024/11/puzzle11.php:276 | `(string) $n` is a non-empty digit string that starts with '0' only for the number 0 |
| Text.StringToNatOfNatToString | 2024/11/puzzle11.php:284 | reading back the decimal string of `n` gives `n` |
| Text.NatToStringOfStringToNat | 2024/11/puzzle11.php:423 | a digit string without a leading zero is the decimal string of its value |
| Text.StringToNatAppend | 2024/07/puzzle7.php:148 | the value of two digit strings joined is the first shifted by the length of the second plus the second |
| Text.NatToStringLength | 2024/11/puzzle11.php:411 | `n` has exactly as many digits as its decimal string: below `10^len` and, unless 0, at least `10^(len-1)` |
| Text.LtrimZeros | 2024/11/puzzle11.php:284 | `ltrim($s, '0')` is no longer than `s` and does not start with '0' |
| Text.LtrimZerosValue | 2024/11/puzzle11.php:284 | dropping leading zeros keeps a digit string's value |
| Text.TokenValueOfNat | 2024/11/puzzle11.php:284 | `(int) ltrim((string) $n, '0')` is `n` again |
| Text.DigitPrefix | 2024/01/puzzle1.php:11 | the leading digit run of `s`, a prefix of `s` made of digits only |
| Text.Explode | 2024/02/puzzle2.php:66 | `explode` never returns an empty list |
| Text.ExplodeCount | 2024/02/puzzle2.php:66 | `explode` gives one more piece than there are separators |
| Text.ExplodePieces | 2024/02/puzzle2.php:66 | no piece of `explode` holds the separator |
| Text.ImplodeExplode | 2024/11/puzzle11.php:318 | imploding the pieces of `explode` with the same separator gives the string back |
| Text.ExplodeImplode | 2024/11/puzzle11.php:318 | exploding the implosion of separator-free pieces gives the pieces back |
| Text.TrimLeft | 2024/02/puzzle2.php:73 | `ltrim` leaves no blank first character and never lengthens the string |
| Text.TrimRight | 2024/02/puzzle2.php:73 | `rtrim` leaves no blank last character and never lengthens the string |
| Text.TrimLeftDrops | 2024/02/puzzle2.php:73 | `ltrim` drops blanks only, and only from the front: what it returns is a suffix of the string, and every character before it is blank |
| Text.TrimRightDrops | 2024/02/puzzle2.php:73 | `rtrim` drops blanks only, and only from the end: what it returns is a prefix of the string, and every character after it is blank |
| Text.TrimKeeps | 2024/02/puzzle2.php:73 | `trim` leaves alone a string whose ends are not blank |
| DialLock.DirectionFrom | 2025/01/puzzle01.php:81-88 | "L" and "R" give the two directions, and every other string throws |
| DialLock.ParseInstructionString | 2025/01/puzzle01.php:33-41 | reading back the written form of an instruction (`__toString`, lines 76-79) gives the instruction again |
| DialLock.ParseInstructions | 2025/01/puzzle01.php:33-48 | the document parses exactly when every line matches; then there is one instruction per line, each the one its line reads as |
| DialLock.ParseDocument | 2025/01/puzzle01.php:33-41 | reading the written instructions, one per line, gives all of them back |
| DialLock.Position | 2025/01/puzzle01.php:97-103 | where the real dial points after the turns lies between 0 and the dial size |
| DialLock.Lock.Rotate | 2025/01/puzzle01.php:97-103 | the new dial is `(max + 1 + dial ± clicks)` under PHP's `%`, and the zero count goes up exactly when it is 0 |
| DialLock.Lock.RotateAll | 2025/01/puzzle01.php:43-48 | after every turn the dial stays within `(-size, size)` and is congruent to where the real dial points, and the zero count grows by the number of times the real dial reaches 0 |
| DialLock.Run | 2025/01/puzzle01.php:25-31 | the run fails exactly when some line does not parse; otherwise it gives the number of times a dial started at 50 on 0..99 points at 0 |
| DialLock.StepAgrees | 2025/01/puzzle01.php:100 | one PHP turn keeps the dial strictly within `(-size, size)` and on the real dial's position modulo `size` |
| DialLock.NegMod | 2025/01/puzzle01.php:100 | PHP's remainder of a negative dividend is congruent to the Euclidean one |
| DialLock.ZeroAgrees | 2025/01/puzzle01.php:101 | a dial within `(-size, size)` reads 0 exactly when the real dial does |
| DialLock.InRange | 2025/01/puzzle01.php:100 | a turn that does not go below zero leaves the dial in `0..max`, on the real dial's position |
| DialLock.NegativeDial | 2025/01/puzzle01.php:100 | from 50, a left turn by 200 leaves the PHP dial at -50 while the real dial points at 50 |
| DialLock.Lock.constructor | 2025/01/puzzle01.php:93-95 | a new lock holds the dial and the bounds it was given, and has counted no zero yet |
| BathroomRobots.GridSize | 2024/14/puzzle14.php:21-26 | the grid is 11 by 7 exactly for an input whose name starts with "test", 101 by 103 otherwise; both sizes are odd and positive |
| BathroomRobots.Wrap | 2024/14/puzzle14.php:137-141 | PHP's `%` followed by adding the size to a negative remainder gives the Euclidean remainder, in `0..size-1` |
| BathroomRobots.After | 2024/14/puzzle14.php:133-143 | a robot after `t` seconds is at `initial + t * speed` taken modulo the grid, inside the grid |
| BathroomRobots.Periodic | 2024/14/puzzle14.php:133-143 | after `cols * rows` more seconds every robot is back where it was |
| BathroomRobots.Positions | 2024/14/puzzle14.php:146-153 | the current positions, one per robot in order |
| BathroomRobots.AllAfter | 2024/14/puzzle14.php:133-143 | one position per robot, each that robot's place after `t` seconds |
| BathroomRobots.SetPositionsAfter | 2024/14/puzzle14.php:133-143 | every robot ends at its place after `t` seconds, whatever its position was before |
| BathroomRobots.QuadrantStepCounts | 2024/14/puzzle14.php:99-108 | one step of the reduce adds 1 to the count of the position's quadrant and to no other count, although the `===` middle test never holds |
| BathroomRobots.QuadrantCountsAre | 2024/14/puzzle14.php:99-108 | the reduce from `[0, 0, 0, 0]` counts, for each quadrant, the positions that lie in it |
| BathroomRobots.QuadrantOne | 2024/14/puzzle14.php:100-105 | a position is in no quadrant exactly when it is on a middle line, and otherwise in one of the four |
| BathroomRobots.CountsPartition | 2024/14/puzzle14.php:99-108 | the four quadrant counts and the robots on the middle lines add up to all robots |
| BathroomRobots.SafetyFactor | 2024/14/puzzle14.php:110 | the reduce from 1 multiplies the four counts |
| BathroomRobots.SafetyAfter100 | 2024/14/puzzle14.php:92-111 | the robots end at their places after 100 seconds, and the result is the product of the four quadrant counts of those places |
| BathroomRobots.Robot.constructor | 2024/14/puzzle14.php:150-153 | a new robot stands at its starting position and keeps its speed |
| LocationLists.ParseLineMatches | 2024/01/puzzle1.php:10-12 | a line of digits, white space, digits and perhaps a line feed matches, and its numbers are the values of the two digit runs |
| LocationLists.ParseLineShape | 2024/01/puzzle1.php:10 | every line that matches has that shape, with those two numbers |
| LocationLists.ParseLineOfNumbers | 2024/01/puzzle1.php:10-12 | two numbers written with a space between them read back as those numbers |
| LocationLists.ReadLocations | 2024/01/puzzle1.php:8-14 | the first list holds the first number of every matching line in order, the second list the second numbers, and the two lists have the same length |
| LocationLists.ColumnAppend | 2024/01/puzzle1.php:9-14 | the ids of two blocks of lines are those of the first block followed by those of the second |
| LocationLists.ColumnPermutation | 2024/01/puzzle1.php:9-14 | the lines in another order give the same ids in another order |
| LocationLists.Insert | 2024/01/puzzle1.php:19-20 | inserting adds exactly the one element |
| LocationLists.InsertSorted | 2024/01/puzzle1.php:19-20 | inserting into a sorted list keeps it sorted |
| LocationLists.Sort | 2024/01/puzzle1.php:19-20 | `sort()` returns a sorted permutation of the list |
| LocationLists.SortedUnique | 2024/01/puzzle1.php:19-20 | two sorted lists with the same elements are equal, so any sorting algorithm gives this result |
| LocationLists.SortPermutation | 2024/01/puzzle1.php:19-20 | sorting two lists with the same elements gives the same list |
| LocationLists.DistanceSymmetric | 2024/01/puzzle1.php:21-26 | the total distance does not depend on which list comes first, and a list is at distance 0 from itself |
| LocationLists.TotalDistance | 2024/01/puzzle1.php:21-26 | the reduce adds up the absolute differences of the pairs at equal positions |
| LocationLists.CountOccurrences | 2024/01/puzzle1.php:30-34 | the table has an entry for exactly the ids of the list, each the number of times the id occurs |
| LocationLists.SimilarityScore | 2024/01/puzzle1.php:36-41 | the score adds, for every id of the first list, the id times the number of times it occurs in the second |
| LocationLists.Run | 2024/01/puzzle1.php:8-43 | the two columns always have the same length, so line 17 never stops the script; the answers are the distance and the similarity of the sorted columns |
| LocationLists.RunOrderFree | 2024/01/puzzle1.php:8-20 | the sorted columns, and so both answers, depend only on which lines there are, not on their order |
| Reports.Values | 2024/02/puzzle2.php:27-67 | one level per piece of the line, and never none |
| Reports.GetLevels | 2024/02/puzzle2.php:65-67 | `explode(' ', $report)` gives at least one piece, no piece holds a space, and joining the pieces with spaces gives the line back |
| Reports.CheckDirection | 2024/02/puzzle2.php:35-39 | `checkDirection` holds exactly when the next level is not lower; past the last level the missing level reads as 0 |
| Reports.CheckLevel | 2024/02/puzzle2.php:23-33 | a step is good exactly when it goes up by 1 to 3 in an increasing report, or down by 1 to 3 in a decreasing one |
| Reports.SafeMeaning | 2024/02/puzzle2.php:45-63 | a report of two levels or more is safe exactly when its levels all go up, or all go down, by 1 to 3 at each step |
| Reports.BadFromMeaning | 2024/02/puzzle2.php:51-62 | from a step on, the scan answers -1 exactly when every later step is good, and otherwise the index after the first bad step, all steps before it being good |
| Reports.BadLevelMeaning | 2024/02/puzzle2.php:45-63 | `checkReport` answers -1 exactly for a safe report, and otherwise the index of the second level of the first bad step |
| Reports.CheckReport | 2024/02/puzzle2.php:45-63 | the do/while loop computes the report's answer or its exception; -1 exactly when the levels are safe, otherwise an index in `1..|levels|-1` |
| Reports.Removed | 2024/02/puzzle2.php:11-21 | removing an index inside the list drops exactly that element and keeps the others in order; an index past the end removes nothing |
| Reports.DampenedValues | 2024/02/puzzle2.php:11-21 | reading a dampened report gives the levels without the removed one, or the single level 0 once none is left |
| Reports.RemovedPieces | 2024/02/puzzle2.php:11-21 | the pieces kept by the dampener hold no space and read as the levels kept |
| Reports.ApplyDampener | 2024/02/puzzle2.php:11-21 | the pieces of the dampened line are those of the line without the one removed, or the single empty piece once none is left |
| Reports.Unique | 2024/02/puzzle2.php:82-86 | `array_unique` keeps every value once and loses none |
| Reports.UniqueFirstOrder | 2024/02/puzzle2.php:82-86 | `array_unique` keeps the values in the order of their first occurrence |
| Reports.SafeAmongThree | 2024/02/puzzle2.php:82-91 | the candidate loop finds a safe report among three exactly when one of the three is safe |
| Reports.CheckDampened | 2024/02/puzzle2.php:73-94 | one pass of the main loop computes, or throws, what the model of `checkReport` followed by the candidate loop gives |
| Reports.DampenFromOk | 2024/02/puzzle2.php:88-91 | when the candidate loop answers, it answers whether some candidate from the `m`-th on is safe |
| Reports.CheckedOk | 2024/02/puzzle2.php:73-94 | without an exception, a report is counted exactly when the dampener tolerates it |
| Reports.ReportReadable | 2024/02/puzzle2.php:45-63 | a report whose pieces can all be read never throws |
| Reports.CheckedReadable | 2024/02/puzzle2.php:73-94 | a report of two or more readable levels is decided without an exception |
| Reports.DampenFromReadable | 2024/02/puzzle2.php:88-91 | the candidate loop throws only when one of the candidates does |
| Reports.DampenedPieces | 2024/02/puzzle2.php:11-21 | every piece of a dampened report of two or more levels is a piece of the report |
| Reports.OneLevelThrows | 2024/02/puzzle2.php:27-98 | the report "5" is unsafe (its one step reads a missing level as 0), its candidate "" throws on reading its empty piece, and the run stops there |
| Reports.CountCheckedOk | 2024/02/puzzle2.php:69-100 | a run that ends without an exception counts exactly the tolerated reports |
| Reports.Run | 2024/02/puzzle2.php:69-103 | the loop reads the lines up to the first one PHP reads as false (`ReadLines`); it stops with the first exception, and otherwise answers the count of tolerated trimmed reports and the number of lines read |
| Reports.ReadLines | 2024/02/puzzle2.php:71 | `while(($report = fgets($file)))` reads a prefix of the lines, none of which PHP reads as false, and stops at the end or at the first line that is `""` or `"0"` |
| Reports.LastZeroUnread | 2024/02/puzzle2.php:71 | a last line `0` without a newline ends the loop unread, while `0` followed by a newline is read |
| Reports.CountCheckedStep | 2024/02/puzzle2.php:71-99 | one more line either adds 1 or 0 to the count, or throws, and then the whole run throws that exception |
| Reports.CountCheckedErr | 2024/02/puzzle2.php:95-98 | once a report throws, so does the whole run |
| Reports.OtherRemovalFails | 2024/02/puzzle2.php:82-86 | in an unsafe report of three levels or more, removing a level other than the first or the two of the first bad step leaves the report unsafe |
| Reports.DampenerComplete | 2024/02/puzzle2.php:76-94 | the dampener lets a report of three levels or more through exactly when it is safe or removing some single level makes it safe |
| Reports.ToleratedRemoved | 2024/02/puzzle2.php:82-91 | for an unsafe report of three levels or more, the three candidates are the levels without the bad level, the one before it, or the first |
| Reports.CandidatesSuffice | 2024/02/puzzle2.php:78-86 | some single removal repairs an unsafe report of three levels or more exactly when one of the three candidate removals does |
| Reports.BadLevel | 2024/02/puzzle2.php:45-63 | the answer of `checkReport` is -1 or a level index of at least 1 |
| PageOrder.FlattenedUnique | 2024/05/puzzle5.php:20-24 | the flat list kept beside the rules is exactly their pages, two per rule, in order |
| PageOrder.PageOrderRules.AddPageOrderRule | 2024/05/puzzle5.php:20-24 | the rule is appended to the rules and its two pages to the flat list, keeping the two in step |
| PageOrder.KeysFrom | 2024/05/puzzle5.php:29-30 | `array_keys($flat, $p)` lists exactly the positions holding `p`, in increasing order |
| PageOrder.RuleIndices | 2024/05/puzzle5.php:42-43 | every position is mapped to its rule, `floor(i / 2)` |
| PageOrder.Intersect | 2024/05/puzzle5.php:44 | `array_intersect` keeps exactly the elements of the first list that the second also holds |
| PageOrder.RuleIndicesOfKeys | 2024/05/puzzle5.php:29-43 | the rule indices of a page's positions are exactly the rules naming that page |
| PageOrder.RuleIndicesAscending | 2024/05/puzzle5.php:42-43 | the rule indices of a page's positions never decrease |
| PageOrder.IntersectFirst | 2024/05/puzzle5.php:44-45 | on a list that never decreases, `reset` of the intersection is the least common element |
| PageOrder.SortPages | 2024/05/puzzle5.php:26-47 | the comparator always answers -1 or 1, never 0 |
| PageOrder.KnownKeys | 2024/05/puzzle5.php:29-39 | a page has positions in the flat list exactly when some rule names it |
| PageOrder.SortPagesRules | 2024/05/puzzle5.php:26-47 | a page no rule names goes after one a rule names, and of two such pages the first stays first; between two named pages the first rule naming both decides; when no rule names both, the first rule of all decides |
| PageOrder.FirstSharedOf | 2024/05/puzzle5.php:44-45 | when some rule names both pages there is a first such rule |
| PageOrder.RuleOrders | 2024/05/puzzle5.php:26-47 | a rule `a\|b` without a rule `b\|a` puts `a` before `b` whichever page is compared first |
| PageOrder.Insert | 2024/05/puzzle5.php:96 | one linear insertion step adds exactly one page |
| PageOrder.Sort | 2024/05/puzzle5.php:93-99 | `usort` keeps the number of pages; `SortPermutes`, `SortInOrder` and `SortIsTheOrder` say what order it gives |
| PageOrder.Sort3 | 2024/05/puzzle5.php:96 | the three-page network `zend_sort_3` that `usort` runs on three to five pages gives three pages; `Sort3Permutes` and `Sort3InOrder` say which and in what order |
| PageOrder.Sort3Permutes | 2024/05/puzzle5.php:93-99 | sorting three pages reorders them and loses none |
| PageOrder.Sort3InOrder | 2024/05/puzzle5.php:93-99 | on three distinct pages where the comparator is antisymmetric, `zend_sort_3` puts both adjacent pairs in order |
| PageOrder.Sort3FixedInOrder | 2024/05/puzzle5.php:93-99 | three distinct pages that sorting leaves as they are are in order |
| PageOrder.InsertionSort | 2024/05/puzzle5.php:96 | linear insertion keeps the number of pages |
| PageOrder.SortPermutes | 2024/05/puzzle5.php:93-99 | sorting reorders the pages of an update and loses none |
| PageOrder.InOrderSortFixed | 2024/05/puzzle5.php:101-108 | an update whose adjacent pages are already in the comparator's order is left unchanged by sorting |
| PageOrder.SortFixedInOrder | 2024/05/puzzle5.php:101-108 | an update of distinct pages that sorting leaves unchanged has its adjacent pages in the comparator's order |
| PageOrder.InsertInOrder | 2024/05/puzzle5.php:96 | inserting a new page into an ordered list keeps it ordered, when the comparator is antisymmetric on the pages |
| PageOrder.SortInOrder | 2024/05/puzzle5.php:93-99 | sorting distinct pages on which the comparator is antisymmetric puts every adjacent pair in order |
| PageOrder.InsertionSortPermutes | 2024/05/puzzle5.php:93-99 | linear insertion reorders the pages and loses none |
| PageOrder.InsertionSortInOrder | 2024/05/puzzle5.php:93-99 | linear insertion of distinct pages on which the comparator is antisymmetric puts every adjacent pair in order |
| PageOrder.InOrderInsertionFixed | 2024/05/puzzle5.php:93-99 | linear insertion leaves pages already in order as they are |
| PageOrder.InsertionFixedInOrder | 2024/05/puzzle5.php:93-99 | distinct pages that linear insertion leaves as they are are in order |
| PageOrder.CyclicOrders | 2024/05/puzzle5.php:26-47 | under the rules `2\|1`, `3\|2` and `1\|3` the comparator puts 2 before 1, 3 before 2 and 1 before 3, so it is no order |
| PageOrder.CyclicRules | 2024/05/puzzle5.php:93-99 | under those rules `usort` turns the update 1,2,3 into 3,2,1 through `zend_sort_3`, where linear insertion would give 2,1,3 |
| PageOrder.CoveredAntisymmetric | 2024/05/puzzle5.php:26-47 | pages every two of which some rule names are pages on which the comparator is antisymmetric |
| PageOrder.CorrectedInOrder | 2024/05/puzzle5.php:93-137 | when rules name every two pages of an update, its corrected order holds the same pages with every adjacent pair in order |
| PageOrder.InOrderPairwise | 2024/05/puzzle5.php:26-47 | on a transitive comparator, pages whose adjacent pairs are in order are in order two by two |
| PageOrder.OrderedHeads | 2024/05/puzzle5.php:93-99 | two orders of the same pages, each with its adjacent pairs in the order of an antisymmetric, transitive comparator, start with the same page |
| PageOrder.OrderedUnique | 2024/05/puzzle5.php:93-99 | two such orders of the same pages are the same |
| PageOrder.SortIsTheOrder | 2024/05/puzzle5.php:93-99 | on distinct pages on which the comparator is antisymmetric and transitive, an arrangement of the pages has every adjacent pair in order exactly when it is what `usort` returns; so any sorting algorithm, whichever comparisons it makes, returns the same |
| PageOrder.Middle | 2024/05/puzzle5.php:115-118 | the middle page is a page of the update with as many pages after it as before, or one fewer after it when the count is even |
| PageOrder.Strings | 2024/05/puzzle5.php:120-123 | one decimal string per page, in order |
| PageOrder.QRInjective | 2024/05/puzzle5.php:107-123 | different updates have different QR codes, so comparing QR codes compares the updates |
| PageOrder.QR | 2024/05/puzzle5.php:120-123 | the QR code is empty exactly when there are no pages, and otherwise splits at its commas back into the decimal pages |
| PageOrder.ImplodeDigits | 2024/05/puzzle5.php:120-123 | a QR code starts and ends with a digit and holds only digits and commas |
| PageOrder.ReadLineShape | 2024/05/puzzle5.php:84-88 | a line read as an update holds at least two pages |
| PageOrder.RuleLineRoundTrip | 2024/05/puzzle5.php:77-83 | a rule written as `a\|b` is read back as that rule |
| PageOrder.UpdateLineRoundTrip | 2024/05/puzzle5.php:84-88 | an update of two pages or more written as its QR code is read back as that update |
| PageOrder.MiddlesPartition | 2024/05/puzzle5.php:131-142 | every update adds one middle page, to exactly one of the two lists |
| PageOrder.CorrectAreOrdered | 2024/05/puzzle5.php:131-134 | for updates of distinct pages, the correct ones are exactly those whose pages are already in order |
| PageOrder.MiddlesStep | 2024/05/puzzle5.php:131-142 | one more update adds its middle page to the correct list when sorting leaves it unchanged, and otherwise the middle page of its sorted order to the other list |
| PageOrder.Parser.constructor | 2024/05/puzzle5.php:70-91 | the rules and the updates are those of the lines, in order |
| PageOrder.Parser.CheckUpdateOrder | 2024/05/puzzle5.php:101-108 | the sorted update is saved, and the answer is whether sorting left the update unchanged |
| PageOrder.Parser.Run | 2024/05/puzzle5.php:125-146 | the two sums are those of the middle pages of the correct updates and of the corrected middle pages of the others, each absent when its list is empty; when the comparator is antisymmetric and transitive on an update, its corrected order is its only arrangement in order (`SortIsTheOrder`) |
| PageOrder.Solve | 2024/05/puzzle5.php:3-10 | the whole program on the lines: every update read has two pages or more, and the two answers are the sums above |
| PageOrder.PageOrderRules.constructor | 2024/05/puzzle5.php:14-18 | the rule book starts with no rule and an empty flat page list, which trivially agree |
| Equations.ConcatValue | 2024/07/puzzle7.php:89-99 | the `\|\|` operator shifts its left operand by as many decimal places as the right operand has digits, then adds the right operand |
| Equations.Apply | 2024/07/puzzle7.php:139-151 | `\|\|` shifts the subtotal by the digits of the number and adds it; neither operator lowers the subtotal, except `*` by 0 |
| Equations.AddTo | 2024/07/puzzle7.php:132-158 | a node with fewer children than there are operators gets one more, whose subtotal applies the node's operator to the node's subtotal and the number; a full node passes the number on to every child; the node's own number, operator and subtotal are kept |
| Equations.GrowStart | 2024/07/puzzle7.php:74-87 | adding a new number starts from the full tree of the numbers before it |
| Equations.GrowStep | 2024/07/puzzle7.php:80-84 | adding the last number once more, with the next operator, gives every node of the last level one more child |
| Equations.Full | 2024/07/puzzle7.php:74-87 | the tree built for the numbers has one child per operator below every inner node and none below the leaves |
| Equations.FullChild | 2024/07/puzzle7.php:132-158 | every child of a full tree is the full tree of the remaining numbers, under the child's operator and subtotal |
| Equations.GrownFull | 2024/07/puzzle7.php:74-87 | the loops of `solveWith` build exactly the full tree of the numbers |
| Equations.FullUniform | 2024/07/puzzle7.php:74-87 | the full tree has every leaf at the depth of the count of numbers, and every inner node has one child per operator |
| Equations.HoldsMore | 2024/07/puzzle7.php:34-64 | an equation that holds with some operators holds with any set of operators containing them |
| Equations.HoldsAccepted | 2024/07/puzzle7.php:160-173 | an equation that holds with all its numbers is accepted by `find` |
| Equations.AcceptsMore | 2024/07/puzzle7.php:34-64 | more operators never reject an equation that fewer operators accept |
| Equations.Find | 2024/07/puzzle7.php:160-173 | the recursive search answers whether some node of the tree holds the result as its subtotal |
| Equations.FoundFullSound | 2024/07/puzzle7.php:160-173 | a node holding the result in the full tree is reached by a choice of operators over a prefix of the numbers that makes the result |
| Equations.FoundFullComplete | 2024/07/puzzle7.php:160-173 | a choice of operators over a prefix of the numbers that makes the result leads to a node that holds it |
| Equations.FoundFull | 2024/07/puzzle7.php:160-173 | on the full tree, `find` succeeds exactly when some prefix of the numbers can make the result |
| Equations.PrefixFound | 2024/07/puzzle7.php:160-173 | with `+` and `*`, `10: 10 5` is accepted through the first number alone although neither `10 + 5` nor `10 * 5` is 10 |
| Equations.FindLeaf | 2024/07/puzzle7.php:160-173 | the search restricted to the leaves answers whether some leaf holds the result |
| Equations.FoundLeafSound | 2024/07/puzzle7.php:160-173 | a leaf holding the result is reached by a choice of operators over all the numbers that makes the result |
| Equations.FoundLeafComplete | 2024/07/puzzle7.php:160-173 | a choice of operators over all the numbers that makes the result leads to a leaf that holds it |
| Equations.FoundLeafFull | 2024/07/puzzle7.php:160-173 | on the full tree, the leaf search succeeds exactly when some choice of operators over all the numbers makes the result |
| Equations.Equation.constructor | 2024/07/puzzle7.php:72 | the equation holds its result and numbers and is not yet valid |
| Equations.Equation.SolveWith | 2024/07/puzzle7.php:74-87 | the answer is kept in `valid`, and is whether `find` on the operator tree accepts the equation, that is whether a prefix of its numbers makes the result |
| Equations.SepLen | 2024/07/puzzle7.php:19 | a separator `:?\s+` never reaches past the end of the text |
| Equations.Split | 2024/07/puzzle7.php:26 | `preg_split` always gives at least one piece |
| Equations.SplitHead | 2024/07/puzzle7.php:26 | digits followed by a space or `: ` and a digit are cut off as the first piece |
| Equations.SplitSep | 2024/07/puzzle7.php:26 | a separator at the start cuts off an empty first piece |
| Equations.SplitAlone | 2024/07/puzzle7.php:26 | digits, with or without a trailing `:`, are one piece |
| Equations.Strings | 2024/07/puzzle7.php:26-27 | one decimal string per number, in order |
| Equations.SplitSpaced | 2024/07/puzzle7.php:26 | numbers written with single spaces between them split back into their decimal strings |
| Equations.SplitText | 2024/07/puzzle7.php:26 | an equation written `result: n1 n2 ...` splits into the result's digits and then the numbers' digits |
| Equations.ParseEquation | 2024/07/puzzle7.php:26-29 | every line gives an equation, with one number fewer than the pieces of the line |
| Equations.LineEnds | 2024/07/puzzle7.php:26 | a written equation starts with a digit and ends with a digit or `:` |
| Equations.ParseEquationText | 2024/07/puzzle7.php:22-32 | reading a line written as `result: n1 n2 ...` gives back the result and the numbers |
| Equations.UnsolvedIn | 2024/07/puzzle7.php:44-48 | the equations kept for part two are exactly those part one did not accept |
| Equations.TotalCalibration | 2024/07/puzzle7.php:34-64 | part one plus part two over the equations left unsolved is the calibration with all three operators |
| Equations.CalibrationAtLeast | 2024/07/puzzle7.php:34-64 | the calibration as written is never below the one that counts only equations holding over all their numbers |
| Equations.Parser.constructor | 2024/07/puzzle7.php:22-32 | one equation per line, each read as `ParseEquation` reads the line |
| Equations.Parser.Run | 2024/07/puzzle7.php:34-64 | the two sums and counts are those of the equations accepted with `+` and `*`, and of the remaining ones accepted with all three operators; their total is the calibration with all three; every equation ends valid exactly when it is accepted with all three operators |
| Equations.SolveAll | 2024/07/puzzle7.php:44-48 | one phase solves every equation, sums and counts the accepted ones and collects the others in order |
| GuardPatrol.DirFrom | 2024/06/puzzle6.php:124-141 | only the four arrows name a direction, each the one it faces; anything else is the `UNAVAILABLE_DIRECTION` error |
| GuardPatrol.DirFromFacing | 2024/06/puzzle6.php:124-141 | reading a direction's own arrow gives it back |
| GuardPatrol.TurnRightCycle | 2024/06/puzzle6.php:143-152 | turning right rotates the step a quarter turn clockwise, and four turns pass through all four directions and come back |
| GuardPatrol.IsBorderMeaning | 2024/06/puzzle6.php:21-28 | a cell of the map is on the border exactly when one step in some direction leaves the map |
| GuardPatrol.AheadBound | 2024/06/puzzle6.php:40-78 | a straight walk inside the map takes fewer than `rows + cols` steps |
| GuardPatrol.ExploreShape | 2024/06/puzzle6.php:40-78 | the cells seen are those straight ahead, starting with the guard's own, each on the map and free, and the next one is a landmark or off the map |
| GuardPatrol.ExploreNonEmpty | 2024/06/puzzle6.php:243-262 | a guard on a free cell sees at least that cell, so `Guard is stuck` is never thrown |
| GuardPatrol.LastLeaves | 2024/06/puzzle6.php:40-78 | the last cell seen faces the edge exactly when the walk was stopped by the edge, and otherwise a landmark stopped it |
| GuardPatrol.LeavesOnBorder | 2024/06/puzzle6.php:21-28 | a guard about to leave the map stands on its border |
| GuardPatrol.BorderStopsEarly | 2024/06/puzzle6.php:255-259 | on a 3 by 5 map with one landmark in a corner, the guard walks north to a border cell that it does not leave from, and would walk on east |
| GuardPatrol.PatrolStopsEarly | 2024/06/puzzle6.php:237-268 | on that map the patrol as written ends after one leg with two cells, while the corrected patrol turns east and goes on |
| GuardPatrol.CellsMembers | 2024/06/puzzle6.php:211-229 | the positions `map` sets on a board of `rows` by `cols` are exactly those in bounds |
| GuardPatrol.ElementsSnoc | 2024/06/puzzle6.php:198-209 | the cells of a list are those of all but its last entry, and that one |
| GuardPatrol.CardStep | 2024/06/puzzle6.php:198-209 | one more cell raises the count outside `visited` by one exactly when it is new |
| GuardPatrol.DryRunAgrees | 2024/06/puzzle6.php:198-209 | on a list without repetition, the dry run counts exactly the cells the real run marks |
| GuardPatrol.PrefixStep | 2024/06/puzzle6.php:200-206 | one more entry of the list adds one cell to the dry count when it is unvisited, and one to the real count when it is new |
| GuardPatrol.VisitStep | 2024/06/puzzle6.php:200-206 | one pass of `guardVisited`'s loop keeps the count and the marks in step with the prefix read |
| GuardPatrol.ExploreDistinct | 2024/06/puzzle6.php:40-78 | the cells seen never repeat |
| GuardPatrol.CountGrowth | 2024/06/puzzle6.php:253 | marking a set of cells adds to the total count exactly those not visited before |
| GuardPatrol.PatrolLeg | 2024/06/puzzle6.php:242-262 | one leg ends on the last cell seen; the patrol then goes on facing right, or is over |
| GuardPatrol.PatrolFree | 2024/06/puzzle6.php:237-268 | the patrol visits only free cells, ends on a free cell, and, when over, where it stops (on the border as written, about to leave the map once corrected), with no more legs than its fuel |
| GuardPatrol.Board.constructor | 2024/06/puzzle6.php:17-19 | an empty board of the given size |
| GuardPatrol.Board.SetPosition | 2024/06/puzzle6.php:80-82 | the cell is stored, as a landmark or not, and unvisited; nothing else changes |
| GuardPatrol.Board.GetPositionsFrom | 2024/06/puzzle6.php:40-78 | the cells returned are exactly those the guard sees ahead |
| GuardPatrol.Guard.constructor | 2024/06/puzzle6.php:92 | the guard stands at the cell, facing the direction |
| GuardPatrol.Parser.constructor | 2024/06/puzzle6.php:162-168 | the parser holds the board and the guard read |
| GuardPatrol.Parser.GuardExplores | 2024/06/puzzle6.php:192-196 | what the guard sees from where it stands, facing its direction |
| GuardPatrol.Parser.GuardVisited | 2024/06/puzzle6.php:198-209 | a dry run changes nothing and counts the unvisited entries; a real run marks every cell of the list and counts those new to the board |
| GuardPatrol.Parser.MoveGuardTo | 2024/06/puzzle6.php:231-235 | the guard moves and keeps its direction |
| GuardPatrol.Parser.TurnGuard | 2024/06/puzzle6.php:270-277 | the guard turns right and stays put |
| GuardPatrol.Parser.Step | 2024/06/puzzle6.php:242-262 | the guard moves to the last cell it sees, marks what it saw, counts the new cells, and turns right unless that cell is on the border, in which case the patrol is over |
| GuardPatrol.Parser.Run | 2024/06/puzzle6.php:237-268 | within its fuel, the patrol as written: the cells marked, the guard's place and direction, the legs walked, whether it is over, and the number of new cells are those of the patrol function |
| GuardPatrol.NextLine | 2024/06/puzzle6.php:162-168 | reading a whole line is reading up to the start of the next |
| GuardPatrol.ReadCell | 2024/06/puzzle6.php:217-227 | reading one more character stores its cell and, when it is a start character naming a direction, takes it as the guard |
| GuardPatrol.MarkCell | 2024/06/puzzle6.php:219-225 | a cell is a landmark exactly when its character is `#` |
| GuardPatrol.GuardCell | 2024/06/puzzle6.php:221-226 | the guard is at the last character read that is neither `.` nor `#` |
| GuardPatrol.MapLine | 2024/06/puzzle6.php:211-229 | a line read stores all its cells, or fails on a start character that names no direction |
| GuardPatrol.Parse | 2024/06/puzzle6.php:162-229 | the map has as many rows as lines and as many columns as the first trimmed line; every cell read is stored, a landmark exactly when it is `#`; the guard is at the last start character, facing its arrow; it fails exactly when some start character is not an arrow, or there is none |
| GuardPatrol.RectangularMap | 2024/06/puzzle6.php:162-168 | on a rectangular map every cell is read and the guard stands on a free one |
| GuardPatrol.ReadAll | 2024/06/puzzle6.php:162-168 | after every line, the map holds every cell and the guard found is the last start character |
| DiskCompaction.Parse | 2024/09/puzzle9.php:7-42 | the parser's character loop reads the disk map exactly as the recursive reading does |
| DiskCompaction.ParseOkIff | 2024/09/puzzle9.php:18-26 | the map is read without an exception exactly when it is well formed: a digit at every even position, a digit or a blank at every odd one |
| DiskCompaction.ParseFrom | 2024/09/puzzle9.php:18-26 | a non-digit first character throws, no input gives no blocks, and a well-read map starts with a file of the first digit's size |
| DiskCompaction.Files | 2024/09/puzzle9.php:20-22 | the file blocks of a disk, and only file blocks |
| DiskCompaction.FilesAppend | 2024/09/puzzle9.php:20-22 | the files of two disks put end to end are the files of each, in order |
| DiskCompaction.WellFormedTail | 2024/09/puzzle9.php:17-34 | dropping a file digit and the character after it keeps a map well formed |
| DiskCompaction.ParseStep | 2024/09/puzzle9.php:17-34 | one pass of the loop reads a file numbered `n` of the digit's size, then a space when the next character is a digit, then the rest with the next number |
| DiskCompaction.ParsedFiles | 2024/09/puzzle9.php:17-34 | a well-formed map gives one file per even position, numbered from `n` on, of the size the digit there says |
| DiskCompaction.ParsedFileCount | 2024/09/puzzle9.php:17-34 | there is one file per pair of characters, and one for a final lone digit |
| DiskCompaction.ParsedFileAt | 2024/09/puzzle9.php:19-21 | file `k` is the one the digit at position `2k` describes |
| DiskCompaction.FilesOfParseStep | 2024/09/puzzle9.php:17-34 | the files read are the first one, then those of the rest of the map |
| DiskCompaction.ParsedShape | 2024/09/puzzle9.php:17-34 | a disk read starts with a file and never holds two spaces in a row |
| DiskCompaction.CountsAppend | 2024/09/puzzle9.php:260-323 | the cell count, the unmoved count and each file's cells add up over two disks put end to end |
| DiskCompaction.SpliceShape | 2024/09/puzzle9.php:307-315 | `array_splice` within bounds replaces exactly `length` blocks at `offset` by the inserted ones |
| DiskCompaction.SpliceCounts | 2024/09/puzzle9.php:307-315 | a splice trades the counts of the blocks it removes for those of the blocks it inserts |
| DiskCompaction.SpaceSide | 2024/09/puzzle9.php:309-315 | the space-side splice makes the disk two blocks longer and shifts every block after the space by two |
| DiskCompaction.SpaceSideShape | 2024/09/puzzle9.php:309-315 | the space-side splice keeps the blocks before the space and puts an empty space, the moved part and a space of the remainder in its place |
| DiskCompaction.FileSide | 2024/09/puzzle9.php:276-307 | the file-side splice leaves a disk reaching past the first block it removes |
| DiskCompaction.FileSideShape | 2024/09/puzzle9.php:276-307 | the file-side splice keeps every block before the space in front of the file |
| DiskCompaction.SpaceSideAt | 2024/09/puzzle9.php:309-315 | the space-side splice, block by block |
| DiskCompaction.FileSideAt | 2024/09/puzzle9.php:276-307 | the file-side splice, block by block: the file and the spaces right next to it give way to what is left of the file and one space |
| DiskCompaction.SwappedSteps | 2024/09/puzzle9.php:260-323 | the corrected swap is the space-side splice followed by the file-side splice on the file two blocks further on |
| DiskCompaction.SwapPlacesMovedPart | 2024/09/puzzle9.php:309-315 | the corrected swap empties the target space, puts the moved part of `min(filesize, space size)` cells after it, then the rest of the space, and keeps every block before it |
| DiskCompaction.SpaceSideCounts | 2024/09/puzzle9.php:309-315 | after the space-side splice the disk has as many cells, and the moved part's file has `transfer` more |
| DiskCompaction.FileSideCounts | 2024/09/puzzle9.php:276-307 | after the file-side splice the disk has as many cells, and the file has `transfer` fewer |
| DiskCompaction.InsCounts | 2024/09/puzzle9.php:297-306 | the blocks inserted on the file side hold the file's cells and those of the spaces next to it |
| DiskCompaction.GoneCounts | 2024/09/puzzle9.php:276-296 | the blocks removed on the file side are the file and the spaces right next to it |
| DiskCompaction.SwapPreservesCells | 2024/09/puzzle9.php:260-323 | the corrected swap keeps the disk's cells and every file's cells, and adds one unmoved file for a part left behind |
| DiskCompaction.SwapOrdersAgree | 2024/09/puzzle9.php:307-315 | when the space is not right before the file, the swap as written equals the corrected one |
| DiskCompaction.AsWrittenAt | 2024/09/puzzle9.php:260-323 | the swap as written, block by block, when the space is not right before the file |
| DiskCompaction.SwappedAt | 2024/09/puzzle9.php:260-323 | the corrected swap, block by block, when the space is not right before the file |
| DiskCompaction.PiecewiseSpaceFirst | 2024/09/puzzle9.php:307-315 | splicing at the space first and then at the file, two blocks on, gives the block-by-block result |
| DiskCompaction.PiecewiseFileFirst | 2024/09/puzzle9.php:307-315 | splicing at the file first and then at the space gives the same block-by-block result |
| DiskCompaction.FileSideShifted | 2024/09/puzzle9.php:276-307 | after the space-side splice the file has the same neighbours two blocks on, so the file-side splice removes and inserts the same blocks |
| DiskCompaction.AdjacentExampleParse | 2024/09/puzzle9.php:7-42 | the map `12213` is read as a file of one cell, two free cells, a file of two, one free cell and a file of three |
| DiskCompaction.AdjacentSwapLosesCells | 2024/09/puzzle9.php:307-315 | on that disk, moving file 1 into the space right before it as written shrinks the disk from 9 cells to 6 |
| DiskCompaction.AdjacentFileSide | 2024/09/puzzle9.php:276-307 | on that disk the file-side splice merges the file and both spaces next to it into one space of five cells |
| DiskCompaction.AdjacentSwapCorrected | 2024/09/puzzle9.php:260-323 | the corrected swap on that disk keeps all 9 cells |
| DiskCompaction.AdjacentSpaceSide | 2024/09/puzzle9.php:309-315 | the space-side splice on that disk |
| DiskCompaction.AdjacentCorrectedFileSide | 2024/09/puzzle9.php:276-307 | the file-side splice of the corrected swap on that disk frees three cells |
| DiskCompaction.CellChecksumAppend | 2024/09/puzzle9.php:140-160 | the cell-wise checksum adds up over two runs of cells, the second starting where the first ends |
| DiskCompaction.RunChecksum | 2024/09/puzzle9.php:147-152 | a run of `size` cells of one file adds position times id for each of its positions |
| DiskCompaction.FreeRunChecksum | 2024/09/puzzle9.php:155-156 | free cells add nothing |
| DiskCompaction.ChecksumStep | 2024/09/puzzle9.php:146-158 | one block of the loop adds its own cells, then the rest of the disk starts after them |
| DiskCompaction.ChecksumIsCellSum | 2024/09/puzzle9.php:140-160 | on a disk without empty files, the checksum is the sum of position times file id over the cells, free cells only advancing the position |
| DiskCompaction.EmptyFileCountsTwice | 2024/09/puzzle9.php:147-153 | an empty file adds `(2i - 1) * id`, since `range(i, i-1)` lists both ends, although it covers no cell |
| DiskCompaction.LastUnmovedIn | 2024/09/puzzle9.php:199-215 | the last unmoved file among the first `n` blocks, or -1 when there is none |
| DiskCompaction.FirstFitFrom | 2024/09/puzzle9.php:162-182 | the first space at or after `k` larger than `largerThan`, or -1 when there is none |
| DiskCompaction.AsWrittenUnmoved | 2024/09/puzzle9.php:260-323 | swapping a whole file already marked as moved adds no unmoved file |
| DiskCompaction.MoveStepShrinks | 2024/09/puzzle9.php:220-237 | every pass of `moveFiles` marks one more file as moved, so the loop ends |
| DiskCompaction.AsWrittenPlacesMovedPart | 2024/09/puzzle9.php:309-315 | the swap as written empties the target space, puts the moved part right after it and keeps every block before it |
| DiskCompaction.MoveStepPlaces | 2024/09/puzzle9.php:220-237 | when the first space that holds the whole last unmoved file lies to its left, the file lands right after that space, which is emptied, and every block before it stays; otherwise the file is only marked as moved |
| DiskCompaction.CompactedAllMoved | 2024/09/puzzle9.php:217-238 | once `moveFiles` is done, every file is marked as moved |
| DiskCompaction.CompactedKeepsCells | 2024/09/puzzle9.php:217-238 | with the corrected swap, compacting keeps the disk's size and every file's number of cells |
| DiskCompaction.DiskMap.constructor | 2024/09/puzzle9.php:69-107 | the map holds the blocks read, in order |
| DiskCompaction.DiskMap.Find | 2024/09/puzzle9.php:121-138 | the first block of the type met from `from` in the direction given, or -1 when there is none |
| DiskCompaction.DiskMap.GetFreeSpaceIndex | 2024/09/puzzle9.php:162-177 | the first space larger than `largerThan` met from `from` in the direction given, or -1 when there is none |
| DiskCompaction.DiskMap.LastIndexOfUnmoved | 2024/09/puzzle9.php:199-215 | the last unmoved file at or before `from`, now marked as moved, or -1 and nothing changed |
| DiskCompaction.DiskMap.SwapFileToSpace | 2024/09/puzzle9.php:260-323 | false and nothing changed unless both blocks exist with the right types and positive sizes; otherwise the disk is the swap as written |
| DiskCompaction.SwappedAsWritten | 2024/09/puzzle9.php:307-315 | the blocks before the space stay, the space becomes empty, the file follows it, and the rest of the space comes after |
| DiskCompaction.DiskMap.FreeFileCells | 2024/09/puzzle9.php:276-307 | the disk is the file-side splice of the old one |
| DiskCompaction.DiskMap.GetChecksum | 2024/09/puzzle9.php:140-160 | the checksum of the disk, block by block as `range` lists the positions |
| DiskCompaction.DiskMap.MoveFiles | 2024/09/puzzle9.php:217-238 | the disk is the old one compacted with the swap as written, and every file is marked as moved |
| DiskCompaction.LastUnmovedIs | 2024/09/puzzle9.php:199-215 | what `lastIndexOfUnmoved` returns from the end is the last unmoved file |
| DiskCompaction.FirstFitIs | 2024/09/puzzle9.php:162-182 | what `getFreeSpaceIndex` returns from the start is the first space that fits |
| DiskCompaction.MarkMovedCounts | 2024/09/puzzle9.php:199-215 | marking a file as moved keeps the cells and lowers the unmoved count by one |
| ClawMachines.Buttons | 2024/13/puzzle13.php:68-73 | the first row of the matrix holds the x moves of buttons A and B, the second their y moves |
| ClawMachines.InverseApply | 2024/13/puzzle13.php:102-111 | the adjugate undoes the matrix up to the determinant |
| ClawMachines.ApplyInverse | 2024/13/puzzle13.php:102-111 | and the other way round |
| ClawMachines.ExactDiv | 2024/13/puzzle13.php:90-94 | when the division is exact, PHP's `/` gives the quotient and `%` gives 0 |
| ClawMachines.Solve | 2024/13/puzzle13.php:81-95 | `solve` throws a division by zero exactly when the determinant is zero; otherwise, whatever presses it returns reach the prize |
| ClawMachines.DividesExactly | 2024/13/puzzle13.php:90-94 | a zero PHP remainder means an exact division |
| ClawMachines.SolveComplete | 2024/13/puzzle13.php:81-95 | when the determinant is not zero, `solve` finds any presses that reach the prize |
| ClawMachines.NegativePresses | 2024/13/puzzle13.php:34-35 | a machine whose only solution presses A minus three times is counted as minus 3 tokens |
| ClawMachines.CostWins | 2024/13/puzzle13.php:34-35 | the corrected cost is that of the winning presses when there are some and 0 otherwise, and is never negative |
| ClawMachines.CostsAgree | 2024/13/puzzle13.php:34-35 | the cost as written differs from the corrected one exactly when the solution presses a button a negative number of times within the limit and costs something |
| ClawMachines.TokensNonNegative | 2024/13/puzzle13.php:28-54 | the corrected total is never negative |
| ClawMachines.TokensAgree | 2024/13/puzzle13.php:28-54 | without negative presses, the total as written is the corrected one |
| ClawMachines.NegativeTotal | 2024/13/puzzle13.php:30-38 | the machine above makes the total as written minus 3, the corrected total 0 |
| ClawMachines.MatrixB.constructor | 2024/13/puzzle13.php:116 | the vector holds its two components |
| ClawMachines.MatrixB.Add | 2024/13/puzzle13.php:118-122 | `add` adds the other vector componentwise |
| ClawMachines.SlotMachine.constructor | 2024/13/puzzle13.php:65-79 | the machine holds its button matrix and a fresh prize vector |
| ClawMachines.Part1 | 2024/13/puzzle13.php:30-38 | the tokens of every machine whose solution presses each button at most 100 times, counted as written, or the exception of the first singular machine |
| ClawMachines.TokensNext | 2024/13/puzzle13.php:32-37 | one more machine adds its cost to the total, or its exception ends the total |
| ClawMachines.TokensErr | 2024/13/puzzle13.php:32-37 | once a machine throws, so does the whole total |
| ClawMachines.Part2 | 2024/13/puzzle13.php:42-52 | every prize is moved by the unit error and the tokens are counted as written with no press limit; an exception stops the loop and leaves the later prizes as they were |
| ClawMachines.MovedAll | 2024/13/puzzle13.php:43-46 | every prize moved by the unit error, the buttons unchanged |
| ClawMachines.MoveAndCost | 2024/13/puzzle13.php:45-47 | one machine's prize is moved, no other prize changes, and the cost is that of the moved prize |
| Stones.HalfShift | 2024/11/puzzle11.php:418-426 | the power of ten with half as many zeros as the stone has digits |
| Stones.Numbers | 2024/11/puzzle11.php:283-284 | one number per space-separated piece |
| Stones.NumbersOfLine | 2024/11/puzzle11.php:283-284 | numbers written on a line with single spaces are read back unchanged |
| Stones.HalvesValue | 2024/11/puzzle11.php:418-426 | a number of `2h` digits is its first half shifted by `h` digits plus its second half, which lies below `10^h` |
| Stones.SplitStone | 2024/11/puzzle11.php:418-426 | `split` writes the quotient and the remainder by `10^h`, leading zeros dropped |
| Stones.Tada | 2024/11/puzzle11.php:407-414 | reading back what `tada` writes gives the rule of the puzzle: 0 becomes 1, a stone with an even number of digits becomes its two halves, any other is multiplied by 2024 |
| Stones.SplitHalfLength | 2024/11/puzzle11.php:418-426 | the first half of a split stone has exactly half the digits, so no digit is lost |
| Stones.Key | 2024/11/puzzle11.php:311 | reading a stone's key back with `getStoneKeyNumber` gives the stone |
| Stones.KeyNumber | 2024/11/puzzle11.php:313 | a key whose characters after the first are digits reads as their value |
| Stones.KeyInjective | 2024/11/puzzle11.php:311 | different stones have different keys |
| Stones.TotalRemove | 2024/11/puzzle11.php:250-257 | any entry of the line can be taken out of its total first |
| Stones.TotalBump | 2024/11/puzzle11.php:253-254 | raising one count by one raises the line's total by one |
| Stones.TallyCount | 2024/11/puzzle11.php:250-257 | each stone's count on the line rises by the number of times it occurs in the list |
| Stones.TallyTotal | 2024/11/puzzle11.php:250-257 | the line's total rises by the number of stones appended |
| Stones.StoneLine.constructor | 2024/11/puzzle11.php:243-248 | the stones are kept, with an empty line and an empty map |
| Stones.StoneLine.AppendToLine | 2024/11/puzzle11.php:250-257 | every number is counted once more on the line, and nothing else changes |
| Stones.StoneLine.CacheStoneMapping | 2024/11/puzzle11.php:279-295 | the answer is whether the stone was new; only then is its mapping recorded; no entry is ever overwritten; the numbers are counted on the line exactly when `append` is set |
| Stones.StoneLine.GetCachedStone | 2024/11/puzzle11.php:299-309 | a recorded key, or one that is its own number's key, gives what that stone becomes, recorded if it was not; any other key fails; the line is untouched |
| Stones.StonesCountZeroStone | 2024/11/puzzle11.php:315-323 | the line `0` holds one stone, yet `empty("0")` makes it count as none |
| Stones.StonesCount | 2024/11/puzzle11.php:315-323 | a blank line holds no stone, any other one more than the spaces between its trimmed ends |
| Stones.StonesCountOfLine | 2024/11/puzzle11.php:315-323 | a line written from stones is counted as that many stones |
| Stones.LineEnds | 2024/11/puzzle11.php:315-323 | a line written from stones starts and ends with a digit |
| Stones.RoundsSum | 2024/11/puzzle11.php:15-19 | the rounds add up to the blinks, and each holds from 1 to 10 blinks |
| HikingTrails.HeightOf | 2024/10/puzzle10.php:88-90 | `(int)` of a map character is the digit's value, and 0 for anything else |
| HikingTrails.RowOf | 2024/10/puzzle10.php:87-91 | one height per character of the line |
| HikingTrails.Siblings | 2024/10/puzzle10.php:130-150 | exactly the in-bounds neighbours of the cell, with the height asked for when one is given; at most four, none twice |
| HikingTrails.KeepMeaning | 2024/10/puzzle10.php:140-149 | the filter keeps exactly the in-bounds cells of the height asked for, none twice |
| HikingTrails.ReadMap | 2024/10/puzzle10.php:84-96 | one row per line and as many columns as the first line; every cell of a line holds the height its character reads as, and no other cell is on the map |
| HikingTrails.NeighboursMeaning | 2024/10/puzzle10.php:130-139 | the four offsets give exactly the cells one step away, each once |
| HikingTrails.UphillMeaning | 2024/10/puzzle10.php:235 | the cells `build` goes to next are exactly the neighbours one level up |
| HikingTrails.TrailsSound | 2024/10/puzzle10.php:229-242 | every trail walked from a cell starts there and climbs one level per step to height 9 |
| HikingTrails.TrailsComplete | 2024/10/puzzle10.php:229-242 | every climb from a cell to height 9 is walked |
| HikingTrails.TrailTail | 2024/10/puzzle10.php:229-242 | a trail without its first cell is a trail from one level up |
| HikingTrails.TrailsDistinct | 2024/10/puzzle10.php:229-242 | no trail is walked twice |
| HikingTrails.PrependSound | 2024/10/puzzle10.php:236-240 | a climb followed by trails from the cell reached makes trails |
| HikingTrails.PrependDistinct | 2024/10/puzzle10.php:236-240 | putting a cell in front keeps different trails apart |
| HikingTrails.JoinApart | 2024/10/puzzle10.php:236-240 | trails through different second cells differ |
| HikingTrails.Ends | 2024/10/puzzle10.php:207-222 | at most one end per trail |
| HikingTrails.EndsAppend | 2024/10/puzzle10.php:207-222 | the ends of two lists of trails add up |
| HikingTrails.EndsCount | 2024/10/puzzle10.php:218-220 | each trail adds exactly one end to the score sheet |
| HikingTrails.EndsMembers | 2024/10/puzzle10.php:207-222 | the ends recorded are exactly the last cells of the trails |
| HikingTrails.EndsFromTrails | 2024/10/puzzle10.php:207-242 | what `build` records on the trailhead's score sheet is the last cell of each trail it walks |
| HikingTrails.ViaStep | 2024/10/puzzle10.php:236-240 | one more neighbour adds its trails and their ends |
| HikingTrails.ChildBuilt | 2024/10/puzzle10.php:236-240 | after one more child is built, the score sheet holds the ends of the trails through the neighbours so far |
| HikingTrails.ViaAll | 2024/10/puzzle10.php:234-241 | the trails through all the neighbours are all the trails from the cell |
| HikingTrails.ScoreCounts | 2024/10/puzzle10.php:213-218 | the score counts exactly the distinct height-9 cells some climb from the trailhead ends at |
| HikingTrails.RatingCounts | 2024/10/puzzle10.php:29-32 | the rating counts the distinct climbs from the trailhead to height 9, and each adds one to the score sheet |
| HikingTrails.Trail.constructor | 2024/10/puzzle10.php:198-205 | a new node is not complete, with score 0 and an empty score sheet |
| HikingTrails.Trail.Completed | 2024/10/puzzle10.php:207-222 | the root becomes complete, the end is counted once more, and the score rises exactly when the end is new |
| HikingTrails.Trail.BuildFrom | 2024/10/puzzle10.php:229-242 | building from a node records on the root the ends of every trail from that node, and the root is complete once some trail was found |
| HikingTrails.Trail.BuildChildren | 2024/10/puzzle10.php:234-241 | building the children records the ends of every trail through them |
| HikingTrails.Trail.Build | 2024/10/puzzle10.php:255-258 | building the trailhead records the ends of all its trails and marks it complete when there is one |
| HikingTrails.FindTrailHeads | 2024/10/puzzle10.php:105-121 | the trailheads found, row by row |
| HikingTrails.HeadsMembers | 2024/10/puzzle10.php:105-121 | the trailheads are exactly the height-0 cells, each once, in reading order |
| HikingTrails.HeadCounted | 2024/10/puzzle10.php:23-32 | a trailhead's score sheet holds its score and its rating |
| HikingTrails.Run | 2024/10/puzzle10.php:17-39 | the sums of the scores and of the ratings of every trailhead |
| Antennas.OutOfBounds | 2024/08/puzzle8.php:138-144 | a cell is out of bounds exactly when it is not on the map |
| Antennas.Point | 2024/08/puzzle8.php:95-103 | the one antinode of a walk without harmonics, kept only when it is on the map |
| Antennas.RayStops | 2024/08/puzzle8.php:95-103 | a walk along a nonzero vector leaves the map within `rows + cols` steps, so the `do`/`while` ends |
| Antennas.RayConvex | 2024/08/puzzle8.php:138-144 | between two cells on the map, every step of a walk is on the map |
| Antennas.RayMembers | 2024/08/puzzle8.php:95-103 | a walk from step `n` holds exactly the cells `q + k·v`, `k >= n`, reached before any step leaves the map |
| Antennas.HarmonicCells | 2024/08/puzzle8.php:95-115 | with harmonics, a walk from an antenna holds exactly the cells `q + k·v`, `k >= 0`, that are on the map |
| Antennas.RayStep | 2024/08/puzzle8.php:95-103 | one pass of the loop records the cell and goes on from the next step |
| Antennas.PairNodesSimple | 2024/08/puzzle8.php:81-116 | without harmonics the antinodes of a pair are `2b - a` and `2a - b`, each only when it is on the map |
| Antennas.RayInBounds | 2024/08/puzzle8.php:99-102 | every cell a walk records is on the map |
| Antennas.FromPairsWitness | 2024/08/puzzle8.php:150-155 | an antinode of the inner loop comes from one of its pairs |
| Antennas.FromPairsHas | 2024/08/puzzle8.php:150-155 | every pair of the inner loop contributes all its antinodes |
| Antennas.FromFirstWitness | 2024/08/puzzle8.php:149-156 | an antinode of the outer loop comes from one of its pairs |
| Antennas.FromFirstHas | 2024/08/puzzle8.php:149-156 | every pair of the outer loop contributes all its antinodes |
| Antennas.GroupNodesMembers | 2024/08/puzzle8.php:149-156 | a group's antinodes are exactly those of its pairs of different antennas |
| Antennas.NodesOverAdd | 2024/08/puzzle8.php:148-157 | one more frequency adds its group's antinodes |
| Antennas.AllNodesMembers | 2024/08/puzzle8.php:146-158 | an antinode comes from two different antennas of one frequency, and every such pair's antinodes are counted |
| Antennas.AllNodesInBounds | 2024/08/puzzle8.php:146-158 | every antinode is on the map |
| Antennas.AntiNodeKeyInjective | 2024/08/puzzle8.php:128-131 | different cells on the map have different keys, so keying antinodes by the string keys them by cell |
| Antennas.AntiNodeKey | 2024/08/puzzle8.php:128-131 | a key splits at `_` into `anti`, `node` and the two coordinates in decimal |
| Antennas.LineAntennas | 2024/08/puzzle8.php:17-22 | every match on a line is a frequency character |
| Antennas.LineAntennasPlaced | 2024/08/puzzle8.php:17-22 | a line's antennas stand on its row at their offsets, left to right |
| Antennas.AllAntennasRows | 2024/08/puzzle8.php:14-23 | the antennas read stand on the rows of the map |
| Antennas.GroupedStep | 2024/08/puzzle8.php:73-79 | grouping one more antenna appends it to its frequency's group |
| Antennas.WithFreq | 2024/08/puzzle8.php:73-79 | the antennas of one frequency, all from the list |
| Antennas.GroupedMembers | 2024/08/puzzle8.php:73-79 | there is one group per frequency present, holding exactly its antennas in reading order |
| Antennas.AllAntennasOrdered | 2024/08/puzzle8.php:14-23 | antennas are read in reading order |
| Antennas.ReadDistinct | 2024/08/puzzle8.php:14-23 | antennas read from a map never share a cell |
| Antennas.Map.constructor | 2024/08/puzzle8.php:50-54 | an empty map |
| Antennas.Map.AddAntenna | 2024/08/puzzle8.php:73-79 | the antenna is appended to its frequency's group, and nothing else changes |
| Antennas.Map.AddWalk | 2024/08/puzzle8.php:95-115 | one `do`/`while` records every cell of the walk on the map that was not recorded, with the first antenna's frequency, and keeps the others |
| Antennas.Map.AddAntiNode | 2024/08/puzzle8.php:81-116 | the pair's antinodes are added, no recorded one is overwritten |
| Antennas.Map.ClearAntiNodes | 2024/08/puzzle8.php:118-121 | no antinode is left, and nothing else changes |
| Antennas.Map.NbAntiNodes | 2024/08/puzzle8.php:133-136 | the count is the number of distinct keys recorded |
| Antennas.Map.AddGroup | 2024/08/puzzle8.php:149-156 | the antinodes of every pair of the group are added |
| Antennas.Map.AddPairs | 2024/08/puzzle8.php:151-155 | the antinodes of every pair with the `j`-th antenna first are added |
| Antennas.Map.SetAntiNodes | 2024/08/puzzle8.php:146-158 | the antinodes recorded are exactly those of every pair of antennas of one frequency |
| Antennas.Parse | 2024/08/puzzle8.php:9-27 | the map holds the antennas of the lines grouped by frequency, one row per line and as many columns as the first trimmed line |
| Antennas.Run | 2024/08/puzzle8.php:29-38 | the two counts are the numbers of distinct cells covered by the antinodes without and with harmonics |
| Antennas.Solve | 2024/08/puzzle8.php:9-38 | the two counts of `run` for the map read from the lines |
| GardenGroups.NeighboursMeaning | 2024/12/puzzle12.php:468-473 | the four offsets give exactly the cells one step away, each once |
| GardenGroups.SortByCoords | 2024/12/puzzle12.php:420-429 | 0 exactly for the same cell, negative exactly when the first cell comes first in reading order, and always -1, 0 or 1 |
| GardenGroups.SortByCoordsOrder | 2024/12/puzzle12.php:420-429 | the comparison is a total order: swapping its arguments flips its sign, and it is transitive |
| GardenGroups.SiblingSymmetric | 2024/12/puzzle12.php:464-490 | being siblings is symmetric |
| GardenGroups.KeepMeaning | 2024/12/puzzle12.php:481-486 | the filter keeps exactly the siblings, and what it drops and keeps make up the list |
| GardenGroups.FindSiblings | 2024/12/puzzle12.php:464-490 | exactly the in-bounds neighbours of the same name, at most four, none twice |
| GardenGroups.BorderCount | 2024/12/puzzle12.php:533-537 | one fence per neighbour that is not a sibling, between 0 and 4 |
| GardenGroups.Perimeter | 2024/12/puzzle12.php:412-418 | the perimeter is at most four fences per plant |
| GardenGroups.ReachSymmetric | 2024/12/puzzle12.php:517-531 | a plant is in the region of another exactly when that one is in its region |
| GardenGroups.ReachShared | 2024/12/puzzle12.php:517-531 | two regions that share a plant share their heads |
| GardenGroups.ReachClosed | 2024/12/puzzle12.php:517-531 | a list holding the head and every sibling of its members holds the whole region |
| GardenGroups.ListingsApart | 2024/12/puzzle12.php:142-159 | regions listed from two heads are apart unless one head is in the other's region |
| GardenGroups.ReadMap | 2024/12/puzzle12.php:97-120 | one row per line and as many columns as the first trimmed line; each plant is named by its character |
| GardenGroups.FoundStep | 2024/12/puzzle12.php:523-527 | one sibling stamped and searched adds itself and what it found to the search, all in the region, none twice |
| GardenGroups.SearchStep | 2024/12/puzzle12.php:522-528 | one more unstamped sibling keeps the loop's invariant |
| GardenGroups.SearchSkip | 2024/12/puzzle12.php:523 | a sibling already stamped is skipped |
| GardenGroups.SearchDone | 2024/12/puzzle12.php:521-530 | after the loop every sibling of the plant is stamped |
| GardenGroups.Garden.constructor | 2024/12/puzzle12.php:97-120 | the map read from the lines, no region, every plant unclaimed with its own name as region name |
| GardenGroups.Garden.ApplyCertificate | 2024/12/puzzle12.php:457-462 | the plant carries the signature and the author as its region name, and is claimed |
| GardenGroups.Garden.GetSiblings | 2024/12/puzzle12.php:517-531 | what is listed is exactly what gets stamped, each once, all in the plant's region; afterwards the plant and all it listed have their siblings stamped |
| GardenGroups.Garden.DelimitRegions | 2024/12/puzzle12.php:142-159 | the kept regions are among the old ones, each lists its head's region with the area and perimeter of that list, they are pairwise apart, every head is claimed, and the claimed plants are those claimed before and those of the kept regions |
| GardenGroups.Garden.ClaimAll | 2024/12/puzzle12.php:148-158 | the loop goes over every region and returns those kept |
| GardenGroups.Garden.Delimit | 2024/12/puzzle12.php:149-157 | one turn keeps the region exactly when its claim succeeds |
| GardenGroups.Garden.ClaimRegion | 2024/12/puzzle12.php:150-153 | a successful claim sets the area to the number of plants and the perimeter to their fences |
| GardenGroups.Garden.KeptRegions | 2024/12/puzzle12.php:142-159 | after the loop the kept regions describe the regions dictionary as `DelimitRegions` states |
| GardenGroups.ProgressKeep | 2024/12/puzzle12.php:150-153 | a turn that keeps its region keeps the loop's state |
| GardenGroups.ProgressSkip | 2024/12/puzzle12.php:154-157 | a turn that drops its region keeps the loop's state |
| GardenGroups.Front | 2024/12/puzzle12.php:155-156 | the next region to delimit is at the front of those left after a drop |
| GardenGroups.KeptApart | 2024/12/puzzle12.php:142-159 | regions filled from kept lists are pairwise apart, and the claimed plants are those claimed before and those they list |
| GardenGroups.KeepStep | 2024/12/puzzle12.php:150-153 | a region claimed from an unclaimed head is apart from the regions kept before |
| GardenGroups.Region.constructor | 2024/12/puzzle12.php:311-317 | a region of the head with no plants, area 0 and perimeter 0 |
| GardenGroups.Region.ClaimPlants | 2024/12/puzzle12.php:319-332 | fails and changes nothing on a claimed head; otherwise claims exactly the head's region, names it after the head, and lists it after the head, spliced in at index 1 |
| GardenGroups.Region.SetArea | 2024/12/puzzle12.php:376-379 | the area is the number of plants |
| GardenGroups.Region.SetPerimeter | 2024/12/puzzle12.php:412-418 | the perimeter is the sum of the plants' fences |
| GardenGroups.Region.Price | 2024/12/puzzle12.php:349-360 | nothing to pay exactly when the area or the perimeter is 0; otherwise the price is at least each of them |
| GardenGroups.ClaimedRegion | 2024/12/puzzle12.php:319-332 | after a claim, the head and what the search found are exactly the head's region, and they are the plants that got claimed |
| ChronospatialComputer.NewInstruction | 2024/17/puzzle17.php:252-257 | an instruction is made exactly when its operand is between 0 and 7, and holds its opcode and operand |
| ChronospatialComputer.DivPow2 | 2024/17/puzzle17.php:164-172 | `floor(a / pow(2, d))` is the quotient rounded down |
| ChronospatialComputer.XorTwice | 2024/17/puzzle17.php:190-195 | the same exclusive or applied twice gives the register back |
| ChronospatialComputer.Combo | 2024/17/puzzle17.php:130-145 | operands 0 to 3 stand for themselves, 4, 5 and 6 read registers A, B and C, and 7 throws |
| ChronospatialComputer.DivisionInstructions | 2024/17/puzzle17.php:164-172 | adv, bdv and cdv store A divided by 2 to the combo operand, rounded down, in A, B and C, and change nothing else |
| ChronospatialComputer.BxlTwice | 2024/17/puzzle17.php:190-195 | bxl applied twice with the same operand leaves the machine as it was |
| ChronospatialComputer.ThreeBitResults | 2024/17/puzzle17.php:174-217 | bst and out keep only the last three bits of the combo operand |
| ChronospatialComputer.JnzSemantics | 2024/17/puzzle17.php:197-203 | jnz falls through when A is 0, and otherwise records the combo operand as the jump target without advancing, or throws on operand 7 |
| ChronospatialComputer.Exec | 2024/17/puzzle17.php:114-128 | an opcode outside 0..7 throws; an instruction only appends to the output, at most one digit from 0 to 7; only a jnz with A not 0 leaves the pointer, and then changes nothing but the jump target |
| ChronospatialComputer.HaltedPastEnd | 2024/17/puzzle17.php:85-102 | a run that halts leaves the instruction pointer past the last instruction |
| ChronospatialComputer.MoreFuelSameHalt | 2024/17/puzzle17.php:85-102 | once a run halts, more steps give the same result |
| ChronospatialComputer.RunOutput | 2024/17/puzzle17.php:85-102 | a run's output extends what it started with, by digits from 0 to 7 |
| ChronospatialComputer.RunProgram | 2024/17/puzzle17.php:85-102 | the `do`/`while` reads an instruction before testing the length, so an empty program fails; a halted run is past the last instruction, and the output only grows |
| ChronospatialComputer.Computer.constructor | 2024/17/puzzle17.php:14-31 | the registers hold their initial values, the output is empty, no jump is pending, and the program is the one read |
| ChronospatialComputer.Computer.GetOperand | 2024/17/puzzle17.php:130-145 | the combo operand, with the register read to its value |
| ChronospatialComputer.Computer.Dv | 2024/17/puzzle17.php:164-172 | the register the opcode names receives A divided by 2 to the combo operand; an invalid operand throws and changes nothing |
| ChronospatialComputer.Computer.Bst | 2024/17/puzzle17.php:174-181 | B receives the combo operand modulo 8; an invalid operand throws and changes nothing |
| ChronospatialComputer.Computer.Bxc | 2024/17/puzzle17.php:183-188 | B receives B xor C |
| ChronospatialComputer.Computer.Bxl | 2024/17/puzzle17.php:190-195 | B receives B xor the literal operand |
| ChronospatialComputer.Computer.Jnz | 2024/17/puzzle17.php:197-203 | advance when A is 0; otherwise the combo operand becomes the jump target and the answer is false, or an invalid operand throws |
| ChronospatialComputer.Computer.Out | 2024/17/puzzle17.php:205-217 | the combo operand modulo 8 is appended to the output; an invalid operand throws and changes nothing |
| ChronospatialComputer.Computer.RunOpcode | 2024/17/puzzle17.php:114-128 | each opcode acts as the instruction semantics say, and an exception leaves the machine as it was |
| ChronospatialComputer.Computer.Run | 2024/17/puzzle17.php:85-102 | within its step budget, the machine ends as the run of the program from its state says: each instruction executed, the pointer advanced or set to a taken jump's operand, until it passes the end |
| KeysLocks.GatherBlock | 2024/25/puzzle25.php:133-141 | the lines of a block are gathered into it, up to the blank line |
| KeysLocks.BlocksOfUnblock | 2024/25/puzzle25.php:128-145 | blocks written one after another, blank lines between them, are read back unchanged |
| KeysLocks.GatheredLines | 2024/25/puzzle25.php:133-141 | every line gathered is trimmed and not blank |
| KeysLocks.TrimTwice | 2024/25/puzzle25.php:135-136 | trimming a trimmed line changes nothing |
| KeysLocks.CellValue | 2024/25/puzzle25.php:34-42 | `.` reads 0 and `#` reads 1 through `str_replace`, and a digit reads its value |
| KeysLocks.ParseSchema | 2024/25/puzzle25.php:34-42 | one row per line and one cell per character, each read as `CellValue` says |
| KeysLocks.Locks | 2024/25/puzzle25.php:25-31 | no more locks than blocks |
| KeysLocks.Keys | 2024/25/puzzle25.php:25-31 | no more keys than blocks |
| KeysLocks.FiledStep | 2024/25/puzzle25.php:25-31 | one more block is filed as a lock when its first line is all `#`, and as a key otherwise |
| KeysLocks.EveryBlockFiled | 2024/25/puzzle25.php:25-31 | every block is filed once, as a lock or as a key, and every lock and key comes from a block of its kind |
| KeysLocks.PartialFit | 2024/25/puzzle25.php:69-75 | on cells read from `.` and `#`, a cell pair fits unless both are `#` |
| KeysLocks.FitStep | 2024/25/puzzle25.php:52-59 | one pass of the `do`/`while` moves the test one cell on, to the next row after the last column |
| KeysLocks.KeyFits | 2024/25/puzzle25.php:47-61 | a pair is counted exactly when every cell compared, from the second row up to the row before the last, fits |
| KeysLocks.KeysFittingCounts | 2024/25/puzzle25.php:46-62 | the keys counted for one lock are the fitting pairs of that lock |
| KeysLocks.KeysFittingStep | 2024/25/puzzle25.php:46-62 | one more key adds one when it fits |
| KeysLocks.CountFitsPairs | 2024/25/puzzle25.php:44-67 | the count is the number of fitting (lock, key) pairs |
| KeysLocks.PairsSplit | 2024/25/puzzle25.php:45-63 | the pairs of one more lock add those of that lock |
| KeysLocks.Main.constructor | 2024/25/puzzle25.php:16-32 | the locks and the keys are those the blocks are filed as, in order |
| KeysLocks.Main.Run | 2024/25/puzzle25.php:44-67 | the number of (lock, key) pairs that fit |
| KeysLocks.Solve | 2024/25/puzzle25.php:16-145 | the whole program on the lines: the number of fitting pairs of the blocks read, or a failure exactly when some block is empty |
| WordSearch.Tallies | 2024/04/puzzle4.php:213-235 | the tallies after a run of `addSolution` keep the nine keys of the constructor |
| WordSearch.TalliesMeaning | 2024/04/puzzle4.php:213-235 | each direction's tally lists the solutions of that direction in the order they were added and counts them; the tally of all directions lists and counts every solution |
| WordSearch.TallyOf | 2024/04/puzzle4.php:228-232 | one direction's tally lists and counts that direction's solutions |
| WordSearch.TallyOfAll | 2024/04/puzzle4.php:228-235 | the tally of all directions lists and counts every solution |
| WordSearch.DirectionsDistinct | 2024/04/puzzle4.php:213-226 | the eight directions are eight different keys |
| WordSearch.OccursOnce | 2024/04/puzzle4.php:213-226 | every direction is one of the eight exactly once |
| WordSearch.AllIsSum | 2024/04/puzzle4.php:228-235 | the solutions number as many as the solutions of the eight directions together |
| WordSearch.TotalsAreSizes | 2024/04/puzzle4.php:237-244 | a sum of direction totals is the number of solutions of those directions |
| WordSearch.ScoreIsSum | 2024/04/puzzle4.php:228-244 | the score of all directions is the sum of the eight direction scores |
| WordSearch.SpelledUpTo | 2024/04/puzzle4.php:105-110 | a reading of `n` positions that stays on the board has `n` letters |
| WordSearch.Spell | 2024/04/puzzle4.php:105-110 | the `while` loop that shifts positions and appends their letters reads the letters at those positions, or fails when one is off the board |
| WordSearch.NoneStays | 2024/04/puzzle4.php:105-110 | a reading that has left the board fails however far it goes on |
| WordSearch.Line | 2024/04/puzzle4.php:93-185 | a straight reading of `n` cells has `n` letters |
| WordSearch.LineMeaning | 2024/04/puzzle4.php:93-185 | a straight reading is the word `w` exactly when every cell on the line holds the matching letter of `w` |
| WordSearch.SpelledLine | 2024/04/puzzle4.php:140-151 | reading along the two position lists is reading along the straight line they trace |
| WordSearch.Lane | 2024/04/puzzle4.php:96-100 | each `range` runs from the starting cell one step at a time, as far as the answer's length or the edge of the board |
| WordSearch.LanesTrace | 2024/04/puzzle4.php:96-185 | the ranges of each direction trace its straight line from the start, as far as both reach |
| WordSearch.WordAt | 2024/04/puzzle4.php:93-185 | each direction reads the straight line from the start, up to the answer's length or the edge of the board |
| WordSearch.FoundIff | 2024/04/puzzle4.php:93-196 | the answer is found from a cell in a direction exactly when it fits before the edge and every letter of it is on that line |
| WordSearch.HitsIn | 2024/04/puzzle4.php:93-185 | the solutions found from one cell are each filed under one of the eight directions |
| WordSearch.HitsAreWords | 2024/04/puzzle4.php:93-196 | every solution found from a cell is the answer, starting there, read in its own direction |
| WordSearch.HitsAt | 2024/04/puzzle4.php:93-196 | every solution found from a cell is the word read there in its direction |
| WordSearch.RowHits | 2024/04/puzzle4.php:55-57 | the solutions of a row are each filed under one of the eight directions |
| WordSearch.BoardHits | 2024/04/puzzle4.php:54-58 | the solutions of the board are each filed under one of the eight directions |
| WordSearch.Partners | 2024/04/puzzle4.php:268-270 | the inner `foreach` counts at most one per solution of the second direction |
| WordSearch.Pairs | 2024/04/puzzle4.php:267-271 | the two nested `foreach` loops count at most one per pair |
| WordSearch.XScoreAsWritten | 2024/04/puzzle4.php:255-312 | as written: a pairing fails exactly when it is north-west with another direction, both lists are non-empty and there is no south-east solution, because those branches read `$se[0]` |
| WordSearch.XScore | 2024/04/puzzle4.php:255-312 | as intended: never fails, has a score exactly when the two directions pair and both have solutions, and the score is at most the number of pairs |
| WordSearch.XScoreAgrees | 2024/04/puzzle4.php:255-312 | when the first south-east word has the length of the first word of the pairing, the code as written and the corrected reading agree |
| WordSearch.ScoreXAsWritten | 2024/04/puzzle4.php:71-88 | `getScoreX` succeeds exactly when none of its four pairings fails |
| WordSearch.ScoreX | 2024/04/puzzle4.php:71-88 | the corrected `getScoreX` is never negative and never fails |
| WordSearch.SumScores | 2024/04/puzzle4.php:71-88 | the sum of pairings is never negative, the corrected one never fails and the one as written fails exactly when one pairing does |
| WordSearch.ScoreXAgrees | 2024/04/puzzle4.php:71-88 | when every solution has the length of the first south-east one, the as-written and corrected `getScoreX` agree |
| WordSearch.CrossAtMiddle | 2024/04/puzzle4.php:255-312 | each branch's test, with an offset spanning a word of odd length, says the two words share their middle cell |
| WordSearch.OffsetIsSpan | 2024/04/puzzle4.php:314-320 | `getOffset` is the span of the word exactly for three-letter words |
| WordSearch.CrossTallies | 2024/04/puzzle4.php:228-235 | after one north-west and one north-east solution there is no south-east solution |
| WordSearch.XScoreCounterexample | 2024/04/puzzle4.php:289-291 | on the board `S.S / .A. / M.M` with `MAS`, the north-west/north-east pairing as written fails on `$se[0]`, where the corrected reading counts one cross |
| WordSearch.Solutions.constructor | 2024/04/puzzle4.php:213-226 | nine empty tallies, the eight directions and all directions |
| WordSearch.Solutions.AddSolution | 2024/04/puzzle4.php:228-235 | the solution is appended to its direction's tally and to the tally of all directions, each total one more |
| WordSearch.Solutions.GetDirectionScore | 2024/04/puzzle4.php:237-244 | no direction gives the total of all directions; a direction gives its total, or nothing when it has no tally |
| WordSearch.Solutions.GetDirectionSolutions | 2024/04/puzzle4.php:246-253 | the solutions of the direction asked, all directions when none is given, and nothing for an unknown direction |
| WordSearch.Solutions.GetDirectionXScore | 2024/04/puzzle4.php:255-312 | the loops compute the score as written |
| WordSearch.XScoreFrom | 2024/04/puzzle4.php:255-312 | no score unless the two directions pair up and both have solutions; then an error exactly when the side counted from has none, and otherwise a score of at most the product of the two sides' sizes |
| WordSearch.Solutions.GetOffset | 2024/04/puzzle4.php:314-320 | none for a word of even length, otherwise half the length rounded up |
| WordSearch.Board.constructor | 2024/04/puzzle4.php:35-52 | the board is the trimmed input cut at line ends with each line trimmed; the rows and the width of the first line are recorded and nothing is found yet |
| WordSearch.Board.Search | 2024/04/puzzle4.php:54-58 | every cell, row by row, is searched and the solutions found are those of the whole board, or the search fails when a reading leaves the board |
| WordSearch.Board.ScanRow | 2024/04/puzzle4.php:55-57 | every cell of the row, left to right, is searched and its solutions are appended |
| WordSearch.Board.FindWords | 2024/04/puzzle4.php:93-185 | the eight readings from a cell add exactly the solutions found there, or fail when a reading leaves the board |
| WordSearch.Board.Look | 2024/04/puzzle4.php:93-185 | one reading and its validation add that direction's solution, if any |
| WordSearch.Board.ValidateWord | 2024/04/puzzle4.php:187-196 | a word is valid exactly when it is the answer, and only then is a solution added |
| WordSearch.Board.GetScore | 2024/04/puzzle4.php:66-69 | the score is the number of solutions found |
| WordSearch.Lines | 2024/04/puzzle4.php:39-40 | the board has at least one line |
| WordSearch.HitsStep | 2024/04/puzzle4.php:93-185 | one more direction adds the solution of that direction exactly when its reading is the answer |
| WordSearch.HitsStop | 2024/04/puzzle4.php:93-185 | once a reading leaves the board, the cell's search fails |
| WordSearch.RowStops | 2024/04/puzzle4.php:55-57 | once a cell's search fails, the row's search fails |
| WordSearch.BoardStops | 2024/04/puzzle4.php:54-58 | once a row's search fails, the board's search fails |
| ProductIds.DoubledValue | 2025/02/puzzle02.php:155 | a block of digits written twice is worth the block times `10^len + 1` |
| ProductIds.InvalidShape | 2025/02/puzzle02.php:155-168 | an id matching `INVALID_PRODUCT_ID` is its first half, a number of exactly half as many digits, times `10^h + 1` |
| ProductIds.InvalidIsRepeated | 2025/02/puzzle02.php:155 | an id that matches the pattern is some `h`-digit number written twice |
| ProductIds.RepeatedIsInvalid | 2025/02/puzzle02.php:155 | an `h`-digit number written twice matches the pattern |
| ProductIds.InvalidIffRepeated | 2025/02/puzzle02.php:155-168 | the pattern test on the id's string and the number form agree, both ways |
| ProductIds.DigitCount | 2025/02/puzzle02.php:164 | a number between `10^(h-1)` and `10^h` is written with `h` digits |
| ProductIds.NewProductRange | 2025/02/puzzle02.php:157-159 | the constructor succeeds exactly when `min <= max`, and then holds both bounds |
| ProductIds.KeepMembers | 2025/02/puzzle02.php:163-165 | `array_filter` keeps exactly the ids that match the pattern |
| ProductIds.KeepAscending | 2025/02/puzzle02.php:163-165 | `array_filter` keeps ascending ids ascending |
| ProductIds.KeepAppend | 2025/02/puzzle02.php:163-165 | filtering two runs of ids one after the other is filtering them together |
| ProductIds.KeepNone | 2025/02/puzzle02.php:163-165 | nothing is kept when no id matches |
| ProductIds.FilterInvalidProductIds | 2025/02/puzzle02.php:161-168 | the ids listed are exactly the invalid ones between `min` and `max` inclusive, in ascending order |
| ProductIds.ParseRange | 2025/02/puzzle02.php:37-40 | a line read as a range with `(int)` casts gives a range whose bounds are in order, or the constructor's error |
| ProductIds.ParseRangeRoundTrip | 2025/02/puzzle02.php:37-40 | writing a range as `min-max` and reading it back gives the same range |
| ProductIds.ParseRangesLines | 2025/02/puzzle02.php:35-43 | reading the ranges fails exactly when some line is not a valid range |
| ProductIds.ParseRangesValues | 2025/02/puzzle02.php:35-43 | read successfully, the ranges are those of the lines, one per line, in order |
| ProductIds.AllInvalidMembers | 2025/02/puzzle02.php:53-60 | an id is collected exactly when it is invalid and some range holds it |
| ProductIds.InSomeRangeSnoc | 2025/02/puzzle02.php:53-60 | an id is in one more range exactly when it is in the earlier ones or in that one |
| ProductIds.SumInvalid | 2025/02/puzzle02.php:51-62 | the loop appends the invalid ids of every range, in order, and the answer is their sum |
| ProductIds.Run | 2025/02/puzzle02.php:45-65 | the run fails exactly when a line is not a range, and otherwise answers the sum of the invalid ids of all the ranges |
| ProductIds.EvenDigits | 2025/02/puzzle02.php:155 | an id of `2h` digits is invalid exactly when `10^h + 1` divides it |
| ProductIds.InvalidDivides | 2025/02/puzzle02.php:155 | an invalid id of `2h` digits is a multiple of `10^h + 1` |
| ProductIds.DividesInvalid | 2025/02/puzzle02.php:155 | a multiple of `10^h + 1` with `2h` digits is invalid |
| ProductIds.QuotientBounds | 2025/02/puzzle02.php:155 | the quotient of such a multiple has `h` digits |
| ProductIds.OddDigits | 2025/02/puzzle02.php:155 | an id with an odd number of digits is never invalid |
| ProductIds.NoneBetween | 2025/02/puzzle02.php:161-168 | a range without invalid ids gives nothing |
| ProductIds.OnlyOne | 2025/02/puzzle02.php:161-168 | a range with a single invalid id gives just that id |
| ProductIds.EvenOne | 2025/02/puzzle02.php:161-168 | among `2h`-digit ids, a multiple of `10^h + 1` closer than that to both ends is the only id given |
| ProductIds.EvenTwo | 2025/02/puzzle02.php:161-168 | two consecutive such multiples, each close to its end, are the only ids given |
| ProductIds.NearMultiple | 2025/02/puzzle02.php:161-168 | two multiples of `d` closer than `d` are equal |
| ProductIds.OddNone | 2025/02/puzzle02.php:161-168 | a range of odd-length ids gives nothing |
| ProductIds.Test11To22 | 2025/02/puzzle02.php:71-77 | 11-22 gives 11 and 22 |
| ProductIds.Test95To115 | 2025/02/puzzle02.php:79-85 | 95-115 gives 99 |
| ProductIds.Test998To1012 | 2025/02/puzzle02.php:87-93 | 998-1012 gives 1010 |
| ProductIds.Test1188511880To1188511890 | 2025/02/puzzle02.php:95-101 | 1188511880-1188511890 gives 1188511885 |
| ProductIds.Test222220To222224 | 2025/02/puzzle02.php:103-109 | 222220-222224 gives 222222 |
| ProductIds.Test1698522To1698528 | 2025/02/puzzle02.php:111-117 | 1698522-1698528 gives nothing |
| ProductIds.Test446443To446449 | 2025/02/puzzle02.php:119-125 | 446443-446449 gives 446446 |
| ProductIds.Test38593856To38593862 | 2025/02/puzzle02.php:127-133 | 38593856-38593862 gives 38593859 |
| BatteryBanks.Score | 2025/03/puzzle03.php:156-162 | a full battery scores `9 * n`; any other scores less, but never below `9 * position` |
| BatteryBanks.CharVoltage | 2025/03/puzzle03.php:95 | `(int)` of one character is between 0 and 9 |
| BatteryBanks.NewBank | 2025/03/puzzle03.php:44-97 | one battery per character of the trimmed line, battery `i` at position `i` with the voltage of the `i`-th character |
| BatteryBanks.BankSort | 2025/03/puzzle03.php:128-137 | 1 when the first battery has the higher voltage, or the same voltage further left; -1 the other way round; 0 only for the same voltage and position |
| BatteryBanks.BankSortOrder | 2025/03/puzzle03.php:128-137 | the comparison is antisymmetric and transitive, so `usort` has an order to sort by |
| BatteryBanks.BestGreatest | 2025/03/puzzle03.php:115-118 | the battery first after `usort` and `array_reverse` is one of the slice and no battery of it is greater |
| BatteryBanks.Best | 2025/03/puzzle03.php:115-118 | the battery kept is no smaller than the first one under `bankSort`, and a single battery is kept |
| BatteryBanks.BestStep | 2025/03/puzzle03.php:115-118 | a battery at least as great as the greatest of a list is at least as great as all of it |
| BatteryBanks.Pick | 2025/03/puzzle03.php:109-118 | the pick of a round lies between the offset and the last position that leaves enough batteries for the other rounds |
| BatteryBanks.PickWindow | 2025/03/puzzle03.php:109-118 | the pick lies in the slice, holds its highest voltage, and is the first battery of the slice that does |
| BatteryBanks.Greedy | 2025/03/puzzle03.php:106-121 | `n` rounds pick `n` voltages |
| BatteryBanks.GreedyPositions | 2025/03/puzzle03.php:106-121 | `n` rounds pick `n` positions |
| BatteryBanks.DigitString | 2025/03/puzzle03.php:123 | `implode` of `n` digits is `n` digit characters |
| BatteryBanks.DigitStringValue | 2025/03/puzzle03.php:123 | `(int)` of the imploded digits is the number they spell |
| BatteryBanks.GreedyDigits | 2025/03/puzzle03.php:106-121 | the voltages picked are digits |
| BatteryBanks.Round | 2025/03/puzzle03.php:109-120 | one pass of the loop takes the slice's greatest battery, moves the offset past it and appends its voltage, leaving the later rounds to pick the rest |
| BatteryBanks.Spelled | 2025/03/puzzle03.php:123 | the digits picked, imploded and read back, are the number they spell |
| BatteryBanks.PickDigits | 2025/03/puzzle03.php:105-121 | the loop picks the greedy voltages, one per round |
| BatteryBanks.GetLargestJoltage | 2025/03/puzzle03.php:99-126 | the output is the number spelled by the greedy voltages |
| BatteryBanks.Chosen | 2025/03/puzzle03.php:99-126 | one voltage per chosen position |
| BatteryBanks.GreedyIsChoice | 2025/03/puzzle03.php:106-121 | the greedy positions are increasing and inside the bank |
| BatteryBanks.GreedyChosen | 2025/03/puzzle03.php:106-121 | the voltages at the greedy positions are the greedy voltages |
| BatteryBanks.ChoiceRoom | 2025/03/puzzle03.php:110 | a choice of `m` batteries starts early enough to leave room for the other `m - 1` |
| BatteryBanks.JoltageBound | 2025/03/puzzle03.php:123 | `m` digits spell a number below `10^m` |
| BatteryBanks.JoltageLex | 2025/03/puzzle03.php:123 | numbers of as many digits compare by their first digit, then by the rest |
| BatteryBanks.FirstPick | 2025/03/puzzle03.php:109-118 | the first battery of any choice is no greater than the pick, and not before it when it is as great |
| BatteryBanks.GreedyOptimal | 2025/03/puzzle03.php:99-126 | no choice of `m` batteries after the offset spells a larger number than the greedy one |
| BatteryBanks.LargestJoltage | 2025/03/puzzle03.php:99-126 | what `getLargestJoltage` returns is the largest number that any `k` batteries of the bank spell in order, and some `k` batteries spell it |
| BatteryBanks.Banks | 2025/03/puzzle03.php:42-49 | one bank per line, with one battery per character of the trimmed line, positions counted from 0 |
| BatteryBanks.TotalJoltageLargest | 2025/03/puzzle03.php:57-66 | no way of switching on `k` batteries in every bank gives a larger total than the greedy choices |
| BatteryBanks.SumJoltages | 2025/03/puzzle03.php:57-60 | the sum of `getLargestJoltage` over the banks |
| BatteryBanks.Run | 2025/03/puzzle03.php:51-69 | the total joltage of the banks with two batteries each, then with twelve |
| PaperRolls.FromChar | 2025/04/puzzle04.php:175-180 | a cell is a roll exactly when its character is `@`, and floor otherwise |
| PaperRolls.Cells | 2025/04/puzzle04.php:84-91 | the grid keeps the shape of the rows read, each cell through `fromChar` |
| PaperRolls.BoxMembers | 2025/04/puzzle04.php:135-143 | the neighbours of a cell are the other cells of the 3 x 3 block around it |
| PaperRolls.Leading | 2025/04/puzzle04.php:39-42 | the lines kept before the first one `array_filter` drops |
| PaperRolls.ParseGrid | 2025/04/puzzle04.php:37-96 | the rows are the trimmed, non-blank lines; the grid cannot be built when no line is kept, when a dropped line comes before a kept one, or when a row is shorter than the first |
| PaperRolls.RowTotalCounts | 2025/04/puzzle04.php:108-111 | the inner reduce counts the flagged cells of a row once each |
| PaperRolls.TotalCounts | 2025/04/puzzle04.php:105-117 | the nested reduce counts every flagged cell of the grid once |
| PaperRolls.Grid.RowAroundMembers | 2025/04/puzzle04.php:136-142 | the inner loop lists the in-bound cells of one row of the block, other than the centre, left to right |
| PaperRolls.Grid.AroundMembers | 2025/04/puzzle04.php:135-143 | the positions the loops list are the in-bound cells of the 3 x 3 block other than its centre |
| PaperRolls.Grid.AroundOrdered | 2025/04/puzzle04.php:135-143 | they are listed in row-major order, so none twice |
| PaperRolls.Grid.NeighbourPositions | 2025/04/puzzle04.php:133-143 | the nested loops over `range(-1, 1)` build that list |
| PaperRolls.Grid.BusyCounts | 2025/04/puzzle04.php:146-150 | on a list without repetition, the reduce counts the rolls listed |
| PaperRolls.Grid.InBound | 2025/04/puzzle04.php:119-125 | a position is in bounds exactly when it lies in the grid's rows and columns, and is then a cell of the grid |
| PaperRolls.Grid.BusyNear | 2025/04/puzzle04.php:146-152 | the count compared with four is the number of rolls next to the cell |
| PaperRolls.Grid.NearIsListed | 2025/04/puzzle04.php:135-150 | the rolls next to a cell are the rolls in its list |
| PaperRolls.Grid.SetNeighbors | 2025/04/puzzle04.php:127-156 | every roll gets its neighbour list and is flagged accessible exactly when fewer than four neighbours hold a roll; floor cells get neither |
| PaperRolls.Grid.FlagStep | 2025/04/puzzle04.php:132-153 | handling one cell flags it when it is a roll and leaves every other flag alone |
| PaperRolls.Grid.ListStep | 2025/04/puzzle04.php:132-153 | handling one cell lists its neighbours when it is a roll and leaves every other list alone |
| PaperRolls.Grid.constructor | 2025/04/puzzle04.php:78-96 | the grid is the rows through `fromChar`; exactly the rolls have a flag and a neighbour list, and the flag says fewer than four neighbours hold a roll |
| PaperRolls.Grid.NbAccessibleCounts | 2025/04/puzzle04.php:105-117 | after construction, `getNbAccessible` is the number of rolls with fewer than four rolls next to them |
| PaperRolls.Grid.NbAccessible | 2025/04/puzzle04.php:105-116 | the nested reduce counts every flagged cell of the grid once |
| PaperRolls.OrderedAppend | 2025/04/puzzle04.php:135-143 | a row listed left to right after the rows above keeps row-major order |
| PaperRolls.Run | 2025/04/puzzle04.php:37-57 | the run fails exactly when the grid cannot be built, and otherwise answers the number of rolls with fewer than four rolls next to them |
| FreshRanges.FindKey | 2025/05/puzzle05.php:125-130 | the first position whose range contains the id, if any; nothing exactly when no range contains it |
| FreshRanges.Cells | 2025/05/puzzle05.php:219-222 | the ids a range contains |
| FreshRanges.CoverSet | 2025/05/puzzle05.php:118-123 | the ids some range of the list contains |
| FreshRanges.CountCoverTwo | 2025/05/puzzle05.php:219-222 | an id contained by two ranges of the list is covered twice |
| FreshRanges.CountCoverAt | 2025/05/puzzle05.php:219-222 | an id contained by a range of the list is covered at least once |
| FreshRanges.CoverSetSnoc | 2025/05/puzzle05.php:142-185 | the ids of one more range are those before and those of that range |
| FreshRanges.SortRangeTotalOrder | 2025/05/puzzle05.php:190-199 | `sortRange` orders by lower bound, then upper bound; it is antisymmetric and transitive, and only equal ranges tie |
| FreshRanges.SortRange | 2025/05/puzzle05.php:190-199 | `sortRange` answers -1, 0 or 1; 0 exactly for equal ranges, and at most 0 exactly when the first range comes first by lower bound, then upper bound |
| FreshRanges.Contains | 2025/05/puzzle05.php:219-222 | only a range with `min <= max` contains an id, and it contains both its bounds |
| FreshRanges.Insert | 2025/05/puzzle05.php:138-176 | inserting into a sorted list adds one range |
| FreshRanges.Sort | 2025/05/puzzle05.php:138-176 | `usort` keeps the number of ranges |
| FreshRanges.InsertSorted | 2025/05/puzzle05.php:138-176 | inserting into a sorted list keeps it sorted and adds exactly that range |
| FreshRanges.SortSorted | 2025/05/puzzle05.php:138-176 | `usort` with `sortRange` gives a sorted permutation of the ranges |
| FreshRanges.SortCounts | 2025/05/puzzle05.php:138 | sorting covers the same ids, each as often |
| FreshRanges.SortKeeps | 2025/05/puzzle05.php:138-176 | sorting keeps well-formed ranges well-formed, disjoint ranges disjoint, and the ids covered |
| FreshRanges.Values | 2025/05/puzzle05.php:142-185 | the ranges that the unique list's objects hold |
| FreshRanges.InsertBy | 2025/05/puzzle05.php:157 | sorting the shared objects by the ranges they hold permutes them |
| FreshRanges.SortBy | 2025/05/puzzle05.php:157-176 | sorting the shared objects permutes them |
| FreshRanges.SortByValues | 2025/05/puzzle05.php:157-176 | sorting the objects sorts the ranges they hold |
| FreshRanges.SharedNew | 2025/05/puzzle05.php:149-157 | pushing the current range object and re-sorting keeps the sharing between the two lists |
| FreshRanges.SharedSet | 2025/05/puzzle05.php:158-166 | raising the bound of a unique range through its object changes that unique range, the same object in the sorted list, and nothing else |
| FreshRanges.SharedSetSort | 2025/05/puzzle05.php:167-176 | the same for lowering a bound, followed by re-sorting |
| FreshRanges.SharedSkip | 2025/05/puzzle05.php:177-184 | skipping a covered range changes nothing |
| FreshRanges.SharedCover | 2025/05/puzzle05.php:133-188 | after the merge the sorted list, whose objects may now hold merged ranges, covers the ids it covered before |
| FreshRanges.CellsCard | 2025/05/puzzle05.php:111 | a range holds `max - min + 1` ids |
| FreshRanges.WidthIsCoverCount | 2025/05/puzzle05.php:108-116 | for well-formed, disjoint ranges, the sum of `max - min + 1` is the number of distinct ids covered |
| FreshRanges.HeadApart | 2025/05/puzzle05.php:108-116 | in disjoint ranges the first range shares no id with the others |
| FreshRanges.CountFreshIsCount | 2025/05/puzzle05.php:98-106 | `freshnessCount` is the number of ingredients flagged fresh |
| FreshRanges.IngredientRanges.constructor | 2025/05/puzzle05.php:80-96 | the ranges and ingredient ids as read, in order, none fresh yet and no unique ranges |
| FreshRanges.IngredientRanges.ValidateFreshness | 2025/05/puzzle05.php:201-207 | every ingredient is flagged fresh exactly when some range contains its id; nothing else changes |
| FreshRanges.IngredientRanges.GetUniqueRanges | 2025/05/puzzle05.php:133-188 | a second call returns the cache; the first sorts the ranges in place, caches disjoint well-formed unique ranges that cover exactly the ids the ranges cover, and leaves the sorted list covering the same ids, its objects shared with the unique list |
| FreshRanges.MergeRanges | 2025/05/puzzle05.php:142-185 | over sorted ranges, the loop builds disjoint well-formed ranges covering exactly the same ids, sharing objects with the sorted list |
| FreshRanges.MergeOne | 2025/05/puzzle05.php:143-184 | one turn of the loop keeps the merge invariant and the sharing |
| FreshRanges.MergeNew | 2025/05/puzzle05.php:149-157 | a range with neither end covered is added and the list stays disjoint and covers one range more |
| FreshRanges.MergeRaise | 2025/05/puzzle05.php:158-166 | a range whose lower end only is covered raises that unique range's upper bound, and the list stays disjoint |
| FreshRanges.MergeLower | 2025/05/puzzle05.php:167-176 | a range whose upper end only is covered lowers that unique range's lower bound |
| FreshRanges.MergeSkip | 2025/05/puzzle05.php:177-184 | a range whose upper end is covered adds no id |
| FreshRanges.NewRangeKeeps | 2025/05/puzzle05.php:149-157 | a new range, uncovered at its lower end and not below any lower bound, overlaps no unique range |
| FreshRanges.RaiseKeeps | 2025/05/puzzle05.php:158-166 | raising the upper bound of the range that holds the lower end adds exactly the ids of the new range and overlaps no other range |
| FreshRanges.LowerUnreachable | 2025/05/puzzle05.php:167-176 | on sorted ranges a unique range holding the upper end also holds the lower end, so the branch that lowers a bound is never taken |
| FreshRanges.BothCovered | 2025/05/puzzle05.php:177-184 | when the unique range holding the upper end starts at or below the lower end, every id of the range is covered already |
| FreshRanges.UniqueCountIsFreshIds | 2025/05/puzzle05.php:108-116 | on the unique ranges, `freshnessCountUnique` is the number of distinct ids some range contains |
| MathWorksheet.From | 2025/06/puzzle06.php:191-197 | an operation is built exactly when the operator is `+` or `*`, with the operands given, adding exactly for `+`; anything else, or a missing operator, throws |
| MathWorksheet.Solve | 2025/06/puzzle06.php:199-209 | with no operand, the sum is 0 and the product 1 |
| MathWorksheet.SolveSnoc | 2025/06/puzzle06.php:199-209 | one more operand is added to the sum, or multiplies the product |
| MathWorksheet.SolveOrderFree | 2025/06/puzzle06.php:199-209 | the order of the operands does not change the result |
| MathWorksheet.Total | 2025/06/puzzle06.php:175-179 | the grand total of one operation is its result, and it is never negative when no result is |
| MathWorksheet.MoveLast | 2025/06/puzzle06.php:199-209 | moving one operand to the end does not change the result |
| MathWorksheet.CombineSwap | 2025/06/puzzle06.php:199-209 | two steps of the sum or the product can be swapped |
| MathWorksheet.TotalAppend | 2025/06/puzzle06.php:175-179 | the grand total of two lists of operations is the sum of their totals |
| MathWorksheet.LinesApart | 2025/06/puzzle06.php:76-77 | a line of numbers has a digit and a line of operators has none, so no line is both |
| MathWorksheet.CollapseKeeps | 2025/06/puzzle06.php:94-103 | collapsing runs of whitespace changes nothing in a single-spaced line |
| MathWorksheet.TokensOfJoined | 2025/06/puzzle06.php:94-104 | pieces written with one space between them are read back by the collapse and `explode` |
| MathWorksheet.Values | 2025/06/puzzle06.php:98 | one value per piece, each the number its leading digits spell |
| MathWorksheet.AddColumns | 2025/06/puzzle06.php:96-99 | after a line of numbers there are as many operand lists as the longer of the lists and the line |
| MathWorksheet.Overwrite | 2025/06/puzzle06.php:105-108 | after a line of operators there are as many operators as the longer of the operators and the line |
| MathWorksheet.ColumnPastWidest | 2025/06/puzzle06.php:91-115 | no row reaches past the widest row |
| MathWorksheet.LtrColumns | 2025/06/puzzle06.php:91-115 | left to right, operation `k` collects the `k`-th number of every line of numbers, in line order, and there are as many operations as the longest line has numbers |
| MathWorksheet.LtrColumnsStep | 2025/06/puzzle06.php:96-99 | one more line of numbers adds its `k`-th number to list `k` |
| MathWorksheet.OperatorsFromLastLine | 2025/06/puzzle06.php:102-109 | operator `k` comes from the last line of operators long enough to have one |
| MathWorksheet.Build | 2025/06/puzzle06.php:117-119 | building succeeds exactly when every operand list has a `+` or `*` operator, and operation `k` is then list `k` with operator `k` |
| MathWorksheet.BuildStopsAtFirstError | 2025/06/puzzle06.php:117-119 | the first unknown operator throws and ends the building |
| MathWorksheet.InitLTR | 2025/06/puzzle06.php:89-120 | the operations are those built from the left-to-right operand lists and operators |
| MathWorksheet.Groups | 2025/06/puzzle06.php:152-167 | the columns split into at least one group at the blank columns |
| MathWorksheet.PlacedKeys | 2025/06/puzzle06.php:152-167 | operation `k` gets group `top - k`, and only non-empty groups from 0 up to `top` are kept |
| MathWorksheet.RtlGroups | 2025/06/puzzle06.php:148-167 | right to left, operation `top - j` collects the values of the `j`-th group of columns between blank ones, rightmost column first; groups past operation 0 are never read |
| MathWorksheet.ColumnsPlace | 2025/06/puzzle06.php:152-167 | with a partly filled operation and the operations above it, the rest of the loop places the remaining groups below them |
| MathWorksheet.GroupsFilled | 2025/06/puzzle06.php:158-161 | a column with something in it, read right to left, joins the group in progress |
| MathWorksheet.GroupsBlank | 2025/06/puzzle06.php:162-164 | a blank column starts a new group |
| MathWorksheet.PushColumn | 2025/06/puzzle06.php:154-161 | a column with something in it is pushed onto the current operation |
| MathWorksheet.BlankColumn | 2025/06/puzzle06.php:162-164 | a blank column closes the current operation |
| MathWorksheet.TakeColumn | 2025/06/puzzle06.php:154-167 | one pass over a column with something in it pushes its value and moves one column left |
| MathWorksheet.SkipColumn | 2025/06/puzzle06.php:162-167 | one pass over a blank column moves to the operation before and one column left |
| MathWorksheet.Columns | 2025/06/puzzle06.php:149-167 | every operand list already keyed keeps its key; a new key lies between 0 and the operator index the scan starts from, or is that index when it is negative (-1 when there is no operator) |
| MathWorksheet.Down | 2025/06/puzzle06.php:170-172 | building succeeds exactly when every operand list has a `+` or `*` operator; at most one operation per key, and the lowest key's operation comes last |
| MathWorksheet.RtlOperations | 2025/06/puzzle06.php:122-173 | from the operand rows and the operators: no rows is the `NoRows` error; otherwise reading right to left succeeds exactly when every column group has a `+` or `*` operator, and gives at most one operation more than there are operators |
| MathWorksheet.DownStopsAtFirstError | 2025/06/puzzle06.php:170-172 | the first unknown operator throws and ends the building |
| MathWorksheet.ReadColumns | 2025/06/puzzle06.php:149-167 | the `do`/`while` collects the operand lists the column reading defines |
| MathWorksheet.ReadColumn | 2025/06/puzzle06.php:154-166 | one pass pushes the column onto the current operation, or moves to the operation before on a blank column |
| MathWorksheet.InitRTL | 2025/06/puzzle06.php:122-173 | the operations are those built from the right-to-left operand lists and operators |
| MathWorksheet.BuildDown | 2025/06/puzzle06.php:170-172 | one operation per operand list from the last operator down; the first unknown operator throws |
| JunctionCircuits.AppendNew | 2025/08/puzzle08.php:437-440 | the guarded push adds the item unless it is there already, and keeps the list free of duplicates |
| JunctionCircuits.Unique | 2025/08/puzzle08.php:336 | `array_unique` keeps the same elements, once each |
| JunctionCircuits.UniqueOfNoDup | 2025/08/puzzle08.php:336 | `array_unique` leaves a list without duplicates unchanged |
| JunctionCircuits.KeysOf | 2025/08/puzzle08.php:401-402 | `array_keys($index, $v)` lists exactly the boxes indexed to `v`, once each |
| JunctionCircuits.Diff | 2025/08/puzzle08.php:325 | `array_diff` keeps exactly the items not confirmed, and nothing when all are |
| JunctionCircuits.StoreAll | 2025/08/puzzle08.php:433-441 | the loop of `store` keeps the network it stores into |
| JunctionCircuits.StoreAllStep | 2025/08/puzzle08.php:433-441 | one more item is indexed to the network and listed in it |
| JunctionCircuits.WithNetwork | 2025/08/puzzle08.php:429 | a missing network is created empty; the index is untouched |
| JunctionCircuits.ReindexStep | 2025/08/puzzle08.php:340-342 | one more confirmed item is indexed to the destination |
| JunctionCircuits.Merge | 2025/08/puzzle08.php:308-363 | the merge throws exactly when the source network is missing or holds an item not indexed to it, and then changes nothing |
| JunctionCircuits.ReindexFacts | 2025/08/puzzle08.php:340-342 | re-indexing points exactly the items given at the new network and leaves the rest of the index and the networks alone |
| JunctionCircuits.StoredSteps | 2025/08/puzzle08.php:426-442 | `store` creates the network and stores the first item, then the second when it differs |
| JunctionCircuits.WithNetworkKeeps | 2025/08/puzzle08.php:429 | creating the next network keeps the database consistent |
| JunctionCircuits.StoreKeeps | 2025/08/puzzle08.php:426-442 | storing two boxes into a network that neither belongs elsewhere keeps the database consistent, puts both in that network and only adds to the index |
| JunctionCircuits.StoredIndex | 2025/08/puzzle08.php:433-436 | after `store` both boxes are indexed to the network and earlier entries are kept |
| JunctionCircuits.ConfirmIsMembers | 2025/08/puzzle08.php:320-326 | on a consistent database the boxes indexed to a network are its members, so the consistency check finds no extra item |
| JunctionCircuits.MergeKeeps | 2025/08/puzzle08.php:308-363 | merging two existing networks never throws on a consistent database; it keeps it consistent, empties the source, gives the destination the boxes of both, and re-indexes exactly the source's boxes |
| JunctionCircuits.MovedKeeps | 2025/08/puzzle08.php:326-356 | the move empties the source, gives the destination the boxes of both, and re-indexes the source's boxes |
| JunctionCircuits.MovedConsistent | 2025/08/puzzle08.php:326-356 | the move keeps the database consistent |
| JunctionCircuits.MovedShape | 2025/08/puzzle08.php:328-342 | the destination holds its boxes and the confirmed ones once each, the source is empty, and only the confirmed boxes are re-indexed |
| JunctionCircuits.MergeDomain | 2025/08/puzzle08.php:308-363 | the merge indexes no new box and keeps boxes that shared a network together |
| JunctionCircuits.FullNetwork | 2025/08/puzzle08.php:261-270 | on a consistent database, a network as large as the set of boxes holds every box |
| JunctionCircuits.AllInOne | 2025/08/puzzle08.php:241 | once some network holds as many boxes as there are, all boxes share one network |
| JunctionCircuits.StrCmp | 2025/08/puzzle08.php:417 | PHP's comparison of two names is -1, 0 or 1, and 0 exactly for equal names |
| JunctionCircuits.StrCmpFlip | 2025/08/puzzle08.php:417 | swapping the names flips the comparison |
| JunctionCircuits.ListCmp | 2025/08/puzzle08.php:417 | PHP's `<=` on two lists of names compares as -1, 0 or 1 |
| JunctionCircuits.ListCmpFlip | 2025/08/puzzle08.php:417 | swapping the lists flips the comparison, and 0 means equal lists |
| JunctionCircuits.Found | 2025/08/puzzle08.php:131 | the network numbers found: none when neither box has one, two when they differ, otherwise the one number found |
| JunctionCircuits.GroupedStep | 2025/08/puzzle08.php:292-295 | one more indexed box is added to its network's entry |
| JunctionCircuits.GroupedOrder | 2025/08/puzzle08.php:292-295 | every network met has one entry, listed once, in the order first met |
| JunctionCircuits.GroupedMet | 2025/08/puzzle08.php:292-295 | a network has an entry exactly when some indexed box belongs to it |
| JunctionCircuits.GroupedNodes | 2025/08/puzzle08.php:292-295 | each entry lists the boxes indexed to its network, in index order |
| JunctionCircuits.Listed | 2025/08/puzzle08.php:291-295 | one network per entry, in the order first met |
| JunctionCircuits.InsertBySize | 2025/08/puzzle08.php:588-599 | inserting a network adds exactly that network |
| JunctionCircuits.InsertBySizeSorted | 2025/08/puzzle08.php:588-599 | inserting into a list sorted largest first keeps it sorted |
| JunctionCircuits.SortBySize | 2025/08/puzzle08.php:296 | `uasort` permutes the networks |
| JunctionCircuits.SortBySizeSorted | 2025/08/puzzle08.php:596-599 | `uasort` with `sortSizeDesc` puts larger networks first |
| JunctionCircuits.Take | 2025/08/puzzle08.php:298-300 | a positive limit keeps that many networks from the front, or all when there are fewer; otherwise all are kept |
| JunctionCircuits.LargestSorted | 2025/08/puzzle08.php:287-301 | the networks returned are sorted largest first |
| JunctionCircuits.LargestMembers | 2025/08/puzzle08.php:287-301 | each network returned is a network of the database with exactly its boxes |
| JunctionCircuits.LargestDistinct | 2025/08/puzzle08.php:287-301 | no network is returned twice |
| JunctionCircuits.LargestAll | 2025/08/puzzle08.php:287-301 | without a limit, every non-empty network is returned |
| JunctionCircuits.JunctionBox.constructor | 2025/08/puzzle08.php:453-467 | the box keeps its name and coordinates and has no connection yet |
| JunctionCircuits.JunctionBox.Connect | 2025/08/puzzle08.php:497-523 | connecting always succeeds, as `MAX_CONNECTIONS` is 0; an existing connection is kept as it is, otherwise the other box is appended to the outbound list and this one to the other's inbound list |
| JunctionCircuits.Circuits.constructor | 2025/08/puzzle08.php:103-122 | the boxes and the pairs, with an empty database |
| JunctionCircuits.Circuits.GetIndex | 2025/08/puzzle08.php:277-285 | an indexed box gives its network; an unindexed one gives nothing when checking, and a new network number when forcing |
| JunctionCircuits.Circuits.SameNetwork | 2025/08/puzzle08.php:365-371 | two boxes share a network exactly when both are indexed to the same one, that is, when some network holds both |
| JunctionCircuits.Circuits.SortIndexesByCreated | 2025/08/puzzle08.php:395-424 | returns the two numbers, the one with fewer boxes first when their sizes differ |
| JunctionCircuits.Circuits.SortIndexesSymmetric | 2025/08/puzzle08.php:395-424 | the order does not depend on which number is given first |
| JunctionCircuits.Circuits.Store | 2025/08/puzzle08.php:426-442 | the database after `store` |
| JunctionCircuits.Circuits.MergeNetworks | 2025/08/puzzle08.php:308-363 | the result and the database after `mergeNetworks` |
| JunctionCircuits.Circuits.AddJunctionBoxConnection | 2025/08/puzzle08.php:124-165 | afterwards both boxes share the network returned, the database stays consistent, boxes that shared a network still do, and only the two boxes may be new to the index |
| JunctionCircuits.Circuits.ChooseNetwork | 2025/08/puzzle08.php:126-149 | the network chosen is an existing one or the next new one, neither box belongs to another, and the merge keeps boxes that shared a network together |
| JunctionCircuits.Circuits.GetLargestNetworks | 2025/08/puzzle08.php:287-301 | the networks of the index, largest first, up to the limit |
| JunctionCircuits.Circuits.ConnectJunctionBoxes | 2025/08/puzzle08.php:167-254 | every pair tried ends up in one network; the loop stops early only once one network holds every box, and then returns the product of the last pair's x coordinates; otherwise it returns the number of pairs tried |
| JunctionCircuits.Circuits.ConnectPairs | 2025/08/puzzle08.php:175-251 | the `while` loop: every pair tried shares a network, and it stops before the end only when one network holds every box |
| JunctionCircuits.Circuits.JoinPair | 2025/08/puzzle08.php:185-233 | after one pair the two boxes share a network, and boxes that shared one still do |
| DeviceTrails.FindFrom | 2025/11/puzzle11.php:381 | the search finds the first `->` at or after `i`, or reports that there is none |
| DeviceTrails.FirstConnector | 2025/11/puzzle11.php:381 | the first `->` of a string, with none before it, or none at all |
| DeviceTrails.Split | 2025/11/puzzle11.php:379-382 | `explode('->', ...)` always yields at least one piece |
| DeviceTrails.SplitPieces | 2025/11/puzzle11.php:379-382 | no piece of the exploded trail contains the connector |
| DeviceTrails.JoinSplit | 2025/11/puzzle11.php:329-382 | imploding the exploded pieces gives the trail text back |
| DeviceTrails.SplitJoin | 2025/11/puzzle11.php:329-382 | exploding an implode of connector-free names gives the names back |
| DeviceTrails.SplitCons | 2025/11/puzzle11.php:379-382 | a trail text that starts with a connector-free name explodes to that name followed by the rest's pieces |
| DeviceTrails.ConnectorAfter | 2025/11/puzzle11.php:379-382 | the first connector of `name->rest` sits right after the name |
| DeviceTrails.NameFirstPiece | 2025/11/puzzle11.php:344-351 | `endsIn` with a name compares against exactly that name (the first piece of `name->`) |
| DeviceTrails.IndexOf | 2025/11/puzzle11.php:374 | `array_find_key` returns the first index holding the name |
| DeviceTrails.AddMirrorsPrepend | 2025/11/puzzle11.php:294-406 | on trails without repeated nodes, `a->add(b)` is allowed exactly when `b->prepend(a)` is |
| DeviceTrails.JoinedNoDup | 2025/11/puzzle11.php:299-307 | the recursion scan guarantees that an added trail still visits no node twice |
| DeviceTrails.Overlap | 2025/11/puzzle11.php:310 | replacing the last node by the added trail equals appending the added trail without its first node |
| DeviceTrails.AddJoined | 2025/11/puzzle11.php:309-311 | re-exploding the imploded result of `add` gives the old nodes followed by the new ones |
| DeviceTrails.PrependJoined | 2025/11/puzzle11.php:399-401 | re-exploding the imploded result of `prepend` gives the new nodes followed by the old ones |
| DeviceTrails.Trail.FromPath | 2025/11/puzzle11.php:282-287 | a trail built from a path is `from->to` |
| DeviceTrails.Trail.From | 2025/11/puzzle11.php:329-334 | `Trail::from` implodes the names with `->` |
| DeviceTrails.Trail.Parts | 2025/11/puzzle11.php:379-382 | a trail has at least one node |
| DeviceTrails.Trail.Start | 2025/11/puzzle11.php:363-366 | the start is a node name and begins the trail |
| DeviceTrails.Trail.End | 2025/11/puzzle11.php:353-356 | the end is a node name and closes the trail |
| DeviceTrails.Trail.Contains | 2025/11/puzzle11.php:318-322 | only a node name is contained, and the start and the end always are |
| DeviceTrails.Trail.GetTrailFrom | 2025/11/puzzle11.php:368-377 | null exactly when the name is not on the trail; otherwise a new trail holding the nodes from its first occurrence on, starting with that name |
| DeviceTrails.Trail.Add | 2025/11/puzzle11.php:294-316 | succeeds exactly when this trail ends where the other starts and none of the other's later nodes is already here; then the nodes are the old ones followed by the other's without its first, otherwise the trail is unchanged |
| DeviceTrails.Trail.ExtendFrom | 2025/11/puzzle11.php:336-342 | succeeds exactly when this trail's end lies on the other trail and the part of it from there can be added; the new nodes are then that part appended, otherwise the trail is unchanged |
| DeviceTrails.Trail.Prepend | 2025/11/puzzle11.php:384-406 | succeeds exactly when the other trail ends where this one starts and none of its earlier nodes is already here; then the nodes are the other's without its last followed by the old ones, otherwise the trail is unchanged |
| DeviceTrails.Without | 2025/11/puzzle11.php:248-251 | the filter keeps exactly the connections other than the target, in order |
| DeviceTrails.WithoutCount | 2025/11/puzzle11.php:248-252 | the connections dropped by the filter are exactly the direct connections to the target, counted with multiplicity |
| DeviceTrails.SumOverStep | 2025/11/puzzle11.php:253-259 | the loop adds one further connection's count (0 for an unknown device) per step |
| DeviceTrails.Prefixed | 2025/11/puzzle11.php:253-259 | each trail continued through a connection gets the current device in front |
| DeviceTrails.DirectFacts | 2025/11/puzzle11.php:252 | the direct trails are `[u, to]`, one per direct connection to the target |
| DeviceTrails.DirectHas | 2025/11/puzzle11.php:252 | a direct connection to the target gives the trail `[u, to]` |
| DeviceTrails.DirectAtMostOne | 2025/11/puzzle11.php:252 | without repeated connections there is at most one direct trail |
| DeviceTrails.DirectNone | 2025/11/puzzle11.php:252 | without a connection to the target there is no direct trail |
| DeviceTrails.WithoutNoDup | 2025/11/puzzle11.php:248-251 | filtering keeps a duplicate-free connection list duplicate-free |
| DeviceTrails.WalksCount | 2025/11/puzzle11.php:242-263 | the count from a device equals the number of enumerated trails, and each of them is a real walk from the device to the target |
| DeviceTrails.Count | 2025/11/puzzle11.php:242-263 | the count from a device is at least its number of direct connections to the target; `WalksCount` says what it is |
| DeviceTrails.WalksOverCount | 2025/11/puzzle11.php:253-259 | the trails through the listed connections number exactly the loop's sum, and each is a walk |
| DeviceTrails.WalksOverHas | 2025/11/puzzle11.php:253-259 | every trail from a connection, with the device in front, is among the trails through the connections |
| DeviceTrails.WalksComplete | 2025/11/puzzle11.php:242-263 | every walk from the device to the target (stopping at the first visit of the target) is counted |
| DeviceTrails.WalksOverShape | 2025/11/puzzle11.php:253-259 | a trail through a connection starts with the device, then that connection, and has at least three nodes |
| DeviceTrails.WalksDistinct | 2025/11/puzzle11.php:242-263 | with no repeated connections, no walk is counted twice, so the count is the number of distinct walks |
| DeviceTrails.WalksOverDistinct | 2025/11/puzzle11.php:253-259 | trails through different connections are different |
| DeviceTrails.DistinctAppend | 2025/11/puzzle11.php:253-259 | joining two lists of distinct trails with nothing in common keeps them distinct |
| DeviceTrails.PrefixedDistinct | 2025/11/puzzle11.php:253-259 | putting the device in front keeps distinct trails distinct |
| DeviceTrails.LastApart | 2025/11/puzzle11.php:253-259 | the trails through the last connection share none with those through the earlier ones |
| DeviceTrails.CountFuelAgrees | 2025/11/puzzle11.php:242-263 | the recursion exactly as written, given enough depth, computes the count on an acyclic rack |
| DeviceTrails.SumFuelAgrees | 2025/11/puzzle11.php:253-259 | the summing loop as written, given enough depth, computes the sum of the counts |
| DeviceTrails.SelfLoopNeverEnds | 2025/11/puzzle11.php:242-263 | a device connected to itself makes the recursion run out of any depth bound |
| DeviceTrails.Rack.constructor | 2025/11/puzzle11.php:128-131 | an acyclic rack starts with an empty memo |
| DeviceTrails.Rack.GetTrailsToCount | 2025/11/puzzle11.php:242-263 | the memoised recursion returns the number of trails, stores it under (device, target), keeps every memo entry right and drops none |

## Left out

Left out across all puzzles:
- File reading, command-line options, `Logger` files and `echo` output. The `Main` and `Parser` classes are modelled only where they compute something. Each `Run` or `Solve` member takes the input lines as a parameter.
- Debug renderers (`__toString`, `print`, `__toArray`).
- The 2024/14 Christmas-tree search (`findXmasTree`, `checkXmasTree`), which scans rendered strings with a regular expression.
- PHP's 64-bit integer width. Every integer here is unbounded. The inputs the puzzles use stay far below `PHP_INT_MAX`, except where a line below says otherwise.
- Text.ToInt: reads only a leading run of digits. PHP's `(int)` also skips leading blanks and reads a sign. The solvers only apply it to digit strings or to pieces already split on blanks.
- Regular-expression parsing is modelled by the shape it accepts, not by a regex engine:
  - the 2024/01 line pattern is staged as digits, blanks, digits;
  - the 2024/07 `preg_split('/:?\s+/')` is a head-first split;
  - the 2024/13 button and prize lines and the 2024/17 register and program lines are taken as already-read numbers;
  - the 2024/12 `findRegionsOnRow` regex split is not modelled, and neither are `findAllRegions` and `addRegions`, which gather its regions: `GardenGroups.Garden.DelimitRegions` takes the candidate regions as given;
  - the 2025/05 `RANGE_REGEX` and `INGREDIENT_ID_REGEX` are not modelled: `FreshRanges.IngredientRanges.constructor` takes the ranges and ids already read;
  - the 2025/08 coordinate lines are not modelled: boxes are given by name;
  - the 2025/02 comma split and newline removal are not modelled: `ProductIds.ParseRanges` takes the pieces.

Per puzzle:
- PageOrder.Sort follows `zend_sort` exactly for up to five pages: two pages by one comparison, three by `zend_sort_3`, four and five by `zend_sort_3` and linear insertion. Longer updates are sorted by linear insertion throughout. PHP inserts the pages after the sixth by binary search, and sorts more than 16 pages by its hybrid quicksort. On a comparator that is no order the comparisons made decide the result, so these may differ: `CyclicRules` shows this for `zend_sort_3`. When the comparator is antisymmetric and transitive on the update, `SortIsTheOrder` shows that every sorting algorithm gives the same order.
- Reports.Values: a piece that PHP 8 reads as a number but that does not start with a digit makes the model throw, where PHP would read it. Such pieces are `"+5"`, `" 5"` and `".5"`. Split on single spaces, a report line has no such piece unless it holds a sign or a dot.
- Equations.Apply: `*` works on unbounded naturals. In PHP a product past `PHP_INT_MAX` becomes a float, and storing it into `?int $subtotal` throws a TypeError. That exception path is not modelled.
- Equations.Concat: `||` works on unbounded naturals. In PHP, `(int)` of a concatenation past 19 digits saturates at `PHP_INT_MAX`. The saturation is not modelled.
- Equations.Equation.SolveWith requires a non-empty operator list; both phases of `run` pass two or three operators.
- GuardPatrol.Parser.Run: takes a fuel bound on the number of legs. The source loops forever on a patrol that never leaves the map; with fuel the model reports that it has not finished.
- ChronospatialComputer.Computer.Run: takes a fuel bound on the number of steps. A looping program runs forever in the source.
- DiskCompaction.DiskMap.SwapFileToSpace requires `spaceIndex < fileIndex`. `moveFiles` only calls it with a space to the left of the file.
- DiskCompaction: `defrag` (2024/09/puzzle9.php:109-119) is not modelled. It is not part of the answer's computation.
- HikingTrails.ReadMap requires at least one line. With none, the source fails on `count(null)` before computing anything.
- GardenGroups.ReadMap requires at least one line, for the same reason. So does `GardenGroups.Garden.constructor`.
- GardenGroups: part two (`setNbSides`, `sortRegionPlants`, `setRegionSides`) is not modelled.
- GardenGroups: `Garden::getPrice` (2024/12/puzzle12.php:245-252), the sum of the regions' prices, is not modelled; `GardenGroups.Region.Price` and `GardenGroups.Garden.DelimitRegions` give each kept region's price.
- GardenGroups: the `ObjectCompare` comparator is modelled as equality, the only use the solver makes of it.
- Antennas.Run requires distinct antenna positions. With two equal positions and harmonics on, the walk's step is zero and the source loops forever. Every parsed map has distinct positions (`Antennas.ReadDistinct`).
- Antennas.Map.AddWalk requires a non-zero step when harmonics are on, for the same reason.
- ClawMachines.Part2 requires every machine to hold its own prize object, as the parser builds them. The model does not cover prizes shared between machines.
- BathroomRobots: the grid size is chosen from the input's file name; the name is a parameter.
- Stones: `blink`, `getStonesCountRecursive` and `getStonesProcessList` (2024/11/puzzle11.php:259-277, 325-385) are not modelled. Neither are the `Sudo`/`Main` sharding of rounds across processes through static globals and environment variables (2024/11/puzzle11.php:22-189). Only the stone rules, the memo, the line tally, the stone count and the round split are modelled.
- DialLock.Lock.constructor requires `max >= 0`. With `max = -1`, PHP's `%` by zero throws; the solver always passes 99.
- BatteryBanks.Run requires at least 12 batteries on every trimmed line. On a shorter bank the source reads undefined array offsets, raising warnings, and still prints a number. That number is not modelled.
- BatteryBanks.GetLargestJoltage requires `k` not to exceed the number of batteries, for the same reason.
- KeysLocks.Main.constructor requires every block to have a non-empty first line. An empty block makes the source throw a TypeError; `KeysLocks.Solve` reports that error instead of building `Main`.
- FreshRanges: ids and bounds are read as floats by the source and are integers here. So are the 2025/06 worksheet numbers (`MathWorksheet`).
- JunctionCircuits: the pairs are taken in increasing distance as a given list. `setDistances`, with its `sqrt` distances and `asort`, is not modelled.
- JunctionCircuits: the reverse connection in `JunctionBox::connect` is never reached, because `MAX_CONNECTIONS` is 0.
- JunctionCircuits: `Main::run` multiplies the sizes of the three largest networks; that product is not modelled. `JunctionCircuits.Circuits.GetLargestNetworks` gives the networks it multiplies.
- DeviceTrails.Rack.constructor requires an acyclic rack, stated as a ranking that falls along every connection. On a cycle `getTrailsToCount` recurses without end (`DeviceTrails.SelfLoopNeverEnds`). See Findings.
- DeviceTrails.Rack.GetTrailsToCount: the memo key is the pair (device, target). The source uses the string `trails_to_count_<device>_<target>`, which equals the pair for names without `_`.
- DeviceTrails.Rack.GetTrailsToCount: the count is an `int`. The source declares a `float` result, which holds the same whole numbers up to 2^53.
- DeviceTrails: `getTrailsTo` (2025/11/puzzle11.php:165-240) is not modelled. It expands trails breadth-first and keeps them by `md5` hash. Part one's number of trails is the same quantity as `DeviceTrails.WalksCount` counts.
- DeviceTrails: `addTrail` and part two's product of route counts in `Main::run` (2025/11/puzzle11.php:76-99) are not modelled.

## Findings

| source | as written | input that shows it | evidently intended | confidence | as-written member | corrected member |
|---|---|---|---|---|---|---|
| 2024/09/puzzle9.php:283-320 | when the space block sits right before the file (`space_index == file_index - 1`), the file-side splice shifts the space, and the second splice overwrites the wrong block | disk `12213`: moving file 1 into the space before it shrinks the disk from 9 cells to 6 | a swap keeps every cell and every file's size | high (not executed) | DiskCompaction.AdjacentSwapLosesCells | DiskCompaction.SwapPreservesCells |
| 2024/13/puzzle13.php:34-35 | the cost counts any integer solution, including negative press counts | buttons whose only solution presses A minus three times: the cost is -3 tokens | a machine is won only with non-negative presses; otherwise it costs nothing | medium (not executed) | ClawMachines.NegativePresses | ClawMachines.CostWins |
| 2024/11/puzzle11.php:315-323 | `empty($stone_list)` is also true for the string `"0"` | the line `0` holds one stone, but is counted as none | a blank line holds no stone, any other one more than its spaces | low (not executed; `run` never reaches it) | Stones.StonesCountZeroStone | Stones.StonesCountOfLine |
| 2024/07/puzzle7.php:160-173 | `find` accepts any node whose subtotal equals the result, including nodes before the last number | `10: 10 5` with `+` and `*` is accepted after the first number, although `10 + 5` and `10 * 5` both differ from 10 | only a choice of operators over all the numbers counts | high (not executed) | Equations.PrefixFound | Equations.FoundLeafFull |
| 2024/06/puzzle6.php:255-259 | the patrol ends when the last cell seen lies on any border, even when a landmark stopped the guard there | map `#....` / `.....` / `^....` (guard at row 2, column 0, facing north): the patrol stops at row 1, column 0 after two cells, instead of turning east | the patrol ends only when the guard's next step leaves the map | high (not executed) | GuardPatrol.PatrolStopsEarly | GuardPatrol.PatrolFree |
| 2024/04/puzzle4.php:289-291 | the north-west pairings read `$se[0]` (the south-east solutions) to compute the crossing offset | board `S.S` / `.A.` / `M.M` with answer `MAS`: the north-west/north-east pairing fails on a missing `$se[0]` | the offset comes from the pairing's own first word | medium (not executed) | WordSearch.XScoreCounterexample | WordSearch.XScore |
| 2025/11/puzzle11.php:242-263 | `getTrailsToCount` recurses into every connection, with nothing to stop a cycle | a device `aaa` connected to itself: the count never returns | counting finishes; on an acyclic rack it is the number of distinct trails | low (not executed; puzzle racks have no cycle) | DeviceTrails.SelfLoopNeverEnds | DeviceTrails.WalksDistinct |
