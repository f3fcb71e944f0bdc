# Advent of Code 2023 solutions (MalteT/aoc-2023), modelled in Dafny

This project models the puzzle solvers of the Rust repository `aoc-2023`.
It covers days 1 to 20 (except 17), day 23 and the shared `Grid` of
`aoc-utils`. Each solver becomes a module of pure functions over immutable
values; each module sits in its own file.

| file | module | source |
|---|---|---|
| wrappers.dfy | Wrappers | `Option`/`Result`, the error kinds: integer parse errors, input errors, panics, `unreachable!()` and hangs |
| text.dfy | Text | splitting, trimming and number parsing on strings |
| maps.dfy | Maps | `BTreeMap` building and folds |
| gcd.dfy | Gcd | the greatest common divisor and least common multiple used on day 8 |
| grid.dfy | Grid | `aoc-utils/src/grid.rs` |
| day01.dfy, day01_complete.dfy, day01_examples.dfy | Day01, Day01Rev, Day01Complete, Day01Examples | the forward and backward digit automata and their tests |
| day02.dfy … day20.dfy | Day02 … Day20, Day03Examples, Day08Input, Day19Ranges, Day19Run | one solver per day |
| day23.dfy, day23_paths.dfy | Day23, Day23Paths | the trail map, its graph, and the two path searches |

Throughout the model:

- Every failure of the program is a value. `ParseInt` and `Input` are the crate's errors. `Panic` is an `unwrap` or an arithmetic overflow, and `Unreachable` an `unreachable!()` that is reached. `Hang` is a loop that never ends, which the model bounds with fuel.
- Each operation is modelled as written, including the places where the code disagrees with what it evidently means. In those places a corrected definition sits beside it, with the intended property proved (see "Findings").
- Integers are unbounded, except where the program saturates or panics on purpose. Saturating arithmetic is written out.
- Text is a string of characters, one per input byte.

Where the code and its description disagree, the model follows the code:

- On day 23 only junctions (cells with more than two open neighbours) become graph nodes. The entrance and the exit are not nodes: both searches first trace the corridor from the entrance down and from the exit up to the nearest junction, then add those step counts.
- On day 7, part one scores a jack as 1 (below a two) through the shared `calculate_score`.

## Model

| member | source | states |
|---|---|---|
| Grid.InBoundsIndex | aoc-utils/src/grid.rs:138-143 | a position inside the grid indexes the buffer |
| Grid.PosIdxRoundTrip | aoc-utils/src/grid.rs:75-81 | turning a position with x below the width into an index and back gives the position |
| Grid.IdxPosRoundTrip | aoc-utils/src/grid.rs:75-81 | turning an index into a position and back gives the index, with x below the width |
| Grid.IdxInBounds | aoc-utils/src/grid.rs:12-14 | every index of a complete row lies inside the grid |
| Grid.FindIdx | aoc-utils/src/grid.rs:20-26 | None exactly when no cell matches; otherwise the position of the first matching cell in buffer order |
| Grid.Map | aoc-utils/src/grid.rs:28-35 | same width and size, each cell replaced by its image |
| Grid.IterPos | aoc-utils/src/grid.rs:51-56 | one entry per cell, in buffer order, pairing its position with its value |
| Grid.IterPosRowMajor | aoc-utils/src/grid.rs:51-56 | the entries come row by row, left to right, and each value is what indexing its position gives |
| Grid.CloneWithFn | aoc-utils/src/grid.rs:58-66 | same width and size, each cell the function of its position and value |
| Grid.CloneWith | aoc-utils/src/grid.rs:68-73 | same width and size, every cell the given value |
| Grid.Set | aoc-utils/src/grid.rs:146-151 | writing a position changes that cell and no other |
| Grid.Walk | day-10/src/main.rs:210-218 | a step from inside the grid stays inside |
| Grid.WalkSpec | day-10/src/main.rs:210-218 | a step moves exactly one cell along the heading, and fails exactly when that cell is off the grid |
| Grid.Row | day-23/src/main.rs:124-128 | row y holds its cells left to right, each paired with its position |
| Grid.FromBytesSpec | aoc-utils/src/grid.rs:89-111 | every non-newline byte is converted in order (the first failure is the error), newlines are never stored, and the width is the offset of the first newline or the byte count |
| Grid.FirstNewline | aoc-utils/src/grid.rs:98 | the offset of the first newline, or the length when there is none |
| Day01.PairDigits | day-01/src/main.rs:332-334 | the two-digit number with `left` as tens and `right` as units |
| Day01.FirstDigit | day-01/src/main.rs:11-15 | None exactly when the line has no ASCII digit; otherwise the value of the first digit of the line |
| Day01.LastDigit | day-01/src/main.rs:16-21 | None exactly when the line has no ASCII digit; otherwise the value of the last digit of the line |
| Day01.SumLines | day-01/src/main.rs:8-45 | the sum succeeds exactly when every line has a calibration value |
| Day01.SolveFirstFails | day-01/src/main.rs:8-25 | part 1 fails exactly when some line holds no digit |
| Day01.CalibrationFirstDigits | day-01/src/main.rs:8-25 | a line's part-1 value is ten times its first digit plus its last digit |
| Day01.AdvanceSound | day-01/src/main.rs:86-139 | a state-specific transition is never taken on a digit, and what the next state remembers, or the word it completes, ends what was read |
| Day01.ApplySound | day-01/src/main.rs:86-152 | every digit `1`..`9` is reported as itself in every state, `0` goes back to the start, and every step keeps the remembered letters a suffix of what was read |
| Day01.RunFrom | day-01/src/main.rs:153-163 | a reported digit lies in 1..9 |
| Day01.RunFromSound | day-01/src/main.rs:153-163 | a reported digit was written, as a digit or spelled out, at the end of some prefix of the input |
| Day01.RunFromNone | day-01/src/main.rs:153-163 | running out of bytes means the input holds no digit `1`..`9` |
| Day01Complete.Table | day-01/src/main.rs:86-152 | from every state on every byte, a transition goes to the longest part of a spelled digit that the state's letters and the byte end with, and no spelled digit ends there |
| Day01Complete.StepMaximal | day-01/src/main.rs:86-152 | if a state remembers the longest part of a word that ends what was read, so does the state after any transition |
| Day01Complete.StepNothingWritten | day-01/src/main.rs:86-152 | under that invariant a transition means no digit, ASCII or spelled, ends what has been read |
| Day01Complete.RunFromNumber | day-01/src/main.rs:156-160 | a byte that gives a number stops the run at once with that digit, the first one written |
| Day01Complete.RunFromComplete | day-01/src/main.rs:153-163 | if some prefix of the input ends with a digit, the run reports the digit of the shortest such prefix |
| Day01Complete.RunComplete | day-01/src/main.rs:153-163 | a line with a digit or a spelled digit always gives a number, and it is the one completed first |
| Day01Rev.AdvanceSound | day-01/src/main.rs:196-264 | a state-specific transition of the backward automaton is never taken on a digit and keeps its letters a suffix of the reversed input read so far |
| Day01Rev.ApplySound | day-01/src/main.rs:196-267 | every digit `1`..`9` is reported as itself in every state, `0` restarts, and every step is sound for the reversed words |
| Day01Rev.RunFrom | day-01/src/main.rs:268-278 | a reported digit lies in 1..9 |
| Day01Rev.RunNone | day-01/src/main.rs:268-278 | running out of bytes means the line holds no digit `1`..`9` |
| Day01Examples.ForwardWords | day-01/src/main.rs:342-350 | each spelled digit on its own is recognised by the forward automaton |
| Day01Examples.ForwardOverlaps | day-01/src/main.rs:352-357 | when words share letters the forward automaton reports the word completed first (`onine` 9, `threight` 8, `fone` 1, ...) |
| Day01Examples.BackwardWords | day-01/src/main.rs:362-370 | each spelled digit on its own is recognised by the backward automaton |
| Day01Examples.BackwardOverlaps | day-01/src/main.rs:268-278 | the backward automaton reports the last word of the line (`oneight` 8, `twone` 1, `sevenine` 9) |
| Day02.IsPossible | day-02/src/main.rs:82-88 | true exactly when every set fits into 12 red, 13 green, 14 blue |
| Day02.MinimumPossible | day-02/src/main.rs:89-95 | every set fits into the result; no sets give zero dice |
| Day02.MinimumLeast | day-02/src/main.rs:89-95 | the result is the smallest bag every set fits into |
| Day02.PossibleByMinimum | day-02/src/main.rs:82-95 | a game is possible iff its minimum bag fits into the total |
| Day02.ParseEntry | day-02/src/main.rs:66-75 | a malformed entry, a bad count or an unknown colour panics |
| Day02.ParseSets | day-02/src/main.rs:62-78 | one parsed set per `;` piece; failures are panics |
| Day02.ParseBag | day-02/src/main.rs:53-81 | every malformed line panics (colon, head, id, entries) |
| Day02.EntryRoundTrip | day-02/src/main.rs:67-75 | `<n> <colour>` sets exactly that colour to n |
| Day02.SetRoundTrip | day-02/src/main.rs:64-77 | a rendered set parses back; unmentioned colours stay 0 |
| Day02.SetsRoundTrip | day-02/src/main.rs:62-78 | rendered sets parse back in order |
| Day02.ParseRender | day-02/src/main.rs:53-81 | the id after `Game ` and the sets parse back from the rendered line |
| Day02.FoldParsed | day-02/src/main.rs:36-50 | over parsed games the folds sum ids of possible games and powers of minimum bags |
| Day02.SolveParsed | day-02/src/main.rs:36-50 | when every line parses, the answers are those of the games |
| Day02.FoldFails | day-02/src/main.rs:36-50 | a fold fails exactly when some parsed line is an error |
| Day02.SolveFails | day-02/src/main.rs:36-50 | both answers fail exactly when some line does not parse |
| Day02.ExampleFirst | day-02/src/main.rs:98 | the published example games give 8 |
| Day02.ExampleSecond | day-02/src/main.rs:98 | the published example games give 2286 (powers 48, 12, 1560, 630, 36) |
| Day03.Register | day-03/src/main.rs:35-42 | Two and Invalid go to Invalid |
| Day03.Ratio | day-03/src/main.rs:44-51 | non-zero only for a gear with two neighbours |
| Day03.RegisterAllCounts | day-03/src/main.rs:35-42 | registering neighbours in order gives None, One(n), Two(a*b) or Invalid by their count |
| Day03.RatioOfNeighbours | day-03/src/main.rs:35-51 | a gear's ratio is the product of exactly two neighbours, else 0 |
| Day03.PushNewline | day-03/src/main.rs:84-87 | last becomes the old current line and current the default |
| Day03.ScanByte | day-03/src/main.rs:140-192 | column advances by 1 (newline resets to 0); a number is pending iff the byte is a digit; a non-digit first emits the pending number; newline emits it then Newline |
| Day03.ScanDigits | day-03/src/main.rs:151-163 | digits accumulate as num*10+d with the first digit's column, emitting nothing |
| Day03.NumberToken | day-03/src/main.rs:141-147 | the byte after the digits emits Number with range start.saturating_sub(1)..end+1 and the digits' value |
| Day03.NewlineToken | day-03/src/main.rs:175-180 | a newline emits the pending number, then Newline, and resets the column |
| Day03.RemoveAdjacent | day-03/src/main.rs:212-220 | the loop removes exactly the previous-line numbers touching the symbol, keeps the rest in order, and gains their values |
| Day03.ValuesPartition | day-03/src/main.rs:212-220 | splitting the numbers by the symbol neither loses nor invents value |
| Day03.StepSymbolsConserves | day-03/src/main.rs:200-236 | per token: sum + waiting values grows by the number's value; a newline only forgets the previous line's waiting numbers |
| Day03.FoldSymbolsBound | day-03/src/main.rs:200-236 | each number is summed at most once: sum + waiting ≤ the values of the numbers read |
| Day03.SolveFirstBound | day-03/src/main.rs:115-121 | part 1 never exceeds the sum of all numbers scanned |
| Day03.NumberThenSymbol | day-03/src/main.rs:202-226 | a number followed by a symbol in the next column is summed |
| Day03.CollectRegisters | day-03/src/main.rs:259-265 | a new gear registers exactly the previous line's numbers touching it, in order |
| Day03.CollectAdjacent | day-03/src/main.rs:259-265 | ... and is None/One/Two/Invalid by their count |
| Maps.MinKey | day-03/src/main.rs:276-281 | the key the ordered map visits first: in the key set and no larger than any other key |
| Day03.NewlineKeepsFlushed | day-03/src/main.rs:275-285 | a newline moves the previous line's ratios into the sum without losing any |
| Day03.FoldGearsAppend | day-03/src/main.rs:245-287 | folding one more token continues from the fold's state |
| Day03.BlankLineKeepsFlushed | day-03/src/main.rs:123-129 | (corrected) an extra empty line does not change the answer |
| Day03Examples.LastLineGearLost | day-03/src/main.rs:275-285 | "1*1\n" gives 0 as written, 1 with a trailing empty line, 1 corrected |
| Wrappers.TrySum | day-04/src/main.rs:68-76 | Ok exactly when every entry is Ok; an error is the first failing entry |
| Wrappers.TrySumOk | day-04/src/main.rs:68-76 | on all-Ok entries the fold is the plain sum of the values |
| Maps.SumRemove | day-04/src/main.rs:80-84 | the sum of a map's values does not depend on key order |
| Maps.SumUpdate | day-04/src/main.rs:52 | writing v at k changes the sum by v minus the old entry |
| Day04.CollectSet | day-04/src/main.rs:23 | Ok iff every number parses; then exactly the parsed values; else one of the errors |
| Day04.CountAsWritten | day-04/src/main.rs:24-26 | as written: zero iff no entry is counted, all iff every entry is, where a parse failure is counted |
| Day04.MalformedCounted | day-04/src/main.rs:24-26 | whatever the winning numbers, a list holding one unparsable entry counts 1 match as written, an error corrected |
| Day04.Matches | day-04/src/main.rs:24-26 | corrected count: Ok iff every number parses; zero iff no entry is winning; at most the list length |
| Day04.MatchesAgree | day-04/src/main.rs:23-26 | on lists that parse, the corrected count equals the program's count |
| Day04.Score | day-04/src/main.rs:27-30 | zero iff no match; a shift past 63 panics |
| Day04.ScoreDoubles | day-04/src/main.rs:27-30 | one match scores 1; each further match doubles the score |
| Day04.BodyMatches | day-04/src/main.rs:20-26 | a body without the vertical-bar delimiter gives the input error naming that missing delimiter; otherwise Ok iff the winning numbers parse (corrected: and the own numbers too), counting at most one match per own number |
| Day04.BodyMatchesAgree | day-04/src/main.rs:23-26 | when the own numbers all parse, the count as written equals the corrected count |
| Day04.LineScore | day-04/src/main.rs:16-31 | as written or corrected: no ':' gives the "Missing ':' delimiter" input error; otherwise Ok iff the body's count is at most 64, and then zero iff there is no match |
| Day04.CardId | day-04/src/main.rs:40-44 | fewer than two words gives "Missing card id"; otherwise the second word parsed |
| Day04.ParseCard | day-04/src/main.rs:37-51 | as written or corrected: no ':' is an input error; a bad card id fails before the body is read; Ok iff id and body both parse, and then holds exactly those |
| Day04.SpreadEffect | day-04/src/main.rs:57-59 | each key of the range gains the count; no other entry changes |
| Day04.PushCardEffect | day-04/src/main.rs:52-61 | own count +1; cards id+1..=id+m gain the new own count; nothing else changes |
| Day04.SpreadTotal | day-04/src/main.rs:57-59 | the total grows by n times the added count |
| Day04.PushCardTotal | day-04/src/main.rs:52-61 | one card adds 1 + m*(old count + 1) to the total |
| Day04.FoldCardsCounts | day-04/src/main.rs:78-87 | on parsed cards the total holds at least one card per line |
| Day04.SolveFirstSum | day-04/src/main.rs:68-76 | as written or corrected, part 1 is Ok iff every line scores, and then is the sum of scores |
| Day04.SolveSecondCounts | day-04/src/main.rs:78-87 | as written or corrected, part 2 is Ok iff every line parses, and then at least the number of lines |
| Day04.ExampleFirst | day-04/src/main.rs:27-30 | the published example's match counts score 13 |
| Day04.ExampleSecond | day-04/src/main.rs:52-61 | the published example's cards total 30 |
| Day04.MalformedOwnList | day-04/src/main.rs:20-26 | a body whose winning numbers parse and whose own list is one malformed number counts 1 match as written and is a parse error corrected |
| Day04.MalformedCard | day-04/src/main.rs:16-51 | the card with id 1, winning number 5 and own number `x` scores 1 point and counts 1 match as written, and is a parse error corrected, in both parts |
| Day05.MapRange | day-05/src/main.rs:18-31 | both ends move by the same saturating shift |
| Day05.MapRangeShifts | day-05/src/main.rs:18-31 | well-formed ranges stay well-formed, keep their length without saturation, Sub undoes Add |
| Day05.ShiftMoves | day-05/src/main.rs:140-148 | the shift of "to from len" moves from..from+len onto to..to+len |
| Day05.NthNumber | day-05/src/main.rs:140-148 | a missing number is the "Not enough numbers on line" input error |
| Day05.ParseLine | day-05/src/main.rs:125-151 | empty line, header unless the first byte is a digit, fewer than three words an error, map ranges well-formed |
| Day05.MapWords | day-05/src/main.rs:140-148 | fewer than three words is an error; a success is a map line with well-formed source |
| Day05.ParseRender | day-05/src/main.rs:125-151 | a written map line "to from len" parses back to its source range and shift |
| Day05.CutIsIntersection | day-05/src/main.rs:90-115 | in all four cases the moved part is the intersection and the pieces the non-empty rest on either side |
| Day05.HitIffOverlap | day-05/src/main.rs:90-116 | for non-empty ranges the loop acts on an entry iff it overlaps the source range |
| Day05.CutKeepsSeeds | day-05/src/main.rs:90-115 | pieces plus moved part hold exactly the seeds of the entry |
| Day05.PiecesMiss | day-05/src/main.rs:96-103 | with a non-empty source, at most two pieces, none hit again |
| Day05.RunRemap | day-05/src/main.rs:83-119 | the while loop ends as the entry-by-entry description: misses kept in order, pieces behind, moved parts appended |
| Day05.ApplyMapLine | day-05/src/main.rs:73-122 | a map line with non-empty source ends, leaving misses+pieces pending and moved parts in curr |
| Day05.FixedEnds | day-05/src/main.rs:83-119 | the corrected line handling always ends |
| Day05.ZeroLengthHangs | day-05/src/main.rs:96-103 | a zero-length source at the end of a pending range re-appends the range forever, whatever the fuel |
| Day05.ZeroLengthLine | day-05/src/main.rs:83-119 | as written the line hangs; corrected it leaves the state alone |
| Day05.SeedWords | day-05/src/main.rs:177-183 | an error iff the "seeds: " prefix is missing ("invalid seeds line"); otherwise the words parsed |
| Day05.Pairs | day-05/src/main.rs:158-166 | one chunk per two numbers, start checked before length |
| Day05.PairsIgnoreOdd | day-05/src/main.rs:158-166 | a trailing unpaired word is dropped even when it is not a number |
| Day05.SeedNumbersRender | day-05/src/main.rs:168-175 | a written seed line reads back as one unit range per number |
| Day05.SeedRangesRender | day-05/src/main.rs:158-166 | a written seed line reads back as one range per consecutive pair |
| Day05.ParseLines | day-05/src/main.rs:64 | each later line parsed, in order |
| Day05.FixedFoldEnds | day-05/src/main.rs:62-65 | the corrected fold succeeds iff every line parses |
| Day05.MinStart | day-05/src/main.rs:66-70 | the start of one of the ranges, and no range starts lower |
| Day05.Solve | day-05/src/main.rs:53-58 | no lines is the "Not enough lines" input error |
| Day05.SolveErrors | day-05/src/main.rs:57-65 | a bad seed line fails with its own error, and so does a failing fold over the map lines |
| Day05.SolveIsMinimum | day-05/src/main.rs:53-71 | once seeds and fold succeed: no final ranges is the "No seeds?" error, otherwise the answer is the start of one of the fold's own final ranges (pending and moved) and no final range starts lower |
| Day05.FixedNeverHangs | day-05/src/main.rs:53-71 | with the corrected map lines solving never hangs |
| Day05.ZeroLengthSolve | day-05/src/main.rs:53-122 | "seeds: s 1" with "t s+1 0" hangs as written, and answers s corrected |
| Day06.DistanceShape | day-06/src/main.rs:102-104 | holding h or total-h goes equally far; holding for the whole race or longer goes nowhere |
| Day06.WinsIffSquare | day-06/src/main.rs:102-104 | a hold wins iff (2h-T)^2 + 4D < T^2 |
| Day06.Isqrt | day-06/src/main.rs:30 | floor square root: r^2 <= n < (r+1)^2 |
| Day06.BandOf | day-06/src/main.rs:30-36 | the root never exceeds T, so hodl_min = T/2 - root/2 does not underflow |
| Day06.InsideWins | day-06/src/main.rs:29-38 | every hold strictly inside the band wins |
| Day06.OutsideLoses | day-06/src/main.rs:45-53 | no hold two or more outside the band wins, so the probes at min-1, max+1, max+2 suffice |
| Day06.CenterBest | day-06/src/main.rs:32 | the middle hold wins whenever any hold does |
| Day06.WaysCounts | day-06/src/main.rs:29-53 | the corrected formula equals the number of winning hold times |
| Day06.WaysAsWrittenPanics | day-06/src/main.rs:38-44 | as written: equals the count when some hold wins, panics when none does |
| Day06.TieRacePanics | day-06/src/main.rs:38-44 | T=3, D=2: no hold wins; as written it panics, corrected it answers 0 |
| Day06.RaceWays | day-06/src/main.rs:26-54 | one race's factor: its win count, or the panic as written when nothing wins |
| Day06.RaceFields | day-06/src/main.rs:16-23 | the numbers after the label, each parsed |
| Day06.FoldRacesProduct | day-06/src/main.rs:24-55 | on parsed races the corrected fold is the product of the win counts over the zipped pairs |
| Day06.FoldRacesAsWritten | day-06/src/main.rs:24-55 | as written the fold panics iff one zipped race cannot be won, else agrees |
| Day06.RaceFieldsRender | day-06/src/main.rs:16-23 | a written race line reads back as its numbers |
| Day06.SolveFirst | day-06/src/main.rs:9-15 | missing first/second line errors |
| Day06.SolveFirstRender | day-06/src/main.rs:9-56 | part one on written lines is the product of win counts (panic as written when a race cannot be won) |
| Day06.DigitsOnlyConcat | day-06/src/main.rs:65-72 | digit filtering distributes over concatenation |
| Day06.DigitsValueConcat | day-06/src/main.rs:68 | the fold num*10+digit shifts by the places of appended digits |
| Day06.KernedConcat | day-06/src/main.rs:65-72 | the digits of two parts of a line form one number |
| Day06.KernedShow | day-06/src/main.rs:65-72 | a written number reads as itself, digit-free text as 0 |
| Day06.SolveSecond | day-06/src/main.rs:58-64 | missing first/second line errors |
| Day07.ParseCard | day-07/src/main.rs:40-59 | any byte other than the thirteen labels reaches the unreachable!() panic |
| Day07.ParseLabel | day-07/src/main.rs:40-59 | every card's label parses back to that card |
| Day07.LabelParse | day-07/src/main.rs:40-59 | a byte that parses is the label of the card it parses to |
| Day07.RankInjective | day-07/src/main.rs:11-27 | distinct cards have distinct discriminants 2..14 |
| Day07.ParseHand | day-07/src/main.rs:96-105 | fewer than five bytes panics on indexing; only panics; each of the first five bytes is its card, the rest ignored |
| Day07.ParseLabels | day-07/src/main.rs:96-105 | a written hand parses back to itself |
| Day07.TallyCounts | day-07/src/main.rs:120-123 | the BTreeMap fold counts every card's occurrences, and holds exactly the cards present |
| Day07.MaxCountIsMax | day-07/src/main.rs:125-145 | the largest count is a count of the hand, no count exceeds it, and it lies in 1..5, so the unreachable arm is never taken |
| Day07.TwosCount | day-07/src/main.rs:130-137 | the number of counts equal to 2 is at least one iff some card occurs exactly twice, at least two iff two different cards do |
| Day07.TyByPairs | day-07/src/main.rs:119-146 | ty agrees with the classification by number of equal pairs of places (10,6,4,3,2,1,0) |
| Day07.BestCard | day-07/src/main.rs:161-173 | None iff all five are jokers; else a non-joker card of the hand that beats every other non-joker card by (count, rank) |
| Day07.Resolve | day-07/src/main.rs:148-181 | no jokers: unchanged; otherwise no jokers remain, non-jokers keep their places, all jokers become one card; all jokers become all aces |
| Day07.ReplacePairs | day-07/src/main.rs:174-179 | turning jokers into c adds (#jokers × #c) equal pairs |
| Day07.ResolveIsBest | day-07/src/main.rs:148-181 | no single replacement card for all jokers gives a stronger type than resolve_joker's |
| Day07.ResolveNeverWeakens | day-07/src/main.rs:148-181 | resolving jokers never weakens the type |
| Day07.PackOrder | day-07/src/main.rs:186-189 | shift-and-or packing orders like lead value then digits lexicographically, and is injective |
| Day07.Score | day-07/src/main.rs:183-191 | the score is below 7·16^5, so the u32 never overflows |
| Day07.ScoreOrder | day-07/src/main.rs:183-191 | a stronger type always scores higher; equal types compare card by card; equal scores mean equal type and cards |
| Day07.LexLessAt | day-07/src/main.rs:186-189 | the first differing card decides |
| Day07.FirstKeyOrder | day-07/src/main.rs:64-70 | (corrected) part one orders by type then by card ranks |
| Day07.SecondKeyOrder | day-07/src/main.rs:77-86 | part two orders by resolved type then cards with the joker lowest; equal keys only for equal hands |
| Day07.JackBelowTen | day-07/src/main.rs:183-191 | as written a jack-led hand sorts below the ten-led one in part one; corrected above |
| Day07.ParseEntry | day-07/src/main.rs:107-117 | a line without a space is the "Invalid line is missing a space" error, and only such a line |
| Day07.ParseRender | day-07/src/main.rs:107-117 | a written "hand bid" line reads back |
| Maps.FromPairs | day-07/src/main.rs:65-70 | collect into BTreeMap: keys are the pairs' keys, the last pair for a key gives its value |
| Maps.RankedWeighted | day-07/src/main.rs:71-73 | the enumerate fold in key order is Σ value × (1 + #smaller keys) |
| Day07.RankedBids | day-07/src/main.rs:70-73 | winnings = Σ bid × rank over the map by key |
| Day07.Winnings | day-07/src/main.rs:64-75 | Ok iff every line parses; else the first failing line's error; Ok value is the ranked sum |
| Day07.TwoHands | day-07/src/main.rs:64-75 | two lines with distinct keys: lower rank 1, higher rank 2 |
| Day07.JackHandWinnings | day-07/src/main.rs:64-75 | "J2345 1"/"T2345 2": 5 as written, 4 corrected |
| Day07.TestTJ746 | day-07/src/main.rs:209 | "TJ746" scores below "T23TA": one pair each once the joker is a ten, then the joker ranks lowest |
| Day07.TestAKQT2 | day-07/src/main.rs:210 | "AKQT2" scores above "2TQKA": both high card, the leading ace decides |
| Day07.Test22222 | day-07/src/main.rs:211 | "22222" scores above "22223": five of a kind beats four of a kind |
| Day07.Test22232 | day-07/src/main.rs:212 | "22232" scores above "22224": both four of a kind, the three beats the two |
| Day07.Test222J3 | day-07/src/main.rs:213 | "222J3" scores below "22224": both four of a kind, the joker loses to the two |
| Day07.TestJJJ32 | day-07/src/main.rs:214 | "JJJ32" scores above "JJJ23": both four of a kind, the three beats the two in fourth place |
| Day07.TestJ3232 | day-07/src/main.rs:215 | "J3232" scores above "J2323": both full houses, the three beats the two in second place |
| Gcd.GcdDivides | day-08/src/main.rs:91 | gcd_binary's result divides both operands |
| Gcd.GcdGreatest | day-08/src/main.rs:91 | every common divisor divides the gcd |
| Gcd.LcmMultiple | day-08/src/main.rs:91 | for positive counts, number / gcd * total is positive and a multiple of both |
| Gcd.LcmLeast | day-08/src/main.rs:91 | number / gcd * total divides every common multiple of the two |
| Gcd.LcmFoldMultiple | day-08/src/main.rs:89-92 | the reduce over positive counts is positive and a multiple of every count |
| Gcd.LcmFoldLeast | day-08/src/main.rs:89-92 | the reduce divides every common multiple of the counts |
| Day08.ParseDirection | day-08/src/main.rs:96-104 | only L and R parse, every other byte reaches unreachable!() |
| Day08.ParseShowDirection | day-08/src/main.rs:96-104 | every direction's byte parses back to it |
| Day08.ParseInstructions | day-08/src/main.rs:96-109 | Ok iff every byte is L or R; the cursor starts at 0; each direction is its byte |
| Day08.Next | day-08/src/main.rs:149-158 | the cursor past the end panics on indexing; otherwise the instruction under it and the cursor wrapped modulo the length |
| Day08.NextAt | day-08/src/main.rs:149-158 | starting from cursor 0, the t-th call yields instruction t mod length |
| Day08.Travel | day-08/src/main.rs:27-32 | the neighbour is a node and is the left or right link |
| Day08.FirstHitIsFirst | day-08/src/main.rs:68-87 | a walker's count is the first step at which it stands on a target, none earlier |
| Day08.HitCountsSpec | day-08/src/main.rs:68-87 | counts exist for all walkers iff each reaches a target, and each is its own first-arrival step |
| Day08.Move | day-08/src/main.rs:70-72 | every walker takes the same instruction and stays a node |
| Day08.SiftKeeps | day-08/src/main.rs:73-81 | the walkers kept are exactly those not on a target, a sub-multiset of the input |
| Day08.SiftNotes | day-08/src/main.rs:73-81 | one count is pushed per walker removed, each equal to the round; no target means nothing changes |
| Day08.SiftInPlace | day-08/src/main.rs:73-81 | the in-place remove loop equals the functional sift |
| Day08.SiftHits | day-08/src/main.rs:68-87 | a round's removals plus the later rounds' counts give every walker's first arrival |
| Day08.RoundHits | day-08/src/main.rs:64-87 | the loop ends iff every walker reaches a target, and the pushed counts are a permutation of the first-arrival steps |
| Day08.RoundHang | day-08/src/main.rs:68-87 | with instructions present, the only failure is running out of fuel |
| Day08.NoInstructions | day-08/src/main.rs:69 | an empty instruction list panics on the first next() |
| Day08.LcdDistanceMultiple | day-08/src/main.rs:59-94 | Ok iff there are starters and every one reaches a target; the answer is positive and a multiple of every first-arrival step |
| Day08.LcdDistanceLeast | day-08/src/main.rs:59-94 | the answer divides every common multiple of the first-arrival steps |
| Day08.LcdDistanceSingle | day-08/src/main.rs:59-94 | a single starter's answer is its first-arrival step |
| Day08Input.ParseNodeLine | day-08/src/main.rs:145-147 | Ok iff the line has 15 characters; three three-letter names; only panics |
| Day08Input.ParseRenderNodeLine | day-08/src/main.rs:145-147 | a written node line reads back as its three names |
| Day08Input.RenderParseNodeLine | day-08/src/main.rs:145-147 | a line in `AAA = (BBB, CCC)` shape is the rendering of what is read from it |
| Day08Input.Indices | day-08/src/main.rs:117-123 | the map's keys are exactly the heads and every index is below the line count |
| Day08Input.IndicesDistinct | day-08/src/main.rs:117-123 | with distinct heads each head maps to its own line number |
| Day08Input.MatchingExactly | day-08/src/main.rs:126-128 | a line is a starter iff its head ends with the suffix |
| Day08Input.StarterNamesMatching | day-08/src/main.rs:126-128 | the pushed names are the heads of the matching lines, in order |
| Day08Input.Network | day-08/src/main.rs:130-137 | Ok iff every linked name heads some line; each pair is the two indices |
| Day08Input.BuildNodes | day-08/src/main.rs:111-143 | Ok iff every link names a head; the nodes are well formed, starters are nodes, targets are the heads ending with the target suffix |
| Day08Input.BuildNodesDistinct | day-08/src/main.rs:111-143 | with distinct heads each link leads to the node of that name and the starters are the matching lines in order |
| Day08Input.ParseNodeLines | day-08/src/main.rs:118-121 | Ok iff every node line has 15 characters |
| Day08Input.ParseNodeList | day-08/src/main.rs:111-143 | the nodes are well formed, one per line, starters are nodes; only panics |
| Day08Input.Solve | day-08/src/main.rs:42-56 | no first line is the "no header" input error |
| Day08Input.SolveParses | day-08/src/main.rs:42-56 | an answer means the header and node lines were read and the instructions are not empty |
| Day08Input.SolveMultiple | day-08/src/main.rs:50-56 | the answer is the least common multiple of the starters' first-arrival steps |
| Day08Input.SolveFirstSteps | day-08/src/main.rs:42-48 | part 1's answer is the number of steps from AAA to the first arrival at ZZZ |
| Day09.NonZeroDiff | day-09/src/main.rs:54-68 | the differences are returned exactly when the row is not constant, and they are the neighbour differences, never empty |
| Day09.ConstantDiffs | day-09/src/main.rs:54-68 | a row is constant if and only if all its differences are zero |
| Day09.FoldNonZero | day-09/src/main.rs:58-62 | the or-fold of `num != 0` is set exactly when some difference is non-zero |
| Day09.FindNext | day-09/src/main.rs:37-52 | succeeds exactly on a non-empty history; the empty one panics on unwrap |
| Day09.FindNextExtrapolates | day-09/src/main.rs:37-52 | stopping at the first constant row gives the same value as summing the last entries of the full difference table |
| Day09.ExtendsTable | day-09/src/main.rs:37-52 | appending the prediction to a history appends the row below's prediction to its differences |
| Day09.ConstantNext | day-09/src/main.rs:37-52 | a constant history predicts its own value |
| Day09.DiffsIntegrate | day-09/src/main.rs:57 | taking differences undoes running sums |
| Day09.IntegrateDiffs | day-09/src/main.rs:57 | running sums from the first reading rebuild the history from its differences |
| Day09.FindPrevious | day-09/src/main.rs:70-88 | succeeds exactly on a non-empty history; the empty one panics on the index |
| Day09.FindPreviousBackcasts | day-09/src/main.rs:70-88 | the reversed reduce of first entries equals the alternating sum over the full table |
| Day09.ExtendsTableBack | day-09/src/main.rs:70-88 | prepending the backward prediction prepends the row below's backward prediction to the differences |
| Day09.BackcastIsReversedNext | day-09/src/main.rs:70-88 | looking back equals predicting the reversed history |
| Day09.ParseLine | day-09/src/main.rs:30-35 | succeeds iff every whitespace-separated word is a signed decimal, one reading per word in order; otherwise a parse error |
| Day09.ParseShowLine | day-09/src/main.rs:30-35 | readings written with single spaces parse back to the same readings |
| Day09.TryTotal | day-09/src/main.rs:18 | the fold succeeds iff every item does, and then it is the sum of the items |
| Day09.NextOf | day-09/src/main.rs:16-17 | a line succeeds iff it parses to a non-empty history, and its value is the extrapolation |
| Day09.PreviousOf | day-09/src/main.rs:24-25 | a line succeeds iff it parses to a non-empty history, and its value is the backward extrapolation |
| Day09.SolveFirstTotal | day-09/src/main.rs:13-19 | part 1 succeeds iff every line holds readings, and is then the sum of their extrapolations |
| Day09.SolveSecondTotal | day-09/src/main.rs:21-27 | part 2 succeeds iff every line holds readings, and is then the sum of their backward extrapolations |
| Text.ParseSigned | day-09/src/main.rs:32 | an optional minus then digits (or ParseNat's forms) parse, and the value carries the sign |
| Text.ParseShowSigned | day-09/src/main.rs:32 | the decimal form of any integer parses back to it |
| Day10.Invert | day-10/src/main.rs:243-250 | the opposite heading is never the heading itself |
| Day10.InvertInvolution | day-10/src/main.rs:243-250 | inverting twice gives back the heading |
| Day10.SteerOpenings | day-10/src/main.rs:222-239 | steering from one side yields another side exactly when the tile's openings are those two distinct sides |
| Day10.SteerDefined | day-10/src/main.rs:222-239 | steering is defined exactly on the tile's openings; ground and the start have none |
| Day10.SteerTwice | day-10/src/main.rs:222-239 | steering back through the exit returns the entry side |
| Day10.PipeOf | day-10/src/main.rs:253-267 | exactly the eight puzzle characters convert; any other byte panics |
| Day10.PipeCharRoundTrip | day-10/src/main.rs:253-267 | every tile's character converts back to the tile |
| Day10.PipeOfRoundTrip | day-10/src/main.rs:253-267 | every accepted character is the character of the tile it gives |
| Day10.Follow | day-10/src/main.rs:201-206 | the walk's only errors are fuel running out or an out-of-range index |
| Day10.FollowChain | day-10/src/main.rs:201-206 | a completed walk from a tile is a chain of passable pipes, each step one cell, ending at the start |
| Day10.ChainFollow | day-10/src/main.rs:201-206 | conversely every such chain is what the walk finds, given fuel for its length |
| Day10.CircleRoute | day-10/src/main.rs:184-208 | a successful walk from the start in a heading is a route through connected pipes back to the start |
| Day10.RouteCircle | day-10/src/main.rs:184-208 | every route through connected pipes is found from its first heading |
| Day10.RouteEven | day-10/src/main.rs:72 | every closed route has even length, so halving it loses nothing |
| Day10.FoldOverCircleSteps | day-10/src/main.rs:184-208 | the accumulator is folded over the walk's tiles: the first with its arrival heading, the others with their exit heading |
| Day10.CountCircle | day-10/src/main.rs:47-51 | counting with the fold gives the route's length, and `None` exactly when there is no route |
| Day10.FirstLoopRoute | day-10/src/main.rs:46-73 | the loop's answer is half the length of a route leaving in one of the tried headings |
| Day10.FirstLoopExhausted | day-10/src/main.rs:46-74 | with a route in a tried heading and enough fuel, the loop does not fall through to `unreachable!` |
| Day10.SolveFirstRoute | day-10/src/main.rs:38-75 | part 1 answers half the length of a route through the start tile |
| Day10.SolveFirstReaches | day-10/src/main.rs:38-75 | with a route through the start and enough fuel, part 1 does not end in `unreachable!` |
| Day11.CellOf | day-11/src/main.rs:121-129 | exactly '.' and '#' convert; any other byte reaches `unreachable!` |
| Day11.CellRoundTrip | day-11/src/main.rs:121-142 | a cell's character converts back to the cell |
| Day11.CharRoundTrip | day-11/src/main.rs:121-142 | every accepted character is the character of the cell it gives |
| Day11.GalaxiesOf | day-11/src/main.rs:18-20 | the filter keeps exactly the positions holding a galaxy |
| Day11.Mark | day-11/src/main.rs:15-26 | the fold succeeds iff every galaxy indexes both flag vectors, and then a column (row) stays marked empty iff it started marked and no galaxy lies in it |
| Day11.ExtraCount | day-11/src/main.rs:54-59 | the expansion sum over a range is the extra width times the number of empty lines in it |
| Day11.ExpandMonotone | day-11/src/main.rs:54-59 | expanding keeps coordinates in order, and the gap between two grows by the empty lines between them |
| Day11.DistanceExpanded | day-11/src/main.rs:48-61 | the pair distance is the Manhattan distance between the two galaxies after every empty line has grown |
| Day11.DistanceSymmetric | day-11/src/main.rs:48-61 | the pair distance does not depend on the order of the two galaxies |
| Day11.InnerSnoc | day-11/src/main.rs:47-62 | a galaxy added at the end adds exactly one term, its distance to the first galaxy, to each inner loop |
| Day11.OuterSnoc | day-11/src/main.rs:46-63 | a galaxy added at the end is paired once with every earlier galaxy |
| Day11.OuterAllPairs | day-11/src/main.rs:46-63 | the nested loops over `i < j` count every unordered pair exactly once |
| Day11.SolveSpec | day-11/src/main.rs:14-65 | the solver succeeds iff the width is non-zero and every galaxy lies in a complete row, and answers the sum over unordered pairs of their distance with a line empty iff no galaxy lies on it |
| Day11.RectWithin | day-11/src/main.rs:15-26 | on a rectangular grid every galaxy indexes both flag vectors |
| Day12.Count | day-12/src/main.rs:51-133 | the only error is the `unreachable!()` for an unknown spring byte; a row of `.`, `#`, `?` always yields a count |
| Day12.Damaged | day-12/src/main.rs:64-94 | a leading `#`: never fails on known springs; the only error is the unreachable byte |
| Day12.Unknown | day-12/src/main.rs:95-129 | a leading `?`: never fails on known springs; the only error is the unreachable byte |
| Day12.WithHash | day-12/src/main.rs:85-90 | the count behind a placed first group never fails on known springs |
| Day12.Span | day-12/src/main.rs:58 | the interspersed sum is at least the first group, and at least first + 1 + second with two groups |
| Day12.Add | day-12/src/main.rs:126 | the sum succeeds iff both counts do, and then is their sum; an error is one of the two |
| Day12.CountArrangements | day-12/src/main.rs:51-133 | for known springs and group sizes >= 1, the recursion equals the brute-force number of settlements of the `?` springs whose damaged runs are the groups |
| Day12.QuestionSplits | day-12/src/main.rs:95-129 | a leading `?` counts as the `#` reading plus the `.` reading (first group non-zero) |
| Day12.CountDot | day-12/src/main.rs:63 | a leading `.` gives the count of the tail, which is the brute-force count |
| Day12.CountHash | day-12/src/main.rs:64-94 | a leading `#` places the first group at the front: the brute-force count, given the count of the rest |
| Day12.FillNone | day-12/src/main.rs:52-57 | with no groups left there is exactly one settlement when no `#` is present, none otherwise |
| Day12.FillShort | day-12/src/main.rs:58-61 | groups needing more room than the row has admit no settlement |
| Day12.RunsSpan | day-12/src/main.rs:58-61 | the runs of any settled row fit in it with a spring between neighbours (why the length bound is sound) |
| Day12.FillRun | day-12/src/main.rs:64-94 | behind a run of m damaged springs, the group must be completed by the next springs (no `.`) and closed by a non-`#` |
| Day12.CountLine | day-12/src/main.rs:35-43 | panics iff the line has no space; otherwise errors are a group parse error or the unreachable byte |
| Day12.CountLineRender | day-12/src/main.rs:35-43 | reading a rendered row gives back the count of that row |
| Day12.Unfold | day-12/src/main.rs:23-28 | panics iff the line has no space |
| Day12.UnfoldRender | day-12/src/main.rs:23-28 | unfolding a rendered row renders the row with springs 5x joined by `?` and groups repeated 5 times |
| Day12.UnfoldRow | day-12/src/main.rs:23-28 | the unfolded row has 5x the groups and 5x+4 springs |
| Day12.CountUnfolded | day-12/src/main.rs:22-29 | a line without a space panics |
| Day12.SolveFirst | day-12/src/main.rs:10-17 | succeeds iff every line's count succeeds |
| Day12.SolveSecond | day-12/src/main.rs:19-32 | succeeds iff every unfolded line's count succeeds |
| Day12.SolveFirstRows | day-12/src/main.rs:10-17 | on rendered known rows the first answer is the sum of their arrangements |
| Day12.SolveSecondRows | day-12/src/main.rs:19-32 | on rendered known rows the second answer is the sum of the arrangements of the unfolded rows |
| Day13.RowsMirrored | day-13/src/main.rs:87-96 | the inner loop answers true exactly when every pair of rows from `offset` outwards around the line agrees |
| Day13.RowAxisFrom | day-13/src/main.rs:76-102 | an answer is a row axis past `pos` other than `ignore`, and every smaller axis past `pos` is the ignored one |
| Day13.RowAxis | day-13/src/main.rs:76-102 | the first row axis that is not `ignore`, or `None` when every row axis is ignored |
| Day13.ColumnsMatch | day-13/src/main.rs:120-124 | panics (index out of bounds) only on a row too short for the columns; otherwise true iff the two columns agree in every row |
| Day13.ColsMirrored | day-13/src/main.rs:115-126 | never panics on a rectangular block; true iff every column pair from `offset` outwards agrees |
| Day13.ColAxisFrom | day-13/src/main.rs:104-132 | never panics on a rectangular block; an answer is a column axis past `pos` other than `ignore`, and smaller ones are the ignored one |
| Day13.ColAxis | day-13/src/main.rs:104-132 | panics on an empty block (`block[0]`), never on a rectangular one; answers the first column axis that is not `ignore` |
| Day13.ColAxisTranspose | day-13/src/main.rs:104-132 | on a rectangular block the column search is the row search of the transposed block |
| Day13.FindAxis | day-13/src/main.rs:65-74 | fails iff the column search does; otherwise 100 times the first row axis plus the first column axis |
| Day13.FindAxisRow | day-13/src/main.rs:65-74 | a rectangular block whose only axis is row axis k scores 100k |
| Day13.FindAxisColumn | day-13/src/main.rs:65-74 | a rectangular block whose only axis is column axis k scores k |
| Day13.BlocksClosed | day-13/src/main.rs:10-20 | splitting the lines of blocks, each closed by an empty line, gives back the blocks |
| Day13.SolveFirst | day-13/src/main.rs:9-22 | succeeds iff every block of the input scores |
| Day13.SolveFirstBlocks | day-13/src/main.rs:9-22 | for rectangular blocks separated by empty lines, the answer is the sum of their scores |
| Day13.Toggle | day-13/src/main.rs:40-44 | swaps ash and rock; any other byte is the `unreachable!()` error |
| Day13.Smudged | day-13/src/main.rs:37-44 | toggling one cell of a tidy block keeps it tidy and of the same shape |
| Day13.AttemptTidy | day-13/src/main.rs:37-51 | on a tidy block one round never fails, and scores iff the toggled block has a row axis or column axis other than the original ones |
| Day13.Rounds | day-13/src/main.rs:33-55 | one outcome per cell, in row-major order, each the outcome of that round |
| Day13.FirstSomeFirst | day-13/src/main.rs:33-55 | the loop's stopping rule: none iff no round from `pos` on scores, else the score of the first that does |
| Day13.RepairFirst | day-13/src/main.rs:33-55 | on a tidy block the loop answers the first round's score that shows a new axis, and panics "Index outside.." when no round does |
| Day13.FixSmudge | day-13/src/main.rs:29-35 | an empty block panics (index out of bounds) |
| Day13.FixSmudgeTidy | day-13/src/main.rs:29-55 | on a tidy block the score is that of the first toggle that shows an axis other than the block's own, or the "Index outside.." panic |
| Day13.SolveSecond | day-13/src/main.rs:24-62 | succeeds iff every block of the input can be repaired |
| Day14.SettleLine | day-14/src/main.rs:97-115 | the reference roll towards the start keeps every cell (as a multiset), keeps cube rocks in place, packs round rocks against a cube rock or the start, and yields only cells |
| Day14.SettleIdem | day-14/src/main.rs:97-115 | rolling a line towards its start twice is rolling it once |
| Day14.WestScan | day-14/src/main.rs:99-113 | the scan over the rest of a line, with part of a stretch already passed, yields the reference settled line, or `unreachable!()` iff a byte is not a cell |
| Day14.WestLine | day-14/src/main.rs:98-114 | one line of `tilt_west` is the reference settled line, or `unreachable!()` iff the line holds a byte that is not a cell |
| Day14.EastFromAgrees | day-14/src/main.rs:140-155 | whenever the east scan as written succeeds it agrees with the saturating scan, and it fails only with the overflow or `unreachable!()` |
| Day14.EastMirror | day-14/src/main.rs:140-155 | the saturating east scan is the west scan of the reversed line, reversed back |
| Day14.EastLine | day-14/src/main.rs:139-156 | one line of `tilt_east` as written: a success is the line rolled towards its end, and a byte that is not a cell always fails |
| Day14.EastLineFixed | day-14/src/main.rs:139-156 | with the saturating decrement one line of `tilt_east` is the line rolled towards its end, or `unreachable!()` iff a byte is not a cell |
| Day14.EastLinePanics | day-14/src/main.rs:140-147 | the line `O` makes the east scan as written subtract below zero, where the saturating scan leaves it as it is |
| Day14.EastFromOverflows | day-14/src/main.rs:138-156 | the east scan as written panics only after a round rock comes to rest in the first cell, which the saturating scan then holds |
| Day14.EastLineFits | day-14/src/main.rs:138-156 | a non-empty line of cells whose settled form has no round rock in its first cell tilts east as written without a panic, to that settled form |
| Day14.FallLine | day-14/src/main.rs:138-157 | the roll towards the end keeps every cell, keeps cube rocks in place and packs round rocks against a cube rock or the end |
| Day14.ColumnsFrom | day-14/src/main.rs:77-95 | building a platform from its columns and reading the columns back gives the same columns |
| Day14.TiltWest | day-14/src/main.rs:97-115 | `tilt_west` settles every row, or panics with `unreachable!()` iff some byte is not a cell |
| Day14.TiltEast | day-14/src/main.rs:138-157 | with the saturating decrement `tilt_east` rolls every row to its end, or panics with `unreachable!()` iff some byte is not a cell |
| Day14.TiltEastAsWritten | day-14/src/main.rs:138-157 | whenever `tilt_east` as written does not panic it equals the saturating version |
| Day14.TiltEastFits | day-14/src/main.rs:138-157 | `tilt_east` as written settles every row towards the east when no round rock comes to rest in the west column |
| Day14.TiltNorth | day-14/src/main.rs:77-95 | panics on an empty platform (`lines[0]`); otherwise settles every column towards row 0, or `unreachable!()` iff some byte is not a cell |
| Day14.TiltSouth | day-14/src/main.rs:117-136 | with the saturating decrement: panics on an empty platform; otherwise rolls every column towards the last row, or `unreachable!()` iff some byte is not a cell |
| Day14.TiltSouthAsWritten | day-14/src/main.rs:117-136 | whenever `tilt_south` as written does not panic it equals the saturating version |
| Day14.TiltSouthFits | day-14/src/main.rs:117-136 | `tilt_south` as written is the south tilt when no round rock comes to rest in the north row |
| Day14.WestTilted | day-14/src/main.rs:97-115 | after tilting west every row holds the same cells, cube rocks stay, and round rocks are packed to the west |
| Day14.EastTilted | day-14/src/main.rs:138-157 | after tilting east every row holds the same cells, cube rocks stay, and round rocks are packed to the east |
| Day14.NorthTilted | day-14/src/main.rs:77-95 | after tilting north the platform keeps its shape, every column holds the same cells, cube rocks stay, and round rocks are packed to the north |
| Day14.SouthTilted | day-14/src/main.rs:117-136 | after tilting south the platform keeps its shape, every column holds the same cells, cube rocks stay, and round rocks are packed to the south |
| Day14.SpunKeeps | day-14/src/main.rs:70-75 | a spin cycle leaves a platform a platform of the same shape with its cube rocks in place |
| Day14.Cycle | day-14/src/main.rs:70-75 | a cycle of an empty platform panics on `lines[0]` |
| Day14.CycleSpins | day-14/src/main.rs:70-75 | with saturating decrements a cycle is the reference spin cycle, or `unreachable!()` iff some byte is not a cell |
| Day14.CycleAsWritten | day-14/src/main.rs:70-75 | whenever `cycle` as written does not panic it equals the saturating cycle |
| Day14.CyclePanics | day-14/src/main.rs:117-136 | on the platform `O` the cycle as written panics subtracting below zero, where the saturating cycle leaves it as it is |
| Day14.CycleFits | day-14/src/main.rs:70-75 | the cycle as written is the reference spin cycle unless a round rock comes to rest in the north row on the tilt south or in the west column on the tilt east |
| Day14.RowLoad | day-14/src/main.rs:56-65 | a row `weight` rows from the south edge contributes the weight times its round rocks, or panics with `unreachable!()` iff some byte is not a cell |
| Day14.Score | day-14/src/main.rs:53-68 | `calculate_score` is the load of the platform (every round rock weighs its distance to the south edge), or `unreachable!()` iff some byte is not a cell |
| Day14.LoadSideways | day-14/src/main.rs:53-68 | tilting west or east does not change the load |
| Day14.SolveFirst | day-14/src/main.rs:10-19 | panics on an empty platform, otherwise is the load after tilting north, or `unreachable!()` iff some byte is not a cell |
| Day14.IterAdd | day-14/src/main.rs:32-47 | applying m cycles and then n cycles is applying m + n cycles |
| Day14.IterPeriod | day-14/src/main.rs:35-41 | once the platform after a cycles recurs after c cycles, skipping whole periods of c - a cycles does not change it |
| Day14.SpinFixedIter | day-14/src/main.rs:28-47 | the loop with the corrected skip ends on the platform after exactly `total` cycles |
| Day14.SpinOvershoots | day-14/src/main.rs:35-43 | when the cycles alternate between two platforms and `total` is even, the loop as written ends on the first of them, while `total` cycles end on the second |
| Day14.TurnPlatform | day-14/src/main.rs:32-33 | any number of spin cycles leaves a platform a platform |
| Day14.SolveSecond | day-14/src/main.rs:21-50 | (corrected) fails exactly as the first cycle does; on a platform it is the load after a billion spin cycles |
| Day14.SpinFromStays | day-14/src/main.rs:32-47 | a platform that one cycle leaves as it is stays the loop's answer |
| Day14.FirstPanicStays | day-14/src/main.rs:32-33 | a panic in the first cycle as written is the outcome of the whole loop |
| Day14.SolveSecondAsWritten | day-14/src/main.rs:21-50 | (as written) a first cycle that panics is the answer |
| Day14.SolveSecondPanics | day-14/src/main.rs:21-50 | on the platform `O` part two as written panics subtracting below zero, and corrected answers 1 |
| Day14.SkipExample | day-14/src/main.rs:35-43 | on the platform `#.. / .O. / ##O` the loop as written ends on load 3 while a billion cycles give load 4, which the corrected answer returns |
| Day14.CyclesFitExample | day-14/src/main.rs:70-75 | on the example platform and the two it alternates between, the cycle as written does not panic and moves on to the next of them |
| Day14.SkipAsWritten | day-14/src/main.rs:35-43 | on the platform `#.. / .O. / ##O` part two as written answers 3 |
| Day15.Hash | day-15/src/main.rs:46-50 | `hash` is always a box number below 256, and 0 for the empty label |
| Day15.HashByLast | day-15/src/main.rs:17-21 | the hasher folded from the front agrees with the HASH algorithm defined by the last byte |
| Day15.WriteAppend | day-15/src/main.rs:17-21 | writing two pieces into the hasher one after the other is writing them at once |
| Day15.HashExample | day-15/src/main.rs:46-50 | the label `HASH` hashes to 52 |
| Day15.HashesBound | day-15/src/main.rs:82-89 | the sum of the step hashes is below 256 per step |
| Day15.SolveFirst | day-15/src/main.rs:80-91 | panics iff there is no first line; otherwise the sum is below 256 times the number of steps |
| Day15.SolveFirstSteps | day-15/src/main.rs:80-91 | a line of comma-free steps joined by commas answers the sum of the steps' hashes |
| Day15.FindMarker | day-15/src/main.rs:36 | finds nothing iff the step has no `=` or `-`, otherwise the first of them |
| Day15.ParseAction | day-15/src/main.rs:35-43 | a step fails iff it has no marker (unwrap of `None`) or has `=` followed by something that is not a byte (unwrap of `Err`); a parsed label is the marker-free prefix before the marker, and a `Set` value is the byte after `=` |
| Day15.ParseShowAction | day-15/src/main.rs:35-43 | every step with a marker-free label and a byte value, written out, parses back to itself |
| Day15.RemoveIgnoresRest | day-15/src/main.rs:40 | whatever follows a `-` is ignored |
| Day15.Position | day-15/src/main.rs:62-68 | the scan for the label finds nothing iff no lens carries it, otherwise the first lens that does |
| Day15.Retain | day-15/src/main.rs:56 | `retain` keeps exactly the lenses with another label, and nothing new |
| Day15.Apply | day-15/src/main.rs:52-75 | a step changes only the box its label hashes to |
| Day15.ApplyValid | day-15/src/main.rs:52-75 | a step keeps every label in the box of its hash and at most once per box |
| Day15.ApplyLookup | day-15/src/main.rs:52-75 | read by label, a step is a map update: `Remove` unbinds the label, `Set` binds it to its focal length, every other label keeps its value |
| Day15.RetainDistinct | day-15/src/main.rs:56 | `retain` keeps a box free of repeated labels |
| Day15.FindRetain | day-15/src/main.rs:56 | removing one label does not change what any other label finds |
| Day15.RemoveKeepsOrder | day-15/src/main.rs:54-58 | removing a lens closes the gap and keeps the other lenses in order |
| Day15.SetPlacesLens | day-15/src/main.rs:62-68 | setting a label already in its box replaces that lens where it stands |
| Day15.SetAppendsLens | day-15/src/main.rs:69-71 | setting a label not in its box appends the lens at the back |
| Day15.RunValid | day-15/src/main.rs:95-98 | folding any steps over valid boxes keeps them valid |
| Day15.RunLookup | day-15/src/main.rs:95-98 | after folding the steps each label holds what the last step naming it left (the reference register) |
| Day15.RunFromEmpty | day-15/src/main.rs:95-98 | from the default 256 empty boxes the fold leaves valid boxes holding each label's last set value |
| Day15.PowerAppend | day-15/src/main.rs:104-111 | a lens put at the back of a box adds its slot times its focal length to the box's power |
| Day15.PowerOverwrite | day-15/src/main.rs:104-111 | replacing a lens changes the box's power by its slot times the change in focal length |
| Day15.SolveSecond | day-15/src/main.rs:93-115 | panics iff there is no first line or some step fails to parse, with one of the two unwrap panics |
| Day15.Focus | day-15/src/main.rs:95-98 | the fold succeeds iff every step parses, and otherwise fails with the first parse error |
| Day15.ParsedShown | day-15/src/main.rs:95-97 | the written-out steps parse back to exactly those steps |
| Day15.SplitShown | day-15/src/main.rs:95-96 | splitting the comma-joined steps at commas gives back the written steps |
| Day15.SolveSecondRuns | day-15/src/main.rs:93-115 | a line of well-formed steps answers the focusing power of the boxes the steps leave |
| Day15.SolveSecondBoxes | day-15/src/main.rs:93-115 | a line of well-formed steps answers the power of boxes that are valid and hold each label's last set value |
| Day16.TileOf | day-16/src/main.rs:101-113 | exactly the five tile bytes parse, every other byte is the `unreachable!()` error |
| Day16.TileRoundTrip | day-16/src/main.rs:101-129 | writing a tile and parsing the byte gives the tile back |
| Day16.CharRoundTrip | day-16/src/main.rs:101-129 | a byte that parses is written back as the same byte |
| Day16.MirrorGeometry | day-16/src/main.rs:76-83 | `\` swaps the two components of the beam's offset, `/` swaps and negates them |
| Day16.MirrorReversible | day-16/src/main.rs:76-83 | a beam leaving a mirror and sent back the opposite way leaves along the opposite of the way it came in |
| Day16.SplitterGeometry | day-16/src/main.rs:84-94 | a beam goes on unchanged through empty space or along a splitter's axis; hitting a splitter's flat side sends it both ways along the axis |
| Day16.Pushes | day-16/src/main.rs:58-65 | the pushed states are exactly the headings' steps that stay on the grid |
| Day16.Next | day-16/src/main.rs:75-95 | a state pushes exactly the in-bounds steps along the headings its tile sends it on |
| Day16.ReachStep | day-16/src/main.rs:66-95 | what a reachable state pushes is reachable |
| Day16.PathSnoc | day-16/src/main.rs:66-95 | a run of beam steps extends by any state its last state pushes |
| Day16.SeenMark | day-16/src/main.rs:74 | or-ing `dir` into `lava[pos]` marks exactly the popped state in addition to those marked before |
| Day16.LitMark | day-16/src/main.rs:71-74 | marking lights the marked cell and no other, and the number of lit cells goes up by one iff the cell's mask was 0 |
| Day16.FreeMark | day-16/src/main.rs:68-74 | marking a state not seen before lowers the number of unseen states, so the loop ends |
| Day16.QueuePop | day-16/src/main.rs:66-67 | the popped state is the last one pushed and lies on the grid, so `grid[pos]` and `lava[pos]` are in bounds |
| Day16.InvSkip | day-16/src/main.rs:68-70 | dropping a state that was seen before keeps the loop invariant |
| Day16.InvVisit | day-16/src/main.rs:71-95 | marking a new state, counting its cell if it was dark, and pushing its successors keeps the loop invariant |
| Day16.SeenAlong | day-16/src/main.rs:66-95 | once the stack is empty, every state on a run of beam steps from the start has been seen |
| Day16.InvDone | day-16/src/main.rs:66-98 | once the stack is empty the count equals the number of energized cells |
| Day16.LitEnergized | day-16/src/main.rs:71-74 | a cell with a non-zero mask holds a state reachable from the start |
| Day16.EnergizedLit | day-16/src/main.rs:66-95 | once the stack is empty every energized cell has a non-zero mask |
| Day16.EnergizedBounds | day-16/src/main.rs:52-98 | the start cell is energized, and no more cells are energized than the grid has |
| Day16.FillFloor | day-16/src/main.rs:52-99 | `fill_floor` returns the number of cells that some beam state reachable from the start occupies, at least 1 and at most the cell count |
| Day16.SolveFirst | day-16/src/main.rs:25-28 | fails with an index panic iff the grid is empty; otherwise the number of cells energized by a beam entering the top-left cell heading east |
| Day16.StartsSpec | day-16/src/main.rs:31-42 | the start states are exactly the beams entering across the border, two per row and two per column |
| Day16.MaxOf | day-16/src/main.rs:43-47 | the running maximum from 0 bounds every count and is one of them, or 0 when there are none |
| Day16.BestOf | day-16/src/main.rs:43-47 | the loop's maximum is the maximum of the reference counts of the start states |
| Day16.BestOfBorder | day-16/src/main.rs:30-49 | the best start energizes at least as many cells as any beam entering across the border, some border start attains it, and it is at least the part-one answer |
| Day16.SolveSecond | day-16/src/main.rs:30-49 | width 0 is a division by zero, no complete row is a subtraction overflow; otherwise the answer is the most cells any border start energizes, attained by some border start, and at least the part-one answer |
| Day18.HeadingOf | day-18/src/main.rs:118-124 | exactly the tokens `U`, `D`, `L`, `R` name a heading; any other first token is the `unreachable!()` error |
| Day18.CodeHeading | day-18/src/main.rs:129-135 | exactly the digits `0` to `3` name a heading; any other sixth code character is the `unreachable!()` error |
| Day18.HexValueBound | day-18/src/main.rs:128 | a run of `k` hex digits is worth less than `16^k` |
| Day18.ParseHex | day-18/src/main.rs:128 | `from_str_radix(_, 16)` succeeds exactly on an optional `+` followed by at least one hex digit of either case, with a value below `16^len` |
| Day18.ParseLine | day-18/src/main.rs:114-143 | a line parses only with at least three tokens; then the heading and length are the first two tokens read as heading and decimal, the colour token has at least 9 characters, its hex length fits in five digits and its eighth character names the second heading |
| Day18.HexDigits | day-18/src/main.rs:128 | writing a value below `16^k` in `k` hex digits and reading them back gives the value |
| Day18.ParseShowLine | day-18/src/main.rs:114-143 | reading a line written as `R 6 (#70c710)` gives back both headings and both lengths |
| Day18.ShowLineWords | day-18/src/main.rs:117 | the written line splits on whitespace into its three tokens |
| Day18.ColourParts | day-18/src/main.rs:126-129 | the slices of a written colour token hold exactly the five hex digits of the length and the heading digit |
| Day18.Corners | day-18/src/main.rs:27-51 | the scan over the plan and the trailing zero-length line yields one corner more than the plan has lines, starting at the origin |
| Day18.CornersStep | day-18/src/main.rs:34-50 | each corner is the one before it moved by that line's length in its heading, down and right being the growing coordinates |
| Day18.PerimeterCorners | day-18/src/main.rs:90-103 | the path through the corners is as long as all the trenches of the plan together |
| Day18.PerimeterSnoc | day-18/src/main.rs:98-100 | each further corner adds the Manhattan length of the leg to it |
| Day18.FanShoelace | day-18/src/main.rs:90-104 | the sum of cross products taken relative to the first corner is the negated shoelace sum of the closed polygon |
| Day18.PolygonStep | day-18/src/main.rs:90-102 | one turn of the loop adds the leg's length, and from the third corner on the cross product with the previous corner |
| Day18.HalfTowardZero | day-18/src/main.rs:104 | `isize` division by two rounds towards zero, so its magnitude is half the magnitude, rounded down |
| Day18.Lagoon | day-18/src/main.rs:85-108 | no corners hold nothing; any corner list holds at least one cell |
| Day18.PolygonArea | day-18/src/main.rs:85-108 | `polygon_area` returns half the absolute shoelace sum plus half the path length plus one (Pick's theorem counting the trench), or 0 for no corners |
| Day18.RectangleCorners | day-18/src/main.rs:34-50 | the plan right n, down m, left n, up m visits the rectangle's four corners and returns to the origin |
| Day18.RectangleShoelace | day-18/src/main.rs:110-112 | the shoelace sum of an n by m rectangle is twice its area |
| Day18.RectanglePerimeter | day-18/src/main.rs:98-100 | the trench around an n by m rectangle is 2n + 2m long |
| Day18.Rectangle | day-18/src/main.rs:26-53 | a rectangular plan n wide and m high gives a lagoon of (n + 1)(m + 1) cells |
| Day18.ParseAll | aoc-utils/src/lines.rs:9-37 | the lines parse as a whole iff every line parses, one plan line per input line |
| Day18.Dig | day-18/src/main.rs:26-53 | digging from the origin yields the lagoon of the plan's corners, at least one cell |
| Day18.SolveFirst | day-18/src/main.rs:26-53 | fails iff some line fails to parse, with the first such line's error; otherwise the lagoon dug by the headings and lengths written in the clear |
| Day18.SolveSecond | day-18/src/main.rs:55-82 | fails iff some line fails to parse, with the first such line's error; otherwise the lagoon dug by the headings and lengths decoded from the colour codes |
| Day19.Compare | day-19/src/main.rs:105-108 | `usize::cmp` is `Less`, `Equal` or `Greater` exactly as the first rating is below, at or above the second |
| Day19.Check | day-19/src/main.rs:103-111 | the default rule applies to every part; a test applies exactly when the part's rating in the tested category compares to the bound as the test says |
| Day19.Rate | day-19/src/main.rs:228-243 | setting one category's rating changes that rating and no other |
| Day19.Cut | day-19/src/main.rs:122-137 | replacing one category's span changes that span and no other |
| Day19.InCut | day-19/src/main.rs:118-128 | a part of the box lies in the box with one span replaced exactly when its rating lies in the new span |
| Day19.CutInTwo | day-19/src/main.rs:119-140 | cutting a span at a point inside it splits the box's parts into those below the point and those at or above it, both pieces lying within the box |
| Day19.SplitBox | day-19/src/main.rs:113-167 | splitting fails exactly on an equality test (`unreachable!()`); otherwise every part of the box is in the matched piece iff the rule applies to it and in the rest iff it does not, both pieces lie within the box, a test changes only its own category, and the default rule matches the whole box |
| Day19.CategoryOf | day-19/src/main.rs:94-99 | exactly `x`, `m`, `a` and `s` name a category; anything else is `unreachable!()` |
| Day19.OrderingOf | day-19/src/main.rs:87-92 | exactly `<`, `=` and `>` name a comparison; anything else is `unreachable!()` |
| Day19.ParseRule | day-19/src/main.rs:86-101 | a rule shorter than two bytes panics on the index; a rule that parses is a test whose category, comparison and bound are its first byte, second byte and the decimal rest |
| Day19.ParseShowRule | day-19/src/main.rs:86-101 | reading a written test such as `a<2006` gives the test back |
| Day19.ParseStep | day-19/src/main.rs:254-257 | a step without `:` is the default rule to the named workflow; a step with one is a test |
| Day19.ParseShowStep | day-19/src/main.rs:254-257 | reading a written step gives it back, for targets without `,` and `}` (and without `:` after a default rule) |
| Day19.ParseWorkflow | day-19/src/main.rs:250-259 | a line without `{` fails the `unwrap`; a line that parses has its name before the first `{` and at least one step |
| Day19.ParseSteps | day-19/src/main.rs:252-254 | an empty rule list underflows `len() - 1`; the steps that parse are at least one |
| Day19.ParseShowWorkflow | day-19/src/main.rs:250-259 | reading a written workflow line such as `px{a<2006:qkq,m>2090:A,rfg}` gives back its name and steps |
| Day19.Setting | day-19/src/main.rs:225-245 | a setting shorter than two bytes panics on the slice; one that parses sets the named category to the decimal after `=` and changes nothing else |
| Day19.ParsePart | day-19/src/main.rs:222-224 | an empty line underflows `len() - 1`; a one-byte line panics on the slice |
| Day19.ParseShowPart | day-19/src/main.rs:222-247 | reading a written part such as `{x=787,m=2655,a=1222,s=2876}` gives the part back |
| Day19Run.First | day-19/src/main.rs:189-194 | a workflow picks a target exactly when one of its rules applies, and then it is the target of the first rule that applies |
| Day19Run.Run | day-19/src/main.rs:180-196 | a run that accepts ends at `A` through workflows that exist and pick a target; a run fails only on a missing workflow or by hanging |
| Day19Run.AcceptsStep | day-19/src/main.rs:180-196 | a workflow that picks a target accepts a part iff that target does; `A` accepts, `R` rejects, a workflow none of whose rules applies never accepts |
| Day19Run.RunMonotone | day-19/src/main.rs:180-196 | once a run ends without hanging, more fuel gives the same outcome |
| Day19Run.RunAlong | day-19/src/main.rs:180-196 | after k moves through live workflows a run goes on from where the walk has got to, and with less than k moves of fuel it cannot end |
| Day19Run.CycleHangs | day-19/src/main.rs:182-195 | a walk that returns to a workflow through live workflows never ends |
| Day19Run.LassoHangs | day-19/src/main.rs:182-195 | a walk that stays live for more moves than there are workflows never ends |
| Day19Run.Pigeonhole | day-19/src/main.rs:182-195 | a list longer than the set its elements come from repeats an element |
| Day19Run.EnoughFuel | day-19/src/main.rs:182-195 | a run that has not ended after as many moves as there are workflows never ends |
| Day19Run.Decide | day-19/src/main.rs:180-196 | the run with one move per workflow agrees with every run that ends; if it hangs every run hangs; it accepts exactly the parts the automaton accepts |
| Day19Run.ToMap | day-19/src/main.rs:171-179 | collecting entries into a map keeps exactly the names that occur, and a name's last entry wins |
| Day19Run.ParseEntries | day-19/src/main.rs:171-177 | the workflow lines parse iff each one does, the entries are the lines' parses in order, and a failure is the first failing line's error |
| Day19Run.ParseAutomaton | day-19/src/main.rs:171-179 | the automaton is read iff every workflow line parses, its names are exactly the lines' names, and a failure is the first failing line's error |
| Day19Run.Blank | day-19/src/main.rs:56 | the workflow lines are the lines before the first empty line |
| Day19Run.Parts | day-19/src/main.rs:57-58 | the part lines read as parts one for one |
| Day19Run.Score | day-19/src/main.rs:57-62 | the score is reached iff every part line parses and its run ends; it is the sum of the ratings of the accepted parts |
| Day19Run.SolveFirst | day-19/src/main.rs:54-64 | a workflow line that fails to parse is the answer's error; otherwise the answer is the score of the part lines after the blank line |
| Day19Ranges.Sweep | day-19/src/main.rs:201-215 | sweeping a box through a workflow fails only on an equality test; every pushed piece goes to a workflow other than `A` and `R` and holds parts of the box the workflow sends there, every accepted piece holds parts the workflow sends to `A`, every part of the box the workflow does not reject is in a piece of the right kind, and no part is in two pieces |
| Day19Ranges.HereRouted | day-19/src/main.rs:203-210 | the matched piece is pushed to its target, accepted for `A` and dropped for `R`, and holds parts the head rule applies to |
| Day19Ranges.ReachedStep | day-19/src/main.rs:202-214 | a part passed over by the head rule is reached by the sweep of the rest; one the head rule applies to is in the matched piece |
| Day19Ranges.SeparateStep | day-19/src/main.rs:203-212 | the matched piece and the pieces cut from the rest have no part in common |
| Day19Ranges.BreakUp | day-19/src/main.rs:197-218 | `break_up` fails only on an equality test, a missing workflow or running out of pops |
| Day19Ranges.InvPop | day-19/src/main.rs:200-215 | popping and sweeping the last box keeps every stacked box faithful to the fate of its parts from `in`, every collected box accepted, every accepted part collected or stacked, and all boxes disjoint |
| Day19Ranges.BreakUpCorrect | day-19/src/main.rs:197-218 | the boxes `break_up` returns hold exactly the accepted parts of the starting box, each in one box only |
| Day19Ranges.SolveSecond | day-19/src/main.rs:66-82 | the answer adds up the sizes of boxes that hold exactly the accepted rating combinations from 1 to 4000, none twice |
| Day20.Push | day-20/src/main.rs:80-103 | a flip-flop ignores a high pulse and keeps its state; on a low pulse it toggles and sends high exactly when it turns on; a conjunction remembers the pulse from its sender and sends low exactly when every remembered input is high; the broadcaster passes the pulse on; the only failure is a conjunction reached with no sender |
| Day20.FlipFlopRoundTrip | day-20/src/main.rs:82-91 | two low pulses bring a flip-flop back to its state, and the two pulses it sends differ |
| Day20.SingleInputInverts | day-20/src/main.rs:92-99 | a conjunction with one input sends the opposite of the pulse it receives |
| Day20.LowInputSendsHigh | day-20/src/main.rs:92-99 | a low pulse into a conjunction always makes it send high |
| Day20.RememberKnown | day-20/src/main.rs:74-76 | inserting the inputs one by one gives the memory with every listed input low and every other entry unchanged, whatever the order or repetition |
| Day20.MakeInputsKnown | day-20/src/main.rs:70-78 | a conjunction's memory gains exactly the listed inputs, each low, and keeps the others; a flip-flop or broadcaster is unchanged |
| Day20.MakeInputsKnownSet | day-20/src/main.rs:70-78 | only the set of listed inputs matters |
| Day20.MakeInputsKnownResets | day-20/src/main.rs:70-78 | a conjunction that knows no input ends up remembering exactly the listed inputs, all low |
| Day20.Fan | day-20/src/main.rs:159-167 | one signal per target, in target order, carrying the pulse and naming the sender |
| Day20.Cascade | day-20/src/main.rs:153-170 | the queue processing fails only by running out of fuel or by a panic of a module |
| Day20.TallyBoth | day-20/src/main.rs:163-166 | the low and high counts of the sent signals add up to the number of signals sent |
| Day20.CountSent | day-20/src/main.rs:159-166 | the per-target counting adds each signal's pulse to its slot and sets the rx flag exactly when some signal is a low pulse to rx |
| Day20.HandleSignal | day-20/src/main.rs:154-169 | handling one popped signal imperatively gives the pushed module and the fanned-out signals of the functional step |
| Day20.PushButtonLoop | day-20/src/main.rs:147-173 | the imperative loop with its queue, two-slot counter starting at [1, 0] and rx flag gives exactly the low count one plus the low signals sent, the high count the high signals sent, and the flag exactly when a low pulse reached rx |
| Day20.CascadeKeepsWiring | day-20/src/main.rs:153-170 | pulses never add or remove modules, change a module's kind, or move a wire |
| Day20.SourcedNoPanic | day-20/src/main.rs:93 | when every queued signal that reaches a conjunction names its sender, the cascade never panics |
| Day20.PushButtonPanics | day-20/src/main.rs:147-158 | a press panics exactly when the broadcaster was declared as a conjunction (and fuel allows the first step) |
| Day20.CascadeNoRx | day-20/src/main.rs:159-162 | with no wire to rx no low pulse reaches rx |
| Day20.PushButtonNoRx | day-20/src/main.rs:147-173 | a press of a network without a wire to rx never sets the flag, and the network keeps having no wire to rx |
| Day20.ParseDecl | day-20/src/main.rs:109-131 | a parsed line always has at least one target and a new module: a flip-flop that is off, a conjunction that remembers nothing or the broadcaster |
| Day20.DeclOf | day-20/src/main.rs:111-125 | `%` gives a flip-flop, `&` a conjunction, the name `broadcaster` the broadcaster, and anything else is unreachable |
| Day20.ParseShowDecl | day-20/src/main.rs:109-131 | parsing a declaration written as `%a -> b, c` gives it back |
| Day20.ParseShowTargets | day-20/src/main.rs:126-129 | splitting `", "`-separated targets at commas and trimming gives them back |
| Day20.ToMap | day-20/src/main.rs:108-132 | the module map has exactly the declared names |
| Day20.ToMapLast | day-20/src/main.rs:108-132 | a later line for the same name replaces an earlier one |
| Day20.Feeders | day-20/src/main.rs:133-138 | the inputs of a module are exactly the modules that list it as a target |
| Day20.Wire | day-20/src/main.rs:139-143 | telling modules their inputs changes no wiring or module kind |
| Day20.WireFresh | day-20/src/main.rs:133-143 | after wiring new modules, each conjunction remembers exactly its inputs, each low |
| Day20.ParseNetwork | day-20/src/main.rs:107-145 | the parse succeeds exactly when every line parses |
| Day20.ParseNetworkWired | day-20/src/main.rs:107-145 | a parsed network is wired, every flip-flop off and every conjunction remembering a low pulse from each input |
| Day20.CascadeWired | day-20/src/main.rs:92-99 | a conjunction only hears from its own inputs, so it keeps remembering exactly them |
| Day20.PushButtonWired | day-20/src/main.rs:147-173 | a press keeps a network wired |
| Day20.Presses | day-20/src/main.rs:49-54 | the low total of n presses is at least n |
| Day20.PressesAdd | day-20/src/main.rs:49-54 | pressing a times then b times is pressing a + b times, with the counts added |
| Day20.PressesCycle | day-20/src/main.rs:49-54 | a network back at its start after n presses counts k times as many pulses in k * n presses |
| Day20.SolveFirst | day-20/src/main.rs:46-56 | a network that does not parse gives that error; otherwise it fails iff the thousand presses do |
| Day20.SolveFirstCycle | day-20/src/main.rs:46-56 | when a parsed network repeats after n presses, n dividing 1000, the answer is (1000/n)·low times (1000/n)·high of those n presses |
| Day20.UntilRx | day-20/src/main.rs:61-64 | the count is below the budget of presses |
| Day20.UntilRxFirst | day-20/src/main.rs:61-64 | the count k means presses 1..k do not reach rx and press k + 1 does |
| Day20.FirstRxUntil | day-20/src/main.rs:61-64 | conversely, when press k + 1 is the first to reach rx and the budget allows it, the count is k |
| Day20.UntilRxNoRx | day-20/src/main.rs:61-64 | without a wire to rx the count never ends |
| Day20.SolveSecond | day-20/src/main.rs:58-66 | an answer k means the parsed network's press k + 1 is the first to reach rx |
| Day23.ReverseCollapses | day-23/src/main.rs:23-31 | as written East and West both reverse to West, so reversing East twice does not give East |
| Day23.OppositeInvolution | day-23/src/main.rs:23-31 | (corrected) the opposite heading is never the heading itself, taken twice gives it back, and negates the step offset |
| Day23.ParsePlot | day-23/src/main.rs:307-321 | exactly the six bytes `.#^>v<` parse, each back to the byte it renders as |
| Day23.ParseRender | day-23/src/main.rs:307-331 | every plot parses back from its rendered byte |
| Day23.NeighborsNoForest | day-23/src/main.rs:62-70 | at most one neighbour per heading, each inside the grid, adjacent and not forest |
| Day23.NeighborsNoForestComplete | day-23/src/main.rs:62-70 | every in-grid non-forest cell one step along a listed heading is a neighbour |
| Day23.Options | day-23/src/main.rs:91-103 | the cells the walk may go on to: adjacent, not forest, not where it came from; on a slope of a directed walk at most one |
| Day23.TraceFrom | day-23/src/main.rs:88-116 | a reached node is inside the grid, not forest, and more steps away than already walked |
| Day23.TraceFromReached | day-23/src/main.rs:88-116 | a reached node ends a corridor walk of exactly that many steps, on a cell with more than one way on |
| Day23.TraceFromBlocked | day-23/src/main.rs:88-116 | a blocked walk ends in a corridor at forest or a dead end |
| Day23.TraceFromStep | day-23/src/main.rs:104-112 | with exactly one way on, the walk moves there and counts one more step |
| Day23.TraceReached | day-23/src/main.rs:72-117 | a reached node was walked to through a corridor starting one step along the heading, at least one step long, never out of a refusing slope, and not onto a slope when directed |
| Day23.TraceBlocked | day-23/src/main.rs:72-117 | no node means the start slope refused the heading, the step left the grid, or the corridor reached forest or a dead end |
| Day23.JunctionsFromSpec | day-23/src/main.rs:236-241 | a position is collected exactly when it is inside the grid, a junction and at or after the start index |
| Day23.NodesSpec | day-23/src/main.rs:236-241 | the nodes are exactly the junctions (non-forest cells with more than two non-forest neighbours), in buffer order |
| Day23.IndexOf | day-23/src/main.rs:254-259 | None exactly when the position is not a node; otherwise its first index |
| Day23.Insert | day-23/src/main.rs:262-267 | inserting into an ordered edge set keeps it ordered and adds exactly the edge |
| Day23.EdgesFromSpec | day-23/src/main.rs:246-261 | the edges of a node succeed exactly when no heading reaches a cell that is not a node, and are exactly the pairs the headings reach |
| Day23.NodeEdgesSpec | day-23/src/main.rs:244-267 | for one node: success iff no heading misses, edges exactly what the four headings yield |
| Day23.CollectSpec | day-23/src/main.rs:244-268 | the map gets an entry exactly for the nodes with at least one edge, holding that node's edges |
| Day23.BuildGraph | day-23/src/main.rs:235-275 | a built graph has the junctions as nodes, the requested directedness and edges that stay inside the node list |
| Day23.BuildGraphFails | day-23/src/main.rs:235-275 | building fails (the `unwrap` in the index lookup) exactly when some trace from a node ends on a cell that is not a node |
| Day23.BuildGraphEdges | day-23/src/main.rs:235-275 | an edge is stored for a node exactly when one of its four traces yields it |
| Day23Paths.FirstOpen | day-23/src/main.rs:124-128 | the first non-forest entry of a row, or None when the whole row is forest |
| Day23Paths.OpenInRow | day-23/src/main.rs:124-128 | the leftmost non-forest cell of row y, or None when the row is all forest |
| Day23Paths.Anchor | day-23/src/main.rs:129-137 | succeeds exactly when the trace reaches a graph node, giving its index and the steps; a trace that runs forever is the Hang error |
| Day23Paths.Endpoints | day-23/src/main.rs:198-233 | succeeds exactly when both rows have an opening and both traces (down from the entrance, back up from the exit) reach graph nodes, giving their indices and step counts |
| Day23Paths.LongestBound | day-23/src/main.rs:290-305 | no complete path (to the target, or into a node with no untaken neighbour) weighs more than the search's answer |
| Day23Paths.LongestWitness | day-23/src/main.rs:290-305 | some complete path weighs exactly the search's answer |
| Day23Paths.LongestOverestimates | day-23/src/main.rs:290-305 | the as-written search never answers less than the corrected one |
| Day23Paths.FixedBound | day-23/src/main.rs:290-305 | (corrected) whenever a simple path to the target exists the search finds one, and none weighs more than its answer |
| Day23Paths.FixedWitness | day-23/src/main.rs:290-305 | (corrected) an answer is the weight of a simple path to the target |
| Day23Paths.DeadEndCounted | day-23/src/main.rs:300-303 | on a three-node graph a dead end of weight 100 gives 100 as written, while the only path to the target weighs 1 and the corrected search gives 1 |
| Day23Paths.RelaxEdge | day-23/src/main.rs:176-182 | relaxing one edge only touches its target, never lowers it, sets it to source plus weight when it moves, and does nothing when the source was reached from that target |
| Day23Paths.RelaxEdges | day-23/src/main.rs:175-183 | relaxing the edges of a source never lowers a distance |
| Day23Paths.RelaxFrom | day-23/src/main.rs:174-184 | one pass over the adjacency map never lowers a distance |
| Day23Paths.Passes | day-23/src/main.rs:172-185 | the passes never lower a distance |
| Day23Paths.PassesSound | day-23/src/main.rs:172-185 | after any number of passes every distance is still the weight of a walk in the graph from one of the origins |
| Day23Paths.Unrelaxed | day-23/src/main.rs:168-169 | as written every node starts at distance 0 with no predecessor |
| Day23Paths.DistancesSound | day-23/src/main.rs:168-185 | as written each final distance is the weight of a walk from some node, not necessarily the start |
| Day23Paths.FromStart | day-23/src/main.rs:168 | (corrected) only the start node starts reached, at distance 0 |
| Day23Paths.DistancesFromSound | day-23/src/main.rs:168-185 | (corrected) each reached distance is the weight of a walk from the start node |
| Day23Paths.StrandedCounted | day-23/src/main.rs:168 | on a graph where a node that the start cannot reach has an edge of weight 100 into the end, the as-written distance is 100; corrected it is 1, the weight of every walk from the start |
| Day23Paths.RelaxLen | day-23/src/main.rs:162-165 | an empty graph gives 0 |
| Day23Paths.BellmanFordLenSound | day-23/src/main.rs:162-187 | an answer is the two end traces plus the weight of a walk into the end node (from the start node when corrected) |
| Day23Paths.SearchLen | day-23/src/main.rs:120-123 | an empty graph gives 0 |
| Day23Paths.LongestPathLenSound | day-23/src/main.rs:120-160 | the answer of part 2 is the two end traces plus the weight of a complete path, and no complete path gives more |
| Day23Paths.LongestPathLenFixedOptimal | day-23/src/main.rs:120-160 | (corrected) fails exactly when no simple path joins the end nodes; otherwise the end traces plus the heaviest simple path |
| Day23Paths.SlopeMazeNodes | day-23/src/main.rs:236-241 | in the slope maze the only junction is (1, 1) |
| Day23Paths.SlopeMazeBuilds | day-23/src/main.rs:235-275 | `Graph::from` on the slope maze gives the one node (1, 1) with no edges |
| Day23Paths.SlopeMazeReverseBlocks | day-23/src/main.rs:83-95 | the walk back from the exit meets the `<` slope, whose as-written reversal points West again, and stops with no node |
| Day23Paths.SlopeMazeOppositeReaches | day-23/src/main.rs:83-95 | with the opposite heading the walk back from the exit climbs the slope and reaches (1, 1) after 8 steps |
| Day23Paths.SlopeMazeReverseEndpoints | day-23/src/main.rs:198-233 | as written the exit cannot be anchored, so the end indices fail (the `unwrap` panics) |
| Day23Paths.SlopeMazeOppositeEndpoints | day-23/src/main.rs:198-233 | corrected both ends anchor at node 0, 1 step down and 8 steps up |
| Day23Paths.SlopeMazeStrandsExit | day-23/src/main.rs:51-54 | part 1 on the slope maze fails as written and answers 9 corrected |

## Left out

Across all days:

- Reading input files, `Lines` and its io errors, and `main!` are left out. Every solver takes the puzzle text as strings or characters.
- The `main!` fixtures read example input files that are not part of this model. These are day 1 (142, 281), day 3 (4361, 467835), day 5 (35, 46), day 6 (288, 71503), day 7 (6440, 5905), day 8 (6), day 9 (114, 2), day 10 (8, 10), day 11 (374, 82000210), day 12 (21, 525152), day 13 (405, 400), day 14 (136, 64), day 15 (1320, 145), day 16 (46, 51), day 18 (62, 952408144115), day 19 (19114, 167409079868000), day 20 (11687500) and day 23 (94, 154). Day 2 evaluates the puzzle's published example games in lemmas, and day 15 the hash example 52.
- Logging (`eprintln!`, `debug_render`, `Debug` and `Display` implementations) only prints and is dropped.
- `#[cached]` memoisation (days 12 and 23) only speeds a function up and is not modelled.
- Text is modelled as characters. Byte-level UTF-8 effects are not modelled: slicing inside a multi-byte character, or hashing a character as its bytes.
- Unless a line below says otherwise, `usize` and `isize` sums and products are unbounded. The program would panic on overflow in a debug build and wrap in a release build.
- Range errors of `usize` and `isize` parsing are not modelled. A number above `usize::MAX`, or outside the `isize` range on day 9, parses to its unbounded value where the program reports a parse error. This covers `from_str_radix` on day 18 (day-18/src/main.rs:128). The `u8` targets are range-checked: Text.ParseByte rejects 256 and above, as the program does for day 2's dice counts (day-02/src/main.rs:69) and day 15's focal lengths (day-15/src/main.rs:39).

Per member:

- Grid.Walk: `Grid::walk` and `Grid::row` are not part of the source files of this model. Walk follows day 10's own `walk` (day-10/src/main.rs:210-218), and Row gives the cells of one row in order, as day 23 uses it.
- Grid.Height: the model requires a positive width wherever the source divides by it. With width 0, `height` and `idx_to_pos` divide by zero.
- Grid.FromBytes: the byte loop runs over an in-memory string instead of a file, and its `byte_count` is unbounded.
- Day01.SumLines: the `usize` sum is unbounded.
- Day01Rev.RunFrom: completeness is proved for the forward automaton only (Day01Complete). Completeness means a spelled word is always recognised, and the first one wins. The backward automaton has per-step soundness, RunNone, and lemmas restating the source's own unit tests.
- Day01.CalibrationSecond: the debug-only cross check `test` (day-01/src/main.rs:281-330) is dropped.
- Day03.SolveFirst: a number still pending when the input ends without a newline is never emitted, as in the source.
- Day04.Score: a shift overflow of `1 << (n - 1)` is modelled as the debug-build panic.
- Day05.MapWords: `from_start + len` (day-05/src/main.rs:141) is an unbounded sum. The `usize` addition would panic in a debug build and wrap in a release build.
- Day05.PairRange: `start + len?` (day-05/src/main.rs:163) is an unbounded sum, as in MapWords.
- Day05.Solve: the remapping loop is given 3·|pending|+1 passes of fuel. Running out stands for the loop that never ends, which only a zero-length map line reaches.
- Day06.WaysAsWritten: the underflow is the debug-build panic. A release build would wrap.
- Day06.RaceWays: the squares and products of `usize` times and records are unbounded.
- Day07.ResolveIsBest: it compares with replacing every joker by one and the same card, not by a different card per joker.
- Day08.FirstHit: fuel bounds the walk. A walker that never reaches a target loops forever in the source, and the model answers `Hang`.
- Day08.Round: the walk of all walkers at once is bounded by fuel in the same way.
- Gcd.Gcd: the crate's binary (Stein) gcd is modelled by Euclid's recurrence. Both compute the same greatest common divisor.
- Day08Input.Solve: the least common multiple equals the first common arrival only under the puzzle's cycle structure. The model proves what the code computes, not that assumption.
- Day08Input.Indices: with repeated heads, the later insertion wins, as in the map the code builds. The lemmas linking nodes to indices assume distinct heads.
- Day09.FindNext: the `isize` differences and sums are unbounded. `isize` overflow is not modelled.
- Day09.FindPrevious: `isize` arithmetic is unbounded, as in FindNext.
- Day10.SolveFirst: part 2 is not modelled. Part 2 is the flood fill that classifies cells left and right of the loop. It panics on unsettled cells, and its result depends on `HashMap` iteration order.
- Day10.Follow: the walk along the loop carries fuel. Running out is reported as `Hang`, which is the source's endless loop.
- Day11.Solve: the total distance is an unbounded sum.
- Day12.QuestionSplits: requires the first group to be non-zero. With a zero group the recursion can count a settlement that has no such run (`#.` with groups `1,0` gives 1). Puzzle inputs have no zero group.
- Day13.SolveFirst: the sum of scores is unbounded.
- Day14.TiltNorth: ragged platforms are not modelled; every row must be as long as the first. On a ragged platform the program panics indexing `next_free_pos` or reads past a short row. The same holds for TiltSouth, Cycle, SolveFirst, SolveSecond and SolveSecondAsWritten.
- Day14.EastLineFits: only the direction "no rock in the first cell, no panic" is proved for every line. That a rock coming to rest there panics is shown on the line `O` (EastLinePanics). TiltEastFits, TiltSouthFits and CycleFits are stated in the same one direction.
- Day14.SolveSecondAsWritten: its contract states the first-cycle panic only. What it answers otherwise is proved on the example platform (SkipAsWritten), not for every platform.
- Day14.EastLine: when a line both underflows and holds a byte that is not a cell, the model may report the other of the two panics.
- Day14.TiltSouth: the scan is modelled column by column. The program scans row-major, which visits each column's cells in the same order, so the result is the same.
- Day15.Hash: the hash runs over characters where the program hashes UTF-8 bytes. The two agree on ASCII.
- Day15.SolveFirst: the `u64` sum and the `usize` focusing power are unbounded.
- Day16.SolveFirst: requires a grid whose first cell exists whenever the grid is non-empty. With width 0, or fewer cells than one row, the program's behaviour depends on the tile under the beam.
- Day18.SolveFirst: the `isize` and `usize` arithmetic of the scan and the sums is unbounded.
- Day19.ParseWorkflow: the program hashes workflow names to `u64` with `DefaultHasher`. The model keeps them as strings, so hash collisions are not modelled.
- Day19Ranges.BreakUp: fuel bounds the number of pops, and running out is reported as `Hang`. The source loops until its stack is empty.
- Day19Ranges.SolveSecond: it states that the boxes are disjoint and hold exactly the accepted combinations. It does not state that the sum of their sizes is the number of those combinations; the counting identity is not proved.
- Day19Run.Score: the rating sums are unbounded.
- Day20.Cascade: the `while let` loop runs as long as pulses keep coming. The model takes at most `fuel` signals and reports `Hang` beyond.
- Day20.UntilRx: `(0..)` presses for ever. The model presses at most `budget` times and reports `Hang` beyond.
- Day20.SolveFirst: the product and the sums are unbounded.
- Day20.ParseNetwork: the program names modules by `calculate_hash` (day-20/src/main.rs:176-180). The model keeps the names as strings, so hash collisions are ignored.
- Day20.SolveSecond: its `eprintln!` (day-20/src/main.rs:63) is dropped.
- Day23.BuildGraph: requires `Rect(g)`, a buffer of whole rows. The source's `Grid` accepts a ragged buffer, whose `height` is `len / width` truncated; the model does not cover those grids.
- Day23Paths.BellmanFordLen: the `eprintln!` logging (day-23/src/main.rs:166, 170, 173, 179) is dropped.
- Day23Paths.BellmanFordLenFixed: soundness is proved, optimality is not. Soundness means every distance is the weight of a walk from the start; optimality would mean it is the longest such walk.
- Day23.TraceFrom: a corridor walk can circle forever, round a ring of slopes or of corridor. The model gives it 4·|cells|+1 steps of fuel and reports `Diverges` beyond.
- Day23Paths.SolveFirst: the step sums are unbounded.

## Findings

| source | as written | input that shows it | evidently intended | confidence | as-written member | corrected member |
|---|---|---|---|---|---|---|
| day-03/src/main.rs:275-285 | the gears of a line are summed only when the newline after the next line arrives, so the gears of the last line are never summed | `1*1\n` gives 0 | the gear of the last line counts, giving 1 | not executed | Day03.SolveSecond, Day03Examples.LastLineGearLost | Day03.SolveSecondFlushed, Day03.BlankLineKeepsFlushed |
| day-04/src/main.rs:24-26 | `filter_ok(..).count()` lets a number of the second list that fails to parse through, and counts it as a match | a card with winning number `5` and the unparsable own number `x` counts `x` as a match and scores 1 | a malformed number is an error in either list | not executed | Day04.CountAsWritten, Day04.MalformedCounted, Day04.MalformedCard | Day04.Matches, Day04.MatchesAgree, Day04.BodyMatchesAgree |
| day-05/src/main.rs:96-103 | a map line of length zero still matches a range that ends at its start and pushes the range back unchanged, so the loop never ends | `seeds: 5 1` then `10 6 0` | a zero-length map line moves nothing | not executed | Day05.ZeroLengthHangs, Day05.ZeroLengthSolve | Day05.ApplyLineFixed, Day05.FixedNeverHangs |
| day-06/src/main.rs:38-44 | when the band is a single hold time that does not win, `ways_to_win` is decremented twice from 1 and underflows | `Time: 3`, `Distance: 2` | a race nobody can win counts 0 ways | not executed | Day06.WaysAsWritten, Day06.TieRacePanics | Day06.Ways, Day06.WaysCounts |
| day-07/src/main.rs:183-191 | part one also goes through `calculate_score`, which writes every jack as 1, so a jack sorts below a two | `J2345 1` and `T2345 2` give 5 | the jack keeps rank 11 in part one, giving 4 | not executed | Day07.JackBelowTen, Day07.JackHandWinnings | Day07.FirstKeyFixed, Day07.FirstKeyOrder |
| day-14/src/main.rs:117-157 | `tilt_south` and `tilt_east` decrement `next_free_pos` without saturating, which underflows after a rock in the last free cell | the platform `O` panics in a cycle | the decrement saturates like the cube-rock case | not executed | Day14.EastLinePanics, Day14.CyclePanics, Day14.SolveSecondPanics | Day14.EastLineFixed, Day14.CycleSpins |
| day-14/src/main.rs:35-43 | the skip counts the cycle just run a second time, so the loop can stop one cycle past the total | platform `#.. / .O. / ##O`: load 3 | a billion cycles, load 4 | not executed | Day14.SpinOvershoots, Day14.SkipAsWritten | Day14.SpinFixed, Day14.SpinFixedIter, Day14.SolveSecond |
| day-23/src/main.rs:29 | `reverse` maps West to West, so the walk back from the exit dead-ends at a `<` slope and the `unwrap` panics | the 6 by 5 slope maze of `Day23Paths.SlopeMaze` | `reverse` of West is East; part 1 gives 9 | not executed | Day23.Reverse, Day23Paths.SlopeMazeReverseBlocks, Day23Paths.SlopeMazeStrandsExit | Day23.Opposite, Day23Paths.SlopeMazeOppositeEndpoints, Day23Paths.SlopeMazeStrandsExit |
| day-23/src/main.rs:300-303 | `unwrap_or(0)` counts a branch that dead-ends as if it reached the target | `DeadEndGraph`: answer 100, while the only path weighs 1 | dead ends are excluded | not executed | Day23Paths.Longest, Day23Paths.DeadEndCounted | Day23Paths.LongestFixed, Day23Paths.FixedBound, Day23Paths.FixedWitness |
| day-23/src/main.rs:168 | every node starts at distance 0, so relaxations from nodes the start never reaches count | `StrandedGraph`: 100, while every walk from the start weighs 1 | only the start at 0, the others unreached | not executed | Day23Paths.Distances, Day23Paths.StrandedCounted | Day23Paths.DistancesFrom, Day23Paths.DistancesFromSound |
